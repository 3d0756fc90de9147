# OTP Share, modelled in Dafny

OTP Share is a web page that shows the time-based one-time passwords (TOTP,
RFC 6238) of a Base32 secret. It can also share a *secure link*: it
precomputes the codes for a chosen lifetime and stores them on the server
under a short random identifier, so the secret never leaves the browser.

This project models the logic of that application and proves what it
promises. The modules are:

- `Base32` reads the secret. The `base32Decode` of
  `src/components/TOTPCard/utils.ts` is modelled as an imperative method
  proved against a specification function. A reference encoder (section 6
  of RFC 4648) gives it a round trip.
- `Hotp` is `generateHOTP`: the 8-byte big-endian counter, written from the
  last byte backwards into an array, then dynamic truncation and
  zero-padding (section 5 of RFC 4226). The keyed hash is a parameter.
- `CodeBatch` is `calculateCodes`: one code per time step from a window
  start, with the counter `floor(t / period)` of section 4.2 of RFC 6238. A
  step whose hash throws is skipped.
- `TotpTypes` holds the closed enumerations of `types.ts`.
- `Json` holds the JSON values a request handler receives, and the
  JavaScript conversions the server applies to them: truthiness,
  `String(v)` and `BigInt(v)`.
- `ShareRoute` is the `POST /api/share` handler of
  `src/app/api/share/route.ts`. It validates the codes, computes the expiry,
  applies the defaults for `period` and `burnAfterReading`, and builds the
  stored record or the error response.
- `SharePanel` is the share panel of `SharePanel.tsx`. Its `step`, its
  configuration, its link and its busy flag form a class. The module also
  holds the request that `handleCreateSecureLink` builds. End-to-end lemmas
  feed that request to `ShareRoute`.
- `CardUrl` covers the parameter handling of
  `src/components/TOTPCard/index.tsx`: reading the query string, writing it
  back as a clean URL, the dirty and error flags of the input, and the
  `otpauth://` URI.
- `TotpHook` is the countdown state of `src/hooks/useTOTP.ts`. It is a
  class whose fields are the token, the seconds left, the progress and the
  valid flag.
- `JsText` and `Radix` model the JavaScript string and number built-ins the
  code relies on: `/\s/`, `toUpperCase`, `trim`, `parseInt`, `toString`,
  `padStart`, and numbers as digit sequences.

The keyed hash, the clock, the random identifier, the database write and
the server's reply are not computed by the model. Each is a parameter of
the operation that uses it.

## Model

| member | source | states |
|---|---|---|
| Base32.Base32Decode | src/components/TOTPCard/utils.ts:4-21 | the imperative decoder returns exactly `Decoded(input)` |
| Base32.CollectBits | src/components/TOTPCard/utils.ts:6-13 | the symbol loop's bit string is the 5-bit big-endian values of the symbols before the first `=`, in order |
| Base32.PackBits | src/components/TOTPCard/utils.ts:15-18 | the byte loop reads consecutive 8-bit groups and drops a trailing partial group |
| Base32.Decoded | src/components/TOTPCard/utils.ts:4-21 | the output has exactly `floor(5*n/8)` bytes, where `n` is the number of alphabet symbols read |
| Base32.Symbols | src/components/TOTPCard/utils.ts:8-11 | at most one symbol per input character |
| Base32.SymbolValueIsIndexOf | src/components/TOTPCard/utils.ts:10-11 | a character has value -1 iff it is outside the alphabet; otherwise its value is its index in the alphabet |
| Base32.SymbolValueOfAlphabet | src/components/TOTPCard/utils.ts:5 | each alphabet symbol reads back as its own index |
| Base32.SymbolsCons | src/components/TOTPCard/utils.ts:8-12 | one character: `=` ends the read, an unknown character is skipped, a symbol is appended |
| Base32.SymbolsStopAtPad | src/components/TOTPCard/utils.ts:9 | nothing after the first `=` is read |
| Base32.DecodeStopsAtPad | src/components/TOTPCard/utils.ts:9 | `decode(p + "=" + q) == decode(p)` |
| Base32.SymbolsIgnoreWhitespace | src/components/TOTPCard/utils.ts:8-11 | removing whitespace before upper-casing leaves the symbols read unchanged |
| Base32.DecodeIgnoresWhitespace | src/components/TOTPCard/utils.ts:8-11 | whitespace anywhere in the input does not change the bytes |
| Base32.CleanedSecretDecodes | src/components/TOTPCard/utils.ts:57-58 | `calculateCodes`'s whitespace removal and upper-casing before decoding change nothing |
| Base32.DecodeCanonical | src/components/TOTPCard/utils.ts:8-11 | decoding is case-insensitive and skips unknown characters: the input decodes like the string of its alphabet symbols before the first `=` |
| Base32.DecodedByte | src/components/TOTPCard/utils.ts:16-17 | byte `k` of the output is bits `8k..8k+8` of the symbols' bit string, read big-endian |
| Base32.PackBytesAt | src/components/TOTPCard/utils.ts:16-17 | byte `k` of a packed bit string is its `k`-th 8-bit group |
| Base32.DecodeEncode | src/components/TOTPCard/utils.ts:4-21 | decoding the RFC 4648 Base32 encoding of any byte string returns that byte string |
| Base32.BitsOfGroups5 | src/components/TOTPCard/utils.ts:12 | cutting a bit string into 5-bit symbols and writing each back as 5 bits returns the bit string |
| Base32.PackBytesOfBytesBits | src/components/TOTPCard/utils.ts:15-18 | packing the bits of a byte string, plus fewer than 8 extra bits, returns the byte string |
| Base32.ByteBitsValue | src/components/TOTPCard/utils.ts:17 | `parseInt` in base 2 of a byte's 8 bits is the byte |
| Hotp.GenerateHOTP | src/components/TOTPCard/utils.ts:23-47 | the method returns the HOTP code of the key and counter, or `None` when the hash throws |
| Hotp.HotpCode | src/components/TOTPCard/utils.ts:32-46 | there is a code exactly when the hash does not throw, and then it has `digits` decimal characters |
| Hotp.CounterBytes | src/components/TOTPCard/utils.ts:25-30 | the array filled from the last byte backwards is the counter's 8-byte big-endian message |
| Hotp.CounterMessage | src/components/TOTPCard/utils.ts:25 | the message is 8 bytes long |
| Hotp.CounterMessageValue | src/components/TOTPCard/utils.ts:25-30 | the message's big-endian value is the counter modulo 2^64 |
| Hotp.CounterMessageExact | src/components/TOTPCard/utils.ts:25-30 | for `0 <= counter < 2^64` the message's value is the counter, and distinct counters give distinct messages |
| Hotp.TruncationOffset | src/components/TOTPCard/utils.ts:38 | the offset lies in `[0, 15]` |
| Hotp.DynamicTruncation | src/components/TOTPCard/utils.ts:39-43 | the combined value has its top bit cleared, so it is below 2^31 |
| Hotp.TruncationInBounds | src/components/TOTPCard/utils.ts:38-43 | for a digest of at least 20 bytes, `offset+3` is inside it and the result is the 4 bytes' big-endian value modulo 2^31 |
| Hotp.FormatCode | src/components/TOTPCard/utils.ts:44-46 | exactly `digits` characters, all decimal, whose value is the input modulo `10^digits`, leading zeros kept |
| Hotp.PaddedValue | src/components/TOTPCard/utils.ts:46 | zero-padding a decimal keeps it decimal and keeps its value |
| Hotp.HotpCodeShape | src/components/TOTPCard/utils.ts:23-47 | with a hash of the right digest size, the code has `digits` decimal characters and is the truncated value modulo `10^digits` |
| CodeBatch.CalculateCodes | src/components/TOTPCard/utils.ts:49-76 | the loop returns exactly `Batch(...)`: the codes of the steps that succeeded, in step order |
| CodeBatch.GenerateStep | src/components/TOTPCard/utils.ts:63-67 | one pass of the loop gives the HOTP code of `floor((start + i*period) / period)` |
| CodeBatch.Batch | src/components/TOTPCard/utils.ts:49-76 | the batch never has more codes than steps |
| CodeBatch.Counter | src/components/TOTPCard/utils.ts:64 | `Math.floor(t / period)`: the counter's step starts at or before `t` and ends after it |
| CodeBatch.BatchCount | src/components/TOTPCard/utils.ts:59 | `Math.ceil(hours*3600 / period)`; its covering property is `BatchCountCovers` |
| CodeBatch.SecretKey | src/components/TOTPCard/utils.ts:57-58 | the key `calculateCodes` decodes; `SecretKeyIsDecoded` proves it is the raw secret's key |
| CodeBatch.AttemptsSnoc | src/components/TOTPCard/utils.ts:62 | one more pass appends that step's outcome |
| CodeBatch.BatchCountCovers | src/components/TOTPCard/utils.ts:59 | `count = ceil(hours*3600/period)`: the steps cover the whole duration, with no step to spare |
| CodeBatch.StepCodeOf | src/components/TOTPCard/utils.ts:63-67 | step `i`'s outcome is the HOTP code of the counter of its timestamp |
| CodeBatch.SuccessesSnoc | src/components/TOTPCard/utils.ts:66-71 | a step adds its code at the end if it has one, and adds nothing if it failed |
| CodeBatch.SuccessesAppend | src/components/TOTPCard/utils.ts:62-72 | skipping failures keeps order across any split of the steps |
| CodeBatch.SuccessesLength | src/components/TOTPCard/utils.ts:62-72 | at most `count` codes, and exactly `count` iff no step failed |
| CodeBatch.SuccessesAllSome | src/components/TOTPCard/utils.ts:62-72 | when no step failed, code `i` is step `i`'s code |
| CodeBatch.StepCodeSucceeds | src/components/TOTPCard/utils.ts:66-68 | a hash that never throws gives every step a code |
| CodeBatch.BatchComplete | src/components/TOTPCard/utils.ts:57-72 | with a hash that never throws, the batch has `count` codes and `codes[i]` is the code of counter `floor((start+i*period)/period)` |
| CodeBatch.AlignedCounters | src/components/TOTPCard/utils.ts:63-64 | when `start` is a multiple of `period`, the counters are `start/period + i` |
| CodeBatch.StepCounter | src/components/TOTPCard/utils.ts:63-64 | every second of step `i` falls on that step's counter |
| CodeBatch.BatchMatchesClock | src/components/TOTPCard/utils.ts:57-72 | every second of step `i`, a clock-driven TOTP display shows the batch's code `i` |
| CodeBatch.SecretKeyIsDecoded | src/components/TOTPCard/utils.ts:57-58 | the key is the Base32 decoding of the secret as typed |
| TotpTypes.AllowedValues | src/components/TOTPCard/types.ts:2-4 | the digits are exactly {6, 8}, the periods exactly {15, 30, 60}, and each algorithm appears exactly once |
| TotpTypes.PeriodDividesHour | src/components/TOTPCard/types.ts:3 | every allowed period is positive and divides 3600 |
| TotpTypes.AlgorithmFromName | src/components/TOTPCard/types.ts:4 | a name is accepted iff it is an allowed algorithm's name, and then it is that algorithm |
| TotpTypes.AlgorithmNameInjective | src/components/TOTPCard/types.ts:4 | distinct algorithms have distinct names |
| JsText.RemoveWhitespace | src/components/TOTPCard/utils.ts:57 | `replace(/\s/g, '')` leaves no whitespace and leaves a whitespace-free string unchanged |
| JsText.RemoveWhitespaceAppend | src/components/TOTPCard/utils.ts:57 | whitespace removal distributes over concatenation |
| JsText.Upper | src/components/TOTPCard/utils.ts:8 | `toUpperCase` keeps the length, leaves no lower-case letter, and leaves other text unchanged |
| JsText.UpperAppend | src/components/TOTPCard/utils.ts:8 | upper-casing distributes over concatenation |
| JsText.UpperIdempotent | src/components/TOTPCard/utils.ts:57 | upper-casing twice is upper-casing once |
| JsText.Trim | src/components/TOTPCard/index.tsx:28 | `trim` leaves neither end whitespace and leaves a whitespace-free string unchanged |
| JsText.TrimStartDropsWhitespace | src/components/TOTPCard/index.tsx:28 | trimming the start drops exactly a leading run of whitespace |
| JsText.TrimEnd | src/components/TOTPCard/index.tsx:28 | trimming the end keeps a prefix and drops only whitespace |
| JsText.TrimUnchanged | src/components/TOTPCard/index.tsx:28 | a string with non-whitespace at both ends is its own trim |
| JsText.DecimalString | src/components/TOTPCard/utils.ts:46 | `toString()` of a number is a non-empty decimal with no leading zero |
| JsText.DecimalStringValue | src/components/TOTPCard/utils.ts:46 | the decimal text's digits denote the number |
| JsText.DecimalStringLength | src/components/TOTPCard/utils.ts:44-46 | a number below `10^d` has at most `d` decimal digits |
| JsText.PadStart | src/components/TOTPCard/utils.ts:46 | `padStart` gives the longer of the two lengths: fill characters, then the string |
| JsText.ZeroPadValue | src/components/TOTPCard/utils.ts:46 | leading zeros do not change a decimal's value |
| JsText.DigitRunLength | src/components/TOTPCard/index.tsx:32-33 | the length of the leading run of digits of the radix |
| JsText.ParseInt | src/components/TOTPCard/index.tsx:32-33 | `parseInt` with no radix; `ParseIntDecimal` proves it reads back every number's decimal text |
| JsText.ParseIntDecimal | src/components/TOTPCard/index.tsx:32-33 | `parseInt` of a number's decimal text gives the number back |
| JsText.DecimalRun | src/components/TOTPCard/index.tsx:32-33 | a decimal string is one whole run of digits |
| Radix.ValueOfDigits | src/components/TOTPCard/utils.ts:27-30 | the big-endian digits of a value, `width` of them, denote the value modulo `base^width` |
| Radix.DigitsOfValue | src/components/TOTPCard/utils.ts:12 | writing a digit sequence's value back with as many digits returns the sequence |
| Json.WholeDigits | src/app/api/share/route.ts:40 | a string is accepted as digits iff it is non-empty and every character is a digit of the radix |
| Json.ToBigInt | src/app/api/share/route.ts:40 | `BigInt(v)`: booleans and numbers always convert, `null` and `undefined` never do |
| Json.RadixPrefix | src/app/api/share/route.ts:40 | the base is 16, 8 or 2 exactly when the text starts with `0x`, `0o` or `0b` (either case), and 0 otherwise |
| Json.BigIntOfIntText | src/app/api/share/route.ts:40 | `BigInt(String(n)) == n` for every integer |
| Json.PlainDigits | src/app/api/share/route.ts:40 | an unsigned decimal with no leading zero converts to its value |
| Json.MinusDigits | src/app/api/share/route.ts:40 | a minus sign in front of a decimal negates it |
| Json.DecimalDigits | src/app/api/share/route.ts:40 | a number's decimal text is a whole run of digits denoting it |
| Json.ToBigIntOfNumber | src/app/api/share/route.ts:40 | a number, and the text of any integer, convert to that integer |
| Json.ToBigIntNullish | src/app/api/share/route.ts:40 | among non-strings that are not arrays or objects, `BigInt` throws exactly on `null` and `undefined` |
| Json.ToBigIntObject | src/app/api/share/route.ts:40 | a plain object never converts, so `BigInt` throws |
| ShareRoute.IdAlphabet | src/app/api/share/route.ts:31 | the identifier alphabet has 62 symbols |
| ShareRoute.IdAlphabetChars | src/app/api/share/route.ts:31-32 | the alphabet is exactly the ASCII digits and letters |
| ShareRoute.Post | src/app/api/share/route.ts:6-53 | every request gets 200, 400 or 500, and a record is stored exactly on 200 |
| ShareRoute.ValidCodes | src/app/api/share/route.ts:12 | validation passes exactly for a non-empty array; the truthiness test decides nothing |
| ShareRoute.ExpiryOffset | src/app/api/share/route.ts:21-28 | every lifetime is a positive whole number of hours, at most three days |
| ShareRoute.ComputeExpiresAt | src/app/api/share/route.ts:17-28 | the `switch` moves the expiry forward by the selected lifetime, so it is always strictly after `now` |
| ShareRoute.ExpiryChoices | src/app/api/share/route.ts:21-28 | the offset is 1 h, 12 h or 3 days exactly for `'1h'`, `'12h'` and `'3d'`, and 24 h exactly for every other value |
| ShareRoute.PostStatuses | src/app/api/share/route.ts:6-53 | every request gets 200, 400 or 500; a record is stored exactly on 200, whose body is the identifier; a 500 has the generic body |
| ShareRoute.PostRejectsInvalidCodes | src/app/api/share/route.ts:12-14 | 400 exactly when `codes` is missing, not an array or empty; nothing is stored and the body is `Invalid codes` |
| ShareRoute.PostServerError | src/app/api/share/route.ts:8-9 | 500 exactly when the body is not parsed or is nullish, or, for valid codes, `BigInt(startTime)` throws or the write fails |
| ShareRoute.PostRecord | src/app/api/share/route.ts:35-45 | the record has the identifier, the codes in the order received, `BigInt(startTime)` as both timestamps, and an expiry after `now` |
| ShareRoute.PeriodDefault | src/app/api/share/route.ts:39 | `period` is stored as sent unless falsy, and is then 30; the stored period is never falsy |
| ShareRoute.BurnDefault | src/app/api/share/route.ts:42 | `burnAfterReading` becomes `true` exactly when it is `null` or missing; an explicit `false` is kept |
| SharePanel.SharePanelState.constructor | src/components/TOTPCard/panels/SharePanel.tsx:13-17 | the panel starts on the menu, with burn-after-reading on, a 1 h lifetime, no link, and not busy |
| SharePanel.SharePanelState.OpenWarning | src/components/TOTPCard/panels/SharePanel.tsx:138 | menu to warning; nothing else changes |
| SharePanel.SharePanelState.AcceptWarning | src/components/TOTPCard/panels/SharePanel.tsx:168 | warning to config; nothing else changes |
| SharePanel.SharePanelState.DeclineWarning | src/components/TOTPCard/panels/SharePanel.tsx:174 | warning to menu; nothing else changes |
| SharePanel.SharePanelState.BackToWarning | src/components/TOTPCard/panels/SharePanel.tsx:189 | config to warning; nothing else changes |
| SharePanel.SharePanelState.CreateAnother | src/components/TOTPCard/panels/SharePanel.tsx:270 | result to config, keeping the last link |
| SharePanel.SharePanelState.ChooseLifetime | src/components/TOTPCard/panels/SharePanel.tsx:200-203 | sets only the lifetime, to one of the three offered |
| SharePanel.SharePanelState.ToggleOneTime | src/components/TOTPCard/panels/SharePanel.tsx:221 | flips only the burn-after-reading flag |
| SharePanel.SharePanelState.BeginCreateSecureLink | src/components/TOTPCard/panels/SharePanel.tsx:29-51 | marks the panel busy and builds the request from the batch for the lifetime's hours, starting at the aligned window start |
| SharePanel.SharePanelState.FinishCreateSecureLink | src/components/TOTPCard/panels/SharePanel.tsx:53-65 | only an ok reply moves to the result screen with `origin/view/id`; a failure leaves the step and the link as they were; the panel is no longer busy either way |
| SharePanel.HoursFor | src/components/TOTPCard/panels/SharePanel.tsx:33-34 | the hours are always 1, 12 or 24 |
| SharePanel.AlignToPeriod | src/components/TOTPCard/panels/SharePanel.tsx:36-37 | the window start is at most `now` and less than one period before it |
| SharePanel.RequestedCodes | src/components/TOTPCard/panels/SharePanel.tsx:33-39 | the panel asks for at most one code per step of the lifetime |
| SharePanel.RequestBody | src/components/TOTPCard/panels/SharePanel.tsx:44-50 | the five request fields; `RequestStored` proves the server stores them as sent |
| SharePanel.LinkFor | src/components/TOTPCard/panels/SharePanel.tsx:56 | the link starts with the origin and ends with the identifier, six characters (`/view/`) apart, so the identifier can be read back |
| SharePanel.HoursChoices | src/components/TOTPCard/panels/SharePanel.tsx:33-34 | 1, 12 and 24 hours for the three offered classes, and 1 hour for anything else, `'3d'` included |
| SharePanel.AlignToPeriodBounds | src/components/TOTPCard/panels/SharePanel.tsx:36-37 | the window start is a multiple of the period, at most `now`, and less than one period before it |
| SharePanel.BatchSize | src/components/TOTPCard/panels/SharePanel.tsx:33-39 | the batch has exactly `hours*3600/period` codes, 120 for 1 h at 30 s |
| SharePanel.RequestStored | src/components/TOTPCard/panels/SharePanel.tsx:41-51 | the server stores the panel's request as sent: the codes in order, the period, the start as both timestamps, the burn flag, and an expiry of the chosen number of hours |
| SharePanel.SecureLinkIssued | src/components/TOTPCard/panels/SharePanel.tsx:29-58 | end to end, the codes times the period is exactly the time the server keeps the link |
| CardUrl.ReadNeedsSecret | src/components/TOTPCard/index.tsx:24-28 | parameters are read only when `secret` is non-empty, and the secret is trimmed |
| CardUrl.ReadAlgorithmWhitelist | src/components/TOTPCard/index.tsx:31-37 | the algorithm is the upper-cased value when that names an allowed algorithm, and SHA1 otherwise |
| CardUrl.ReadNumbersWhitelist | src/components/TOTPCard/index.tsx:32-41 | non-default digits and periods are read only when the value parses to that allowed number |
| CardUrl.SearchParams.constructor | src/components/TOTPCard/index.tsx:50 | the parameters start as the page's query |
| CardUrl.SearchParams.Set | src/components/TOTPCard/index.tsx:54 | `set` replaces one key's value and leaves the rest |
| CardUrl.SearchParams.Delete | src/components/TOTPCard/index.tsx:60 | `delete` removes one key and leaves the rest |
| CardUrl.SyncUrl | src/components/TOTPCard/index.tsx:53-80 | the sequence of `set` and `delete` calls leaves exactly `WrittenQuery` |
| CardUrl.ReadUrl | src/components/TOTPCard/index.tsx:21-45 | the mount effect's reading; `ReadNeedsSecret` and the whitelist lemmas state its cases |
| CardUrl.WrittenQuery | src/components/TOTPCard/index.tsx:53-80 | the query the sync effect leaves; `WriteCleanUrl`, `WriteClearsCardKeys` and `WriteKeepsOtherKeys` state it |
| CardUrl.WriteKeepsOtherKeys | src/components/TOTPCard/index.tsx:53-80 | keys the card does not own are untouched |
| CardUrl.WriteCleanUrl | src/components/TOTPCard/index.tsx:53-73 | the secret is written without whitespace, and each parameter is present exactly when it differs from its default |
| CardUrl.WriteClearsCardKeys | src/components/TOTPCard/index.tsx:74-80 | an empty secret removes exactly the four card keys |
| CardUrl.ReadWrittenUrl | src/components/TOTPCard/index.tsx:21-84 | reading back a written URL restores the parameters and the whitespace-free secret |
| CardUrl.ReadCleanQuery | src/components/TOTPCard/index.tsx:24-42 | a query laid out as the writer lays it out reads as that state |
| CardUrl.ReadBackAlgorithm | src/components/TOTPCard/index.tsx:31-37 | a written algorithm name, or its absence, reads back as the algorithm |
| CardUrl.ReadBackNumber | src/components/TOTPCard/index.tsx:32-41 | a written number, or its absence for the default, parses back to itself |
| CardUrl.DefaultTexts | src/components/TOTPCard/index.tsx:32-33 | the fallbacks `'6'` and `'30'` are the defaults' texts |
| CardUrl.CleanSecretFullyRead | src/components/TOTPCard/index.tsx:90 | a secret in the accepted class is not dirty, and every non-whitespace character is a symbol the decoder reads |
| CardUrl.IsDirty | src/components/TOTPCard/index.tsx:90 | `isDirty`; `ErrorCases` and `CleanSecretFullyRead` state its consequences |
| CardUrl.IsError | src/components/TOTPCard/index.tsx:91 | `isError`; `ErrorCases` states its cases |
| CardUrl.OtpUri | src/components/TOTPCard/index.tsx:94 | the `otpauth://` URI; `OtpUriCarriesKey` states what it carries |
| CardUrl.ErrorCases | src/components/TOTPCard/index.tsx:90-91 | an empty secret is never an error, a dirty one always is, and a clean one is an error iff it gives no code and has at least 8 characters |
| CardUrl.OtpUriCarriesKey | src/components/TOTPCard/index.tsx:94 | the URI carries the whitespace-free secret, which decodes to the same key as the secret typed, followed by exactly the issuer, algorithm, digits and period parameters |
| TotpHook.TotpDisplay.constructor | src/hooks/useTOTP.ts:12-15 | the display starts with token `------`, no countdown and not valid |
| TotpHook.TotpDisplay.Reset | src/hooks/useTOTP.ts:22-31 | an empty secret clears the display to `------`, zero progress and time, not valid |
| TotpHook.TotpDisplay.Update | src/hooks/useTOTP.ts:48-66 | a generated code sets the token, the valid flag, `period - epoch mod period` and its percentage; a failure only clears the valid flag |
| TotpHook.TotpDisplay.Refresh | src/hooks/useTOTP.ts:17-77 | an empty normalised secret resets the display; otherwise the first tick runs |
| TotpHook.NormalizeSecret | src/hooks/useTOTP.ts:19 | the normalised secret has no whitespace and no lower-case letter |
| TotpHook.Remaining | src/hooks/useTOTP.ts:56-58 | the countdown is always between 1 and the period |
| TotpHook.NormalizeSecretClean | src/hooks/useTOTP.ts:19 | the normalised secret has no whitespace and no lower-case letter, is empty iff the secret is blank, is idempotent, and decodes like the secret |
| TotpHook.UpperKeepsWhitespaceFree | src/hooks/useTOTP.ts:19 | upper-casing keeps a string whitespace-free |
| TotpHook.RemainingBounds | src/hooks/useTOTP.ts:56-58 | the countdown is in `[1, period]`, is the full period exactly on a step boundary, and runs out exactly when the TOTP counter moves on |
| TotpHook.ProgressRange | src/hooks/useTOTP.ts:61 | the progress is in `(0, 100]` |

## Left out

- The keyed hash (`createHmac`) is not modelled. It is a function parameter that returns a digest or `None` when it throws. Digest sizes (20, 32 or 64 bytes) are a predicate that the lemmas needing them require.
- The otplib generator built in `useTOTP.ts` is a foreign library. Its result for the current moment is an input to `TotpHook.TotpDisplay.Update`. A failure to build the generator is folded into a failed generation, which has the same effect: only `isValid` is cleared.
- `setInterval`, `clearInterval`, React effects and state setters are left out. Each tick is one call of `Update`, and `Date.now()` is a parameter that is never negative.
- ShareRoute.ComputeExpiresAt: local-time calendar arithmetic (`setHours`, `setDate`) is modelled as fixed offsets in milliseconds, so days with a daylight-saving change are not captured.
- TotpHook.TotpDisplay.Update: `progress` is an exact real rather than a floating-point number.
- Json: JSON numbers are integers. Fractional numbers, and `BigInt` of a fractional number, are not modelled.
- Json.IntText: `String(n)` is always plain decimal. JavaScript writes numbers of magnitude at least 1e21 in exponent form, which `BigInt` then rejects; for an array element that large the source answers 500 where the model converts it.
- The request body is parsed outside the model. `request.json()` is given as an optional JSON value.
- `JSON.stringify` of the codes is not modelled. The record keeps the array as received.
- The database write is a `persisted` flag. Schema type checks of the stored fields are not modelled.
- `nanoid` randomness is not modelled. The identifier is a parameter that satisfies `IsShareId`.
- JsText.Upper: `toUpperCase` is modelled for ASCII letters only; other letters are kept. JavaScript maps some non-ASCII letters onto Base32 symbols (`ı` to `I`, `ſ` to `S`, `ß` to `SS`, `ﬀ` to `FF`), so for a secret containing them `base32Decode` and `calculateCodes` read symbols that `Base32.Decoded` skips. Such secrets are always flagged by `isDirty`.
- CardUrl: `URLSearchParams` holds one value per name, with no order and no percent-encoding. `window.history.replaceState` and `URL` parsing are not modelled.
- JsText.ParseInt: the result is an exact integer. The rounding of digit runs beyond 2^53 to a floating-point number is not modelled.
- SharePanel.HoursFor: the `hoursMap` lookup ignores inherited property names such as `"constructor"`. The panel only ever sends its three offered classes.
- `fetch`, `alert`, the clipboard, `console`, timers and rendering are left out. `fetch` and reading the reply are one optional reply given to `FinishCreateSecureLink`.
- SharePanel.SharePanelState.FinishCreateSecureLink: it accepts the reply in any step, because the request is asynchronous and the user can press Back while it runs.
- CardUrl.ReadWrittenUrl: a secret made only of whitespace is written as an empty `secret` and is not read back, so the lemma requires a secret with a non-whitespace character.
- The link-resolution route, `src/app/api/share/[id]/route.ts`, is not part of this model. That covers its expiry check, burn-after-reading and slicing of the stored batch.
- The components that only render are not part of this model: `TokenDisplay`, `ActionBar`, `Overlay`, `QRPanel`, `SettingsPanel`, `InputSection` and the page itself.
