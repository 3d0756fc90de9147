/** `generateHOTP` of `src/components/TOTPCard/utils.ts`: HOTP as section 5
    of RFC 4226 defines it, over a keyed hash given as a parameter. */
module Hotp {
  import opened Wrappers
  import opened Radix
  import opened JsText
  import opened TotpTypes
  import opened Hmac

  /** The counter as 8 bytes, most significant first (section 5.2 of RFC 4226). */
  function CounterMessage(counter: int): (m: seq<Byte>)
    ensures |m| == 8
  {
    ToDigits(counter, 256, 8)
  }

  /** `hash[i]` as the bitwise operators see it: a read outside the digest is
      `undefined`, and `undefined & mask` is 0. */
  function ByteAt(hash: seq<Byte>, i: int): Byte
  {
    if 0 <= i < |hash| then hash[i] else 0
  }

  /** `hash[hash.length - 1] & 0x0f` */
  function TruncationOffset(hash: seq<Byte>): (offset: nat)
    ensures offset <= 15
  {
    ByteAt(hash, |hash| - 1) % 16
  }

  /** Dynamic truncation (section 5.3 of RFC 4226): the four bytes at the
      offset, combined big-endian with `<<` and `|`, the first masked with
      `0x7f` and the others with `0xff`. */
  function DynamicTruncation(hash: seq<Byte>): (binary: nat)
    ensures binary < 0x8000_0000
  {
    var offset := TruncationOffset(hash);
    (ByteAt(hash, offset) % 128) * 0x100_0000 + ByteAt(hash, offset + 1) * 0x1_0000
      + ByteAt(hash, offset + 2) * 0x100 + ByteAt(hash, offset + 3)
  }

  /** `(binary % Math.pow(10, digits)).toString().padStart(digits, '0')` */
  function FormatCode(binary: nat, digits: nat): (code: string)
    ensures digits >= 1 ==> |code| == digits
    ensures digits == 0 ==> code == "0"
    ensures IsDecimal(code)
    ensures Value(DigitValues(code), 10) == binary % Pow(10, digits)
  {
    var n := binary % Pow(10, digits);
    var text := DecimalString(n);
    DecimalStringValue(n);
    if digits >= 1 then
      DecimalStringLength(n, digits);
      PaddedValue(text, digits);
      PadStart(text, digits, '0')
    else
      PadStart(text, digits, '0')
  }

  lemma PaddedValue(text: string, len: nat)
    requires IsDecimal(text)
    ensures IsDecimal(PadStart(text, len, '0'))
    ensures Value(DigitValues(PadStart(text, len, '0')), 10) == Value(DigitValues(text), 10)
  {
    if |text| < len {
      var k := len - |text|;
      assert PadStart(text, len, '0') == seq(k, _ => '0') + text;
      ZeroPadValue(k, text);
    }
  }

  /** The code HOTP gives for a key and counter; `None` when the hash throws. */
  function HotpCode(hmac: HmacFn, key: seq<Byte>, counter: int, digits: nat, algorithm: Algorithm): (code: Option<string>)
    ensures code.Some? <==> hmac(algorithm, key, CounterMessage(counter)).Some?
    ensures code.Some? && digits >= 1 ==> |code.value| == digits && IsDecimal(code.value)
  {
    match hmac(algorithm, key, CounterMessage(counter))
    case None => None
    case Some(hash) => Some(FormatCode(DynamicTruncation(hash), digits))
  }

  /** `generateHOTP`: fills an 8-byte array from the last byte backwards while
      dividing the counter down, hashes it, truncates and formats. */
  method GenerateHOTP(secret: seq<Byte>, counter: int, digits: nat, algorithm: Algorithm, hmac: HmacFn)
    returns (code: Option<string>)
    ensures code == HotpCode(hmac, secret, counter, digits, algorithm)
  {
    var message := CounterBytes(counter);
    match hmac(algorithm, secret, message)
    case None =>
      code := None;
    case Some(hash) =>
      code := Some(FormatCode(DynamicTruncation(hash), digits));
  }

  /** The first part of `generateHOTP`: the counter written into a
      `Uint8Array(8)`, `tmpCounter & 0xff` at each position from the last,
      then `Math.floor(tmpCounter / 256)`. */
  method CounterBytes(counter: int) returns (message: seq<Byte>)
    ensures message == CounterMessage(counter)
  {
    var buffer := new Byte[8];
    var tmpCounter := counter;
    var i := 7;
    while i >= 0
      invariant -1 <= i <= 7
      invariant CounterMessage(counter) == ToDigits(tmpCounter, 256, i + 1) + buffer[i + 1..]
    {
      buffer[i] := tmpCounter % 256;
      tmpCounter := tmpCounter / 256;
      i := i - 1;
    }
    message := buffer[..];
    assert message == CounterMessage(counter);
  }

  // ---------------------------------------------------------------------------
  // Properties

  /** The message's big-endian value is the counter modulo 2^64. */
  lemma CounterMessageValue(counter: int)
    ensures Value(CounterMessage(counter), 256) == counter % 0x1_0000_0000_0000_0000
  {
    assert Pow(256, 8) == 0x1_0000_0000_0000_0000;
    ValueOfDigits(counter, 256, 8);
  }

  /** For a counter that fits in 64 bits the message encodes it exactly, and
      distinct counters give distinct messages. */
  lemma CounterMessageExact(counter: int, other: int)
    requires 0 <= counter < 0x1_0000_0000_0000_0000
    requires 0 <= other < 0x1_0000_0000_0000_0000
    ensures Value(CounterMessage(counter), 256) == counter
    ensures CounterMessage(counter) == CounterMessage(other) ==> counter == other
  {
    CounterMessageValue(counter);
    CounterMessageValue(other);
    DivModUnique(counter, 0x1_0000_0000_0000_0000, 0, counter);
    DivModUnique(other, 0x1_0000_0000_0000_0000, 0, other);
  }

  /** For a digest of at least 20 bytes (every supported hash) the four bytes
      read are inside the digest, and the result is their big-endian value
      with the top bit cleared. */
  lemma TruncationInBounds(hash: seq<Byte>)
    requires |hash| >= 20
    ensures TruncationOffset(hash) + 3 < |hash|
    ensures var o := TruncationOffset(hash);
      DynamicTruncation(hash) == Value(hash[o..o + 4], 256) % 0x8000_0000
  {
    var o := TruncationOffset(hash);
    var w := hash[o..o + 4];
    var b0, b1, b2, b3: int := hash[o], hash[o + 1], hash[o + 2], hash[o + 3];
    assert Value(w[..1], 256) == b0 by {
      assert w[..1][..0] == [];
    }
    assert Value(w[..2], 256) == b0 * 256 + b1 by {
      assert w[..2][..1] == w[..1];
    }
    assert Value(w[..3], 256) == (b0 * 256 + b1) * 256 + b2 by {
      assert w[..3][..2] == w[..2];
    }
    assert Value(w, 256) == ((b0 * 256 + b1) * 256 + b2) * 256 + b3 by {
      assert w[..3] == w[..|w| - 1];
    }
    var low := (b0 % 128) * 0x100_0000 + b1 * 0x1_0000 + b2 * 0x100 + b3;
    assert Value(w, 256) == 0x8000_0000 * (b0 / 128) + low;
    DivModUnique(Value(w, 256), 0x8000_0000, b0 / 128, low);
  }

  /** What a successful HOTP call returns: exactly `digits` decimal
      characters whose value is the truncated digest modulo `10^digits`,
      leading zeros kept. */
  lemma HotpCodeShape(hmac: HmacFn, key: seq<Byte>, counter: int, digits: nat, algorithm: Algorithm)
    requires HonestHmac(hmac) && digits >= 1
    requires hmac(algorithm, key, CounterMessage(counter)).Some?
    ensures var hash := hmac(algorithm, key, CounterMessage(counter)).value;
      var o := TruncationOffset(hash);
      var code := HotpCode(hmac, key, counter, digits, algorithm);
      && |hash| >= 20
      && code.Some? && |code.value| == digits && IsDecimal(code.value)
      && Value(DigitValues(code.value), 10) == Value(hash[o..o + 4], 256) % 0x8000_0000 % Pow(10, digits)
  {
    var hash := hmac(algorithm, key, CounterMessage(counter)).value;
    TruncationInBounds(hash);
  }
}
