/** `POST` of `src/app/api/share/route.ts`: turns a share request into a
    stored secure-link record, or rejects it. The random identifier, the
    clock and the outcome of the database write are parameters. */
module ShareRoute {
  import opened Wrappers
  import opened Json

  // ---------------------------------------------------------------------------
  // Identifiers

  /** The symbol at position `i` of the identifier alphabet: digits, then
      upper-case letters, then lower-case letters. */
  function IdSymbol(i: int): char
    requires 0 <= i < 62
  {
    if i < 10 then ('0' as int + i) as char
    else if i < 36 then ('A' as int + i - 10) as char
    else ('a' as int + i - 36) as char
  }

  /** The alphabet `customAlphabet` draws identifiers from,
      `0123456789ABCDEFGHIJKLMNOPQRSTUVWXYZabcdefghijklmnopqrstuvwxyz`. */
  function IdAlphabet(): (a: string)
    ensures |a| == 62
  {
    seq(62, (i: int) requires 0 <= i < 62 => IdSymbol(i))
  }

  /** Identifiers are 7 symbols long. */
  const IdLength: nat := 7

  predicate IsAlphanumeric(c: char)
  {
    ('0' <= c <= '9') || ('A' <= c <= 'Z') || ('a' <= c <= 'z')
  }

  /** An identifier the generator can produce. */
  predicate IsShareId(id: string)
  {
    |id| == IdLength && forall i :: 0 <= i < |id| ==> id[i] in IdAlphabet()
  }

  // ---------------------------------------------------------------------------
  // Expiry

  const HourMs: int := 3_600_000

  /** The lifetime `expiresIn` selects, in milliseconds: `'1h'`, `'12h'` and
      `'3d'` by name, 24 hours for `'24h'` and for anything else. */
  function ExpiryOffset(expiresIn: JsValue): (ms: int)
    ensures ms > 0 && ms % HourMs == 0 && ms <= 72 * HourMs
  {
    if expiresIn == Str("1h") then HourMs
    else if expiresIn == Str("12h") then 12 * HourMs
    else if expiresIn == Str("3d") then 3 * 24 * HourMs
    else 24 * HourMs
  }

  /** The `switch` on `expiresIn`, which starts from a copy of the request time
      and moves it forward. */
  method ComputeExpiresAt(expiresIn: JsValue, now: int) returns (expiresAt: int)
    ensures expiresAt == now + ExpiryOffset(expiresIn)
    ensures expiresAt > now
  {
    expiresAt := now;
    if expiresIn == Str("1h") {
      expiresAt := now + HourMs;
    } else if expiresIn == Str("12h") {
      expiresAt := now + 12 * HourMs;
    } else if expiresIn == Str("3d") {
      expiresAt := now + 3 * 24 * HourMs;
    } else {
      expiresAt := now + 24 * HourMs;
    }
    ExpiryChoices(expiresIn);
  }

  // ---------------------------------------------------------------------------
  // The handler

  /** The record written to the database. `codes` holds the array as
      received; `expiresAt` is in milliseconds. */
  datatype SecureLink = SecureLink(
    id: string,
    codes: seq<JsValue>,
    period: JsValue,
    startTime: int,
    firstCodeTimestamp: int,
    burnAfterReading: JsValue,
    expiresAt: int)

  datatype ResponseBody = IdBody(id: string) | ErrorBody(error: string)

  /** An HTTP status and a JSON body. */
  datatype Response = Response(status: int, body: ResponseBody)

  /** What a request does: the response sent, and the record stored, if any. */
  datatype Outcome = Outcome(response: Response, stored: Option<SecureLink>)

  /** The `catch` branch: any exception becomes a generic 500 and nothing is stored. */
  const InternalError: Outcome := Outcome(Response(500, ErrorBody("Internal Server Error")), None)

  /** `codes` passes validation: truthy, an array, and not empty. An array
      is always truthy, so the truthiness test decides nothing. */
  predicate ValidCodes(codes: JsValue): (ok: bool)
    ensures ok <==> codes.Arr? && codes.items != []
  {
    Truthy(codes) && codes.Arr? && |codes.items| > 0
  }

  /** `period || 30` */
  function StoredPeriod(period: JsValue): JsValue
  {
    if Truthy(period) then period else Num(30)
  }

  /** `burnAfterReading ?? true` */
  function StoredBurn(burnAfterReading: JsValue): JsValue
  {
    if Nullish(burnAfterReading) then Bool(true) else burnAfterReading
  }

  /** The handler. `body` is `None` when the request is not valid JSON;
      `now` is the request time in milliseconds; `id` is the identifier the
      generator returns; `persisted` says whether the database write
      succeeds. Destructuring a `null` body throws. */
  function Post(body: Option<JsValue>, now: int, id: string, persisted: bool): (out: Outcome)
    requires IsShareId(id)
    ensures out.response.status == 200 || out.response.status == 400 || out.response.status == 500
    ensures out.stored.Some? <==> out.response.status == 200
  {
    if body.None? || Nullish(body.value) then InternalError
    else
      var b := body.value;
      var codes := Get(b, "codes");
      if !ValidCodes(codes) then Outcome(Response(400, ErrorBody("Invalid codes")), None)
      else
        var expiresAt := now + ExpiryOffset(Get(b, "expiresIn"));
        match ToBigInt(Get(b, "startTime"))
        case None => InternalError
        case Some(start) =>
          var link := SecureLink(id, codes.items, StoredPeriod(Get(b, "period")), start, start,
                                 StoredBurn(Get(b, "burnAfterReading")), expiresAt);
          if persisted then Outcome(Response(200, IdBody(link.id)), Some(link)) else InternalError
  }

  // ---------------------------------------------------------------------------
  // Properties

  /** The alphabet is exactly the 62 ASCII letters and digits. */
  lemma IdAlphabetChars(c: char)
    ensures c in IdAlphabet() <==> IsAlphanumeric(c)
  {
    if IsAlphanumeric(c) {
      var i := if c <= '9' then c as int - '0' as int
               else if c <= 'Z' then c as int - 'A' as int + 10
               else c as int - 'a' as int + 36;
      assert IdAlphabet()[i] == c;
    }
    if c in IdAlphabet() {
      var i :| 0 <= i < 62 && IdAlphabet()[i] == c;
      assert IdSymbol(i) == c;
    }
  }

  /** The expiry is one of four lifetimes, each selected by its name only,
      and always in the future. */
  lemma ExpiryChoices(expiresIn: JsValue)
    ensures ExpiryOffset(expiresIn) > 0
    ensures ExpiryOffset(expiresIn) == HourMs <==> expiresIn == Str("1h")
    ensures ExpiryOffset(expiresIn) == 12 * HourMs <==> expiresIn == Str("12h")
    ensures ExpiryOffset(expiresIn) == 72 * HourMs <==> expiresIn == Str("3d")
    ensures ExpiryOffset(expiresIn) == 24 * HourMs
            <==> expiresIn != Str("1h") && expiresIn != Str("12h") && expiresIn != Str("3d")
  {
  }

  /** Every request gets 200, 400 or 500; a record is stored exactly on 200,
      whose body is the record's identifier, and a 500 has the generic body. */
  lemma PostStatuses(body: Option<JsValue>, now: int, id: string, persisted: bool)
    requires IsShareId(id)
    ensures var out := Post(body, now, id, persisted);
      && (out.response.status == 200 || out.response.status == 400 || out.response.status == 500)
      && (out.stored.Some? <==> out.response.status == 200)
      && (out.response.status == 200 ==> out.response.body == IdBody(id) && out.stored.value.id == id)
      && (out.response.status == 500 ==> out.response.body == ErrorBody("Internal Server Error"))
  {
  }

  /** 400 exactly when the body is an object whose `codes` is missing, not an
      array, or empty; nothing is stored then. */
  lemma PostRejectsInvalidCodes(body: Option<JsValue>, now: int, id: string, persisted: bool)
    requires IsShareId(id)
    ensures var out := Post(body, now, id, persisted);
      && (out.response.status == 400
          <==> body.Some? && !Nullish(body.value) && !ValidCodes(Get(body.value, "codes")))
      && (out.response.status == 400
          ==> out.stored.None? && out.response.body == ErrorBody("Invalid codes"))
  {
  }

  /** 500 exactly when the body cannot be parsed or destructured, or, for
      valid codes, when `BigInt(startTime)` throws or the write fails. */
  lemma PostServerError(body: Option<JsValue>, now: int, id: string, persisted: bool)
    requires IsShareId(id)
    ensures Post(body, now, id, persisted).response.status == 500
      <==> || body.None?
           || Nullish(body.value)
           || (ValidCodes(Get(body.value, "codes"))
               && (ToBigInt(Get(body.value, "startTime")).None? || !persisted))
  {
  }

  /** What a stored record holds: the identifier, the codes in the order
      received, both timestamps equal to `BigInt(startTime)`, and an expiry
      in the future by the selected lifetime. */
  lemma PostRecord(body: Option<JsValue>, now: int, id: string, persisted: bool)
    requires IsShareId(id)
    requires Post(body, now, id, persisted).stored.Some?
    ensures var link := Post(body, now, id, persisted).stored.value;
      var b := body.value;
      && IsShareId(link.id) && link.id == id
      && link.codes == Get(b, "codes").items && |link.codes| > 0
      && Some(link.startTime) == ToBigInt(Get(b, "startTime"))
      && link.firstCodeTimestamp == link.startTime
      && link.expiresAt == now + ExpiryOffset(Get(b, "expiresIn"))
      && link.expiresAt > now
  {
    ExpiryChoices(Get(body.value, "expiresIn"));
  }

  /** `period` is stored as sent unless it is falsy, and then it is 30; no
      check against the allowed periods is made. */
  lemma PeriodDefault(period: JsValue)
    ensures Truthy(period) ==> StoredPeriod(period) == period
    ensures StoredPeriod(period) != period ==> !Truthy(period) && StoredPeriod(period) == Num(30)
    ensures Truthy(StoredPeriod(period))
  {
  }

  /** `burnAfterReading` defaults to `true` only when it is `null` or
      missing; an explicit `false` is kept. */
  lemma BurnDefault(burnAfterReading: JsValue)
    ensures StoredBurn(burnAfterReading) != burnAfterReading <==> Nullish(burnAfterReading)
    ensures Nullish(burnAfterReading) ==> StoredBurn(burnAfterReading) == Bool(true)
    ensures StoredBurn(Bool(false)) == Bool(false)
  {
  }
}
