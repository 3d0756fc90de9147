/** The parameter handling of `src/components/TOTPCard/index.tsx`: reading
    the card's state from the page's query string, writing it back as a
    clean URL, flagging a bad secret, and the `otpauth://` URI for the QR
    code. A query string is a map from names to (decoded) values. */
module CardUrl {
  import opened Wrappers
  import opened JsText
  import opened TotpTypes
  import opened Base32

  type Query = map<string, string>

  /** The card's secret and code parameters. */
  datatype CardState = CardState(secret: string, params: TOTPParams)

  /** The query keys the card owns. */
  const CardKeys: set<string> := {"secret", "algorithm", "digits", "period"}

  // ---------------------------------------------------------------------------
  // Reading

  /** `searchParams.get(key) || fallback`: a missing or empty value gives the fallback. */
  function GetOr(q: Query, key: string, fallback: string): string
  {
    if key in q && q[key] != "" then q[key] else fallback
  }

  /** `searchParams.get('algorithm')?.toUpperCase()`, kept only when it names
      an allowed algorithm, else SHA1. */
  function ReadAlgorithm(q: Query): Algorithm
  {
    if "algorithm" !in q then SHA1
    else
      match AlgorithmFromName(Upper(q["algorithm"]))
      case Some(a) => a
      case None => SHA1
  }

  /** `parseInt(searchParams.get('digits') || '6')`, kept when it is an allowed length, else 6. */
  function ReadDigits(q: Query): Digits
  {
    var n := ParseInt(GetOr(q, "digits", "6"));
    if n.Some? && n.value in AllowedDigits then n.value else 6
  }

  /** `parseInt(searchParams.get('period') || '30')`, kept when it is an allowed period, else 30. */
  function ReadPeriod(q: Query): Period
  {
    var n := ParseInt(GetOr(q, "period", "30"));
    if n.Some? && n.value in AllowedPeriods then n.value else 30
  }

  /** The effect run when the card mounts: with a non-empty `secret` in the
      query, the trimmed secret and the whitelisted parameters; otherwise
      nothing (`None`), and the card keeps its initial state. */
  function ReadUrl(q: Query): Option<CardState>
  {
    if "secret" in q && q["secret"] != "" then
      Some(CardState(Trim(q["secret"]), TOTPParams(ReadDigits(q), ReadPeriod(q), ReadAlgorithm(q))))
    else None
  }

  // ---------------------------------------------------------------------------
  // Writing

  /** The query the syncing effect leaves: with a secret, the secret without
      whitespace and each parameter that differs from its default, the
      others removed; with an empty secret, none of the card's keys. Keys
      the card does not own are kept. */
  function WrittenQuery(q: Query, secret: string, params: TOTPParams): Query
  {
    if secret != "" then
      var q1 := q["secret" := RemoveWhitespace(secret)];
      var q2 := if params.algorithm != SHA1 then q1["algorithm" := AlgorithmName(params.algorithm)]
                else q1 - {"algorithm"};
      var q3 := if params.digits != 6 then q2["digits" := DecimalString(params.digits)]
                else q2 - {"digits"};
      if params.period != 30 then q3["period" := DecimalString(params.period)] else q3 - {"period"}
    else
      q - CardKeys
  }

  /** `url.searchParams`, updated in place. A name holds one value here. */
  class SearchParams {
    var entries: Query

    constructor(q: Query)
      ensures entries == q
    {
      entries := q;
    }

    method Set(key: string, value: string)
      modifies this
      ensures entries == old(entries)[key := value]
    {
      entries := entries[key := value];
    }

    method Delete(key: string)
      modifies this
      ensures entries == old(entries) - {key}
    {
      entries := entries - {key};
    }
  }

  /** The syncing effect: a sequence of `set` and `delete` calls on the URL's
      parameters. */
  method SyncUrl(url: SearchParams, secret: string, params: TOTPParams)
    modifies url
    ensures url.entries == WrittenQuery(old(url.entries), secret, params)
  {
    if secret != "" {
      url.Set("secret", RemoveWhitespace(secret));
      if params.algorithm != SHA1 {
        url.Set("algorithm", AlgorithmName(params.algorithm));
      } else {
        url.Delete("algorithm");
      }
      if params.digits != 6 {
        url.Set("digits", DecimalString(params.digits));
      } else {
        url.Delete("digits");
      }
      if params.period != 30 {
        url.Set("period", DecimalString(params.period));
      } else {
        url.Delete("period");
      }
    } else {
      url.Delete("secret");
      url.Delete("algorithm");
      url.Delete("digits");
      url.Delete("period");
      assert url.entries == old(url.entries) - CardKeys;
    }
  }

  // ---------------------------------------------------------------------------
  // Input errors and the otpauth URI

  /** A character `/^[A-Z2-7\s]+$/i` accepts. */
  predicate InSecretClass(c: char)
  {
    ('A' <= c <= 'Z') || ('a' <= c <= 'z') || ('2' <= c <= '7') || IsWhitespace(c)
  }

  /** `isDirty`: a non-empty secret with a character outside the class. */
  predicate IsDirty(secret: string)
  {
    |secret| > 0 && !(forall i :: 0 <= i < |secret| ==> InSecretClass(secret[i]))
  }

  /** `isError`: a dirty secret, or one of at least 8 characters that does
      not give a code. */
  predicate IsError(secret: string, isValid: bool)
  {
    |secret| > 0 && (IsDirty(secret) || (!isValid && |secret| >= 8))
  }

  const UriPrefix: string := "otpauth://totp/OTPShare?secret="

  /** The URI encoded in the QR code. */
  function OtpUri(secret: string, params: TOTPParams): string
  {
    UriPrefix + RemoveWhitespace(secret) + UriParams(params)
  }

  /** The part of the URI after the secret. */
  function UriParams(params: TOTPParams): string
  {
    "&issuer=OTPShare&algorithm=" + AlgorithmName(params.algorithm)
      + "&digits=" + DecimalString(params.digits) + "&period=" + DecimalString(params.period)
  }

  // ---------------------------------------------------------------------------
  // Properties

  /** Parameters are read only when the query has a non-empty secret, and
      the secret is trimmed. */
  lemma ReadNeedsSecret(q: Query)
    ensures ReadUrl(q).Some? <==> "secret" in q && q["secret"] != ""
    ensures ReadUrl(q).Some? ==> ReadUrl(q).value.secret == Trim(q["secret"])
  {
  }

  /** The algorithm is the upper-cased query value when that names an
      allowed algorithm, and SHA1 otherwise. */
  lemma ReadAlgorithmWhitelist(q: Query)
    ensures ReadAlgorithm(q) != SHA1 ==> "algorithm" in q && Upper(q["algorithm"]) == AlgorithmName(ReadAlgorithm(q))
    ensures "algorithm" in q && Upper(q["algorithm"]) == "SHA256" ==> ReadAlgorithm(q) == SHA256
    ensures "algorithm" in q && Upper(q["algorithm"]) == "SHA512" ==> ReadAlgorithm(q) == SHA512
  {
  }

  /** Digits other than 6 and periods other than 30 are read only when the
      query's value parses to that allowed value. */
  lemma ReadNumbersWhitelist(q: Query)
    ensures ReadDigits(q) == 8 <==> ParseInt(GetOr(q, "digits", "6")) == Some(8)
    ensures ReadPeriod(q) == 15 <==> ParseInt(GetOr(q, "period", "30")) == Some(15)
    ensures ReadPeriod(q) == 60 <==> ParseInt(GetOr(q, "period", "30")) == Some(60)
  {
  }

  /** Writing touches only the card's own keys. */
  lemma WriteKeepsOtherKeys(q: Query, secret: string, params: TOTPParams, key: string)
    requires key !in CardKeys
    ensures key in WrittenQuery(q, secret, params) <==> key in q
    ensures key in q ==> WrittenQuery(q, secret, params)[key] == q[key]
  {
  }

  /** With a secret, the secret is written without whitespace and each
      parameter is present exactly when it is not the default. */
  lemma WriteCleanUrl(q: Query, secret: string, params: TOTPParams)
    requires secret != ""
    ensures var w := WrittenQuery(q, secret, params);
      && "secret" in w && w["secret"] == RemoveWhitespace(secret)
      && ("algorithm" in w <==> params.algorithm != SHA1)
      && ("digits" in w <==> params.digits != 6)
      && ("period" in w <==> params.period != 30)
      && ("algorithm" in w ==> w["algorithm"] == AlgorithmName(params.algorithm))
      && ("digits" in w ==> w["digits"] == DecimalString(params.digits))
      && ("period" in w ==> w["period"] == DecimalString(params.period))
  {
  }

  /** An empty secret removes exactly the card's four keys. */
  lemma WriteClearsCardKeys(q: Query, params: TOTPParams)
    ensures var w := WrittenQuery(q, "", params);
      (forall k :: k in w <==> k in q && k !in CardKeys)
      && (forall k :: k in w ==> w[k] == q[k])
  {
  }

  /** Reading back a written URL restores the state, the secret without its
      whitespace. A secret of whitespace only is written as empty and is not
      read back. */
  lemma ReadWrittenUrl(q: Query, secret: string, params: TOTPParams)
    requires RemoveWhitespace(secret) != ""
    ensures ReadUrl(WrittenQuery(q, secret, params)) == Some(CardState(RemoveWhitespace(secret), params))
  {
    WriteCleanUrl(q, secret, params);
    ReadCleanQuery(WrittenQuery(q, secret, params), RemoveWhitespace(secret), params);
  }

  /** Reading a query laid out as the writer lays it out. */
  lemma ReadCleanQuery(w: Query, clean: string, params: TOTPParams)
    requires clean != "" && NoWhitespace(clean)
    requires "secret" in w && w["secret"] == clean
    requires "algorithm" in w <==> params.algorithm != SHA1
    requires "algorithm" in w ==> w["algorithm"] == AlgorithmName(params.algorithm)
    requires "digits" in w <==> params.digits != 6
    requires "digits" in w ==> w["digits"] == DecimalString(params.digits)
    requires "period" in w <==> params.period != 30
    requires "period" in w ==> w["period"] == DecimalString(params.period)
    ensures ReadUrl(w) == Some(CardState(clean, params))
  {
    assert Trim(clean) == clean;
    ReadBackAlgorithm(w, params.algorithm);
    DefaultTexts();
    assert ReadDigits(w) == params.digits by {
      ReadBackNumber(w, "digits", "6", params.digits, 6);
    }
    assert ReadPeriod(w) == params.period by {
      ReadBackNumber(w, "period", "30", params.period, 30);
    }
  }

  lemma ReadBackAlgorithm(w: Query, a: Algorithm)
    requires "algorithm" in w <==> a != SHA1
    requires "algorithm" in w ==> w["algorithm"] == AlgorithmName(a)
    ensures ReadAlgorithm(w) == a
  {
    if a != SHA1 {
      var name := AlgorithmName(a);
      assert Upper(name) == name;
      AlgorithmNameInjective(a, AlgorithmFromName(name).value);
    }
  }

  /** The fallbacks are the defaults' decimal texts. */
  lemma DefaultTexts()
    ensures DecimalString(6) == "6" && DecimalString(30) == "30"
  {
    assert DecimalString(3) == "3";
  }

  /** A number written as its decimal text, or left out when it is the
      default, parses back to itself. */
  lemma ReadBackNumber(w: Query, key: string, fallback: string, n: nat, default: nat)
    requires fallback == DecimalString(default)
    requires key in w <==> n != default
    requires key in w ==> w[key] == DecimalString(n)
    ensures ParseInt(GetOr(w, key, fallback)) == Some(n)
  {
    ParseIntDecimal(n);
    ParseIntDecimal(default);
  }

  /** A secret made only of Base32 letters (either case), digits 2-7 and
      whitespace is not dirty, and then every non-whitespace character is a
      symbol the decoder reads. */
  lemma {:induction false} CleanSecretFullyRead(secret: string)
    requires forall i :: 0 <= i < |secret| ==> InSecretClass(secret[i])
    ensures !IsDirty(secret)
    ensures |Symbols(Upper(secret))| == |RemoveWhitespace(secret)|
  {
    if secret != [] {
      var c, t := secret[0], secret[1..];
      assert Upper(secret) == [UpperChar(c)] + Upper(t) by {
        assert secret == [c] + t;
        UpperAppend([c], t);
      }
      SymbolsCons(UpperChar(c), Upper(t));
      CleanSecretFullyRead(t);
    }
  }

  /** `isError` in cases: a dirty secret is always an error, an empty one
      never, and a clean secret is an error exactly when it gives no code
      and has at least 8 characters. */
  lemma ErrorCases(secret: string, isValid: bool)
    ensures secret == "" ==> !IsError(secret, isValid)
    ensures IsDirty(secret) ==> IsError(secret, isValid)
    ensures !IsDirty(secret) ==> (IsError(secret, isValid) <==> !isValid && |secret| >= 8)
  {
  }

  /** The URI carries the secret without whitespace, which decodes to the
      same key as the secret typed, followed by the parameters. */
  lemma OtpUriCarriesKey(secret: string, params: TOTPParams)
    ensures var clean := RemoveWhitespace(secret);
      var uri := OtpUri(secret, params);
      && uri[..|UriPrefix| + |clean|] == UriPrefix + clean
      && uri[|UriPrefix| + |clean|..] == UriParams(params)
      && NoWhitespace(clean)
      && Decoded(clean) == Decoded(secret)
  {
    var clean := RemoveWhitespace(secret);
    var uri := OtpUri(secret, params);
    assert uri == (UriPrefix + clean) + UriParams(params);
    DecodeIgnoresWhitespace(secret);
  }
}
