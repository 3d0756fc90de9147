/** JSON values as a request handler sees them after `request.json()`, and the
    three JavaScript conversions the share route applies to them: truthiness,
    `String(v)` and `BigInt(v)`. */
module Json {
  import opened Wrappers
  import opened JsText
  import Radix

  /** A parsed JSON value. `Undefined` is what reading a missing property
      gives. Numbers are integers here; fractional numbers are not modelled. */
  datatype JsValue =
    | Undefined
    | Null
    | Bool(b: bool)
    | Num(n: int)
    | Str(s: string)
    | Arr(items: seq<JsValue>)
    | Obj(fields: map<string, JsValue>)

  /** `null` or `undefined`, the two values `??` replaces and destructuring rejects. */
  predicate Nullish(v: JsValue)
  {
    v.Undefined? || v.Null?
  }

  /** JavaScript truthiness (`!!v`): `undefined`, `null`, `false`, `0` and `""`
      are falsy, every other value, including an empty array, is truthy. */
  predicate Truthy(v: JsValue)
  {
    match v
    case Undefined => false
    case Null => false
    case Bool(b) => b
    case Num(n) => n != 0
    case Str(s) => s != ""
    case Arr(_) => true
    case Obj(_) => true
  }

  /** Reading property `key`: a missing key, or a value that is not an
      object, gives `undefined`. */
  function Get(v: JsValue, key: string): (r: JsValue)
    ensures v.Obj? && key in v.fields ==> r == v.fields[key]
    ensures !(v.Obj? && key in v.fields) ==> r == Undefined
  {
    if v.Obj? && key in v.fields then v.fields[key] else Undefined
  }

  /** `n.toString()` for an integer. */
  function IntText(n: int): (r: string)
    ensures |r| >= 1
  {
    if n >= 0 then DecimalString(n) else "-" + DecimalString(-n)
  }

  /** `String(v)`. An array is joined with commas, its `null` and
      `undefined` elements written as empty strings; any other object is
      `"[object Object]"`. */
  function ToText(v: JsValue): string
    decreases v, 1, 0
  {
    match v
    case Undefined => "undefined"
    case Null => "null"
    case Bool(b) => if b then "true" else "false"
    case Num(n) => IntText(n)
    case Str(s) => s
    case Arr(items) => JoinFrom(items, 0)
    case Obj(_) => "[object Object]"
  }

  /** `items.slice(i).join(",")`. */
  function JoinFrom(items: seq<JsValue>, i: nat): string
    requires i <= |items|
    decreases Arr(items), 0, |items| - i
  {
    if i == |items| then ""
    else
      var first := if Nullish(items[i]) then "" else ToText(items[i]);
      if i + 1 == |items| then first else first + "," + JoinFrom(items, i + 1)
  }

  /** A whole string of digits of `radix`, at least one. */
  function WholeDigits(w: string, radix: nat): (r: Option<nat>)
    ensures r.Some? <==> w != [] && forall i :: 0 <= i < |w| ==> CharValue(w[i]) < radix
  {
    if w != [] && DigitRunLength(w, radix) == |w| then Some(Radix.Value(DigitValues(w), radix)) else None
  }

  /** `BigInt(s)` for a string: surrounding whitespace is ignored, and what
      remains must be an integer literal. Anything else is a `SyntaxError`
      (`None`). */
  function StringToBigInt(s: string): Option<int>
  {
    IntegerLiteral(Trim(s))
  }

  /** An empty string is zero; a `0x`, `0o` or `0b` prefix selects base 16, 8
      or 2 with no sign allowed; otherwise a decimal integer with an optional
      sign. */
  function IntegerLiteral(t: string): Option<int>
  {
    if t == [] then Some(0)
    else if RadixPrefix(t) > 0 then WholeDigits(t[2..], RadixPrefix(t))
    else SignedDecimal(t)
  }

  /** The base a `0x`, `0o` or `0b` prefix (either case) selects, or 0. */
  function RadixPrefix(t: string): (radix: nat)
    ensures radix == 0 || radix == 2 || radix == 8 || radix == 16
    ensures radix > 0 ==> |t| >= 2 && t[0] == '0'
    ensures radix == 16 <==> |t| >= 2 && t[0] == '0' && (t[1] == 'x' || t[1] == 'X')
    ensures radix == 8 <==> |t| >= 2 && t[0] == '0' && (t[1] == 'o' || t[1] == 'O')
    ensures radix == 2 <==> |t| >= 2 && t[0] == '0' && (t[1] == 'b' || t[1] == 'B')
  {
    if |t| < 2 || t[0] != '0' then 0
    else if t[1] == 'x' || t[1] == 'X' then 16
    else if t[1] == 'o' || t[1] == 'O' then 8
    else if t[1] == 'b' || t[1] == 'B' then 2
    else 0
  }

  function SignedDecimal(t: string): Option<int>
    requires t != []
  {
    if t[0] == '-' then
      match WholeDigits(t[1..], 10)
      case Some(m) => Some(-(m as int))
      case None => None
    else if t[0] == '+' then WholeDigits(t[1..], 10)
    else WholeDigits(t, 10)
  }

  /** `BigInt(v)`: `None` where it throws. `null` and `undefined` throw a
      `TypeError`; a boolean is 0 or 1; an array or object is converted
      through its string form. */
  function ToBigInt(v: JsValue): (r: Option<int>)
    ensures v.Bool? || v.Num? ==> r.Some?
    ensures Nullish(v) ==> r.None?
  {
    match v
    case Undefined => None
    case Null => None
    case Bool(b) => Some(if b then 1 else 0)
    case Num(n) => Some(n)
    case Str(s) => StringToBigInt(s)
    case Arr(_) => StringToBigInt(ToText(v))
    case Obj(_) => StringToBigInt(ToText(v))
  }

  // ---------------------------------------------------------------------------
  // Properties

  /** `BigInt(String(n)) == n`: the text of an integer converts back to it. */
  lemma BigIntOfIntText(n: int)
    ensures StringToBigInt(IntText(n)) == Some(n)
  {
    if n >= 0 {
      UnsignedText(n);
    } else {
      SignedText(n);
    }
  }

  lemma UnsignedText(n: nat)
    ensures StringToBigInt(IntText(n)) == Some(n)
  {
    var d := DecimalString(n);
    DecimalDigits(n);
    PlainDigits(d, n);
    assert IntText(n) == d;
  }

  /** A decimal with no leading zero and no sign reads as its digits. */
  lemma PlainDigits(d: string, m: nat)
    requires d != [] && IsDecimal(d) && (d[0] == '0' ==> |d| == 1) && WholeDigits(d, 10) == Some(m)
    ensures StringToBigInt(d) == Some(m)
  {
    assert '0' <= d[|d| - 1] <= '9';
    assert '0' <= d[0] <= '9';
    TrimUnchanged(d);
    assert RadixPrefix(d) == 0;
  }

  lemma SignedText(n: int)
    requires n < 0
    ensures StringToBigInt(IntText(n)) == Some(n)
  {
    var d := DecimalString(-n);
    DecimalDigits(-n);
    MinusDigits(d, -n);
    assert IntText(n) == "-" + d;
  }

  /** A minus sign in front of a decimal negates it. */
  lemma MinusDigits(d: string, m: nat)
    requires d != [] && IsDecimal(d) && WholeDigits(d, 10) == Some(m)
    ensures StringToBigInt("-" + d) == Some(-(m as int))
  {
    var t := "-" + d;
    assert '0' <= d[|d| - 1] <= '9';
    assert t[|t| - 1] == d[|d| - 1];
    TrimUnchanged(t);
    assert t[1..] == d;
  }

  /** The decimal text of a number is a whole run of digits denoting it. */
  lemma DecimalDigits(m: nat)
    ensures WholeDigits(DecimalString(m), 10) == Some(m)
  {
    var d := DecimalString(m);
    DecimalRun(d);
    DecimalStringValue(m);
  }

  /** A number, and the string of any integer, convert to that integer. */
  lemma ToBigIntOfNumber(n: int)
    ensures ToBigInt(Num(n)) == Some(n)
    ensures ToBigInt(Str(IntText(n))) == Some(n)
  {
    BigIntOfIntText(n);
  }

  /** `BigInt` throws on exactly the nullish values among the non-strings
      that are not arrays or objects. */
  lemma ToBigIntNullish(v: JsValue)
    requires !v.Str? && !v.Arr? && !v.Obj?
    ensures ToBigInt(v).None? <==> Nullish(v)
  {
  }

  /** An object never converts: `"[object Object]"` is not an integer. */
  lemma ToBigIntObject(fields: map<string, JsValue>)
    ensures ToBigInt(Obj(fields)).None?
  {
    var t: string := "[object Object]";
    assert ToText(Obj(fields)) == t;
    TrimUnchanged(t);
    assert RadixPrefix(t) == 0;
    assert CharValue(t[0]) >= 10;
    assert SignedDecimal(t).None?;
  }
}
