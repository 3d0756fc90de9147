/** `base32Decode` of `src/components/TOTPCard/utils.ts`: the Base32 alphabet
    of section 6 of RFC 4648, read case-insensitively, stopping at the first
    `=`, skipping every other character, and keeping whole bytes only. */
module Base32 {
  import opened JsText
  import opened Radix

  const Alphabet: string := "ABCDEFGHIJKLMNOPQRSTUVWXYZ234567"

  /** The 5-bit value of one Base32 symbol. */
  type Symbol = v: nat | v < 32

  /** `Alphabet.indexOf(c)`: the symbol's 5-bit value, or -1 for any other character. */
  function SymbolValue(c: char): (v: int)
    ensures -1 <= v < 32
  {
    if 'A' <= c <= 'Z' then c as int - 'A' as int
    else if '2' <= c <= '7' then c as int - '2' as int + 26
    else -1
  }

  /** The symbol values of an upper-cased input, up to its first `=`. */
  function Symbols(u: string): (vs: seq<Symbol>)
    ensures |vs| <= |u|
  {
    if u == [] || u[0] == '=' then []
    else if SymbolValue(u[0]) == -1 then Symbols(u[1..])
    else [SymbolValue(u[0]) as Symbol] + Symbols(u[1..])
  }

  /** The bit string: each symbol as `val.toString(2).padStart(5, '0')`. */
  function BitsOf(vs: seq<Symbol>): (bits: seq<nat>)
    ensures |bits| == 5 * |vs| && IsDigits(bits, 2)
  {
    if vs == [] then [] else ToDigits(vs[0], 2, 5) + BitsOf(vs[1..])
  }

  /** Consecutive groups of 8 bits as bytes; fewer than 8 trailing bits are dropped. */
  function PackBytes(bits: seq<nat>): (bytes: seq<Byte>)
    requires IsDigits(bits, 2)
    ensures |bytes| == |bits| / 8
    decreases |bits|
  {
    if |bits| < 8 then []
    else
      ValueBound(bits[..8], 2);
      [Value(bits[..8], 2)] + PackBytes(bits[8..])
  }

  /** The bytes `base32Decode(input)` returns. */
  function Decoded(input: string): (bytes: seq<Byte>)
    ensures |bytes| == 5 * |Symbols(Upper(input))| / 8
  {
    PackBytes(BitsOf(Symbols(Upper(input))))
  }

  /** `base32Decode`: a loop that appends five bits per symbol to a bit
      string, then a loop that reads the bit string eight bits at a time. */
  method Base32Decode(input: string) returns (bytes: seq<Byte>)
    ensures bytes == Decoded(input)
  {
    var bits := CollectBits(Upper(input));
    bytes := PackBits(bits);
  }

  /** The first loop of `base32Decode`, over the upper-cased input. */
  method CollectBits(u: string) returns (bits: seq<nat>)
    ensures bits == BitsOf(Symbols(u))
  {
    bits := [];
    var i := 0;
    // The source leaves the loop with `break` at the first `=`; here that
    // test is part of the loop guard.
    while i < |u| && u[i] != '='
      invariant 0 <= i <= |u|
      invariant BitsOf(Symbols(u)) == bits + BitsOf(Symbols(u[i..]))
    {
      var v := SymbolValue(u[i]);
      CollectStep(u, i, bits);
      if v != -1 {
        bits := bits + ToDigits(v, 2, 5);
      }
      i := i + 1;
    }
    assert BitsOf(Symbols(u[i..])) == [];
  }

  /** The second loop of `base32Decode`: whole bytes of the bit string. */
  method PackBits(bits: seq<nat>) returns (bytes: seq<Byte>)
    requires IsDigits(bits, 2)
    ensures bytes == PackBytes(bits)
  {
    bytes := [];
    var j := 0;
    while j + 8 <= |bits|
      invariant 0 <= j <= |bits|
      invariant PackBytes(bits) == bytes + PackBytes(bits[j..])
    {
      ValueBound(bits[j..j + 8], 2);
      PackStep(bits, j, bytes);
      bytes := bytes + [Value(bits[j..j + 8], 2)];
      j := j + 8;
    }
    assert PackBytes(bits[j..]) == [];
  }

  /** One step of the first decoding loop: the bits still to come after index `i`. */
  lemma SymbolsStep(u: string, i: nat)
    requires i < |u| && u[i] != '='
    ensures BitsOf(Symbols(u[i..])) ==
      (if SymbolValue(u[i]) == -1 then [] else ToDigits(SymbolValue(u[i]), 2, 5)) + BitsOf(Symbols(u[i + 1..]))
  {
    assert u[i..][1..] == u[i + 1..];
    var rest := Symbols(u[i + 1..]);
    if SymbolValue(u[i]) != -1 {
      assert ([SymbolValue(u[i]) as Symbol] + rest)[1..] == rest;
    }
  }

  /** The first loop's invariant is kept by one pass of its body. */
  lemma CollectStep(u: string, i: nat, bits: seq<nat>)
    requires i < |u| && u[i] != '='
    requires BitsOf(Symbols(u)) == bits + BitsOf(Symbols(u[i..]))
    ensures SymbolValue(u[i]) == -1 ==> BitsOf(Symbols(u)) == bits + BitsOf(Symbols(u[i + 1..]))
    ensures SymbolValue(u[i]) != -1 ==>
      BitsOf(Symbols(u)) == (bits + ToDigits(SymbolValue(u[i]), 2, 5)) + BitsOf(Symbols(u[i + 1..]))
  {
    SymbolsStep(u, i);
    var rest := BitsOf(Symbols(u[i + 1..]));
    if SymbolValue(u[i]) != -1 {
      AppendAssoc(bits, ToDigits(SymbolValue(u[i]), 2, 5), rest);
    } else {
      assert [] + rest == rest;
    }
  }

  /** The second loop's invariant is kept by one pass of its body. */
  lemma PackStep(bits: seq<nat>, j: nat, bytes: seq<Byte>)
    requires IsDigits(bits, 2) && j + 8 <= |bits|
    requires PackBytes(bits) == bytes + PackBytes(bits[j..])
    requires Value(bits[j..j + 8], 2) < 256
    ensures PackBytes(bits) == (bytes + [Value(bits[j..j + 8], 2)]) + PackBytes(bits[j + 8..])
  {
    PackBytesStep(bits, j);
    AppendAssoc(bytes, [Value(bits[j..j + 8], 2)], PackBytes(bits[j + 8..]));
  }

  /** One step of the second decoding loop: the bytes still to come after bit `j`. */
  lemma PackBytesStep(bits: seq<nat>, j: nat)
    requires IsDigits(bits, 2) && j + 8 <= |bits|
    ensures PackBytes(bits[j..]) == [Value(bits[j..j + 8], 2)] + PackBytes(bits[j + 8..])
  {
    assert bits[j..][..8] == bits[j..j + 8];
    assert bits[j..][8..] == bits[j + 8..];
  }

  // ---------------------------------------------------------------------------
  // The encoder of section 6 of RFC 4648, the inverse of the decoder.

  function SymbolString(vs: seq<Symbol>): (s: string)
    ensures |s| == |vs|
  {
    if vs == [] then [] else [Alphabet[vs[0]]] + SymbolString(vs[1..])
  }

  /** Each byte as 8 bits, most significant first. */
  function BytesBits(data: seq<Byte>): (bits: seq<nat>)
    ensures |bits| == 8 * |data| && IsDigits(bits, 2)
  {
    if data == [] then [] else ToDigits(data[0], 2, 8) + BytesBits(data[1..])
  }

  /** A bit string whose length is a multiple of 5, as symbol values. */
  function Groups5(bits: seq<nat>): (vs: seq<Symbol>)
    requires |bits| % 5 == 0 && IsDigits(bits, 2)
    ensures |vs| == |bits| / 5
    decreases |bits|
  {
    if bits == [] then []
    else
      ValueBound(bits[..5], 2);
      [Value(bits[..5], 2)] + Groups5(bits[5..])
  }

  /** Zero bits that complete the last 5-bit group. */
  function ZeroFill(n: nat): (z: seq<nat>)
    ensures |z| < 5 && (n + |z|) % 5 == 0 && IsDigits(z, 2)
  {
    seq((5 - n % 5) % 5, _ => 0)
  }

  /** `=` signs that complete the last block of 8 symbols. */
  function PadFill(n: nat): (p: string)
    ensures |p| < 8 && (n + |p|) % 8 == 0
    ensures forall i :: 0 <= i < |p| ==> p[i] == '='
  {
    seq((8 - n % 8) % 8, _ => '=')
  }

  /** Base32 encoding: zero bits complete the last symbol, `=` completes the last 8-symbol block. */
  function Encode(data: seq<Byte>): (s: string)
    ensures |s| % 8 == 0
  {
    var bits := BytesBits(data);
    var text := SymbolString(Groups5(bits + ZeroFill(|bits|)));
    text + PadFill(|text|)
  }

  /** The symbols left after upper-casing, filtering and cutting at `=`, as text. */
  function Canonical(s: string): (c: string)
    ensures forall i :: 0 <= i < |c| ==> c[i] in Alphabet
  {
    SymbolStringChars(Symbols(Upper(s)));
    SymbolString(Symbols(Upper(s)))
  }

  // ---------------------------------------------------------------------------
  // Properties

  lemma SymbolValueOfAlphabet(v: Symbol)
    ensures SymbolValue(Alphabet[v]) == v
  {
  }

  /** `SymbolValue` is `indexOf` in the alphabet: -1 exactly for characters
      outside it, and otherwise the position of the character. */
  lemma SymbolValueIsIndexOf(c: char)
    ensures SymbolValue(c) == -1 <==> c !in Alphabet
    ensures SymbolValue(c) >= 0 ==> Alphabet[SymbolValue(c)] == c
  {
    if c in Alphabet {
      var k :| 0 <= k < |Alphabet| && Alphabet[k] == c;
      SymbolValueOfAlphabet(k);
    }
  }

  lemma {:induction false} SymbolStringChars(vs: seq<Symbol>)
    ensures forall i :: 0 <= i < |vs| ==> SymbolString(vs)[i] == Alphabet[vs[i]]
  {
    if vs != [] {
      SymbolStringChars(vs[1..]);
    }
  }

  /** How `Symbols` treats its first character. */
  lemma SymbolsCons(c: char, t: string)
    ensures Symbols([c] + t) ==
      if c == '=' then []
      else if SymbolValue(c) == -1 then Symbols(t)
      else [SymbolValue(c) as Symbol] + Symbols(t)
  {
    assert ([c] + t)[0] == c;
    assert ([c] + t)[1..] == t;
  }

  /** Reading a string of alphabet symbols gives their values, then carries on. */
  lemma {:induction false} SymbolsOfSymbolString(vs: seq<Symbol>, w: string)
    ensures Symbols(SymbolString(vs) + w) == vs + Symbols(w)
  {
    if vs == [] {
      assert SymbolString(vs) + w == w;
    } else {
      var c := Alphabet[vs[0]];
      var tail := SymbolString(vs[1..]);
      var rest := tail + w;
      assert SymbolString(vs) + w == [c] + rest by {
        AppendAssoc([c], tail, w);
      }
      assert Symbols([c] + rest) == [vs[0]] + Symbols(rest) by {
        SymbolValueOfAlphabet(vs[0]);
        SymbolsCons(c, rest);
      }
      SymbolsOfSymbolString(vs[1..], w);
      AppendAssoc([vs[0]], vs[1..], Symbols(w));
      assert [vs[0]] + vs[1..] == vs;
    }
  }

  lemma {:induction false} SymbolsStopAtPad(u: string, w: string)
    ensures Symbols(u + "=" + w) == Symbols(u)
  {
    if u == [] {
      assert u + "=" + w == "=" + w;
    } else {
      assert (u + "=" + w)[1..] == u[1..] + "=" + w;
      SymbolsStopAtPad(u[1..], w);
    }
  }

  /** The first `=` ends decoding: nothing after it matters. */
  lemma DecodeStopsAtPad(p: string, q: string)
    ensures Decoded(p + "=" + q) == Decoded(p)
  {
    UpperAppend(p + "=", q);
    UpperAppend(p, "=");
    SymbolsStopAtPad(Upper(p), Upper(q));
  }

  lemma {:induction false} SymbolsIgnoreWhitespace(s: string)
    ensures Symbols(Upper(RemoveWhitespace(s))) == Symbols(Upper(s))
  {
    if s != [] {
      var c, t := s[0], s[1..];
      UpperCons(s);
      SymbolsIgnoreWhitespace(t);
      if IsWhitespace(c) {
        WhitespaceSkipped(c, Upper(t));
      } else {
        assert RemoveWhitespace(s) == [c] + RemoveWhitespace(t);
        UpperAppend([c], RemoveWhitespace(t));
        SymbolsCons(UpperChar(c), Upper(RemoveWhitespace(t)));
        SymbolsCons(UpperChar(c), Upper(t));
      }
    }
  }

  lemma UpperCons(s: string)
    requires s != []
    ensures Upper(s) == [UpperChar(s[0])] + Upper(s[1..])
  {
    assert s == [s[0]] + s[1..];
    UpperAppend([s[0]], s[1..]);
  }

  /** A whitespace character is neither a symbol nor padding. */
  lemma WhitespaceSkipped(c: char, t: string)
    requires IsWhitespace(c)
    ensures Symbols([UpperChar(c)] + t) == Symbols(t)
  {
    assert UpperChar(c) == c;
    SymbolsCons(c, t);
  }

  /** Stripping whitespace and upper-casing before decoding (as
      `calculateCodes` and the card do) changes nothing: the decoder already
      ignores case and skips whitespace. */
  lemma CleanedSecretDecodes(s: string)
    ensures Decoded(Upper(RemoveWhitespace(s))) == Decoded(s)
  {
    UpperIdempotent(RemoveWhitespace(s));
    SymbolsIgnoreWhitespace(s);
  }

  /** Whitespace anywhere in the input does not change the bytes. */
  lemma DecodeIgnoresWhitespace(s: string)
    ensures Decoded(RemoveWhitespace(s)) == Decoded(s)
  {
    SymbolsIgnoreWhitespace(s);
  }

  /** Decoding is case-insensitive and skips unknown characters: only the
      alphabet symbols before the first `=` of the upper-cased input count. */
  lemma DecodeCanonical(s: string)
    ensures Decoded(Canonical(s)) == Decoded(s)
  {
    var vs := Symbols(Upper(s));
    var c := Canonical(s);
    assert Upper(c) == c by {
      SymbolStringChars(vs);
      forall i | 0 <= i < |c|
        ensures !IsLowerAscii(c[i])
      {
        SymbolValueOfAlphabet(vs[i]);
      }
    }
    assert Symbols(c) == vs by {
      SymbolsOfSymbolString(vs, []);
      assert c + [] == c;
      assert vs + [] == vs;
    }
    calc {
      Decoded(c);
      PackBytes(BitsOf(Symbols(Upper(c))));
      PackBytes(BitsOf(Symbols(c)));
      PackBytes(BitsOf(vs));
    }
  }

  lemma {:induction false} PackBytesAt(bits: seq<nat>, k: nat)
    requires IsDigits(bits, 2) && k < |bits| / 8
    ensures PackBytes(bits)[k] == Value(bits[8 * k..8 * k + 8], 2)
    decreases k
  {
    if k > 0 {
      PackBytesAt(bits[8..], k - 1);
      assert bits[8..][8 * (k - 1)..8 * (k - 1) + 8] == bits[8 * k..8 * k + 8];
    }
  }

  /** Byte `k` of the output is bits `8k .. 8k+7` of the symbols' 5-bit values
      written one after another, most significant first. */
  lemma DecodedByte(s: string, k: nat)
    requires k < |Decoded(s)|
    ensures Decoded(s)[k] == Value(BitsOf(Symbols(Upper(s)))[8 * k..8 * k + 8], 2)
  {
    PackBytesAt(BitsOf(Symbols(Upper(s))), k);
  }

  lemma {:induction false} BitsOfGroups5(bits: seq<nat>)
    requires |bits| % 5 == 0 && IsDigits(bits, 2)
    ensures BitsOf(Groups5(bits)) == bits
    decreases |bits|
  {
    if bits != [] {
      var head, tail := bits[..5], bits[5..];
      ValueBound(head, 2);
      var v: Symbol := Value(head, 2);
      assert Groups5(bits) == [v] + Groups5(tail);
      assert BitsOf([v] + Groups5(tail)) == ToDigits(v, 2, 5) + BitsOf(Groups5(tail)) by {
        assert ([v] + Groups5(tail))[1..] == Groups5(tail);
      }
      DigitsOfValue(head, 2);
      BitsOfGroups5(tail);
      assert head + tail == bits;
    }
  }

  lemma {:induction false} PackBytesOfBytesBits(data: seq<Byte>, tail: seq<nat>)
    requires IsDigits(tail, 2) && |tail| < 8
    ensures PackBytes(BytesBits(data) + tail) == data
  {
    if data == [] {
      assert BytesBits(data) + tail == tail;
    } else {
      var head := ToDigits(data[0], 2, 8);
      var rest := BytesBits(data[1..]) + tail;
      assert BytesBits(data) == head + BytesBits(data[1..]);
      AppendAssoc(head, BytesBits(data[1..]), tail);
      PackBytesCons(head, rest);
      ByteBitsValue(data[0]);
      PackBytesOfBytesBits(data[1..], tail);
      assert [data[0]] + data[1..] == data;
    }
  }

  lemma PackBytesCons(head: seq<nat>, rest: seq<nat>)
    requires |head| == 8 && IsDigits(head, 2) && IsDigits(rest, 2)
    ensures PackBytes(head + rest) == [Value(head, 2)] + PackBytes(rest)
  {
    assert (head + rest)[..8] == head;
    assert (head + rest)[8..] == rest;
  }

  lemma ByteBitsValue(b: Byte)
    ensures Value(ToDigits(b, 2, 8), 2) == b
  {
    assert Pow(2, 8) == 256;
    ValueOfDigitsInRange(b, 2, 8);
  }

  /** Round trip: decoding the RFC 4648 Base32 encoding of any bytes gives them back. */
  lemma DecodeEncode(data: seq<Byte>)
    ensures Decoded(Encode(data)) == data
  {
    var bits := BytesBits(data);
    var zeros := ZeroFill(|bits|);
    var padded := bits + zeros;
    var vs := Groups5(padded);
    var text := SymbolString(vs);
    var pad := PadFill(|text|);
    var s := text + pad;
    assert s == Encode(data);
    assert Upper(s) == s by {
      SymbolStringChars(vs);
      forall i | 0 <= i < |s|
        ensures !IsLowerAscii(s[i])
      {
        if i < |text| {
          SymbolValueOfAlphabet(vs[i]);
        }
      }
    }
    SymbolsOfSymbolString(vs, pad);
    assert Symbols(pad) == [];
    assert vs + [] == vs;
    BitsOfGroups5(padded);
    PackBytesOfBytesBits(data, zeros);
  }
}
