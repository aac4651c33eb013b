/** Unpadded base64url (section 5 of RFC 4648) and minimal big-endian integers (section 6.3.1 of RFC 7518). */
module Encoding {
  import opened Text

  type Byte = n: nat | n < 256

  // ---------- Big-endian bytes ----------

  /** `big.Int.Bytes()`: no leading zero byte, and nothing at all for zero. */
  function Bytes(n: nat): (b: seq<Byte>)
    ensures b != [] ==> b[0] != 0
  {
    if n == 0 then [] else Bytes(n / 256) + [n % 256]
  }

  function FromBytes(b: seq<Byte>): nat {
    if b == [] then 0 else 256 * FromBytes(b[..|b| - 1]) + b[|b| - 1]
  }

  lemma {:induction false} BytesRoundTrip(n: nat)
    ensures FromBytes(Bytes(n)) == n
  {
    if n > 0 {
      BytesRoundTrip(n / 256);
      assert Bytes(n)[..|Bytes(n)| - 1] == Bytes(n / 256);
    }
  }

  // ---------- base64url ----------

  function Symbol(v: nat): (c: char)
    requires v < 64
    ensures c != '"'
    ensures SymbolValue(c) == Some(v)
  {
    if v < 26 then 'A' + v as char
    else if v < 52 then 'a' + (v - 26) as char
    else if v < 62 then '0' + (v - 52) as char
    else if v == 62 then '-'
    else '_'
  }

  function SymbolValue(c: char): (v: Option<nat>)
    ensures v.Some? ==> v.value < 64
  {
    if 'A' <= c <= 'Z' then Some(c as int - 'A' as int)
    else if 'a' <= c <= 'z' then Some(c as int - 'a' as int + 26)
    else if '0' <= c <= '9' then Some(c as int - '0' as int + 52)
    else if c == '-' then Some(62)
    else if c == '_' then Some(63)
    else None
  }

  function Quad(x: Byte, y: Byte, z: Byte): (s: string)
    ensures |s| == 4
  {
    [Symbol(x / 4), Symbol(x % 4 * 16 + y / 16), Symbol(y % 16 * 4 + z / 64), Symbol(z % 64)]
  }

  function Double(x: Byte, y: Byte): (s: string)
    ensures |s| == 3
  {
    [Symbol(x / 4), Symbol(x % 4 * 16 + y / 16), Symbol(y % 16 * 4)]
  }

  function Single(x: Byte): (s: string)
    ensures |s| == 2
  {
    [Symbol(x / 4), Symbol(x % 4 * 16)]
  }

  /** Three bytes become four symbols; one or two left over become two or three. */
  function Encode(b: seq<Byte>): (s: string) {
    if |b| == 0 then ""
    else if |b| == 1 then Single(b[0])
    else if |b| == 2 then Double(b[0], b[1])
    else Quad(b[0], b[1], b[2]) + Encode(b[3..])
  }

  function First(c: nat, d: nat): Byte requires c < 64 && d < 64 { c * 4 + d / 16 }
  function Second(c: nat, d: nat): Byte requires c < 64 && d < 64 { c % 16 * 16 + d / 4 }
  function Third(c: nat, d: nat): Byte requires c < 64 && d < 64 { c % 4 * 64 + d }

  predicate AllSymbols(s: string) { forall i :: 0 <= i < |s| ==> SymbolValue(s[i]).Some? }

  function Values(s: string): (v: seq<nat>)
    requires AllSymbols(s)
    ensures |v| == |s| && forall i :: 0 <= i < |v| ==> v[i] < 64 && Some(v[i]) == SymbolValue(s[i])
  {
    seq(|s|, i requires 0 <= i < |s| => SymbolValue(s[i]).value)
  }

  /** The bits of a last, shorter group that belong to no byte are zero (section 3.5 of RFC 4648). */
  predicate TailIsClear(s: string)
    requires AllSymbols(s)
  {
    && (|s| % 4 == 2 ==> SymbolValue(s[|s| - 1]).value % 16 == 0)
    && (|s| % 4 == 3 ==> SymbolValue(s[|s| - 1]).value % 4 == 0)
  }

  /** What a strict reader of unpadded base64url recovers; a lone trailing symbol is malformed. */
  function Decode(s: string): Option<seq<Byte>> {
    if !AllSymbols(s) || |s| % 4 == 1 || !TailIsClear(s) then None else Some(DecodeValues(Values(s)))
  }

  function DecodeValues(v: seq<nat>): seq<Byte>
    requires |v| % 4 != 1 && forall i :: 0 <= i < |v| ==> v[i] < 64
  {
    if |v| == 0 then []
    else if |v| == 2 then [First(v[0], v[1])]
    else if |v| == 3 then [First(v[0], v[1]), Second(v[1], v[2])]
    else [First(v[0], v[1]), Second(v[1], v[2]), Third(v[2], v[3])] + DecodeValues(v[4..])
  }

  lemma QuadShape(x: Byte, y: Byte, z: Byte)
    ensures AllSymbols(Quad(x, y, z))
  {
  }

  lemma DoubleShape(x: Byte, y: Byte)
    ensures AllSymbols(Double(x, y))
  {
  }

  lemma SingleShape(x: Byte)
    ensures AllSymbols(Single(x))
  {
  }

  lemma NoQuote(s: string)
    requires AllSymbols(s)
    ensures '"' !in s
  {
  }

  lemma QuadThenShape(quad: string, rest: string)
    requires |quad| == 4 && AllSymbols(quad) && AllSymbols(rest) && |rest| % 4 != 1
    ensures AllSymbols(quad + rest) && |quad + rest| % 4 != 1
  {
  }

  lemma {:induction false} EncodeShape(b: seq<Byte>)
    ensures AllSymbols(Encode(b)) && |Encode(b)| % 4 != 1
  {
    if |b| >= 3 {
      EncodeShape(b[3..]);
      QuadShape(b[0], b[1], b[2]);
      QuadThenShape(Quad(b[0], b[1], b[2]), Encode(b[3..]));
    } else if |b| == 2 {
      DoubleShape(b[0], b[1]);
    } else if |b| == 1 {
      SingleShape(b[0]);
    }
  }

  lemma {:induction false} Base64RoundTrip(b: seq<Byte>)
    ensures Decode(Encode(b)) == Some(b)
  {
    EncodeShape(b);
    EncodeTail(b);
    DecodeEncoded(b);
  }

  lemma TailOfRest(quad: string, rest: string)
    requires |quad| == 4 && AllSymbols(quad) && AllSymbols(rest) && TailIsClear(rest)
    ensures AllSymbols(quad + rest) && TailIsClear(quad + rest)
  {
    assert rest != "" ==> (quad + rest)[|quad + rest| - 1] == rest[|rest| - 1];
  }

  lemma {:induction false} EncodeTail(b: seq<Byte>)
    requires AllSymbols(Encode(b))
    ensures TailIsClear(Encode(b))
  {
    if |b| >= 3 {
      var rest := Encode(b[3..]);
      EncodeShape(b[3..]);
      EncodeTail(b[3..]);
      QuadShape(b[0], b[1], b[2]);
      TailOfRest(Quad(b[0], b[1], b[2]), rest);
    } else if |b| == 2 {
      assert SymbolValue(Double(b[0], b[1])[2]) == Some(b[1] % 16 * 4);
    } else if |b| == 1 {
      assert SymbolValue(Single(b[0])[1]) == Some(b[0] % 4 * 16);
    }
  }

  /** Of section 10 of RFC 4648, and the two symbols in which base64url differs from base64. */
  lemma EncodeExamples()
    ensures Encode([102]) == "Zg" && Encode([102, 111]) == "Zm8" && Encode([102, 111, 111]) == "Zm9v"
    ensures Encode([102, 111, 111, 98]) == "Zm9vYg"
    ensures Encode([251, 239, 255]) == "--__"
  {
    assert [102, 111, 111, 98][3..] == [98];
  }

  /** The usual RSA exponent. */
  lemma ExponentExample()
    ensures Bytes(65537) == [1, 0, 1] && EncodeInteger(65537) == "AQAB"
  {
    assert Bytes(1) == [1] && Bytes(256) == [1, 0];
    assert Bytes(65537) == [1, 0, 1];
    EncodeExponent();
  }

  lemma EncodeExponent()
    ensures Encode([1, 0, 1]) == "AQAB"
  {
    assert Quad(1, 0, 1) == "AQAB";
  }

  lemma ValuesConcat(a: string, b: string)
    requires AllSymbols(a) && AllSymbols(b)
    ensures AllSymbols(a + b) && Values(a + b) == Values(a) + Values(b)
  {
  }

  lemma QuadValues(x: Byte, y: Byte, z: Byte)
    ensures AllSymbols(Quad(x, y, z))
    ensures Values(Quad(x, y, z)) == [x / 4, x % 4 * 16 + y / 16, y % 16 * 4 + z / 64, z % 64]
  {
  }

  lemma DecodeQuad(x: Byte, y: Byte, z: Byte, v: seq<nat>)
    requires |v| % 4 != 1 && forall i :: 0 <= i < |v| ==> v[i] < 64
    ensures var q := [x / 4, x % 4 * 16 + y / 16, y % 16 * 4 + z / 64, z % 64];
            (forall i :: 0 <= i < |q + v| ==> (q + v)[i] < 64) && DecodeValues(q + v) == [x, y, z] + DecodeValues(v)
  {
    TripleRoundTrip(x, y, z);
    var q := [x / 4, x % 4 * 16 + y / 16, y % 16 * 4 + z / 64, z % 64];
    assert (q + v)[4..] == v;
  }

  lemma DoubleRoundTrip(x: Byte, y: Byte)
    ensures AllSymbols(Double(x, y)) && DecodeValues(Values(Double(x, y))) == [x, y]
  {
    DoubleShape(x, y);
    TripleRoundTrip(x, y, 0);
    assert Values(Double(x, y)) == [x / 4, x % 4 * 16 + y / 16, y % 16 * 4];
  }

  lemma SingleRoundTrip(x: Byte)
    ensures AllSymbols(Single(x)) && DecodeValues(Values(Single(x))) == [x]
  {
    SingleShape(x);
    TripleRoundTrip(x, 0, 0);
    assert Values(Single(x)) == [x / 4, x % 4 * 16];
  }

  lemma {:induction false} DecodeEncoded(b: seq<Byte>)
    requires AllSymbols(Encode(b)) && |Encode(b)| % 4 != 1
    ensures DecodeValues(Values(Encode(b))) == b
  {
    if |b| >= 3 {
      var rest := Encode(b[3..]);
      EncodeShape(b[3..]);
      DecodeEncoded(b[3..]);
      QuadValues(b[0], b[1], b[2]);
      ValuesConcat(Quad(b[0], b[1], b[2]), rest);
      DecodeQuad(b[0], b[1], b[2], Values(rest));
      assert b == [b[0], b[1], b[2]] + b[3..];
    } else if |b| == 2 {
      DoubleRoundTrip(b[0], b[1]);
    } else if |b| == 1 {
      SingleRoundTrip(b[0]);
    }
  }

  lemma TripleRoundTrip(x: Byte, y: Byte, z: Byte)
    ensures First(x / 4, x % 4 * 16 + y / 16) == x
    ensures Second(x % 4 * 16 + y / 16, y % 16 * 4 + z / 64) == y
    ensures Third(y % 16 * 4 + z / 64, z % 64) == z
  {
  }

  // ---------- Integers in base64url ----------

  function EncodeInteger(n: nat): string { Encode(Bytes(n)) }

  function DecodeInteger(s: string): Option<nat> {
    match Decode(s)
    case None => None
    case Some(b) => Some(FromBytes(b))
  }

  lemma IntegerRoundTrip(n: nat)
    ensures DecodeInteger(EncodeInteger(n)) == Some(n)
    ensures '"' !in EncodeInteger(n)
  {
    BytesRoundTrip(n);
    Base64RoundTrip(Bytes(n));
    EncodeShape(Bytes(n));
    NoQuote(EncodeInteger(n));
  }

  lemma EncodeIntegerInjective(m: nat, n: nat)
    requires EncodeInteger(m) == EncodeInteger(n)
    ensures m == n
  {
    IntegerRoundTrip(m);
    IntegerRoundTrip(n);
  }
}
