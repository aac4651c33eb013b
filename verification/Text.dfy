/** Byte strings, decimal numerals and Ethereum addresses, as dauth writes and reads them.
    A `string` stands for a Go string: each `char` is one byte of it. */
module Text {

  datatype Option<+T> = None | Some(value: T)

  datatype Result<+T, +E> = Ok(value: T) | Err(error: E)

  /** A delimiter that occurs in neither prefix cuts equal strings at the same place. */
  lemma {:induction false} CutAtDelimiter(d: char, a: string, b: string, x: string, y: string)
    requires d !in a && d !in b
    requires a + [d] + x == b + [d] + y
    ensures a == b && x == y
  {
    var u, w := a + [d] + x, b + [d] + y;
    assert u[|a|] == d && w[|b|] == d;
    assert forall i :: 0 <= i < |a| ==> u[i] == a[i];
    assert forall i :: 0 <= i < |b| ==> w[i] == b[i];
    assert |a| == |b|;
    assert a == u[..|a|] && b == w[..|a|];
    assert x == u[|a| + 1..] && y == w[|a| + 1..];
  }

  /** Strings of equal length cut equal concatenations at the same place. */
  lemma {:induction false} CutAtLength(a: string, b: string, x: string, y: string)
    requires |a| == |b| || |x| == |y|
    requires a + x == b + y
    ensures a == b && x == y
  {
    assert |a| + |x| == |a + x| == |b + y| == |b| + |y|;
    assert a == (a + x)[..|a|] && b == (b + y)[..|a|];
    assert x == (a + x)[|a|..] && y == (b + y)[|a|..];
  }

  // ---------- Decimal numerals ----------

  predicate IsDigit(c: char) { '0' <= c <= '9' }

  predicate AllDigits(s: string) { forall i :: 0 <= i < |s| ==> IsDigit(s[i]) }

  function DigitOf(d: nat): (c: char)
    requires d < 10
    ensures IsDigit(c) && c as int - '0' as int == d
  {
    '0' + d as char
  }

  /** `%d` of an unsigned number: no sign, no leading zeros. */
  function Decimal(n: nat): (s: string)
    ensures s != "" && AllDigits(s)
  {
    if n < 10 then [DigitOf(n)] else Decimal(n / 10) + [DigitOf(n % 10)]
  }

  function DigitsValue(s: string): nat
    requires AllDigits(s)
  {
    if s == "" then 0
    else 10 * DigitsValue(s[..|s| - 1]) + (s[|s| - 1] as int - '0' as int)
  }

  /** `(*big.Int).SetString(s, 10)`: an optional sign and at least one digit. */
  function ParseInteger(s: string): Option<int> {
    var signed := s != "" && s[0] in {'+', '-'};
    var digits := if signed then s[1..] else s;
    if digits == "" || !AllDigits(digits) then None
    else if signed && s[0] == '-' then Some(0 - DigitsValue(digits))
    else Some(DigitsValue(digits))
  }

  lemma {:induction false} DecimalValue(n: nat)
    ensures DigitsValue(Decimal(n)) == n
  {
    if n >= 10 {
      DecimalValue(n / 10);
      assert Decimal(n)[..|Decimal(n)| - 1] == Decimal(n / 10);
    }
  }

  lemma {:induction false} LeadingZero(s: string)
    requires AllDigits(s)
    ensures AllDigits("0" + s) && DigitsValue("0" + s) == DigitsValue(s)
  {
    if s == "" {
      assert "0" + s == "0";
      assert "0"[..0] == "";
    } else {
      LeadingZero(s[..|s| - 1]);
      assert ("0" + s)[..|s|] == "0" + s[..|s| - 1];
    }
  }

  /** The printed form parses back; so do its spellings with a plus sign or a leading zero. */
  lemma {:induction false} DecimalRoundTrip(n: nat)
    ensures ParseInteger(Decimal(n)) == Some(n)
    ensures ParseInteger("+" + Decimal(n)) == Some(n)
    ensures ParseInteger("0" + Decimal(n)) == Some(n)
  {
    var s := Decimal(n);
    DecimalValue(n);
    LeadingZero(s);
    assert IsDigit(s[0]) && s[0] !in {'+', '-'};
    assert ("+" + s)[1..] == s;
    assert ("0" + s)[0] == '0';
  }

  function Zeros(k: nat): string { seq(k, _ => '0') }

  lemma {:induction false} ZerosDoNotCount(k: nat, s: string)
    requires AllDigits(s)
    ensures AllDigits(Zeros(k) + s) && DigitsValue(Zeros(k) + s) == DigitsValue(s)
  {
    if k == 0 {
      assert Zeros(0) + s == s;
    } else {
      ZerosDoNotCount(k - 1, s);
      LeadingZero(Zeros(k - 1) + s);
      assert Zeros(k) + s == "0" + (Zeros(k - 1) + s);
    }
  }

  /** Digits are zeros and then the decimal numeral of their value. */
  lemma {:induction false} DigitsSpellTheirValue(d: string) returns (zeros: nat)
    requires d != "" && AllDigits(d)
    ensures d == Zeros(zeros) + Decimal(DigitsValue(d))
  {
    var n := |d| - 1;
    var last := d[n] as int - '0' as int;
    assert [DigitOf(last)] == [d[n]];
    zeros := 0;
    if n == 0 {
      assert d[..0] == "" && d == [d[0]];
      assert Zeros(0) + Decimal(DigitsValue(d)) == d;
    } else {
      var p := d[..n];
      zeros := DigitsSpellTheirValue(p);
      assert d == p + [d[n]];
      if DigitsValue(p) == 0 {
        assert Decimal(0) == "0";
        zeros := zeros + 1;
        assert Zeros(zeros) == Zeros(zeros - 1) + "0";
      } else {
        assert Decimal(DigitsValue(d)) == Decimal(DigitsValue(p)) + [DigitOf(last)];
        assert Zeros(zeros) + Decimal(DigitsValue(p)) + [d[n]] == Zeros(zeros) + Decimal(DigitsValue(d));
      }
    }
  }

  function Magnitude(v: int): nat { if v < 0 then -v else v }

  /** A spelling of an integer: a sign, unless it is missing; zeros; and the decimal numeral. */
  ghost predicate Spells(s: string, v: int, sign: string, zeros: nat) {
    && s == sign + (Zeros(zeros) + Decimal(Magnitude(v)))
    && (if sign == "-" then v <= 0 else sign in {"", "+"} && v >= 0)
  }

  lemma SpellingParses(s: string, v: int, sign: string, zeros: nat)
    requires Spells(s, v, sign, zeros)
    ensures ParseInteger(s) == Some(v)
  {
    var digits := Zeros(zeros) + Decimal(Magnitude(v));
    ZerosDoNotCount(zeros, Decimal(Magnitude(v)));
    DecimalValue(Magnitude(v));
    assert IsDigit(digits[0]);
    if sign == "" {
      assert s == digits;
    } else {
      assert s[0] == sign[0] && s[1..] == digits;
    }
  }

  lemma ParsedIntegerSpelled(s: string, v: int) returns (sign: string, zeros: nat)
    requires ParseInteger(s) == Some(v)
    ensures Spells(s, v, sign, zeros)
  {
    var signed := s[0] in {'+', '-'};
    var digits := if signed then s[1..] else s;
    sign := if !signed then "" else if s[0] == '-' then "-" else "+";
    zeros := DigitsSpellTheirValue(digits);
    assert s == sign + digits;
  }

  /** What parses as an integer is exactly its spellings. */
  lemma ParseIntegerExactly(s: string, v: int)
    ensures ParseInteger(s) == Some(v) <==> exists sign, zeros :: Spells(s, v, sign, zeros)
  {
    if ParseInteger(s) == Some(v) {
      var sign, zeros := ParsedIntegerSpelled(s, v);
      assert Spells(s, v, sign, zeros);
    }
    if sign, zeros :| Spells(s, v, sign, zeros) {
      SpellingParses(s, v, sign, zeros);
    }
  }

  // ---------- Addresses ----------

  /** A 20-byte address, as its 40 hexadecimal digits. */
  type Address = a: seq<nat> | |a| == 40 && forall i :: 0 <= i < |a| ==> a[i] < 16
    witness seq(40, _ => 0)

  predicate IsZero(a: Address) { forall i :: 0 <= i < |a| ==> a[i] == 0 }

  /** Which letters of an address EIP-55 capitalises; it comes from a Keccak hash, kept uninterpreted. */
  type Casing = (seq<nat>, nat) -> bool

  function HexChar(d: nat, upper: bool): (c: char)
    requires d < 16
    ensures HexValue(c) == Some(d) && c != '\n'
  {
    if d < 10 then '0' + d as char
    else if upper then 'A' + (d - 10) as char
    else 'a' + (d - 10) as char
  }

  function HexValue(c: char): Option<nat> {
    if '0' <= c <= '9' then Some(c as int - '0' as int)
    else if 'a' <= c <= 'f' then Some(c as int - 'a' as int + 10)
    else if 'A' <= c <= 'F' then Some(c as int - 'A' as int + 10)
    else None
  }

  /** `Address.Hex()`: "0x" and 40 digits with EIP-55 capitals. */
  function AddressHex(casing: Casing, a: Address): (s: string)
    ensures |s| == 42 && '\n' !in s
  {
    var digits := seq(40, i requires 0 <= i < 40 => HexChar(a[i], casing(a, i)));
    assert forall i :: 0 <= i < 40 ==> digits[i] == HexChar(a[i], casing(a, i));
    "0x" + digits
  }

  predicate AllHex(s: string) { forall i :: 0 <= i < |s| ==> HexValue(s[i]) != None }

  /** `common.IsHexAddress` then `common.HexToAddress`: an optional 0x and exactly 40 digits. */
  function ParseAddress(s: string): Option<Address> {
    var body := if |s| >= 2 && s[0] == '0' && s[1] in {'x', 'X'} then s[2..] else s;
    if |body| != 40 || !AllHex(body) then None
    else Some(seq(40, i requires 0 <= i < 40 => HexValue(body[i]).value))
  }

  /** Parsing undoes printing whatever the capitals are, so printing is injective. */
  lemma {:induction false} AddressRoundTrip(casing: Casing, a: Address)
    ensures ParseAddress(AddressHex(casing, a)) == Some(a)
  {
    var s := AddressHex(casing, a);
    var body := s[2..];
    assert |body| == 40;
    forall i | 0 <= i < 40
      ensures HexValue(body[i]) == Some(a[i])
    {
      assert body[i] == HexChar(a[i], casing(a, i));
    }
    var parsed := seq(40, i requires 0 <= i < 40 => HexValue(body[i]).value);
    assert parsed == a;
  }

  lemma HexValueExactly(c: char, d: nat)
    requires d < 16
    ensures HexValue(c) == Some(d) <==> c == HexChar(d, false) || c == HexChar(d, true)
  {
  }

  lemma PrefixedAddressParses(s: string, prefix: string, casing: Casing, a: Address)
    requires prefix in {"", "0x", "0X"} && s == prefix + AddressHex(casing, a)[2..]
    ensures ParseAddress(s) == Some(a)
  {
    AddressRoundTrip(casing, a);
    var body := AddressHex(casing, a)[2..];
    assert body[1] == HexChar(a[1], casing(a, 1));
    if prefix != "" {
      assert s[2..] == body;
    } else {
      assert s == body;
    }
  }

  lemma DigitsSpelled(body: string, a: Address) returns (casing: Casing)
    requires |body| == 40 && forall i :: 0 <= i < 40 ==> HexValue(body[i]) == Some(a[i])
    ensures body == AddressHex(casing, a)[2..]
  {
    casing := (x: seq<nat>, i: nat) => i < |body| && 'A' <= body[i] <= 'F';
    var printed := AddressHex(casing, a)[2..];
    forall i | 0 <= i < 40 ensures body[i] == printed[i] {
      HexValueExactly(body[i], a[i]);
      assert printed[i] == HexChar(a[i], casing(a, i));
    }
  }

  lemma ParsedAddressSpelled(s: string, a: Address) returns (prefix: string, casing: Casing)
    requires ParseAddress(s) == Some(a)
    ensures prefix in {"", "0x", "0X"} && s == prefix + AddressHex(casing, a)[2..]
  {
    var marked := |s| >= 2 && s[0] == '0' && s[1] in {'x', 'X'};
    var body := if marked then s[2..] else s;
    forall i | 0 <= i < 40 ensures HexValue(body[i]) == Some(a[i]) {
    }
    prefix := if !marked then "" else if s[1] == 'x' then "0x" else "0X";
    casing := DigitsSpelled(body, a);
    assert s == prefix + body;
  }

  /** What parses as an address is exactly its 40 digits, in any capitals, with or without 0x. */
  lemma ParseAddressExactly(s: string, a: Address)
    ensures ParseAddress(s) == Some(a) <==>
            exists prefix, casing :: prefix in {"", "0x", "0X"} && s == prefix + AddressHex(casing, a)[2..]
  {
    if ParseAddress(s) == Some(a) {
      var prefix, casing := ParsedAddressSpelled(s, a);
    }
    if prefix, casing :| prefix in {"", "0x", "0X"} && s == prefix + AddressHex(casing, a)[2..] {
      PrefixedAddressParses(s, prefix, casing, a);
    }
  }

  lemma HexDigits(d: nat)
    requires d < 16
    ensures HexChar(d, false) == "0123456789abcdef"[d] && HexChar(d, true) == "0123456789ABCDEF"[d]
  {
  }

  lemma DecimalExample()
    ensures Decimal(1089) == "1089"
  {
    assert Decimal(1) == "1" && Decimal(10) == "10" && Decimal(108) == "108";
  }
}
