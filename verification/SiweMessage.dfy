/** The EIP-4361 message dauth builds for a wallet to sign. */
module SiweMessage {
  import opened Text

  /** Times are nanoseconds; the chain id is a uint64. */
  datatype Message = Message(
    domain: string, address: Address, statement: string, uri: string,
    chainId: nat, nonce: string, issuedAt: int, expirationTime: int)

  /** The two renderings that come from libraries: EIP-55 capitals and RFC 3339 of a whole second in UTC. */
  datatype Printer = Printer(casing: Casing, stamp: int -> string)

  const STAMP_LENGTH: nat := 20

  /** RFC 3339 in UTC is a one-line text of fixed width that tells the seconds of [lo, hi) apart
      (the years 0000 to 9999). */
  ghost predicate FaithfulStamps(p: Printer, lo: int, hi: int) {
    && (forall s :: lo <= s < hi ==> |p.stamp(s)| == STAMP_LENGTH && '\n' !in p.stamp(s))
    && (forall s, t :: lo <= s < hi && lo <= t < hi && p.stamp(s) == p.stamp(t) ==> s == t)
  }

  /** The whole second a moment lies in. */
  function Second(t: int): (s: int)
    ensures s * 1_000_000_000 <= t < (s + 1) * 1_000_000_000
  {
    t / 1_000_000_000
  }

  predicate Dated(m: Message, lo: int, hi: int) {
    lo <= Second(m.issuedAt) < hi && lo <= Second(m.expirationTime) < hi
  }

  predicate OneLineFields(m: Message) {
    '\n' !in m.domain && '\n' !in m.statement && '\n' !in m.uri && '\n' !in m.nonce
  }

  /** In two pieces, because the solver is slow to look through one long literal. */
  const GREETING: string := " wants you to sign in " + "with your Ethereum account:"

  /** The message as the lines the standard lays out. */
  function Lines(p: Printer, m: Message): (r: seq<string>)
    ensures |r| == 11
  {
    [ m.domain + GREETING,
      AddressHex(p.casing, m.address),
      "",
      m.statement,
      "",
      "URI: " + m.uri,
      "Version: 1",
      "Chain ID: " + Decimal(m.chainId),
      "Nonce: " + m.nonce,
      "Issued At: " + p.stamp(Second(m.issuedAt)),
      "Expiration Time: " + p.stamp(Second(m.expirationTime)) ]
  }

  function Join(lines: seq<string>): string
    requires lines != []
  {
    if |lines| == 1 then lines[0] else lines[0] + "\n" + Join(lines[1..])
  }

  function TextOf(p: Printer, m: Message): string { Join(Lines(p, m)) }

  lemma {:induction false} JoinSnoc(lines: seq<string>, n: nat)
    requires 0 < n < |lines|
    ensures Join(lines[..n + 1]) == Join(lines[..n]) + "\n" + lines[n]
    decreases n
  {
    var long, short := lines[..n + 1], lines[..n];
    if n > 1 {
      JoinSnoc(lines[1..], n - 1);
      assert long[1..] == lines[1..][..n] && short[1..] == lines[1..][..n - 1];
    } else {
      assert long[1..] == [lines[1]];
    }
  }

  lemma WriteLine(lines: seq<string>, n: nat, b: string)
    requires 0 < n < |lines| && b == Join(lines[..n]) + "\n"
    ensures b + lines[n] == Join(lines[..n + 1])
    ensures b + (lines[n] + "\n") == Join(lines[..n + 1]) + "\n"
  {
    JoinSnoc(lines, n);
    assert b + (lines[n] + "\n") == (b + lines[n]) + "\n";
  }

  lemma WriteBlank(lines: seq<string>, n: nat, b: string)
    requires 0 < n < |lines| && b == Join(lines[..n]) && lines[n] == ""
    ensures b + "\n\n" == Join(lines[..n + 1]) + "\n"
  {
    JoinSnoc(lines, n);
    assert b + "\n\n" == (b + "\n" + "") + "\n";
  }

  /** `Message.String`: the pieces written one after another give the laid-out lines. */
  method String(p: Printer, m: Message) returns (b: string)
    ensures b == TextOf(p, m)
  {
    ghost var l := Lines(p, m);
    b := m.domain + GREETING + "\n";
    assert b == Join(l[..1]) + "\n";
    WriteLine(l, 1, b);
    b := b + AddressHex(p.casing, m.address);
    WriteBlank(l, 2, b);
    b := b + "\n\n";
    WriteLine(l, 3, b);
    b := b + m.statement;
    WriteBlank(l, 4, b);
    b := b + "\n\n";
    WriteLine(l, 5, b);
    b := b + ("URI: " + m.uri + "\n");
    WriteLine(l, 6, b);
    b := b + "Version: 1\n";
    WriteLine(l, 7, b);
    b := b + ("Chain ID: " + Decimal(m.chainId) + "\n");
    WriteLine(l, 8, b);
    b := b + ("Nonce: " + m.nonce + "\n");
    WriteLine(l, 9, b);
    b := b + ("Issued At: " + p.stamp(Second(m.issuedAt)) + "\n");
    WriteLine(l, 10, b);
    b := b + ("Expiration Time: " + p.stamp(Second(m.expirationTime)));
    assert l[..11] == l;
  }

  // ---------- Injectivity ----------

  lemma {:induction false} JoinInjective(a: seq<string>, b: seq<string>)
    requires |a| == |b| > 0
    requires forall i :: 0 <= i < |a| ==> '\n' !in a[i] && '\n' !in b[i]
    requires Join(a) == Join(b)
    ensures a == b
  {
    if |a| > 1 {
      CutAtDelimiter('\n', a[0], b[0], Join(a[1..]), Join(b[1..]));
      JoinInjective(a[1..], b[1..]);
      assert a == [a[0]] + a[1..] && b == [b[0]] + b[1..];
    }
  }

  lemma DecimalInjective(a: nat, b: nat)
    requires Decimal(a) == Decimal(b)
    ensures a == b
  {
    DecimalRoundTrip(a);
    DecimalRoundTrip(b);
  }

  lemma GreetingIsOneLine()
    ensures '\n' !in GREETING
  {
    assert '\n' !in " wants you to sign in ";
    assert '\n' !in "with your Ethereum account:";
  }

  lemma OneLine(p: Printer, m: Message, lo: int, hi: int)
    requires FaithfulStamps(p, lo, hi) && Dated(m, lo, hi) && OneLineFields(m)
    ensures forall i :: 0 <= i < 11 ==> '\n' !in Lines(p, m)[i]
  {
    GreetingIsOneLine();
    assert '\n' !in m.domain + GREETING;
  }

  /** Equal texts of one-line fields come from equal messages, times equal to the second. */
  lemma MessageInjective(p: Printer, lo: int, hi: int, m: Message, n: Message)
    requires FaithfulStamps(p, lo, hi)
    requires Dated(m, lo, hi) && Dated(n, lo, hi) && OneLineFields(m) && OneLineFields(n)
    requires TextOf(p, m) == TextOf(p, n)
    ensures m.domain == n.domain && m.address == n.address && m.statement == n.statement
    ensures m.uri == n.uri && m.chainId == n.chainId && m.nonce == n.nonce
    ensures Second(m.issuedAt) == Second(n.issuedAt)
    ensures Second(m.expirationTime) == Second(n.expirationTime)
  {
    OneLine(p, m, lo, hi);
    OneLine(p, n, lo, hi);
    JoinInjective(Lines(p, m), Lines(p, n));
    FirstLinesInjective(p, m, n);
    MiddleLinesInjective(p, m, n);
    LastLinesInjective(p, lo, hi, m, n);
  }

  lemma AddressHexInjective(casing: Casing, a: Address, b: Address)
    requires AddressHex(casing, a) == AddressHex(casing, b)
    ensures a == b
  {
    AddressRoundTrip(casing, a);
    AddressRoundTrip(casing, b);
  }

  lemma FirstLinesInjective(p: Printer, m: Message, n: Message)
    requires Lines(p, m)[..4] == Lines(p, n)[..4]
    ensures m.domain == n.domain && m.address == n.address && m.statement == n.statement
  {
    var a, b := Lines(p, m)[..4], Lines(p, n)[..4];
    assert a[0] == m.domain + GREETING && b[0] == n.domain + GREETING;
    CutAtLength(m.domain, n.domain, GREETING, GREETING);
    assert a[1] == AddressHex(p.casing, m.address) && b[1] == AddressHex(p.casing, n.address);
    AddressHexInjective(p.casing, m.address, n.address);
    assert a[3] == m.statement && b[3] == n.statement;
  }

  lemma MiddleLinesInjective(p: Printer, m: Message, n: Message)
    requires Lines(p, m)[5..9] == Lines(p, n)[5..9]
    ensures m.uri == n.uri && m.chainId == n.chainId && m.nonce == n.nonce
  {
    var a, b := Lines(p, m)[5..9], Lines(p, n)[5..9];
    SamePrefix("URI: ", m.uri, n.uri, a[0], b[0]);
    SamePrefix("Chain ID: ", Decimal(m.chainId), Decimal(n.chainId), a[2], b[2]);
    DecimalInjective(m.chainId, n.chainId);
    SamePrefix("Nonce: ", m.nonce, n.nonce, a[3], b[3]);
  }

  lemma LastLinesInjective(p: Printer, lo: int, hi: int, m: Message, n: Message)
    requires FaithfulStamps(p, lo, hi) && Dated(m, lo, hi) && Dated(n, lo, hi)
    requires Lines(p, m)[9] == Lines(p, n)[9] && Lines(p, m)[10] == Lines(p, n)[10]
    ensures Second(m.issuedAt) == Second(n.issuedAt)
    ensures Second(m.expirationTime) == Second(n.expirationTime)
  {
    var a, b := Lines(p, m), Lines(p, n);
    SamePrefix("Issued At: ", p.stamp(Second(m.issuedAt)), p.stamp(Second(n.issuedAt)), a[9], b[9]);
    SamePrefix("Expiration Time: ", p.stamp(Second(m.expirationTime)), p.stamp(Second(n.expirationTime)), a[10], b[10]);
  }

  lemma SamePrefix(caption: string, x: string, y: string, a: string, b: string)
    requires a == caption + x && b == caption + y && a == b
    ensures x == y
  {
    CutAtLength(caption, caption, x, y);
  }

  /** Nonces of one length (dauth's are 64 hexadecimal digits) are told apart by the text alone:
      nothing is asked of the domain, statement or URI, not even that they are one line each. */
  lemma TextFixesNonce(p: Printer, lo: int, hi: int, m: Message, n: Message)
    requires FaithfulStamps(p, lo, hi) && Dated(m, lo, hi) && Dated(n, lo, hi)
    requires |m.nonce| == |n.nonce|
    requires TextOf(p, m) == TextOf(p, n)
    ensures m.nonce == n.nonce && Second(m.issuedAt) == Second(n.issuedAt)
    ensures Second(m.expirationTime) == Second(n.expirationTime)
  {
    var a, b := Lines(p, m), Lines(p, n);
    assert a[..11] == a && b[..11] == b;
    PeelLast(a, b, 10);
    PeelLast(a, b, 9);
    PeelLast(a, b, 8);
    SamePrefix("Nonce: ", m.nonce, n.nonce, a[8], b[8]);
    LastLinesInjective(p, lo, hi, m, n);
  }

  lemma PeelLast(a: seq<string>, b: seq<string>, n: nat)
    requires 0 < n < |a| && n < |b| && |a[n]| == |b[n]|
    requires Join(a[..n + 1]) == Join(b[..n + 1])
    ensures a[n] == b[n] && Join(a[..n]) == Join(b[..n])
  {
    JoinSnoc(a, n);
    JoinSnoc(b, n);
    CutAtLength(Join(a[..n]) + "\n", Join(b[..n]) + "\n", a[n], b[n]);
    CutAtLength(Join(a[..n]), Join(b[..n]), "\n", "\n");
  }

  // ---------- A rendering that meets FaithfulStamps ----------

  function PowerOfTen(w: nat): nat { if w == 0 then 1 else 10 * PowerOfTen(w - 1) }

  function Padded(n: nat, w: nat): (s: string)
    ensures |s| == w && AllDigits(s)
  {
    if w == 0 then "" else Padded(n / 10, w - 1) + [DigitOf(n % 10)]
  }

  lemma {:induction false} PaddedInjective(a: nat, b: nat, w: nat)
    requires a < PowerOfTen(w) && b < PowerOfTen(w) && Padded(a, w) == Padded(b, w)
    ensures a == b
  {
    if w > 0 {
      CutAtLength(Padded(a / 10, w - 1), Padded(b / 10, w - 1), [DigitOf(a % 10)], [DigitOf(b % 10)]);
      assert [DigitOf(a % 10)][0] == [DigitOf(b % 10)][0];
      PaddedInjective(a / 10, b / 10, w - 1);
    }
  }

  /** The assumption on timestamps can be met over any range a 20-character text can tell apart. */
  lemma StampsCanBeFaithful(casing: Casing)
    ensures FaithfulStamps(Printer(casing, (s: int) => if s < 0 then "" else Padded(s, STAMP_LENGTH)),
                           0, PowerOfTen(STAMP_LENGTH))
  {
    var p := Printer(casing, (s: int) => if s < 0 then "" else Padded(s, STAMP_LENGTH));
    forall s | 0 <= s < PowerOfTen(STAMP_LENGTH)
      ensures |p.stamp(s)| == STAMP_LENGTH && '\n' !in p.stamp(s)
    {
      assert AllDigits(Padded(s, STAMP_LENGTH));
    }
    forall s, t | 0 <= s < PowerOfTen(STAMP_LENGTH) && 0 <= t < PowerOfTen(STAMP_LENGTH) && p.stamp(s) == p.stamp(t)
      ensures s == t
    {
      PaddedInjective(s, t, STAMP_LENGTH);
    }
  }

  // ---------- Reading a message ----------

  /** The lines of a text. */
  function Split(s: string): (lines: seq<string>)
    ensures lines != []
  {
    if s == "" then [""]
    else
      var rest := Split(s[1..]);
      if s[0] == '\n' then [""] + rest else [[s[0]] + rest[0]] + rest[1..]
  }

  lemma {:induction false} SplitLast(line: string)
    requires '\n' !in line
    ensures Split(line) == [line]
  {
    if line != "" {
      SplitLast(line[1..]);
      assert [line[0]] + line[1..] == line;
    }
  }

  lemma {:induction false} SplitFirst(line: string, rest: string)
    requires '\n' !in line
    ensures Split(line + "\n" + rest) == [line] + Split(rest)
  {
    var s := line + "\n" + rest;
    if line == "" {
      assert s[1..] == rest;
    } else {
      SplitFirst(line[1..], rest);
      assert s[1..] == line[1..] + "\n" + rest;
      assert [line[0]] + line[1..] == line;
      assert ([line[1..]] + Split(rest))[1..] == Split(rest);
    }
  }

  lemma {:induction false} SplitJoin(lines: seq<string>)
    requires lines != [] && forall i :: 0 <= i < |lines| ==> '\n' !in lines[i]
    ensures Split(Join(lines)) == lines
  {
    if |lines| == 1 {
      SplitLast(lines[0]);
    } else {
      SplitJoin(lines[1..]);
      SplitFirst(lines[0], Join(lines[1..]));
      assert lines == [lines[0]] + lines[1..];
    }
  }

  function AfterLabel(caption: string, line: string): Option<string> {
    if |line| >= |caption| && line[..|caption|] == caption then Some(line[|caption|..]) else None
  }

  function BeforeEnding(line: string, ending: string): Option<string> {
    if |line| >= |ending| && line[|line| - |ending|..] == ending then Some(line[..|line| - |ending|]) else None
  }

  /** The fields a wallet shows, as texts. */
  datatype Fields = Fields(
    domain: string, address: string, statement: string, uri: string, version: string,
    chainId: string, nonce: string, issuedAt: string, expirationTime: string)

  /** What a reader that follows the layout of EIP-4361 finds in a text, each field by its place and label. */
  ghost predicate Reads(text: string, f: Fields) {
    var l := Split(text);
    && |l| == 11 && l[2] == "" && l[4] == ""
    && BeforeEnding(l[0], GREETING) == Some(f.domain)
    && l[1] == f.address && l[3] == f.statement
    && AfterLabel("URI: ", l[5]) == Some(f.uri)
    && AfterLabel("Version: ", l[6]) == Some(f.version)
    && AfterLabel("Chain ID: ", l[7]) == Some(f.chainId)
    && AfterLabel("Nonce: ", l[8]) == Some(f.nonce)
    && AfterLabel("Issued At: ", l[9]) == Some(f.issuedAt)
    && AfterLabel("Expiration Time: ", l[10]) == Some(f.expirationTime)
  }

  lemma LabelRead(caption: string, x: string)
    ensures AfterLabel(caption, caption + x) == Some(x)
  {
  }

  lemma EndingRead(x: string, ending: string)
    ensures BeforeEnding(x + ending, ending) == Some(x)
  {
  }

  /** A reader finds in the printed text each of the message's fields in its own place. */
  lemma PrintedReads(p: Printer, m: Message, lo: int, hi: int)
    requires FaithfulStamps(p, lo, hi) && Dated(m, lo, hi) && OneLineFields(m)
    ensures Reads(TextOf(p, m), Fields(
                    m.domain, AddressHex(p.casing, m.address), m.statement, m.uri, "1", Decimal(m.chainId), m.nonce,
                    p.stamp(Second(m.issuedAt)), p.stamp(Second(m.expirationTime))))
  {
    OneLine(p, m, lo, hi);
    SplitJoin(Lines(p, m));
    EndingRead(m.domain, GREETING);
    LabelRead("URI: ", m.uri);
    assert AfterLabel("Version: ", "Version: 1") == Some("1");
    LabelRead("Chain ID: ", Decimal(m.chainId));
    LabelRead("Nonce: ", m.nonce);
    LabelRead("Issued At: ", p.stamp(Second(m.issuedAt)));
    LabelRead("Expiration Time: ", p.stamp(Second(m.expirationTime)));
  }
}
