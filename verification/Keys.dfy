/** Signing keys: loading them in order, signing with the first, and publishing their public halves. */
module Keys {
  import opened Text
  import opened Bits
  import opened Encoding

  datatype PublicKey = PublicKey(n: nat, e: nat)

  datatype Jwk = Jwk(kty: string, use: string, alg: string, kid: string, n: string, e: string)

  /** SHA-256, left open. */
  type Hash = string -> seq<Byte>

  function PublicJwk(kid: string, pub: PublicKey): Jwk {
    Jwk("RSA", "sig", "RS256", kid, EncodeInteger(pub.n), EncodeInteger(pub.e))
  }

  /** What a validator rebuilds from a published key. */
  function ReadJwk(k: Jwk): Option<PublicKey> {
    match (DecodeInteger(k.n), DecodeInteger(k.e))
    case (Some(n), Some(e)) => Some(PublicKey(n, e))
    case _ => None
  }

  lemma PublishedKeyRoundTrips(kid: string, pub: PublicKey)
    ensures ReadJwk(PublicJwk(kid, pub)) == Some(pub)
  {
    IntegerRoundTrip(pub.n);
    IntegerRoundTrip(pub.e);
  }

  const BEFORE_E: string := "{\"e\":\""
  const BEFORE_N: string := ",\"kty\":\"RSA\",\"n\":\""
  const AFTER_N: string := "\"}"

  /** The canonical JSON of section 3 of RFC 7638: members e, kty and n in that order, no white space. */
  function Canonical(pub: PublicKey): string {
    Fields(BEFORE_E, EncodeInteger(pub.e), BEFORE_N, EncodeInteger(pub.n), AFTER_N)
  }

  /** Two quoted values between fixed pieces; the first value's closing quote is written here. */
  function Fields(open: string, e: string, middle: string, n: string, close: string): string {
    open + (e + ['"'] + (middle + (n + close)))
  }

  function Thumbprint(sha: Hash, pub: PublicKey): string { Encode(sha(Canonical(pub))) }

  lemma FieldsInjective(open: string, e: string, e': string, middle: string, n: string, n': string, close: string)
    requires '"' !in e && '"' !in e'
    requires Fields(open, e, middle, n, close) == Fields(open, e', middle, n', close)
    ensures e == e' && n == n'
  {
    CutAtLength(open, open, e + ['"'] + (middle + (n + close)), e' + ['"'] + (middle + (n' + close)));
    CutAtDelimiter('"', e, e', middle + (n + close), middle + (n' + close));
    CutAtLength(middle, middle, n + close, n' + close);
    CutAtLength(n, n', close, close);
  }

  /** Distinct keys have distinct thumbprint inputs. */
  lemma CanonicalInjective(a: PublicKey, b: PublicKey)
    requires Canonical(a) == Canonical(b)
    ensures a == b
  {
    IntegerRoundTrip(a.e);
    IntegerRoundTrip(b.e);
    FieldsInjective(BEFORE_E, EncodeInteger(a.e), EncodeInteger(b.e),
                    BEFORE_N, EncodeInteger(a.n), EncodeInteger(b.n), AFTER_N);
    EncodeIntegerInjective(a.e, b.e);
    EncodeIntegerInjective(a.n, b.n);
  }

  // ---------- Loading ----------

  datatype SigningKey = SigningKey(kid: string, pub: PublicKey)

  datatype LoadError = NoKeys | Unreadable(at: nat) | TooSmall(at: nat) | Duplicate(at: nat)

  const MIN_RSA_BITS: nat := 2048

  function BitLen(n: nat): nat { if n == 0 then 0 else 1 + BitLen(n / 2) }

  /** PEM and X.509 parsing, left open: the public half of a readable RSA key. */
  type Parser = string -> Option<PublicKey>

  predicate Acceptable(parse: Parser, pem: string) {
    parse(pem).Some? && BitLen(parse(pem).value.n) >= MIN_RSA_BITS
  }

  function KeyOf(parse: Parser, sha: Hash, pem: string): SigningKey
    requires parse(pem).Some?
  {
    SigningKey(Thumbprint(sha, parse(pem).value), parse(pem).value)
  }

  function Kids(keys: seq<SigningKey>): set<string> { set k: SigningKey | k in keys :: k.kid }

  predicate DistinctKids(keys: seq<SigningKey>) {
    forall i, j :: 0 <= i < j < |keys| ==> keys[i].kid != keys[j].kid
  }

  /** What Load returns: each PEM's key, in order, under its own thumbprint, no thumbprint twice. */
  ghost predicate LoadedFrom(parse: Parser, sha: Hash, pems: seq<string>, keys: seq<SigningKey>) {
    && |keys| == |pems|
    && (forall i :: 0 <= i < |pems| ==> Acceptable(parse, pems[i]) && keys[i] == KeyOf(parse, sha, pems[i]))
    && DistinctKids(keys)
  }

  /** `Load` reports the first bad PEM, with what is wrong with it. */
  ghost predicate FailsAt(parse: Parser, sha: Hash, pems: seq<string>, e: LoadError) {
    match e
    case NoKeys => pems == []
    case Unreadable(k) => k < |pems| && parse(pems[k]).None? && (exists keys :: LoadedFrom(parse, sha, pems[..k], keys))
    case TooSmall(k) =>
      && k < |pems| && parse(pems[k]).Some? && BitLen(parse(pems[k]).value.n) < MIN_RSA_BITS
      && (exists keys :: LoadedFrom(parse, sha, pems[..k], keys))
    case Duplicate(k) =>
      && k < |pems| && Acceptable(parse, pems[k])
      && (exists keys :: LoadedFrom(parse, sha, pems[..k], keys) && KeyOf(parse, sha, pems[k]).kid in Kids(keys))
  }

  lemma KidsGrow(all: seq<SigningKey>, key: SigningKey)
    ensures Kids(all + [key]) == Kids(all) + {key.kid}
  {
  }

  lemma LoadOneMore(parse: Parser, sha: Hash, pems: seq<string>, i: nat, all: seq<SigningKey>)
    requires i < |pems| && Acceptable(parse, pems[i]) && LoadedFrom(parse, sha, pems[..i], all)
    requires KeyOf(parse, sha, pems[i]).kid !in Kids(all)
    ensures LoadedFrom(parse, sha, pems[..i + 1], all + [KeyOf(parse, sha, pems[i])])
  {
    var key := KeyOf(parse, sha, pems[i]);
    var more, grown := pems[..i + 1], all + [key];
    forall j | 0 <= j < |more| ensures Acceptable(parse, more[j]) && grown[j] == KeyOf(parse, sha, more[j]) {
      if j < i {
        assert more[j] == pems[..i][j] && grown[j] == all[j];
      }
    }
    AppendDistinct(all, key);
  }

  lemma AppendDistinct(all: seq<SigningKey>, key: SigningKey)
    requires DistinctKids(all) && key.kid !in Kids(all)
    ensures DistinctKids(all + [key])
  {
    forall j | 0 <= j < |all| ensures all[j].kid != key.kid {
      assert all[j] in all && all[j].kid in Kids(all);
    }
  }

  /** A thumbprint seen before makes the whole list unloadable. */
  lemma RepeatedKid(parse: Parser, sha: Hash, pems: seq<string>, i: nat, all: seq<SigningKey>)
    requires i < |pems| && Acceptable(parse, pems[i]) && LoadedFrom(parse, sha, pems[..i], all)
    requires KeyOf(parse, sha, pems[i]).kid in Kids(all)
    ensures forall keys :: !LoadedFrom(parse, sha, pems, keys)
  {
  }

  method Load(parse: Parser, sha: Hash, pems: seq<string>) returns (r: Result<seq<SigningKey>, LoadError>)
    ensures r.Ok? ==> pems != [] && LoadedFrom(parse, sha, pems, r.value)
    ensures r.Err? ==> FailsAt(parse, sha, pems, r.error)
    ensures r.Err? ==> forall keys :: pems != [] ==> !LoadedFrom(parse, sha, pems, keys)
  {
    if |pems| == 0 {
      return Err(NoKeys);
    }
    var all: seq<SigningKey> := [];
    var seen: set<string> := {};
    for i := 0 to |pems|
      invariant LoadedFrom(parse, sha, pems[..i], all)
      invariant seen == Kids(all)
    {
      var priv := parse(pems[i]);
      if priv.None? {
        return Err(Unreadable(i));
      }
      if BitLen(priv.value.n) < MIN_RSA_BITS {
        return Err(TooSmall(i));
      }
      var kid := Thumbprint(sha, priv.value);
      if kid in seen {
        RepeatedKid(parse, sha, pems, i, all);
        return Err(Duplicate(i));
      }
      LoadOneMore(parse, sha, pems, i, all);
      KidsGrow(all, KeyOf(parse, sha, pems[i]));
      seen := seen + {kid};
      all := all + [SigningKey(kid, priv.value)];
    }
    assert pems[..|pems|] == pems;
    return Ok(all);
  }

  /** A thumbprint is the base64url form of the hash of the canonical input, and tells hashes apart. */
  lemma ThumbprintHolds(sha: Hash, pub: PublicKey)
    ensures Decode(Thumbprint(sha, pub)) == Some(sha(Canonical(pub)))
  {
    Base64RoundTrip(sha(Canonical(pub)));
  }

  /** The canonical inputs of these keys do not collide under the hash. */
  ghost predicate NoCollision(sha: Hash, keys: set<PublicKey>) {
    forall a, b :: a in keys && b in keys && sha(Canonical(a)) == sha(Canonical(b)) ==> Canonical(a) == Canonical(b)
  }

  function ListedKeys(parse: Parser, pems: seq<string>): set<PublicKey> {
    set i | 0 <= i < |pems| && parse(pems[i]).Some? :: parse(pems[i]).value
  }

  ghost predicate RepeatsKey(parse: Parser, pems: seq<string>) {
    exists i, j :: 0 <= i < j < |pems| && parse(pems[i]) == parse(pems[j])
  }

  /** Among acceptable keys whose thumbprints do not collide, what can be loaded is exactly the lists
      without a repeated key. */
  lemma LoadRejectsExactlyRepeats(parse: Parser, sha: Hash, pems: seq<string>)
    requires forall i :: 0 <= i < |pems| ==> Acceptable(parse, pems[i])
    requires NoCollision(sha, ListedKeys(parse, pems))
    ensures (exists keys :: LoadedFrom(parse, sha, pems, keys)) <==> !RepeatsKey(parse, pems)
  {
    var keys := seq(|pems|, i requires 0 <= i < |pems| => KeyOf(parse, sha, pems[i]));
    forall i, j | 0 <= i < j < |pems|
      ensures keys[i].kid == keys[j].kid <==> parse(pems[i]) == parse(pems[j])
    {
      var a, b := parse(pems[i]).value, parse(pems[j]).value;
      assert a in ListedKeys(parse, pems) && b in ListedKeys(parse, pems);
      if keys[i].kid == keys[j].kid {
        ThumbprintHolds(sha, a);
        ThumbprintHolds(sha, b);
        CanonicalInjective(a, b);
      }
    }
    if !RepeatsKey(parse, pems) {
      assert LoadedFrom(parse, sha, pems, keys);
    }
    if ks :| LoadedFrom(parse, sha, pems, ks) {
      assert ks == keys;
      forall i, j | 0 <= i < j < |pems| ensures parse(pems[i]) != parse(pems[j]) {
        assert keys[i].kid != keys[j].kid;
      }
    }
  }

  // ---------- Publishing and resolving ----------

  function Published(keys: seq<SigningKey>): (r: seq<Jwk>)
    ensures |r| == |keys|
  {
    seq(|keys|, i requires 0 <= i < |keys| => PublicJwk(keys[i].kid, keys[i].pub))
  }

  /** `KeySet.JWKS`. */
  method Jwks(keys: seq<SigningKey>) returns (r: seq<Jwk>)
    ensures r == Published(keys)
  {
    r := [];
    for i := 0 to |keys|
      invariant r == Published(keys)[..i]
    {
      assert Published(keys)[..i + 1] == Published(keys)[..i] + [Published(keys)[i]];
      r := r + [PublicJwk(keys[i].kid, keys[i].pub)];
    }
  }

  /** A validator's choice: the first published key with the token's kid. */
  function Resolve(jwks: seq<Jwk>, kid: string): Option<PublicKey> {
    if jwks == [] then None
    else if jwks[0].kid == kid then ReadJwk(jwks[0])
    else Resolve(jwks[1..], kid)
  }

  lemma {:induction false} ResolvesListedKey(keys: seq<SigningKey>, k: SigningKey)
    requires DistinctKids(keys) && k in keys
    ensures Resolve(Published(keys), k.kid) == Some(k.pub)
  {
    PublishedKeyRoundTrips(keys[0].kid, keys[0].pub);
    assert Published(keys)[1..] == Published(keys[1..]);
    if k != keys[0] {
      var i :| 0 <= i < |keys| && keys[i] == k;
      assert keys[0].kid != keys[i].kid;
      assert keys[1..][i - 1] == k;
      ResolvesListedKey(keys[1..], k);
    }
  }

  lemma {:induction false} ResolvedIsListed(keys: seq<SigningKey>, kid: string)
    requires Resolve(Published(keys), kid).Some?
    ensures exists k :: k in keys && k.kid == kid && Resolve(Published(keys), kid) == Some(k.pub)
  {
    PublishedKeyRoundTrips(keys[0].kid, keys[0].pub);
    assert Published(keys)[1..] == Published(keys[1..]);
    if keys[0].kid != kid {
      ResolvedIsListed(keys[1..], kid);
      var k :| k in keys[1..] && k.kid == kid && Resolve(Published(keys), kid) == Some(k.pub);
      assert k in keys;
    }
  }

  // ---------- Against the published forms ----------

  lemma FieldsFlat(open: string, e: string, middle: string, n: string, close: string,
                   label1: string, kty: string, label2: string)
    requires ['"'] + middle == label1 + kty + label2
    ensures Fields(open, e, middle, n, close) == open + e + label1 + kty + label2 + n + close
  {
    assert Fields(open, e, middle, n, close) == open + e + (['"'] + middle) + n + close;
    assert open + e + (label1 + kty + label2) == open + e + label1 + kty + label2;
  }

  lemma MiddleSpells()
    ensures ['"'] + BEFORE_N == "\",\"kty\":\"" + "RSA" + "\",\"n\":\""
  {
  }

  /** The thumbprint's input is made of the required members of the published key, in lexicographic order,
      and the key is published for RS256 signatures. */
  lemma CanonicalIsOfPublishedJwk(kid: string, pub: PublicKey)
    ensures var k := PublicJwk(kid, pub);
            && Canonical(pub) == "{\"e\":\"" + k.e + "\",\"kty\":\"" + k.kty + "\",\"n\":\"" + k.n + "\"}"
            && k.kid == kid && k.use == "sig" && k.alg == "RS256"
  {
    MiddleSpells();
    FieldsFlat(BEFORE_E, EncodeInteger(pub.e), BEFORE_N, EncodeInteger(pub.n), AFTER_N,
               "\",\"kty\":\"", "RSA", "\",\"n\":\"");
  }

  /** What the size test asks of a modulus. */
  lemma {:induction false} BitLenMeasures(n: nat, bits: nat)
    ensures BitLen(n) >= bits + 1 <==> n >= Pow(2, bits)
  {
    if bits == 0 {
      assert BitLen(n) >= 1 <==> n > 0;
    } else if n > 0 {
      BitLenMeasures(n / 2, bits - 1);
    } else {
      BitLenMeasures(0, bits - 1);
    }
  }

  /** An acceptable PEM is a readable key with a modulus of 2048 bits or more. */
  lemma AcceptableExactly(parse: Parser, pem: string)
    ensures Acceptable(parse, pem) <==> parse(pem).Some? && parse(pem).value.n >= Pow(2, 2047)
  {
    if parse(pem).Some? {
      BitLenMeasures(parse(pem).value.n, 2047);
    }
  }
}
