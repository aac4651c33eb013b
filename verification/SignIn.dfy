/** The sign-in protocol as a state machine: any number of replicas, each request broken into its
    atomic steps, sharing one challenge store. */
module SignIn {
  import opened Text
  import opened ChallengeStore
  import opened SiweMessage
  import M = MemoryStore
  import P = PostgresStore

  // ---------- The shared store behind the handlers ----------

  datatype Backing = InMemory(maxEntries: int, shards: M.Shards) | Shared(table: Table)

  ghost predicate IsEmpty(b: Backing) {
    match b
    case InMemory(_, shards) => M.Empty(shards)
    case Shared(table) => table == map[]
  }

  function Lookup(b: Backing, id: string): Option<Challenge> {
    match b
    case InMemory(_, shards) =>
      var t := shards[ShardOf(id)];
      if id in t then Some(t[id]) else None
    case Shared(table) => if id in table then Some(table[id]) else None
  }

  /** One operation on the backing store; faults are the shared table's only. */
  function Act(b: Backing, op: Op, fault: P.Fault): (Backing, Answer)
    requires ShardOfOp(op) < SHARDS
  {
    match b
    case InMemory(maxEntries, shards) =>
      var (shards', a) := M.Step(maxEntries, shards, op);
      (InMemory(maxEntries, shards'), a)
    case Shared(table) =>
      var (table', a) := P.Step(table, op, fault);
      (Shared(table'), a)
  }

  /** Whether a Put took effect, whatever its caller was told. */
  predicate TookEffect(b: Backing, op: Op, fault: P.Fault)
    requires op.Put?
  {
    match b
    case InMemory(_, _) => Act(b, op, fault).1 == Stored
    case Shared(table) => fault != P.LostBefore && op.id !in table
  }

  /** What the store may give back for a challenge put into it: all of it but a rounded-down expiry. */
  predicate KeptAs(put: Challenge, kept: Challenge) {
    kept.message == put.message && kept.address == put.address && kept.audience == put.audience
    && kept.expiresAt <= put.expiresAt
  }

  predicate SameOrGone(before: Option<Challenge>, after: Option<Challenge>) { after == None || after == before }

  /** What one operation may do to a store, all the protocol relies on. */
  ghost predicate Contract(b: Backing, b': Backing, op: Op, answer: Answer, took: bool) {
    match op
    case Put(_, id, ch) =>
      && (forall x :: x != id || !took ==> SameOrGone(Lookup(b, x), Lookup(b', x)))
      && (took ==> Lookup(b', id).Some? && KeptAs(ch, Lookup(b', id).value))
      && (answer == Stored ==> took)
    case Consume(now, id) =>
      && Shrinks(b, b')
      && (answer.Found? ==> Lookup(b, id) == Some(answer.ch) && !Expired(now, answer.ch) && Lookup(b', id) == None)
    case Sweep(_, _) => Shrinks(b, b')
  }

  ghost predicate Shrinks(store: Backing, store': Backing) {
    forall id :: SameOrGone(Lookup(store, id), Lookup(store', id))
  }

  lemma MemoryKeepsContract(maxEntries: int, shards: M.Shards, op: Op, fault: P.Fault)
    requires ShardOfOp(op) < SHARDS
    ensures var b := InMemory(maxEntries, shards);
            Contract(b, Act(b, op, fault).0, op, Act(b, op, fault).1, op.Put? && TookEffect(b, op, fault))
  {
  }

  lemma TableKeepsContract(table: Table, op: Op, fault: P.Fault)
    requires ShardOfOp(op) < SHARDS
    ensures var b := Shared(table);
            Contract(b, Act(b, op, fault).0, op, Act(b, op, fault).1, op.Put? && TookEffect(b, op, fault))
  {
  }

  /** Both stores keep the contract, whatever faults occur. */
  lemma StoreContract(b: Backing, op: Op, fault: P.Fault)
    requires ShardOfOp(op) < SHARDS
    ensures Contract(b, Act(b, op, fault).0, op, Act(b, op, fault).1, op.Put? && TookEffect(b, op, fault))
  {
    match b {
      case InMemory(maxEntries, shards) => MemoryKeepsContract(maxEntries, shards, op, fault);
      case Shared(table) => TableKeepsContract(table, op, fault);
    }
  }

  // ---------- Configuration, requests and records ----------

  /** A replica's sign-in settings. */
  datatype Handlers = Handlers(
    domain: string, uri: string, statement: string, chainId: nat,
    challengeTTL: int, allowedAudiences: seq<string>)

  /** A replica's token issuer settings. */
  datatype Issuer = Issuer(name: string, audience: seq<string>, ttl: int)

  datatype Claims = Claims(
    issuer: string, subject: string, ethereumAddress: string, audience: seq<string>,
    issuedAt: int, notBefore: int, expiresAt: int)

  /** Checking a signature: it matches, it does not, or the Ethereum backend could not tell. */
  datatype Verdict = Valid | Invalid | Unavailable

  /** What the model leaves open: text renderings, and signature checks, which may depend on chain state over time. */
  datatype World = World(printer: Printer, verify: (int, Address, string, seq<bv8>) -> Verdict)

  /** One validated challenge request: the replica, what was asked, and the text and nonce drawn for it. */
  datatype Request = Request(
    replica: Handlers, address: Address, audience: seq<string>, nonce: string,
    issuedAt: int, text: string, putDone: bool)
  {
    function Expiry(): int { issuedAt + replica.challengeTTL }
    function AsChallenge(): Challenge { Challenge(text, address, Expiry(), audience) }
  }

  /** One challenge taken out of the store by a /token call. */
  datatype Redemption = Redemption(
    origin: nat, nonce: string, ch: Challenge, signature: seq<bv8>, at: int,
    verdict: Option<Verdict>, checkedAt: int, minted: bool)

  datatype Token = Token(claims: Claims, issuer: Issuer, redemption: nat)

  /** `origin` remembers which request's Put last took effect under each nonce. */
  datatype State = State(
    now: int, store: Backing, origin: map<string, nat>,
    requests: seq<Request>, redemptions: seq<Redemption>, tokens: seq<Token>)

  ghost predicate Initial(s: State) {
    IsEmpty(s.store) && s.requests == [] && s.redemptions == [] && s.tokens == []
  }

  // ---------- Steps ----------

  /** `audienceAllowed`: every requested value is on the allow-list. */
  predicate AudienceAllowed(allowed: seq<string>, requested: seq<string>) {
    forall i :: 0 <= i < |requested| ==> requested[i] in allowed
  }

  function MessageFor(h: Handlers, address: Address, nonce: string, now: int): Message {
    Message(h.domain, address, h.statement, h.uri, h.chainId, nonce, now, now + h.challengeTTL)
  }

  /** `Issuer.Issue`: the audience bound to the challenge, or the default when none was. */
  function Issue(casing: Casing, i: Issuer, account: Address, audience: seq<string>, now: int): Claims {
    var addr := AddressHex(casing, account);
    Claims(i.name, addr, addr, if |audience| > 0 then audience else i.audience, now, now, now + i.ttl)
  }

  /** The atomic steps of the handlers, of the janitor and of time. A request a handler turns away,
      or a step that is not due, changes nothing. */
  datatype Step =
    | Tick(to: int)
    | Ask(replica: Handlers, address: string, audience: seq<string>, nonce: string)
    | Store(request: nat, fault: P.Fault)
    | Redeem(nonce: string, signature: seq<bv8>, fault: P.Fault)
    | Check(redemption: nat)
    | Mint(redemption: nat, issuer: Issuer)
    | Janitor(shard: nat, fault: P.Fault)

  function Next(w: World, s: State, step: Step): State {
    match step
    case Tick(to) => if to >= s.now then s.(now := to) else s
    case Ask(h, address, audience, nonce) =>
      var a := ParseAddress(address);
      if a == None || IsZero(a.value) || !AudienceAllowed(h.allowedAudiences, audience) then s
      else
        var text := TextOf(w.printer, MessageFor(h, a.value, nonce, s.now));
        s.(requests := s.requests + [Request(h, a.value, audience, nonce, s.now, text, false)])
    case Store(i, fault) =>
      if i >= |s.requests| || s.requests[i].putDone then s
      else
        var r := s.requests[i];
        var op := Put(s.now, r.nonce, r.AsChallenge());
        s.(store := Act(s.store, op, fault).0,
           origin := if TookEffect(s.store, op, fault) then s.origin[r.nonce := i] else s.origin,
           requests := s.requests[i := r.(putDone := true)])
    case Redeem(nonce, signature, fault) =>
      if nonce == "" then s
      else
        var (store', answer) := Act(s.store, Consume(s.now, nonce), fault);
        if !answer.Found? || nonce !in s.origin then s.(store := store')
        else s.(store := store',
                redemptions := s.redemptions + [
                  Redemption(s.origin[nonce], nonce, answer.ch, signature, s.now, None, s.now, false)])
    case Check(j) =>
      if j >= |s.redemptions| || s.redemptions[j].verdict != None then s
      else
        var r := s.redemptions[j];
        var v := w.verify(s.now, r.ch.address, r.ch.message, r.signature);
        s.(redemptions := s.redemptions[j := r.(verdict := Some(v), checkedAt := s.now)])
    case Mint(j, issuer) =>
      if j >= |s.redemptions| || s.redemptions[j].verdict != Some(Valid) || s.redemptions[j].minted then s
      else
        var r := s.redemptions[j];
        s.(redemptions := s.redemptions[j := r.(minted := true)],
           tokens := s.tokens + [Token(Issue(w.printer.casing, issuer, r.ch.address, r.ch.audience, s.now), issuer, j)])
    case Janitor(k, fault) =>
      if k >= SHARDS then s else s.(store := Act(s.store, Sweep(s.now, k), fault).0)
  }

  function Execute(w: World, s: State, steps: seq<Step>): State
    decreases |steps|
  {
    if steps == [] then s else Execute(w, Next(w, s, steps[0]), steps[1..])
  }

  // ---------- What every step keeps ----------

  ghost predicate Validated(w: World, r: Request) {
    && !IsZero(r.address)
    && AudienceAllowed(r.replica.allowedAudiences, r.audience)
    && r.text == TextOf(w.printer, MessageFor(r.replica, r.address, r.nonce, r.issuedAt))
  }

  ghost predicate RequestsOk(w: World, s: State) {
    forall i :: 0 <= i < |s.requests| ==> Validated(w, s.requests[i]) && s.requests[i].issuedAt <= s.now
  }

  /** A stored challenge is the one its origin put, and that request has not been redeemed. */
  ghost predicate EntryOk(s: State, id: string, c: Challenge) {
    && id in s.origin && s.origin[id] < |s.requests|
    && (var r := s.requests[s.origin[id]]; r.nonce == id && r.putDone && KeptAs(r.AsChallenge(), c))
    && (forall j :: 0 <= j < |s.redemptions| ==> s.redemptions[j].origin != s.origin[id])
  }

  ghost predicate StoreOk(s: State) {
    forall id :: Lookup(s.store, id).Some? ==> EntryOk(s, id, Lookup(s.store, id).value)
  }

  ghost predicate RedemptionOk(w: World, s: State, x: Redemption) {
    && x.origin < |s.requests|
    && (var r := s.requests[x.origin];
        r.nonce == x.nonce && r.putDone && KeptAs(r.AsChallenge(), x.ch) && r.issuedAt <= x.at <= r.Expiry())
    && x.at <= x.checkedAt <= s.now
    && (x.verdict.Some? ==> x.verdict.value == w.verify(x.checkedAt, x.ch.address, x.ch.message, x.signature))
  }

  ghost predicate RedemptionsOk(w: World, s: State) {
    && (forall j :: 0 <= j < |s.redemptions| ==> RedemptionOk(w, s, s.redemptions[j]))
    && (forall i, j :: 0 <= i < j < |s.redemptions| ==> s.redemptions[i].origin != s.redemptions[j].origin)
  }

  ghost predicate TokenOk(w: World, s: State, t: Token) {
    && t.redemption < |s.redemptions|
    && (var x := s.redemptions[t.redemption];
        && x.minted && x.verdict == Some(Valid)
        && x.checkedAt <= t.claims.issuedAt <= s.now
        && t.claims == Issue(w.printer.casing, t.issuer, x.ch.address, x.ch.audience, t.claims.issuedAt))
  }

  ghost predicate TokensOk(w: World, s: State) {
    && (forall q :: 0 <= q < |s.tokens| ==> TokenOk(w, s, s.tokens[q]))
    && (forall p, q :: 0 <= p < q < |s.tokens| ==> s.tokens[p].redemption != s.tokens[q].redemption)
  }

  ghost predicate Inv(w: World, s: State) {
    RequestsOk(w, s) && StoreOk(s) && RedemptionsOk(w, s) && TokensOk(w, s)
  }

  // What survives when a step leaves most of the state alone.

  ghost predicate RequestsGrow(s: State, s': State) {
    && s.now <= s'.now && |s.requests| <= |s'.requests|
    && (forall i :: 0 <= i < |s.requests| ==>
          s'.requests[i] == s.requests[i] || s'.requests[i] == s.requests[i].(putDone := true))
  }

  ghost predicate SameOrigins(s: State, s': State) {
    |s'.redemptions| == |s.redemptions|
    && (forall j :: 0 <= j < |s.redemptions| ==> s'.redemptions[j].origin == s.redemptions[j].origin)
  }

  /** A redemption keeps its challenge, its verdict once given, and having been minted. */
  ghost predicate RedemptionsGrow(s: State, s': State) {
    && s.now <= s'.now && |s.redemptions| <= |s'.redemptions|
    && (forall j :: 0 <= j < |s.redemptions| ==>
          var x, x' := s.redemptions[j], s'.redemptions[j];
          && x'.ch == x.ch && (x.minted ==> x'.minted)
          && (x.verdict.Some? ==> x'.verdict == x.verdict && x'.checkedAt == x.checkedAt))
  }

  lemma RedemptionFrame(w: World, s: State, s': State, x: Redemption)
    requires RedemptionOk(w, s, x) && RequestsGrow(s, s')
    ensures RedemptionOk(w, s', x)
  {
  }

  lemma RedemptionsFrame(w: World, s: State, s': State)
    requires RedemptionsOk(w, s) && RequestsGrow(s, s') && s'.redemptions == s.redemptions
    ensures RedemptionsOk(w, s')
  {
  }

  lemma TokensFrame(w: World, s: State, s': State)
    requires TokensOk(w, s) && RedemptionsGrow(s, s') && s'.tokens == s.tokens
    ensures TokensOk(w, s')
  {
  }

  lemma StoreFrame(s: State, s': State)
    requires StoreOk(s) && RequestsGrow(s, s') && SameOrigins(s, s')
    requires Shrinks(s.store, s'.store) && s'.origin == s.origin
    ensures StoreOk(s')
  {
  }

  // One lemma for each change a step can make; what the store did is known only through its contract.

  lemma TickKeepsInv(w: World, s: State, s': State)
    requires Inv(w, s) && s.now <= s'.now && s' == s.(now := s'.now)
    ensures Inv(w, s')
  {
  }

  lemma ShrinkKeepsInv(w: World, s: State, store': Backing)
    requires Inv(w, s) && Shrinks(s.store, store')
    ensures Inv(w, s.(store := store'))
  {
  }

  lemma AskKeepsInv(w: World, s: State, r: Request)
    requires Inv(w, s) && Validated(w, r) && r.issuedAt <= s.now
    ensures Inv(w, s.(requests := s.requests + [r]))
  {
  }

  lemma PutKeepsInv(w: World, s: State, i: nat, store': Backing, took: bool)
    requires Inv(w, s) && i < |s.requests| && !s.requests[i].putDone
    requires var r := s.requests[i];
             && (forall id :: id != r.nonce || !took ==> SameOrGone(Lookup(s.store, id), Lookup(store', id)))
             && (took ==> Lookup(store', r.nonce).Some? && KeptAs(r.AsChallenge(), Lookup(store', r.nonce).value))
    ensures var r := s.requests[i];
            Inv(w, s.(store := store', origin := if took then s.origin[r.nonce := i] else s.origin,
                      requests := s.requests[i := r.(putDone := true)]))
  {
    var r := s.requests[i];
    var s' := s.(store := store', origin := if took then s.origin[r.nonce := i] else s.origin,
                 requests := s.requests[i := r.(putDone := true)]);
    RedemptionsFrame(w, s, s');
    TokensFrame(w, s, s');
    assert RequestsOk(w, s') by {
      assert Validated(w, s.requests[i]);
    }
    if took {
      forall id | Lookup(store', id).Some? ensures EntryOk(s', id, Lookup(store', id).value) {
        if id == r.nonce {
          forall j | 0 <= j < |s.redemptions| ensures s.redemptions[j].origin != i {
            assert RedemptionOk(w, s, s.redemptions[j]);
          }
        } else {
          assert SameOrGone(Lookup(s.store, id), Lookup(store', id));
          assert EntryOk(s, id, Lookup(s.store, id).value);
        }
      }
    } else {
      StoreFrame(s, s');
    }
  }

  lemma AppendRedemption(w: World, s: State, s': State, x: Redemption)
    requires RedemptionsOk(w, s) && RequestsGrow(s, s') && RedemptionOk(w, s', x)
    requires s'.redemptions == s.redemptions + [x]
    requires forall j :: 0 <= j < |s.redemptions| ==> s.redemptions[j].origin != x.origin
    ensures RedemptionsOk(w, s')
  {
  }

  lemma TakenEntry(s: State, s': State, nonce: string, x: Redemption)
    requires StoreOk(s) && Shrinks(s.store, s'.store)
    requires Lookup(s.store, nonce).Some? && Lookup(s'.store, nonce) == None
    requires s'.requests == s.requests && s'.origin == s.origin && s'.redemptions == s.redemptions + [x]
    requires nonce in s.origin && x.origin == s.origin[nonce]
    ensures StoreOk(s')
  {
  }

  lemma TakeKeepsInv(w: World, s: State, nonce: string, signature: seq<bv8>, ch: Challenge, store': Backing)
    requires Inv(w, s) && Shrinks(s.store, store')
    requires Lookup(s.store, nonce) == Some(ch) && !Expired(s.now, ch) && Lookup(store', nonce) == None
    ensures nonce in s.origin
    ensures Inv(w, s.(store := store', redemptions := s.redemptions + [
                        Redemption(s.origin[nonce], nonce, ch, signature, s.now, None, s.now, false)]))
  {
    assert EntryOk(s, nonce, ch);
    var x := Redemption(s.origin[nonce], nonce, ch, signature, s.now, None, s.now, false);
    var s' := s.(store := store', redemptions := s.redemptions + [x]);
    assert s.requests[x.origin].issuedAt <= s.now;
    AppendRedemption(w, s, s', x);
    TokensFrame(w, s, s');
    TakenEntry(s, s', nonce, x);
  }

  lemma CheckKeepsInv(w: World, s: State, j: nat, x: Redemption)
    requires Inv(w, s) && j < |s.redemptions| && s.redemptions[j].verdict == None
    requires var r := s.redemptions[j];
             x == r.(verdict := Some(w.verify(s.now, r.ch.address, r.ch.message, r.signature)), checkedAt := s.now)
    ensures Inv(w, s.(redemptions := s.redemptions[j := x]))
  {
    var s' := s.(redemptions := s.redemptions[j := x]);
    assert RedemptionOk(w, s, s.redemptions[j]);
    forall i | 0 <= i < |s'.redemptions| ensures RedemptionOk(w, s', s'.redemptions[i]) {
      if i != j { RedemptionFrame(w, s, s', s.redemptions[i]); }
    }
    TokensFrame(w, s, s');
    StoreFrame(s, s');
  }

  lemma MintKeepsInv(w: World, s: State, j: nat, issuer: Issuer)
    requires Inv(w, s)
    requires j < |s.redemptions| && s.redemptions[j].verdict == Some(Valid) && !s.redemptions[j].minted
    ensures var x := s.redemptions[j];
            Inv(w, s.(redemptions := s.redemptions[j := x.(minted := true)],
                      tokens := s.tokens + [
                        Token(Issue(w.printer.casing, issuer, x.ch.address, x.ch.audience, s.now), issuer, j)]))
  {
    var x := s.redemptions[j];
    var t := Token(Issue(w.printer.casing, issuer, x.ch.address, x.ch.audience, s.now), issuer, j);
    var marked := s.(redemptions := s.redemptions[j := x.(minted := true)]);
    assert RedemptionOk(w, s, x);
    forall i | 0 <= i < |marked.redemptions| ensures RedemptionOk(w, marked, marked.redemptions[i]) {
      RedemptionFrame(w, s, marked, s.redemptions[i]);
    }
    TokensFrame(w, s, marked);
    StoreFrame(s, marked);
    forall q | 0 <= q < |s.tokens| ensures s.tokens[q].redemption != j {
      assert TokenOk(w, s, s.tokens[q]);
    }
    AppendToken(w, marked, t);
  }

  lemma AppendToken(w: World, s: State, t: Token)
    requires Inv(w, s) && TokenOk(w, s, t)
    requires forall q :: 0 <= q < |s.tokens| ==> s.tokens[q].redemption != t.redemption
    ensures Inv(w, s.(tokens := s.tokens + [t]))
  {
  }

  // Each step is one of those changes.

  lemma AskStep(w: World, s: State, step: Step)
    requires Inv(w, s) && step.Ask?
    ensures Inv(w, Next(w, s, step))
  {
    var s' := Next(w, s, step);
    if s' != s {
      var r := s'.requests[|s.requests|];
      assert Validated(w, r);
      AskKeepsInv(w, s, r);
    }
  }

  lemma StoreStep(w: World, s: State, i: nat, fault: P.Fault)
    requires Inv(w, s)
    ensures Inv(w, Next(w, s, Store(i, fault)))
  {
    if i < |s.requests| && !s.requests[i].putDone {
      var r := s.requests[i];
      var op := Put(s.now, r.nonce, r.AsChallenge());
      StoreContract(s.store, op, fault);
      PutKeepsInv(w, s, i, Act(s.store, op, fault).0, TookEffect(s.store, op, fault));
    }
  }

  lemma RedeemStep(w: World, s: State, nonce: string, signature: seq<bv8>, fault: P.Fault)
    requires Inv(w, s)
    ensures Inv(w, Next(w, s, Redeem(nonce, signature, fault)))
  {
    if nonce != "" {
      var op := Consume(s.now, nonce);
      StoreContract(s.store, op, fault);
      var (store', answer) := Act(s.store, op, fault);
      if answer.Found? {
        TakeKeepsInv(w, s, nonce, signature, answer.ch, store');
      } else {
        ShrinkKeepsInv(w, s, store');
      }
    }
  }

  lemma JanitorStep(w: World, s: State, k: nat, fault: P.Fault)
    requires Inv(w, s)
    ensures Inv(w, Next(w, s, Janitor(k, fault)))
  {
    if k < SHARDS {
      StoreContract(s.store, Sweep(s.now, k), fault);
      ShrinkKeepsInv(w, s, Act(s.store, Sweep(s.now, k), fault).0);
    }
  }

  lemma NextKeepsInv(w: World, s: State, step: Step)
    requires Inv(w, s)
    ensures Inv(w, Next(w, s, step))
  {
    match step {
      case Tick(to) => TickKeepsInv(w, s, Next(w, s, step));
      case Ask(_, _, _, _) => AskStep(w, s, step);
      case Store(i, fault) => StoreStep(w, s, i, fault);
      case Redeem(nonce, signature, fault) => RedeemStep(w, s, nonce, signature, fault);
      case Check(j) =>
        if Next(w, s, step) != s { CheckKeepsInv(w, s, j, Next(w, s, step).redemptions[j]); }
      case Mint(j, issuer) =>
        if Next(w, s, step) != s { MintKeepsInv(w, s, j, issuer); }
      case Janitor(k, fault) => JanitorStep(w, s, k, fault);
    }
  }

  lemma {:induction false} ExecuteKeepsInv(w: World, s: State, steps: seq<Step>)
    requires Inv(w, s)
    ensures Inv(w, Execute(w, s, steps))
    decreases |steps|
  {
    if steps != [] {
      NextKeepsInv(w, s, steps[0]);
      ExecuteKeepsInv(w, Next(w, s, steps[0]), steps[1..]);
    }
  }

  lemma InitialInv(w: World, s: State)
    requires Initial(s)
    ensures Inv(w, s)
  {
  }

  // ---------- The theorems ----------

  /** What an issued token proves about the run that issued it. */
  ghost predicate Traced(w: World, s: State, t: Token) {
    && t.redemption < |s.redemptions|
    && s.redemptions[t.redemption].origin < |s.requests|
    && (var x := s.redemptions[t.redemption];
        var r := s.requests[x.origin];
        // the request was validated, and its own text is what was signed for its own address
        && Validated(w, r)
        && w.verify(x.checkedAt, r.address, r.text, x.signature) == Valid
        // in this order, the redemption within the challenge's lifetime
        && r.issuedAt <= x.at <= x.checkedAt <= t.claims.issuedAt
        && x.at <= r.issuedAt + r.replica.challengeTTL
        // the claims name that address; the audience was fixed, and allowed, at challenge time
        && t.claims.subject == t.claims.ethereumAddress == AddressHex(w.printer.casing, r.address)
        && t.claims.audience == (if |r.audience| > 0 then r.audience else t.issuer.audience)
        && (|r.audience| > 0 ==> forall v :: v in t.claims.audience ==> v in r.replica.allowedAudiences)
        && t.claims.issuer == t.issuer.name && t.claims.notBefore == t.claims.issuedAt
        && t.claims.expiresAt == t.claims.issuedAt + t.issuer.ttl)
  }

  lemma TokenIsTraced(w: World, s: State, q: nat)
    requires Inv(w, s) && q < |s.tokens|
    ensures Traced(w, s, s.tokens[q])
  {
  }

  /** In every run, with any replicas, stores, faults and nonces: every token is traced to a validated
      challenge request, and no two tokens to the same one. */
  lemma {:induction false} EveryTokenTraced(w: World, s0: State, steps: seq<Step>)
    requires Initial(s0)
    ensures var s := Execute(w, s0, steps);
            && (forall q :: 0 <= q < |s.tokens| ==> Traced(w, s, s.tokens[q]))
            && (forall p, q :: 0 <= p < q < |s.tokens| ==>
                  s.redemptions[s.tokens[p].redemption].origin != s.redemptions[s.tokens[q].redemption].origin)
  {
    InitialInv(w, s0);
    ExecuteKeepsInv(w, s0, steps);
    var s := Execute(w, s0, steps);
    forall q | 0 <= q < |s.tokens| ensures Traced(w, s, s.tokens[q]) {
      TokenIsTraced(w, s, q);
    }
    forall p, q | 0 <= p < q < |s.tokens|
      ensures s.redemptions[s.tokens[p].redemption].origin != s.redemptions[s.tokens[q].redemption].origin
    {
      assert TokenOk(w, s, s.tokens[p]) && TokenOk(w, s, s.tokens[q]);
    }
  }

  const NONCE_LENGTH: nat := 64

  ghost predicate FreshNonces(s: State) {
    && (forall i :: 0 <= i < |s.requests| ==> |s.requests[i].nonce| == NONCE_LENGTH)
    && (forall i, j :: 0 <= i < j < |s.requests| ==> s.requests[i].nonce != s.requests[j].nonce)
  }

  ghost predicate RequestsDated(s: State, lo: int, hi: int) {
    forall i :: 0 <= i < |s.requests| ==>
      lo <= Second(s.requests[i].issuedAt) < hi && lo <= Second(s.requests[i].Expiry()) < hi
  }

  /** With fresh nonces the trace is unique: no other request of the run has the token's nonce or
      its signed text, whatever the replicas' domains, statements and URIs contain. */
  lemma TraceIsUnique(w: World, s0: State, steps: seq<Step>, q: nat, i: nat, lo: int, hi: int)
    requires Initial(s0) && FaithfulStamps(w.printer, lo, hi)
    requires var s := Execute(w, s0, steps);
             FreshNonces(s) && RequestsDated(s, lo, hi) && q < |s.tokens| && i < |s.requests|
    ensures var s := Execute(w, s0, steps);
            && Traced(w, s, s.tokens[q])
            && (var x := s.redemptions[s.tokens[q].redemption];
                (s.requests[i].nonce == x.nonce || s.requests[i].text == x.ch.message) ==> i == x.origin)
  {
    InitialInv(w, s0);
    ExecuteKeepsInv(w, s0, steps);
    EveryTokenTraced(w, s0, steps);
    var s := Execute(w, s0, steps);
    assert TokenOk(w, s, s.tokens[q]);
    var x := s.redemptions[s.tokens[q].redemption];
    assert RedemptionOk(w, s, x);
    var r, other := s.requests[x.origin], s.requests[i];
    assert Validated(w, r) && Validated(w, other);
    if other.text == x.ch.message {
      TextFixesNonce(w.printer, lo, hi,
                     MessageFor(r.replica, r.address, r.nonce, r.issuedAt),
                     MessageFor(other.replica, other.address, other.nonce, other.issuedAt));
    }
  }

  // ---------- What is let in, and what it leads to ----------

  /** A challenge request is good when its address parses and is not zero, and every audience it wants is
      on the replica's allow-list. */
  ghost predicate Admissible(h: Handlers, address: string, audience: seq<string>) {
    && ParseAddress(address).Some? && ParseAddress(address).value != seq(40, _ => 0)
    && forall v :: v in audience ==> v in h.allowedAudiences
  }

  /** `Ask` records a request exactly when it is admissible, and changes nothing else. */
  lemma AskExactly(w: World, s: State, h: Handlers, address: string, audience: seq<string>, nonce: string)
    ensures var s' := Next(w, s, Ask(h, address, audience, nonce));
            if !Admissible(h, address, audience) then s' == s
            else
              var a := ParseAddress(address).value;
              && s' == s.(requests := s.requests + [
                   Request(h, a, audience, nonce, s.now, TextOf(w.printer, MessageFor(h, a, nonce, s.now)), false)])
  {
    if ParseAddress(address).Some? {
      var a := ParseAddress(address).value;
      assert IsZero(a) <==> a == seq(40, _ => 0);
    }
    assert AudienceAllowed(h.allowedAudiences, audience) <==> forall v :: v in audience ==> v in h.allowedAudiences;
  }

  /** The store takes a new nonce: in memory, unless its shard is full of unexpired entries. */
  ghost predicate HasRoom(b: Backing, nonce: string, now: int) {
    b.InMemory? ==> |Live(b.shards[ShardOf(nonce)], now)| < PerShard(b.maxEntries)
  }

  /** Until when the store gives back a challenge put with this expiry. */
  function LastMoment(b: Backing, expiresAt: int): int { if b.Shared? then P.Micros(expiresAt) else expiresAt }

  lemma StoreAndRedeem(b: Backing, nonce: string, ch: Challenge, put: int, now: int)
    requires Lookup(b, nonce) == None
    ensures var (b1, stored) := Act(b, Put(put, nonce, ch), P.NoFault);
            var (b2, answer) := Act(b1, Consume(now, nonce), P.NoFault);
            && (TookEffect(b, Put(put, nonce, ch), P.NoFault) <==> HasRoom(b, nonce, put))
            && (answer.Found? <==> HasRoom(b, nonce, put) && now <= LastMoment(b, ch.expiresAt))
            && (answer.Found? ==>
                  && answer.ch.message == ch.message && answer.ch.address == ch.address
                  && answer.ch.audience == ch.audience)
  {
    if b.InMemory? {
      LiveSize(b.shards[ShardOf(nonce)], put);
    }
  }

  /** Without a request nothing is in the store under the nonce, and nothing comes of it. */
  lemma NothingToRedeem(b: Backing, nonce: string, now: int)
    requires Lookup(b, nonce) == None
    ensures !Act(b, Consume(now, nonce), P.NoFault).1.Found?
  {
  }

  /** The steps of a sign-in after its Ask, with `later` the moment it is redeemed. */
  function StepsAfterAsk(i: nat, j: nat, nonce: string, later: int, signature: seq<bv8>, issuer: Issuer): seq<Step> {
    [Store(i, P.NoFault), Tick(later), Redeem(nonce, signature, P.NoFault), Check(j), Mint(j, issuer)]
  }

  /** The state they lead to. */
  function Rest(w: World, s: State, i: nat, j: nat, nonce: string, later: int, signature: seq<bv8>,
                issuer: Issuer): State
  {
    Execute(w, s, StepsAfterAsk(i, j, nonce, later, signature, issuer))
  }

  lemma RestUnfolds(w: World, s: State, i: nat, j: nat, nonce: string, later: int, signature: seq<bv8>, issuer: Issuer)
    ensures Rest(w, s, i, j, nonce, later, signature, issuer) ==
            Next(w, Next(w, Redeemed(w, s, i, nonce, later, signature), Check(j)), Mint(j, issuer))
  {
    var s1 := Next(w, s, Store(i, P.NoFault));
    var s2 := Next(w, s1, Tick(later));
    var s3 := Next(w, s2, Redeem(nonce, signature, P.NoFault));
    var s4 := Next(w, s3, Check(j));
    ExecuteFirst(w, s, Store(i, P.NoFault),
                 [Tick(later), Redeem(nonce, signature, P.NoFault), Check(j), Mint(j, issuer)]);
    ExecuteFirst(w, s1, Tick(later), [Redeem(nonce, signature, P.NoFault), Check(j), Mint(j, issuer)]);
    ExecuteFirst(w, s2, Redeem(nonce, signature, P.NoFault), [Check(j), Mint(j, issuer)]);
    ExecuteFirst(w, s3, Check(j), [Mint(j, issuer)]);
    ExecuteFirst(w, s4, Mint(j, issuer), []);
  }

  lemma ExecuteFirst(w: World, s: State, step: Step, rest: seq<Step>)
    ensures Execute(w, s, [step] + rest) == Execute(w, Next(w, s, step), rest)
  {
    assert ([step] + rest)[1..] == rest;
  }

  /** The state after a redemption found the challenge, and what checking and minting then add. */
  lemma RedeemedMints(w: World, s: State, x: Redemption, issuer: Issuer)
    requires s.redemptions != [] && x == s.redemptions[|s.redemptions| - 1] && x.verdict == None && !x.minted
    ensures var j := |s.redemptions| - 1;
            var s' := Next(w, Next(w, s, Check(j)), Mint(j, issuer));
            s'.tokens == s.tokens + (
              if w.verify(s.now, x.ch.address, x.ch.message, x.signature) == Valid
              then [Token(Issue(w.printer.casing, issuer, x.ch.address, x.ch.audience, s.now), issuer, j)] else [])
  {
  }

  /** A recorded request, stored and redeemed later, is redeemed just once or not at all. */
  lemma RequestRedeems(w: World, s: State, i: nat, later: int, signature: seq<bv8>)
    requires i < |s.requests| && !s.requests[i].putDone && s.requests[i].nonce != ""
    requires Lookup(s.store, s.requests[i].nonce) == None && later >= s.now
    ensures var r := s.requests[i];
            var s' := Redeemed(w, s, i, r.nonce, later, signature);
            && s'.now == later && s'.tokens == s.tokens
            && if HasRoom(s.store, r.nonce, s.now) && later <= LastMoment(s.store, r.Expiry()) then
                 && |s'.redemptions| == |s.redemptions| + 1
                 && (var x := s'.redemptions[|s.redemptions|];
                     && x.ch.message == r.text && x.ch.address == r.address && x.ch.audience == r.audience
                     && x.signature == signature && x.verdict == None && !x.minted)
               else s'.redemptions == s.redemptions
  {
    StoreAndRedeem(s.store, s.requests[i].nonce, s.requests[i].AsChallenge(), s.now, later);
  }

  /** No redemption j: neither checking nor minting it does anything. */
  lemma NothingMints(w: World, s: State, issuer: Issuer)
    ensures Next(w, Next(w, s, Check(|s.redemptions|)), Mint(|s.redemptions|, issuer)).tokens == s.tokens
  {
  }

  function Redeemed(w: World, s: State, i: nat, nonce: string, later: int, signature: seq<bv8>): State {
    Next(w, Next(w, Next(w, s, Store(i, P.NoFault)), Tick(later)), Redeem(nonce, signature, P.NoFault))
  }

  /** Without a request to store there is nothing to redeem, and nothing to mint. */
  lemma NothingFollows(w: World, s: State, nonce: string, later: int, signature: seq<bv8>, issuer: Issuer)
    requires Lookup(s.store, nonce) == None && later >= s.now
    ensures Rest(w, s, |s.requests|, |s.redemptions|, nonce, later, signature, issuer).tokens == s.tokens
  {
    NothingToRedeem(s.store, nonce, later);
    RestUnfolds(w, s, |s.requests|, |s.redemptions|, nonce, later, signature, issuer);
    var s4 := Redeemed(w, s, |s.requests|, nonce, later, signature);
    assert s4.redemptions == s.redemptions && s4.tokens == s.tokens;
    NothingMints(w, s4, issuer);
  }

  /** What an admitted request, stored and redeemed later, mints. */
  lemma RequestMints(w: World, s: State, i: nat, later: int, signature: seq<bv8>, issuer: Issuer)
    requires i < |s.requests| && !s.requests[i].putDone && s.requests[i].nonce != ""
    requires Lookup(s.store, s.requests[i].nonce) == None && later >= s.now
    ensures var r, j := s.requests[i], |s.redemptions|;
            Rest(w, s, i, j, r.nonce, later, signature, issuer).tokens == s.tokens + (
              if && HasRoom(s.store, r.nonce, s.now) && later <= LastMoment(s.store, r.Expiry())
                 && w.verify(later, r.address, r.text, signature) == Valid
              then [Token(Issue(w.printer.casing, issuer, r.address, r.audience, later), issuer, j)] else [])
  {
    var r, j := s.requests[i], |s.redemptions|;
    RequestRedeems(w, s, i, later, signature);
    RestUnfolds(w, s, i, j, r.nonce, later, signature, issuer);
    var s4 := Redeemed(w, s, i, r.nonce, later, signature);
    if |s4.redemptions| > j {
      RedeemedMints(w, s4, s4.redemptions[j], issuer);
    } else {
      NothingMints(w, s4, issuer);
    }
  }

  /** The one token a successful sign-in yields. */
  function Yield(w: World, s: State, address: Address, audience: seq<string>, later: int, issuer: Issuer): Token {
    Token(Issue(w.printer.casing, issuer, address, audience, later), issuer, |s.redemptions|)
  }

  /** In time, with room in the store, and signed by this address over its own text. */
  ghost predicate Redeemable(w: World, s: State, h: Handlers, a: Address, nonce: string, later: int,
                             signature: seq<bv8>)
  {
    && HasRoom(s.store, nonce, s.now) && later <= LastMoment(s.store, s.now + h.challengeTTL)
    && w.verify(later, a, TextOf(w.printer, MessageFor(h, a, nonce, s.now)), signature) == Valid
  }

  lemma RecordedSignIn(w: World, s: State, r: Request, later: int, signature: seq<bv8>, issuer: Issuer)
    requires r.nonce != "" && Lookup(s.store, r.nonce) == None && later >= s.now && !r.putDone
    ensures var s1 := s.(requests := s.requests + [r]);
            Rest(w, s1, |s.requests|, |s.redemptions|, r.nonce, later, signature, issuer).tokens == s.tokens + (
              if && HasRoom(s.store, r.nonce, s.now) && later <= LastMoment(s.store, r.Expiry())
                 && w.verify(later, r.address, r.text, signature) == Valid
              then [Yield(w, s, r.address, r.audience, later, issuer)] else [])
  {
    var s1 := s.(requests := s.requests + [r]);
    assert s1.requests[|s.requests|] == r;
    RequestMints(w, s1, |s.requests|, later, signature, issuer);
  }

  lemma AdmittedSignIn(w: World, s: State, s1: State, h: Handlers, a: Address, audience: seq<string>, nonce: string,
                       later: int, signature: seq<bv8>, issuer: Issuer)
    requires nonce != "" && Lookup(s.store, nonce) == None && later >= s.now
    requires var text := TextOf(w.printer, MessageFor(h, a, nonce, s.now));
             s1 == s.(requests := s.requests + [Request(h, a, audience, nonce, s.now, text, false)])
    ensures Rest(w, s1, |s.requests|, |s.redemptions|, nonce, later, signature, issuer).tokens == s.tokens + (
              if Redeemable(w, s, h, a, nonce, later, signature) then [Yield(w, s, a, audience, later, issuer)] else [])
  {
    var r := Request(h, a, audience, nonce, s.now, TextOf(w.printer, MessageFor(h, a, nonce, s.now)), false);
    RecordedSignIn(w, s, r, later, signature, issuer);
  }

  /** One sign-in from any state, with a nonce not in the store, yields a token exactly when the request is
      admissible, the store has room, the redemption is in time and the signature is valid then; and the
      token is for that address and that audience. */
  lemma SignInCompletes(w: World, s: State, h: Handlers, address: string, audience: seq<string>, nonce: string,
                        later: int, signature: seq<bv8>, issuer: Issuer)
    requires nonce != "" && Lookup(s.store, nonce) == None && later >= s.now
    ensures var rest := StepsAfterAsk(|s.requests|, |s.redemptions|, nonce, later, signature, issuer);
            Execute(w, s, [Ask(h, address, audience, nonce)] + rest).tokens == s.tokens + (
              if Admissible(h, address, audience)
                 && Redeemable(w, s, h, ParseAddress(address).value, nonce, later, signature)
              then [Yield(w, s, ParseAddress(address).value, audience, later, issuer)] else [])
  {
    AskExactly(w, s, h, address, audience, nonce);
    ExecuteFirst(w, s, Ask(h, address, audience, nonce),
                 StepsAfterAsk(|s.requests|, |s.redemptions|, nonce, later, signature, issuer));
    var s1 := Next(w, s, Ask(h, address, audience, nonce));
    if Admissible(h, address, audience) {
      AdmittedSignIn(w, s, s1, h, ParseAddress(address).value, audience, nonce, later, signature, issuer);
    } else {
      NothingFollows(w, s, nonce, later, signature, issuer);
    }
  }

  // ---------- What the wallet signed ----------

  /** A reader of the text finds the replica's own domain, statement, URI and chain, the address and nonce of
      the request, and the two times of its challenge, where none of these texts breaks a line. */
  ghost predicate SaysRequest(w: World, r: Request, text: string) {
    var h := r.replica;
    '\n' !in h.domain && '\n' !in h.statement && '\n' !in h.uri && '\n' !in r.nonce ==>
      Reads(text, Fields(
              h.domain, AddressHex(w.printer.casing, r.address), h.statement, h.uri, "1", Decimal(h.chainId), r.nonce,
              w.printer.stamp(Second(r.issuedAt)), w.printer.stamp(Second(r.issuedAt + h.challengeTTL))))
  }

  lemma ValidatedSays(w: World, r: Request, lo: int, hi: int)
    requires Validated(w, r) && FaithfulStamps(w.printer, lo, hi)
    requires lo <= Second(r.issuedAt) < hi && lo <= Second(r.Expiry()) < hi
    ensures SaysRequest(w, r, r.text)
  {
    var m := MessageFor(r.replica, r.address, r.nonce, r.issuedAt);
    if OneLineFields(m) {
      PrintedReads(w.printer, m, lo, hi);
    }
  }

  /** The text signed for any token of a run says what its request was. */
  lemma SignedTextSays(w: World, s0: State, steps: seq<Step>, q: nat, lo: int, hi: int)
    requires Initial(s0) && FaithfulStamps(w.printer, lo, hi)
    requires var s := Execute(w, s0, steps); RequestsDated(s, lo, hi) && q < |s.tokens|
    ensures var s := Execute(w, s0, steps);
            && Traced(w, s, s.tokens[q])
            && (var x := s.redemptions[s.tokens[q].redemption];
                s.requests[x.origin].nonce == x.nonce && SaysRequest(w, s.requests[x.origin], x.ch.message))
  {
    InitialInv(w, s0);
    ExecuteKeepsInv(w, s0, steps);
    var s := Execute(w, s0, steps);
    TokenIsTraced(w, s, q);
    assert TokenOk(w, s, s.tokens[q]);
    var x := s.redemptions[s.tokens[q].redemption];
    assert RedemptionOk(w, s, x);
    ValidatedSays(w, s.requests[x.origin], lo, hi);
  }
}
