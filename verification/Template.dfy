/** Permission templates: fetching a signed document, caching its agreements, and reading the
    template's status on every call. */
module Template {
  import opened Text

  datatype Agreement = Agreement(kind: string, asset: string, permissions: seq<string>)

  datatype Data = Data(owner: string, agreements: seq<Agreement>)

  /** A fetched document; data is None when it does not parse. */
  datatype RawDocument = RawDocument(data: Option<Data>, signature: string)

  datatype Error =
    | BadTemplateID | ContractFailed | FetchFailed | Unparseable
    | SignatureNotChecked | SignatureInvalid | StatusFailed

  /** The template contract, IPFS and the signature validator, each asked at most once in a call. */
  datatype Backend = Backend(
    source: int -> Option<string>,
    fetch: string -> Option<RawDocument>,
    validSignature: (Data, string) -> Option<bool>)

  /** `IsTemplateActive` at one moment; None is a failed call. */
  type Status = int -> Option<bool>

  datatype PermissionsResult = PermissionsResult(permissions: set<string>, isActive: bool)

  /** From template id to the agreements of its document, the owner's signature checked. */
  function FetchAgreements(b: Backend, id: string): Result<seq<Agreement>, Error> {
    match ParseInteger(id)
    case None => Err(BadTemplateID)
    case Some(n) =>
      match b.source(n)
      case None => Err(ContractFailed)
      case Some(source) =>
        match b.fetch(source)
        case None => Err(FetchFailed)
        case Some(raw) =>
          match raw.data
          case None => Err(Unparseable)
          case Some(data) =>
            match b.validSignature(data, raw.signature)
            case None => Err(SignatureNotChecked)
            case Some(valid) => if valid then Ok(data.agreements) else Err(SignatureInvalid)
  }

  /** "did:ethr:<chain>:<contract>", the form templates name a contract in. */
  function EthrDid(casing: Casing, chainId: nat, contract: Address): string {
    "did:ethr:" + Decimal(chainId) + ":" + AddressHex(casing, contract)
  }

  /** A contract is told from every other, on this chain or another. */
  lemma EthrDidInjective(casing: Casing, chainId: nat, contract: Address, otherChain: nat, other: Address)
    requires EthrDid(casing, chainId, contract) == EthrDid(casing, otherChain, other)
    ensures chainId == otherChain && contract == other
  {
    var a, b := Decimal(chainId), Decimal(otherChain);
    var x, y := AddressHex(casing, contract), AddressHex(casing, other);
    CutAtLength("did:ethr:" + a + ":", "did:ethr:" + b + ":", x, y);
    CutAtLength("did:ethr:" + a, "did:ethr:" + b, ":", ":");
    CutAtLength("did:ethr:", "did:ethr:", a, b);
    DecimalRoundTrip(chainId);
    DecimalRoundTrip(otherChain);
    AddressRoundTrip(casing, contract);
    AddressRoundTrip(casing, other);
  }

  function PermissionsFor(agreements: seq<Agreement>, asset: string): set<string> {
    set i, p | 0 <= i < |agreements| && agreements[i].asset == asset && agreements[i].kind == "permission"
               && p in agreements[i].permissions :: p
  }

  method ExtractPermissions(agreements: seq<Agreement>, asset: string) returns (granted: set<string>)
    ensures granted == PermissionsFor(agreements, asset)
  {
    granted := {};
    for i := 0 to |agreements|
      invariant granted == PermissionsFor(agreements[..i], asset)
    {
      var agreement := agreements[i];
      PermissionsForSnoc(agreements[..i + 1], asset, i);
      assert agreements[..i + 1][..i] == agreements[..i];
      if agreement.asset != asset {
        continue;
      }
      if agreement.kind == "permission" {
        granted := granted + set p | p in agreement.permissions;
      }
    }
    assert agreements[..|agreements|] == agreements;
  }

  lemma PermissionsForSnoc(agreements: seq<Agreement>, asset: string, n: nat)
    requires |agreements| == n + 1
    ensures var a := agreements[n];
            PermissionsFor(agreements, asset) == PermissionsFor(agreements[..n], asset) +
              (if a.asset == asset && a.kind == "permission" then set p | p in a.permissions else {})
  {
  }

  /** `getTemplatePermissionsAndStatus`: an asset without permissions is inactive without asking. */
  function WithStatus(status: Status, id: string, agreements: seq<Agreement>, asset: string)
    : Result<PermissionsResult, Error>
  {
    var permissions := PermissionsFor(agreements, asset);
    if permissions == {} then Ok(PermissionsResult({}, false))
    else
      match ParseInteger(id)
      case None => Err(BadTemplateID)
      case Some(n) =>
        match status(n)
        case None => Err(StatusFailed)
        case Some(active) => Ok(PermissionsResult(permissions, active))
  }

  /** The answer with no cache at all. */
  function Uncached(b: Backend, status: Status, id: string, asset: string): Result<PermissionsResult, Error> {
    match FetchAgreements(b, id)
    case Err(e) => Err(e)
    case Ok(agreements) => WithStatus(status, id, agreements, asset)
  }

  /** Two spellings of one number are one template. */
  lemma SpellingIrrelevant(b: Backend, status: Status, x: string, y: string, asset: string)
    requires ParseInteger(x) == ParseInteger(y)
    ensures Uncached(b, status, x, asset) == Uncached(b, status, y, asset)
  {
  }

  /** b serves, under this id, a document with these agreements whose owner's signature validates. */
  ghost predicate Signed(b: Backend, id: string, agreements: seq<Agreement>) {
    exists n, source, raw ::
      && ParseInteger(id) == Some(n) && b.source(n) == Some(source) && b.fetch(source) == Some(raw)
      && raw.data.Some? && raw.data.value.agreements == agreements
      && b.validSignature(raw.data.value, raw.signature) == Some(true)
  }

  /** What can be fetched is exactly what is signed. */
  lemma FetchedIsSigned(b: Backend, id: string, agreements: seq<Agreement>)
    ensures FetchAgreements(b, id) == Ok(agreements) <==> Signed(b, id, agreements)
  {
    if FetchAgreements(b, id) == Ok(agreements) {
      var source := b.source(ParseInteger(id).value).value;
      var raw := b.fetch(source).value;
      assert b.validSignature(raw.data.value, raw.signature) == Some(true);
    }
  }

  // ---------- One call on its own ----------

  /** What a call with nothing beside it answers, given the cache it meets. */
  function CallResult(cache: map<string, seq<Agreement>>, b: Backend, status: Status, id: string, asset: string)
    : Result<PermissionsResult, Error>
  {
    if id in cache then WithStatus(status, id, cache[id], asset) else Uncached(b, status, id, asset)
  }

  /** The cache it leaves: only a successful fetch is added. */
  function CacheAfter(cache: map<string, seq<Agreement>>, b: Backend, id: string): map<string, seq<Agreement>> {
    if id in cache || FetchAgreements(b, id).Err? then cache else cache[id := FetchAgreements(b, id).value]
  }

  /** After a successful fetch the next call needs none: whatever the backends have become, it answers from
      the agreements fetched, with its own reading of the status. */
  lemma FetchedOnce(cache: map<string, seq<Agreement>>, b: Backend, later: Backend, status: Status, id: string,
                    asset: string)
    requires id !in cache && FetchAgreements(b, id).Ok?
    ensures CallResult(CacheAfter(cache, b, id), later, status, id, asset) ==
            WithStatus(status, id, FetchAgreements(b, id).value, asset)
    ensures CacheAfter(CacheAfter(cache, b, id), later, id) == CacheAfter(cache, b, id)
  {
  }

  // ---------- The service object, one call at a time ----------

  class TemplateService {
    var cache: map<string, seq<Agreement>>

    constructor ()
      ensures cache == map[]
    {
      cache := map[];
    }

    method GetTemplatePermissions(b: Backend, status: Status, id: string, asset: string)
      returns (r: Result<PermissionsResult, Error>)
      modifies this
      ensures r == CallResult(old(cache), b, status, id, asset)
      ensures cache == CacheAfter(old(cache), b, id)
    {
      if id in cache {
        r := PermissionsAndStatus(status, id, cache[id], asset);
        return;
      }
      var templateID := ParseInteger(id);
      if templateID.None? {
        return Err(BadTemplateID);
      }
      var source := b.source(templateID.value);
      if source.None? {
        return Err(ContractFailed);
      }
      var raw := b.fetch(source.value);
      if raw.None? {
        return Err(FetchFailed);
      }
      if raw.value.data.None? {
        return Err(Unparseable);
      }
      var data := raw.value.data.value;
      var valid := b.validSignature(data, raw.value.signature);
      if valid.None? {
        return Err(SignatureNotChecked);
      }
      if !valid.value {
        return Err(SignatureInvalid);
      }
      cache := cache[id := data.agreements];
      r := PermissionsAndStatus(status, id, data.agreements, asset);
    }

    method PermissionsAndStatus(status: Status, id: string, agreements: seq<Agreement>, asset: string)
      returns (r: Result<PermissionsResult, Error>)
      ensures r == WithStatus(status, id, agreements, asset)
    {
      var permissions := ExtractPermissions(agreements, asset);
      if |permissions| == 0 {
        return Ok(PermissionsResult({}, false));
      }
      var templateID := ParseInteger(id);
      if templateID.None? {
        return Err(BadTemplateID);
      }
      var active := status(templateID.value);
      if active.None? {
        return Err(StatusFailed);
      }
      return Ok(PermissionsResult(permissions, active.value));
    }

    method ClearCache()
      modifies this
      ensures cache == map[]
    {
      cache := map[];
    }
  }

  // ---------- Concurrent calls ----------

  /** Where one call stands between its critical sections. */
  datatype Call =
    | Called(id: string, asset: string)
    | Missed(id: string, asset: string)
    | Fetched(id: string, asset: string, agreements: seq<Agreement>)
    | Holding(id: string, asset: string, agreements: seq<Agreement>)
    | Answered(id: string, asset: string, agreements: seq<Agreement>, status: Status,
               result: Result<PermissionsResult, Error>)
    | Failed(id: string, asset: string, error: Error)

  /** A successful fetch: what was fetched, and from which backends. */
  datatype FetchRecord = FetchRecord(id: string, backend: Backend, agreements: seq<Agreement>)

  datatype State = State(cache: map<string, seq<Agreement>>, calls: map<nat, Call>, fetches: seq<FetchRecord>)

  const START: State := State(map[], map[], [])

  /** Lookup under the read lock, the fetch, the write under the lock, and the status read are separate
      steps; calls, and ClearCache, interleave between them in any way. */
  datatype Step =
    | Begin(call: nat, id: string, asset: string)
    | Look(call: nat)
    | Fetch(call: nat, backend: Backend)
    | Write(call: nat)
    | Finish(call: nat, status: Status)
    | Clear

  function Next(s: State, step: Step): State {
    match step
    case Begin(c, id, asset) => if c in s.calls then s else s.(calls := s.calls[c := Called(id, asset)])
    case Look(c) =>
      if c !in s.calls || !s.calls[c].Called? then s
      else
        var k := s.calls[c];
        var looked := if k.id in s.cache then Holding(k.id, k.asset, s.cache[k.id]) else Missed(k.id, k.asset);
        s.(calls := s.calls[c := looked])
    case Fetch(c, b) =>
      if c !in s.calls || !s.calls[c].Missed? then s
      else
        var k := s.calls[c];
        (match FetchAgreements(b, k.id)
         case Err(e) => s.(calls := s.calls[c := Failed(k.id, k.asset, e)])
         case Ok(agreements) =>
           s.(calls := s.calls[c := Fetched(k.id, k.asset, agreements)],
              fetches := s.fetches + [FetchRecord(k.id, b, agreements)]))
    case Write(c) =>
      if c !in s.calls || !s.calls[c].Fetched? then s
      else
        var k := s.calls[c];
        s.(cache := s.cache[k.id := k.agreements], calls := s.calls[c := Holding(k.id, k.asset, k.agreements)])
    case Finish(c, status) =>
      if c !in s.calls || !s.calls[c].Holding? then s
      else
        var k := s.calls[c];
        var result := WithStatus(status, k.id, k.agreements, k.asset);
        s.(calls := s.calls[c := Answered(k.id, k.asset, k.agreements, status, result)])
    case Clear => s.(cache := map[])
  }

  function Execute(s: State, steps: seq<Step>): State
    decreases |steps|
  {
    if steps == [] then s else Execute(Next(s, steps[0]), steps[1..])
  }

  /** These agreements were fetched for this id, with a validated signature, earlier in the run. */
  ghost predicate WasFetched(s: State, id: string, agreements: seq<Agreement>) {
    exists i :: 0 <= i < |s.fetches| && s.fetches[i].id == id && s.fetches[i].agreements == agreements
  }

  ghost predicate FetchesOk(s: State) {
    forall i :: 0 <= i < |s.fetches| ==>
      FetchAgreements(s.fetches[i].backend, s.fetches[i].id) == Ok(s.fetches[i].agreements)
  }

  ghost predicate CallOk(s: State, k: Call) {
    && (k.Fetched? || k.Holding? || k.Answered? ==> WasFetched(s, k.id, k.agreements))
    && (k.Answered? ==> k.result == WithStatus(k.status, k.id, k.agreements, k.asset))
  }

  ghost predicate Inv(s: State) {
    && FetchesOk(s)
    && (forall id :: id in s.cache ==> WasFetched(s, id, s.cache[id]))
    && (forall c :: c in s.calls ==> CallOk(s, s.calls[c]))
  }

  lemma FetchesPersist(s: State, more: FetchRecord, id: string, agreements: seq<Agreement>)
    requires WasFetched(s, id, agreements)
    ensures WasFetched(s.(fetches := s.fetches + [more]), id, agreements)
  {
    var i :| 0 <= i < |s.fetches| && s.fetches[i].id == id && s.fetches[i].agreements == agreements;
    assert (s.fetches + [more])[i] == s.fetches[i];
  }

  lemma FetchKeepsInv(s: State, c: nat, b: Backend)
    requires Inv(s) && c in s.calls && s.calls[c].Missed?
    ensures Inv(Next(s, Fetch(c, b)))
  {
    var s' := Next(s, Fetch(c, b));
    var id := s.calls[c].id;
    if FetchAgreements(b, id).Ok? {
      var record := FetchRecord(id, b, FetchAgreements(b, id).value);
      assert s'.fetches == s.fetches + [record] && s'.fetches[|s.fetches|] == record;
      forall x | x in s'.cache ensures WasFetched(s', x, s'.cache[x]) {
        FetchesPersist(s, record, x, s.cache[x]);
      }
      forall d | d in s'.calls ensures CallOk(s', s'.calls[d]) {
        if d != c {
          var k := s.calls[d];
          assert CallOk(s, k);
          if k.Fetched? || k.Holding? || k.Answered? {
            FetchesPersist(s, record, k.id, k.agreements);
          }
        }
      }
    } else {
      OthersKeepInv(s, s', c);
    }
  }

  /** A step that adds no fetch keeps the invariant if the call it moved and the cache are still good. */
  lemma OthersKeepInv(s: State, s': State, c: nat)
    requires Inv(s) && s'.fetches == s.fetches
    requires forall id :: id in s'.cache ==> WasFetched(s, id, s'.cache[id])
    requires forall d :: d in s'.calls && d != c ==> d in s.calls && s'.calls[d] == s.calls[d]
    requires c in s'.calls ==> CallOk(s, s'.calls[c])
    ensures Inv(s')
  {
  }

  lemma NextKeepsInv(s: State, step: Step)
    requires Inv(s)
    ensures Inv(Next(s, step))
  {
    var s' := Next(s, step);
    if s' != s {
      match step {
        case Begin(c, _, _) => OthersKeepInv(s, s', c);
        case Look(c) => OthersKeepInv(s, s', c);
        case Fetch(c, b) => FetchKeepsInv(s, c, b);
        case Write(c) =>
          assert CallOk(s, s.calls[c]);
          OthersKeepInv(s, s', c);
        case Finish(c, _) =>
          assert CallOk(s, s.calls[c]);
          OthersKeepInv(s, s', c);
        case Clear =>
          if c :| c in s.calls { assert CallOk(s, s.calls[c]); OthersKeepInv(s, s', c); }
      }
    }
  }

  lemma {:induction false} ExecuteKeepsInv(s: State, steps: seq<Step>)
    requires Inv(s)
    ensures Inv(Execute(s, steps))
    decreases |steps|
  {
    if steps != [] {
      NextKeepsInv(s, steps[0]);
      ExecuteKeepsInv(Next(s, steps[0]), steps[1..]);
    }
  }

  // ---------- What a run did ----------

  lemma {:induction false} ExecuteLast(s: State, steps: seq<Step>)
    requires steps != []
    ensures var n := |steps| - 1;
            Execute(s, steps) == Next(Execute(s, steps[..n]), steps[n])
    decreases |steps|
  {
    var n := |steps| - 1;
    if n > 0 {
      ExecuteLast(Next(s, steps[0]), steps[1..]);
      assert steps[1..][..n - 1] == steps[..n][1..];
    }
  }

  /** Step i of the run fetched these agreements for a call that had missed the cache under this id, from a
      document whose owner's signature that step's backend validated. */
  ghost predicate FetchedAt(steps: seq<Step>, i: nat, id: string, agreements: seq<Agreement>) {
    && i < |steps| && steps[i].Fetch?
    && (var before := Execute(START, steps[..i]);
        && steps[i].call in before.calls
        && before.calls[steps[i].call].Missed? && before.calls[steps[i].call].id == id)
    && Signed(steps[i].backend, id, agreements)
  }

  /** Step j of the run answered call c, which held these agreements, with the status read in that step. */
  ghost predicate AnsweredAt(steps: seq<Step>, j: nat, c: nat, k: Call) {
    && j < |steps| && k.Answered? && steps[j] == Finish(c, k.status)
    && (var before := Execute(START, steps[..j]);
        c in before.calls && before.calls[c] == Holding(k.id, k.asset, k.agreements))
    && k.result == WithStatus(k.status, k.id, k.agreements, k.asset)
  }

  lemma FetchedAtPersists(steps: seq<Step>, n: nat, i: nat, id: string, agreements: seq<Agreement>)
    requires n <= |steps| && FetchedAt(steps[..n], i, id, agreements)
    ensures FetchedAt(steps, i, id, agreements)
  {
    assert steps[..n][..i] == steps[..i];
  }

  /** Every recorded fetch is a step of the run. */
  lemma {:induction false} FetchesHappened(steps: seq<Step>, r: nat)
    requires r < |Execute(START, steps).fetches|
    ensures var record := Execute(START, steps).fetches[r];
            exists i: nat :: FetchedAt(steps, i, record.id, record.agreements)
    decreases |steps|
  {
    if steps != [] {
      var n := |steps| - 1;
      ExecuteLast(START, steps);
      var s, s' := Execute(START, steps[..n]), Execute(START, steps);
      var record := s'.fetches[r];
      if r < |s.fetches| {
        FetchesHappened(steps[..n], r);
        var i: nat :| FetchedAt(steps[..n], i, record.id, record.agreements);
        FetchedAtPersists(steps, n, i, record.id, record.agreements);
      } else {
        FetchedIsSigned(steps[n].backend, record.id, record.agreements);
        assert FetchedAt(steps, n, record.id, record.agreements);
      }
    }
  }

  lemma WasFetchedInRun(steps: seq<Step>, id: string, agreements: seq<Agreement>)
    requires WasFetched(Execute(START, steps), id, agreements)
    ensures exists i: nat :: FetchedAt(steps, i, id, agreements)
  {
    var s := Execute(START, steps);
    var r :| 0 <= r < |s.fetches| && s.fetches[r].id == id && s.fetches[r].agreements == agreements;
    FetchesHappened(steps, r);
  }

  lemma {:induction false} AnswersHappened(steps: seq<Step>, c: nat)
    requires c in Execute(START, steps).calls && Execute(START, steps).calls[c].Answered?
    ensures exists j: nat :: AnsweredAt(steps, j, c, Execute(START, steps).calls[c])
    decreases |steps|
  {
    if steps != [] {
      var n := |steps| - 1;
      ExecuteLast(START, steps);
      var s, k := Execute(START, steps[..n]), Execute(START, steps).calls[c];
      if c in s.calls && s.calls[c] == k {
        AnswersHappened(steps[..n], c);
        var j: nat :| AnsweredAt(steps[..n], j, c, k);
        assert steps[..n][..j] == steps[..j];
        assert AnsweredAt(steps, j, c, k);
      } else {
        assert AnsweredAt(steps, n, c, k);
      }
    }
  }

  /** In every interleaving, with backends free to change at any time: every cached entry was fetched in
      the run, from a document whose owner's signature validated then, and every answer comes from such
      agreements, fetched earlier, with the status read in the answering step itself. */
  lemma CacheHoldsOnlySignedAgreements(steps: seq<Step>)
    ensures var s := Execute(START, steps);
            && (forall id :: id in s.cache ==> exists i: nat :: FetchedAt(steps, i, id, s.cache[id]))
            && (forall c :: c in s.calls && s.calls[c].Answered? ==>
                  exists i: nat, j: nat :: i < j && FetchedAt(steps, i, s.calls[c].id, s.calls[c].agreements)
                                 && AnsweredAt(steps, j, c, s.calls[c]))
  {
    ExecuteKeepsInv(START, steps);
    var s := Execute(START, steps);
    forall id | id in s.cache ensures exists i: nat :: FetchedAt(steps, i, id, s.cache[id]) {
      WasFetchedInRun(steps, id, s.cache[id]);
    }
    forall c | c in s.calls && s.calls[c].Answered?
      ensures exists i: nat, j: nat :: i < j && FetchedAt(steps, i, s.calls[c].id, s.calls[c].agreements)
                             && AnsweredAt(steps, j, c, s.calls[c])
    {
      var k := s.calls[c];
      AnswersHappened(steps, c);
      var j: nat :| AnsweredAt(steps, j, c, k);
      ExecuteKeepsInv(START, steps[..j]);
      assert CallOk(Execute(START, steps[..j]), Holding(k.id, k.asset, k.agreements));
      WasFetchedInRun(steps[..j], k.id, k.agreements);
      var i: nat :| FetchedAt(steps[..j], i, k.id, k.agreements);
      FetchedAtPersists(steps, j, i, k.id, k.agreements);
    }
  }

  /** The reply of a call that is over. */
  function Outcome(k: Call): Result<PermissionsResult, Error>
    requires k.Answered? || k.Failed?
  {
    if k.Failed? then Err(k.error) else k.result
  }

  lemma FiveSteps(s: State, a: Step, b: Step, c: Step, d: Step, e: Step)
    ensures Execute(s, [a, b, c, d, e]) == Next(Next(Next(Next(Next(s, a), b), c), d), e)
  {
    ExecuteLast(s, [a, b, c, d, e]);
    assert [a, b, c, d, e][..4] == [a, b, c, d];
    ExecuteLast(s, [a, b, c, d]);
    assert [a, b, c, d][..3] == [a, b, c];
    ExecuteLast(s, [a, b, c]);
    assert [a, b, c][..2] == [a, b];
    ExecuteLast(s, [a, b]);
    assert [a, b][..1] == [a];
    ExecuteLast(s, [a]);
    assert [a][..0] == [];
  }

  /** The steps of one uninterrupted call are `GetTemplatePermissions`: same reply, same cache. */
  lemma UninterruptedCall(s: State, c: nat, b: Backend, status: Status, id: string, asset: string)
    requires c !in s.calls
    ensures var s' := Execute(s, [Begin(c, id, asset), Look(c), Fetch(c, b), Write(c), Finish(c, status)]);
            && c in s'.calls && (s'.calls[c].Answered? || s'.calls[c].Failed?)
            && Outcome(s'.calls[c]) == CallResult(s.cache, b, status, id, asset)
            && s'.cache == CacheAfter(s.cache, b, id)
  {
    FiveSteps(s, Begin(c, id, asset), Look(c), Fetch(c, b), Write(c), Finish(c, status));
  }

  // ---------- Stable backends: the cache cannot be told from its absence ----------

  ghost predicate AllUse(steps: seq<Step>, b: Backend) {
    forall i :: 0 <= i < |steps| && steps[i].Fetch? ==> steps[i].backend == b
  }

  ghost predicate StableCall(b: Backend, k: Call) {
    match k
    case Fetched(id, _, agreements) => FetchAgreements(b, id) == Ok(agreements)
    case Holding(id, _, agreements) => FetchAgreements(b, id) == Ok(agreements)
    case Answered(id, asset, _, status, result) => result == Uncached(b, status, id, asset)
    case Failed(id, _, e) => FetchAgreements(b, id) == Err(e)
    case _ => true
  }

  ghost predicate Stable(b: Backend, s: State) {
    && (forall id :: id in s.cache ==> FetchAgreements(b, id) == Ok(s.cache[id]))
    && (forall c :: c in s.calls ==> StableCall(b, s.calls[c]))
  }

  lemma NextStable(b: Backend, s: State, step: Step)
    requires Stable(b, s) && (step.Fetch? ==> step.backend == b)
    ensures Stable(b, Next(s, step))
  {
  }

  lemma {:induction false} ExecuteStable(b: Backend, s: State, steps: seq<Step>)
    requires Stable(b, s) && AllUse(steps, b)
    ensures Stable(b, Execute(s, steps))
    decreases |steps|
  {
    if steps != [] {
      NextStable(b, s, steps[0]);
      assert AllUse(steps[1..], b);
      ExecuteStable(b, Next(s, steps[0]), steps[1..]);
    }
  }

  /** With stable backends every call of every interleaving, errors included, gets the uncached answer
      for its own reading of the status, and gives it for every spelling of its template's number. */
  lemma CacheIsTransparent(b: Backend, steps: seq<Step>, c: nat, spelling: string)
    requires AllUse(steps, b)
    requires c in Execute(START, steps).calls
    requires ParseInteger(spelling) == ParseInteger(Execute(START, steps).calls[c].id)
    ensures var k := Execute(START, steps).calls[c];
            && (k.Answered? ==> k.result == Uncached(b, k.status, spelling, k.asset))
            && (k.Failed? ==> forall status :: Err(k.error) == Uncached(b, status, spelling, k.asset))
  {
    ExecuteStable(b, START, steps);
    var k := Execute(START, steps).calls[c];
    assert StableCall(b, k);
    if k.Answered? {
      SpellingIrrelevant(b, k.status, k.id, spelling, k.asset);
    }
  }
}
