/** The in-memory challenge store: 64 shards, capacity per shard, lazy expiry and a janitor. */
module MemoryStore {
  import opened Text
  import opened ChallengeStore

  type Shards = s: seq<Table> | |s| == SHARDS witness seq(SHARDS, _ => map[])

  /** A new store's shards. */
  ghost predicate Empty(s: Shards) { forall k :: 0 <= k < SHARDS ==> s[k] == map[] }

  function NewShards(): (s: Shards)
    ensures Empty(s)
  {
    seq(SHARDS, (_: nat) => map[])
  }

  /** Every id lives only in the shard its hash selects. */
  ghost predicate Placed(s: Shards) {
    forall k, id :: 0 <= k < SHARDS && id in s[k] ==> ShardOf(id) == k
  }

  ghost predicate WithinCapacity(maxEntries: int, s: Shards) {
    forall k :: 0 <= k < SHARDS ==> |s[k]| <= PerShard(maxEntries)
  }

  /** What Put leaves in its shard: expired entries go only when the shard is full. */
  function PutShard(maxEntries: int, t: Table, now: int, id: string, ch: Challenge): (Table, bool) {
    var kept := if |t| >= PerShard(maxEntries) then Live(t, now) else t;
    if |kept| >= PerShard(maxEntries) then (kept, false) else (kept[id := ch], true)
  }

  function Step(maxEntries: int, s: Shards, op: Op): (r: (Shards, Answer))
    requires ShardOfOp(op) < SHARDS
  {
    var k := ShardOfOp(op);
    match op
    case Put(now, id, ch) =>
      var (t, ok) := PutShard(maxEntries, s[k], now, id, ch);
      (s[k := t], if ok then Stored else Refused)
    case Consume(now, id) =>
      if id !in s[k] then (s, NotFound)
      else (s[k := s[k] - {id}], if Expired(now, s[k][id]) then NotFound else Found(s[k][id]))
    case Sweep(now, _) => (s[k := Live(s[k], now)], Swept)
  }

  function Run(maxEntries: int, s: Shards, ops: seq<Op>): (r: (Shards, seq<Answer>))
    requires WellShaped(ops)
    ensures |r.1| == |ops|
    decreases |ops|
  {
    if ops == [] then (s, [])
    else
      assert ShardOfOp(ops[0]) < SHARDS;
      var (s1, a) := Step(maxEntries, s, ops[0]);
      var (s2, rest) := Run(maxEntries, s1, ops[1..]);
      (s2, [a] + rest)
  }

  // ---------- Refinement of the plain map ----------

  /** The shards hold exactly the plain map, less entries already expired at their shard's last reading. */
  ghost predicate Simulates(s: Shards, m: Table, clock: seq<int>) {
    && |clock| == SHARDS
    && Placed(s)
    && (forall id :: id in s[ShardOf(id)] ==> id in m && m[id] == s[ShardOf(id)][id])
    && (forall id :: id in m && id !in s[ShardOf(id)] ==> Expired(clock[ShardOf(id)], m[id]))
  }

  lemma SimulatedLive(s: Shards, m: Table, clock: seq<int>, k: nat, now: int)
    requires Simulates(s, m, clock) && k < SHARDS && clock[k] <= now
    ensures Live(s[k], now) == LiveInShard(m, k, now)
  {
  }

  /** The exact condition under which Put is refused: a shard full of unexpired entries. */
  lemma RefusedIffFullOfLive(maxEntries: int, t: Table, now: int, id: string, ch: Challenge)
    requires |t| <= PerShard(maxEntries)
    ensures PutShard(maxEntries, t, now, id, ch).1 <==> |Live(t, now)| < PerShard(maxEntries)
    ensures !PutShard(maxEntries, t, now, id, ch).1 ==>
              |t| == PerShard(maxEntries) && forall x :: x in t ==> !Expired(now, t[x])
    ensures |PutShard(maxEntries, t, now, id, ch).0| <= PerShard(maxEntries)
  {
    LiveSize(t, now);
    if |t| == PerShard(maxEntries) && |Live(t, now)| == |t| {
      SameSizeSubset(Live(t, now).Keys, t.Keys);
    }
  }

  lemma SameSizeSubset<T>(a: set<T>, b: set<T>)
    requires a <= b && |a| == |b|
    ensures a == b
  {
    if x :| x in b && x !in a {
      SubsetSize(a, b - {x});
    }
  }

  lemma StepWithinCapacity(maxEntries: int, s: Shards, op: Op)
    requires WithinCapacity(maxEntries, s) && ShardOfOp(op) < SHARDS
    ensures WithinCapacity(maxEntries, Step(maxEntries, s, op).0)
  {
    var t := s[ShardOfOp(op)];
    LiveSize(t, op.now);
    match op {
      case Put(now, id, ch) => RefusedIffFullOfLive(maxEntries, t, now, id, ch);
      case Consume(now, id) => SubsetSize((t - {id}).Keys, t.Keys);
      case Sweep(_, _) =>
    }
  }

  lemma LaterClockSimulates(s: Shards, m: Table, clock: seq<int>, k: nat, now: int)
    requires Simulates(s, m, clock) && k < SHARDS && clock[k] <= now
    ensures Simulates(s, m, clock[k := now])
  {
  }

  lemma AddSimulates(s: Shards, m: Table, clock: seq<int>, id: string, ch: Challenge)
    requires Simulates(s, m, clock)
    ensures Simulates(s[ShardOf(id) := s[ShardOf(id)][id := ch]], m[id := ch], clock)
  {
    var k := ShardOf(id);
    var s', m' := s[k := s[k][id := ch]], m[id := ch];
    forall j, x | 0 <= j < SHARDS && x in s'[j] ensures ShardOf(x) == j {
      assert x == id || x in s[j];
    }
    forall x | x in s'[ShardOf(x)] ensures x in m' && m'[x] == s'[ShardOf(x)][x] {
      assert x == id || x in s[ShardOf(x)];
    }
    forall x | x in m' && x !in s'[ShardOf(x)] ensures Expired(clock[ShardOf(x)], m'[x]) {
      assert x != id && x !in s[ShardOf(x)];
    }
  }

  lemma PutSimulates(maxEntries: int, s: Shards, m: Table, clock: seq<int>, now: int, id: string, ch: Challenge)
    requires Simulates(s, m, clock) && WithinCapacity(maxEntries, s)
    requires clock[ShardOf(id)] <= now
    ensures var op := Put(now, id, ch);
            && Step(maxEntries, s, op).1 == PlainStep(maxEntries, m, op).1
            && Simulates(Step(maxEntries, s, op).0, PlainStep(maxEntries, m, op).0, clock[ShardOf(id) := now])
  {
    var k := ShardOf(id);
    SimulatedLive(s, m, clock, k, now);
    RefusedIffFullOfLive(maxEntries, s[k], now, id, ch);
    var kept := if |s[k]| >= PerShard(maxEntries) then Live(s[k], now) else s[k];
    if |s[k]| >= PerShard(maxEntries) {
      SweepSimulates(s, m, clock, k, now);
    } else {
      LaterClockSimulates(s, m, clock, k, now);
      assert s[k := kept] == s;
    }
    if |kept| < PerShard(maxEntries) {
      AddSimulates(s[k := kept], m, clock[k := now], id, ch);
      assert s[k := kept][k := kept[id := ch]] == s[k := kept[id := ch]];
    }
  }

  lemma SweepSimulates(s: Shards, m: Table, clock: seq<int>, k: nat, now: int)
    requires Simulates(s, m, clock) && k < SHARDS && clock[k] <= now
    ensures Simulates(s[k := Live(s[k], now)], m, clock[k := now])
  {
  }

  /** Dropping an id from its shard (where it may be missing) and from the map keeps them together. */
  lemma DropSimulates(s: Shards, m: Table, clock: seq<int>, id: string, now: int)
    requires Simulates(s, m, clock) && clock[ShardOf(id)] <= now
    ensures Simulates(s[ShardOf(id) := s[ShardOf(id)] - {id}], m - {id}, clock[ShardOf(id) := now])
  {
    var k := ShardOf(id);
    var s', m', clock' := s[k := s[k] - {id}], m - {id}, clock[k := now];
    forall j, x | 0 <= j < SHARDS && x in s'[j] ensures ShardOf(x) == j {
      assert x in s[j];
    }
    forall x | x in s'[ShardOf(x)] ensures x in m' && m'[x] == s'[ShardOf(x)][x] {
      assert x in s[ShardOf(x)];
    }
    forall x | x in m' && x !in s'[ShardOf(x)] ensures Expired(clock'[ShardOf(x)], m'[x]) {
      assert x in m && x !in s[ShardOf(x)];
    }
  }

  lemma ConsumeSimulates(maxEntries: int, s: Shards, m: Table, clock: seq<int>, now: int, id: string)
    requires Simulates(s, m, clock) && clock[ShardOf(id)] <= now
    ensures var op := Consume(now, id);
            && Step(maxEntries, s, op).1 == PlainStep(maxEntries, m, op).1
            && Simulates(Step(maxEntries, s, op).0, PlainStep(maxEntries, m, op).0, clock[ShardOf(id) := now])
  {
    var k := ShardOf(id);
    DropSimulates(s, m, clock, id, now);
    if id !in s[k] {
      assert s[k] - {id} == s[k];
      assert s[k := s[k]] == s;
    }
    if id !in m {
      assert m - {id} == m;
    }
  }

  lemma StepSimulates(maxEntries: int, s: Shards, m: Table, clock: seq<int>, op: Op)
    requires Simulates(s, m, clock) && WithinCapacity(maxEntries, s)
    requires ShardOfOp(op) < SHARDS && clock[ShardOfOp(op)] <= op.now
    ensures Step(maxEntries, s, op).1 == PlainStep(maxEntries, m, op).1
    ensures Simulates(Step(maxEntries, s, op).0, PlainStep(maxEntries, m, op).0, clock[ShardOfOp(op) := op.now])
  {
    match op {
      case Put(now, id, ch) => PutSimulates(maxEntries, s, m, clock, now, id, ch);
      case Consume(now, id) => ConsumeSimulates(maxEntries, s, m, clock, now, id);
      case Sweep(now, k) => SweepSimulates(s, m, clock, k, now);
    }
  }

  lemma {:induction false} RunSimulates(maxEntries: int, s: Shards, m: Table, clock: seq<int>, ops: seq<Op>)
    requires Simulates(s, m, clock) && WithinCapacity(maxEntries, s)
    requires WellShaped(ops) && ShardClocksInOrder(ops)
    requires forall i :: 0 <= i < |ops| ==> clock[ShardOfOp(ops[i])] <= ops[i].now
    ensures Run(maxEntries, s, ops).1 == PlainRun(maxEntries, m, ops).1
    ensures Placed(Run(maxEntries, s, ops).0) && WithinCapacity(maxEntries, Run(maxEntries, s, ops).0)
    decreases |ops|
  {
    if ops != [] {
      var op, rest := ops[0], ops[1..];
      assert clock[ShardOfOp(op)] <= op.now;
      StepSimulates(maxEntries, s, m, clock, op);
      StepWithinCapacity(maxEntries, s, op);
      forall i | 0 <= i < |rest|
        ensures clock[ShardOfOp(op) := op.now][ShardOfOp(rest[i])] <= rest[i].now
      {
        assert rest[i] == ops[i + 1];
      }
      RunSimulates(maxEntries, Step(maxEntries, s, op).0, PlainStep(maxEntries, m, op).0,
                   clock[ShardOfOp(op) := op.now], rest);
    }
  }

  /** In every interleaving of Puts, Consumes and per-shard sweeps, every answer is the plain map's:
      sharding, eviction and the janitor cannot be observed. */
  lemma {:induction false} MemoryRefinesPlainMap(maxEntries: int, ops: seq<Op>)
    requires WellShaped(ops) && ShardClocksInOrder(ops)
    ensures Run(maxEntries, NewShards(), ops).1 == PlainRun(maxEntries, map[], ops).1
    ensures Placed(Run(maxEntries, NewShards(), ops).0)
  {
    var t := Earliest(ops);
    RunSimulates(maxEntries, NewShards(), map[], seq(SHARDS, _ => t), ops);
  }

  lemma {:induction false} RunLast(maxEntries: int, s: Shards, ops: seq<Op>, op: Op)
    requires WellShaped(ops + [op])
    ensures WellShaped(ops) && ShardOfOp(op) < SHARDS
    ensures var (s1, answers) := Run(maxEntries, s, ops);
            Run(maxEntries, s, ops + [op]).1 == answers + [Step(maxEntries, s1, op).1]
    decreases |ops|
  {
    assert (ops + [op])[|ops|] == op;
    assert forall i :: 0 <= i < |ops| ==> (ops + [op])[i] == ops[i];
    if ops == [] {
      assert ops + [op] == [op];
    } else {
      var s1 := Step(maxEntries, s, ops[0]).0;
      assert (ops + [op])[1..] == ops[1..] + [op];
      RunLast(maxEntries, s1, ops[1..], op);
    }
  }

  /** At the end of any run, a Consume finds ch exactly when the calls before leave it under the id and it is
      not past its expiry; otherwise it finds nothing. */
  lemma ConsumeExactly(maxEntries: int, ops: seq<Op>, now: int, id: string, ch: Challenge)
    requires WellShaped(ops) && ShardClocksInOrder(ops + [Consume(now, id)])
    ensures var (s, answers) := Run(maxEntries, NewShards(), ops);
            var a := Step(maxEntries, s, Consume(now, id)).1;
            && (a == Found(ch) <==> LeftUnder(ops, answers, id, ch) && now <= ch.expiresAt)
            && (a.Found? || a == NotFound)
  {
    var op := Consume(now, id);
    var all := ops + [op];
    assert forall i :: 0 <= i < |ops| ==> all[i] == ops[i];
    RunLast(maxEntries, NewShards(), ops, op);
    PlainRunLast(maxEntries, map[], ops, op);
    MemoryRefinesPlainMap(maxEntries, all);
    MemoryRefinesPlainMap(maxEntries, ops);
    PlainConsumeExactly(maxEntries, ops, now, id, ch);
    var (s, answers) := Run(maxEntries, NewShards(), ops);
    assert (answers + [Step(maxEntries, s, op).1])[|ops|] == Step(maxEntries, s, op).1;
  }

  // ---------- Capacity ----------

  function TotalEntries(s: seq<Table>): nat {
    if s == [] then 0 else |s[0]| + TotalEntries(s[1..])
  }

  lemma {:induction false} TotalBound(s: seq<Table>, cap: nat)
    requires forall k :: 0 <= k < |s| ==> |s[k]| <= cap
    ensures TotalEntries(s) <= |s| * cap
  {
    if s != [] {
      TotalBound(s[1..], cap);
      assert |s| * cap == cap + |s[1..]| * cap;
    }
  }

  lemma {:induction false} RunWithinCapacity(maxEntries: int, s: Shards, ops: seq<Op>)
    requires WellShaped(ops) && WithinCapacity(maxEntries, s)
    ensures WithinCapacity(maxEntries, Run(maxEntries, s, ops).0)
    decreases |ops|
  {
    if ops != [] {
      assert ShardOfOp(ops[0]) < SHARDS;
      StepWithinCapacity(maxEntries, s, ops[0]);
      RunWithinCapacity(maxEntries, Step(maxEntries, s, ops[0]).0, ops[1..]);
    }
  }

  /** Every reachable state, whatever the clock does, respects the bounds. */
  lemma {:induction false} CapacityHolds(maxEntries: int, ops: seq<Op>)
    requires WellShaped(ops)
    ensures var s := Run(maxEntries, NewShards(), ops).0;
            && WithinCapacity(maxEntries, s)
            && (forall k :: 0 <= k < 64 ==> |s[k]| <= 1 || 64 * |s[k]| <= maxEntries)
            && (TotalEntries(s) <= 64 || TotalEntries(s) <= maxEntries)
  {
    RunWithinCapacity(maxEntries, NewShards(), ops);
    TotalBound(Run(maxEntries, NewShards(), ops).0, PerShard(maxEntries));
  }

  /** In every reachable state Put is refused exactly when its shard holds its full share of entries and
      none of them has expired at that moment. */
  lemma PutRefusedExactly(maxEntries: int, ops: seq<Op>, now: int, id: string, ch: Challenge)
    requires WellShaped(ops)
    ensures var s := Run(maxEntries, NewShards(), ops).0;
            var t := s[ShardOf(id)];
            Step(maxEntries, s, Put(now, id, ch)).1 == Refused <==>
              |t| >= 1 && 64 * (|t| + 1) > maxEntries && forall x :: x in t ==> now <= t[x].expiresAt
  {
    CapacityHolds(maxEntries, ops);
    var t := Run(maxEntries, NewShards(), ops).0[ShardOf(id)];
    RefusedIffFullOfLive(maxEntries, t, now, id, ch);
    if forall x :: x in t ==> !Expired(now, t[x]) {
      assert Live(t, now) == t;
    }
  }

  // ---------- Conservation ----------

  predicate Present(s: Shards, id: string) { id in s[ShardOf(id)] }

  lemma {:induction false} RunConserves(maxEntries: int, s: Shards, ops: seq<Op>, id: string)
    requires WellShaped(ops)
    ensures var (s', answers) := Run(maxEntries, s, ops);
            Redemptions(ops, answers, id) + Indicator(Present(s', id)) <=
            PutAttempts(ops, id) + Indicator(Present(s, id))
    decreases |ops|
  {
    if ops != [] {
      assert ShardOfOp(ops[0]) < SHARDS;
      var (s1, a) := Step(maxEntries, s, ops[0]);
      var (s2, rest) := Run(maxEntries, s1, ops[1..]);
      RunConserves(maxEntries, s1, ops[1..], id);
      assert ([a] + rest)[1..] == rest;
    }
  }

  /** With no assumption on nonces or clocks: no id is redeemed more often than it was Put,
      and one that is still present has a Put to spare. Overwriting Puts are counted. */
  lemma MemoryConserves(maxEntries: int, ops: seq<Op>, id: string)
    requires WellShaped(ops)
    ensures var (s, answers) := Run(maxEntries, NewShards(), ops);
            |RedemptionsOf(ops, answers, id)| + Indicator(Present(s, id)) <= |PutsOf(ops, id)|
  {
    RunConserves(maxEntries, NewShards(), ops, id);
    CountsAreCalls(ops, Run(maxEntries, NewShards(), ops).1, id);
  }

  /** The janitor's visits in one round. */
  function Sweeps(readings: seq<int>): (ops: seq<Op>)
    requires |readings| == SHARDS
    ensures |ops| == SHARDS && WellShaped(ops)
    ensures forall k :: 0 <= k < SHARDS ==> ops[k] == Sweep(readings[k], k)
  {
    seq(SHARDS, k requires 0 <= k < SHARDS => Sweep(readings[k], k))
  }

  lemma {:induction false} RunNext(maxEntries: int, s: Shards, ops: seq<Op>, n: nat)
    requires WellShaped(ops) && n < |ops|
    ensures Run(maxEntries, s, ops[..n + 1]).0 == Step(maxEntries, Run(maxEntries, s, ops[..n]).0, ops[n]).0
    decreases n
  {
    assert ShardOfOp(ops[0]) < SHARDS;
    var s1, rest := Step(maxEntries, s, ops[0]).0, ops[1..];
    assert ops[..n + 1][1..] == rest[..n];
    if n > 0 {
      assert ops[..n][1..] == rest[..n - 1];
      RunNext(maxEntries, s1, rest, n - 1);
    }
  }

  // ---------- The store object ----------

  class Memory {
    const maxEntries: int
    const shards: array<Table>

    ghost predicate Valid()
      reads this, shards
    {
      shards.Length == SHARDS && Placed(shards[..]) && WithinCapacity(maxEntries, shards[..])
    }

    constructor (maxEntries: int)
      ensures this.maxEntries == maxEntries && fresh(shards)
      ensures Valid() && shards[..] == NewShards()
    {
      this.maxEntries := maxEntries;
      shards := new Table[SHARDS](_ => map[]);
      new;
      assert shards[..] == NewShards();
    }

    method SweepLocked(k: nat, now: int)
      requires Valid() && k < SHARDS
      modifies shards
      ensures Valid()
      ensures shards[..] == Step(maxEntries, old(shards[..]), Sweep(now, k)).0
      ensures shards[k] == Live(old(shards[k]), now)
      ensures forall j :: 0 <= j < SHARDS && j != k ==> shards[j] == old(shards[j])
    {
      ghost var before := shards[k];
      LiveSize(before, now);
      var unseen := shards[k].Keys;
      while unseen != {}
        invariant unseen <= before.Keys
        invariant shards[k] == map id | id in before && (id in unseen || !Expired(now, before[id])) :: before[id]
        invariant shards[..] == old(shards[..])[k := shards[k]]
        decreases unseen
      {
        var id :| id in unseen;
        unseen := unseen - {id};
        if Expired(now, shards[k][id]) {
          shards[k] := shards[k] - {id};
        }
      }
      assert shards[k] == Live(before, now);
    }

    method Put(now: int, id: string, ch: Challenge) returns (ok: bool)
      requires Valid()
      modifies shards
      ensures Valid()
      ensures shards[..] == Step(maxEntries, old(shards[..]), Op.Put(now, id, ch)).0
      ensures ok <==> Step(maxEntries, old(shards[..]), Op.Put(now, id, ch)).1 == Stored
    {
      var k := ShardOf(id);
      RefusedIffFullOfLive(maxEntries, shards[k], now, id, ch);
      var perShard := maxEntries / SHARDS;
      if perShard < 1 {
        perShard := 1;
      }
      if |shards[k]| >= perShard {
        SweepLocked(k, now);
        if |shards[k]| >= perShard {
          return false;
        }
      }
      shards[k] := shards[k][id := ch];
      ok := true;
    }

    method Consume(now: int, id: string) returns (found: Option<Challenge>)
      requires Valid()
      modifies shards
      ensures Valid()
      ensures shards[..] == Step(maxEntries, old(shards[..]), Op.Consume(now, id)).0
      ensures Step(maxEntries, old(shards[..]), Op.Consume(now, id)).1 ==
              match found { case Some(ch) => Found(ch) case None => NotFound }
    {
      var k := ShardOf(id);
      if id !in shards[k] {
        return None;
      }
      var ch := shards[k][id];
      SubsetSize((shards[k] - {id}).Keys, shards[k].Keys);
      shards[k] := shards[k] - {id};
      if Expired(now, ch) {
        return None;
      }
      return Some(ch);
    }

    /** One round of the janitor, which reads the clock once per shard: 64 Sweep steps in turn. */
    method JanitorRound(readings: seq<int>)
      requires Valid() && |readings| == SHARDS
      modifies shards
      ensures Valid()
      ensures shards[..] == Run(maxEntries, old(shards[..]), Sweeps(readings)).0
      ensures forall k :: 0 <= k < SHARDS ==> shards[k] == Live(old(shards[k]), readings[k])
    {
      ghost var sweeps := Sweeps(readings);
      for k := 0 to SHARDS
        invariant Valid()
        invariant shards[..] == Run(maxEntries, old(shards[..]), sweeps[..k]).0
        invariant forall j :: 0 <= j < k ==> shards[j] == Live(old(shards[j]), readings[j])
        invariant forall j :: k <= j < SHARDS ==> shards[j] == old(shards[j])
      {
        SweepLocked(k, readings[k]);
        RunNext(maxEntries, old(shards[..]), sweeps, k);
      }
      assert sweeps[..SHARDS] == sweeps;
    }
  }
}
