/** The shared challenge store: one table, used by any number of replicas. */
module PostgresStore {
  import opened Text
  import opened ChallengeStore
  import MemoryStore

  /** How one statement can go wrong: it may fail before the database acts, or after it has acted
      (a lost connection, a cancelled context), in which case the caller also sees an error. */
  datatype Fault = NoFault | LostBefore | LostAfter

  /** TIMESTAMPTZ keeps whole microseconds. */
  function Micros(t: int): (r: int)
    ensures r % 1000 == 0 && r <= t < r + 1000
  {
    t - t % 1000
  }

  /** The challenge as the row gives it back. */
  function Kept(ch: Challenge): Challenge { ch.(expiresAt := Micros(ch.expiresAt)) }

  function Step(t: Table, op: Op, fault: Fault): (Table, Answer) {
    match op
    case Put(_, id, ch) =>
      if fault == LostBefore then (t, Failed)
      else if id in t then (t, if fault == LostAfter then Failed else Refused)  // primary key violation
      else (t[id := Kept(ch)], if fault == LostAfter then Failed else Stored)
    case Consume(now, id) =>
      if fault == LostBefore then (t, Failed)
      else if id !in t then (t, if fault == LostAfter then Failed else NotFound)
      else (t - {id}, if fault == LostAfter then Failed
                      else if Expired(now, t[id]) then NotFound
                      else Found(t[id]))
    case Sweep(now, _) =>
      if fault == LostBefore then (t, Swept)
      else (map id | id in t && t[id].expiresAt >= Micros(now) :: t[id], Swept)
  }

  function Run(t: Table, ops: seq<Op>, faults: seq<Fault>): (r: (Table, seq<Answer>))
    requires |faults| == |ops|
    ensures |r.1| == |ops|
    decreases |ops|
  {
    if ops == [] then (t, [])
    else
      var (t1, a) := Step(t, ops[0], faults[0]);
      var (t2, rest) := Run(t1, ops[1..], faults[1..]);
      (t2, [a] + rest)
  }

  // ---------- Conservation, with faults ----------

  lemma {:induction false} RunConserves(t: Table, ops: seq<Op>, faults: seq<Fault>, id: string)
    requires |faults| == |ops|
    ensures var (t', answers) := Run(t, ops, faults);
            Redemptions(ops, answers, id) + Indicator(id in t') <= PutAttempts(ops, id) + Indicator(id in t)
    decreases |ops|
  {
    if ops != [] {
      var (t1, a) := Step(t, ops[0], faults[0]);
      var (t2, rest) := Run(t1, ops[1..], faults[1..]);
      RunConserves(t1, ops[1..], faults[1..], id);
      assert ([a] + rest)[1..] == rest;
    }
  }

  /** No id is redeemed more often than its Put was attempted, even when calls err after taking effect. */
  lemma PostgresConserves(ops: seq<Op>, faults: seq<Fault>, id: string)
    requires |faults| == |ops|
    ensures var (t, answers) := Run(map[], ops, faults);
            |RedemptionsOf(ops, answers, id)| + Indicator(id in t) <= |PutsOf(ops, id)|
  {
    RunConserves(map[], ops, faults, id);
    CountsAreCalls(ops, Run(map[], ops, faults).1, id);
  }

  // ---------- Agreement with the in-memory store ----------

  predicate ClocksInOrder(ops: seq<Op>) {
    forall i, j :: 0 <= i < j < |ops| ==> ops[i].now <= ops[j].now
  }

  predicate FreshNonces(ops: seq<Op>) {
    forall i, j :: 0 <= i < j < |ops| && ops[i].Put? && ops[j].Put? ==> ops[i].id != ops[j].id
  }

  function NoFaults(n: nat): (f: seq<Fault>)
    ensures |f| == n
  {
    seq(n, _ => NoFault)
  }

  /** The challenges put and not yet redeemed after these calls, starting from m. */
  function Outstanding(m: Table, ops: seq<Op>): Table
    decreases |ops|
  {
    if ops == [] then m else Outstanding(After(m, ops[0]), ops[1..])
  }

  function After(m: Table, op: Op): Table {
    match op
    case Put(_, id, ch) => m[id := ch]
    case Consume(_, id) => m - {id}
    case Sweep(_, _) => m
  }

  /** A redemption in the last fraction of a microsecond of a challenge's life. */
  predicate InGap(m: Table, op: Op) {
    op.Consume? && op.id in m && Micros(m[op.id].expiresAt) < op.now <= m[op.id].expiresAt
  }

  /** Some call of the run redeems a challenge, outstanding at that moment, in that last fraction. */
  predicate ReadsInGap(m: Table, ops: seq<Op>) {
    exists i :: 0 <= i < |ops| && InGap(Outstanding(m, ops[..i]), ops[i])
  }

  lemma ReadsInGapUnfold(m: Table, ops: seq<Op>)
    requires ops != []
    ensures ReadsInGap(m, ops) <==> InGap(m, ops[0]) || ReadsInGap(After(m, ops[0]), ops[1..])
  {
    var m1, rest := After(m, ops[0]), ops[1..];
    forall i | 0 <= i < |rest|
      ensures Outstanding(m, ops[..i + 1]) == Outstanding(m1, rest[..i]) && ops[i + 1] == rest[i]
    {
      assert ops[..i + 1][1..] == rest[..i];
    }
    if i :| 0 <= i < |ops| && InGap(Outstanding(m, ops[..i]), ops[i]) {
      if i > 0 {
        assert InGap(Outstanding(m1, rest[..i - 1]), rest[i - 1]);
      }
    }
    if InGap(m, ops[0]) {
      assert InGap(Outstanding(m, ops[..0]), ops[0]);
    }
    if i :| 0 <= i < |rest| && InGap(Outstanding(m1, rest[..i]), rest[i]) {
      assert InGap(Outstanding(m, ops[..i + 1]), ops[i + 1]);
    }
  }

  /** The table's answer is the other store's, a found challenge as its row keeps it. */
  predicate SameAnswer(shared: Answer, plain: Answer) {
    shared == if plain.Found? then Found(Kept(plain.ch)) else plain
  }

  predicate SameAnswers(shared: seq<Answer>, plain: seq<Answer>) {
    |shared| == |plain| && forall i :: 0 <= i < |shared| ==> SameAnswer(shared[i], plain[i])
  }

  predicate NoneRefused(answers: seq<Answer>) {
    forall i :: 0 <= i < |answers| ==> answers[i] != Refused
  }

  /** The table holds the outstanding challenges as rows keep them, less some that have expired. */
  ghost predicate Simulates(t: Table, m: Table, clock: int) {
    && (forall id :: id in t ==> id in m && t[id] == Kept(m[id]))
    && (forall id :: id in m && id !in t ==> Expired(clock, m[id]))
  }

  lemma SweepSimulates(t: Table, m: Table, clock: int, now: int, k: nat)
    requires Simulates(t, m, clock) && clock <= now
    ensures Simulates(Step(t, Sweep(now, k), NoFault).0, m, now)
  {
  }

  lemma ConsumeSimulates(t: Table, m: Table, clock: int, now: int, id: string)
    requires Simulates(t, m, clock) && clock <= now
    ensures Simulates(t - {id}, m - {id}, now)
  {
  }

  lemma PutSimulates(t: Table, m: Table, clock: int, now: int, id: string, ch: Challenge)
    requires Simulates(t, m, clock) && clock <= now
    ensures Simulates(t[id := Kept(ch)], m[id := ch], now)
  {
  }

  lemma StepSimulates(t: Table, m: Table, clock: int, op: Op)
    requires Simulates(t, m, clock) && clock <= op.now && (op.Put? ==> op.id !in t)
    ensures Simulates(Step(t, op, NoFault).0, After(m, op), op.now)
  {
    match op {
      case Put(now, id, ch) => PutSimulates(t, m, clock, now, id, ch);
      case Consume(now, id) =>
        ConsumeSimulates(t, m, clock, now, id);
        assert id !in t ==> t - {id} == t;
      case Sweep(now, k) => SweepSimulates(t, m, clock, now, k);
    }
  }

  /** One call is answered alike unless it is a Put the plain map has no room for, or falls in the gap. */
  lemma StepAnswers(maxEntries: int, t: Table, m: Table, clock: int, op: Op)
    requires Simulates(t, m, clock) && clock <= op.now && (op.Put? ==> op.id !in t)
    ensures SameAnswer(Step(t, op, NoFault).1, PlainStep(maxEntries, m, op).1) <==>
            PlainStep(maxEntries, m, op).1 != Refused && !InGap(m, op)
    ensures PlainStep(maxEntries, m, op).1 != Refused ==> PlainStep(maxEntries, m, op).0 == After(m, op)
  {
    if op.Consume? && op.id !in m {
      assert m - {op.id} == m;
    }
  }

  lemma SameAnswersUnfold(shared: seq<Answer>, plain: seq<Answer>)
    requires |shared| == |plain| > 0
    ensures SameAnswers(shared, plain) <==> SameAnswer(shared[0], plain[0]) && SameAnswers(shared[1..], plain[1..])
  {
    if SameAnswer(shared[0], plain[0]) && SameAnswers(shared[1..], plain[1..]) {
      forall i | 0 <= i < |shared| ensures SameAnswer(shared[i], plain[i]) {
        if i > 0 {
          assert shared[i] == shared[1..][i - 1] && plain[i] == plain[1..][i - 1];
        }
      }
    }
  }

  lemma NoneRefusedUnfold(a: Answer, rest: seq<Answer>)
    ensures NoneRefused([a] + rest) <==> a != Refused && NoneRefused(rest)
  {
    assert forall i :: 0 <= i < |rest| ==> ([a] + rest)[i + 1] == rest[i];
    assert ([a] + rest)[0] == a;
  }

  lemma {:induction false} RunAnswers(maxEntries: int, t: Table, m: Table, clock: int, ops: seq<Op>)
    requires Simulates(t, m, clock)
    requires ClocksInOrder(ops) && FreshNonces(ops)
    requires forall i :: 0 <= i < |ops| ==> clock <= ops[i].now && (ops[i].Put? ==> ops[i].id !in t)
    ensures SameAnswers(Run(t, ops, NoFaults(|ops|)).1, PlainRun(maxEntries, m, ops).1) <==>
            NoneRefused(PlainRun(maxEntries, m, ops).1) && !ReadsInGap(m, ops)
    decreases |ops|
  {
    if ops != [] {
      var op, rest := ops[0], ops[1..];
      var (t1, a) := Step(t, op, NoFault);
      var (m1, b) := PlainStep(maxEntries, m, op);
      StepAnswers(maxEntries, t, m, clock, op);
      assert NoFaults(|ops|)[1..] == NoFaults(|rest|);
      var shared, plain := Run(t1, rest, NoFaults(|rest|)).1, PlainRun(maxEntries, m1, rest).1;
      assert ([a] + shared)[1..] == shared && ([b] + plain)[1..] == plain;
      SameAnswersUnfold([a] + shared, [b] + plain);
      NoneRefusedUnfold(b, plain);
      ReadsInGapUnfold(m, ops);
      if b != Refused {
        StepSimulates(t, m, clock, op);
        forall i | 0 <= i < |rest|
          ensures op.now <= rest[i].now && (rest[i].Put? ==> rest[i].id !in t1)
        {
          assert rest[i] == ops[i + 1];
        }
        RunAnswers(maxEntries, t1, m1, op.now, rest);
      }
    }
  }

  /** On fresh nonces and without database faults, the shared table and the in-memory store answer every
      call of a run alike exactly when the latter refuses no Put and no outstanding challenge is redeemed
      in the last fraction of a microsecond of its life. */
  lemma SharedTableMatchesMemory(maxEntries: int, ops: seq<Op>)
    requires WellShaped(ops) && ClocksInOrder(ops) && FreshNonces(ops)
    ensures var shared := Run(map[], ops, NoFaults(|ops|)).1;
            var memory := MemoryStore.Run(maxEntries, MemoryStore.NewShards(), ops).1;
            SameAnswers(shared, memory) <==> NoneRefused(memory) && !ReadsInGap(map[], ops)
  {
    MemoryStore.MemoryRefinesPlainMap(maxEntries, ops);
    var t := Earliest(ops);
    RunAnswers(maxEntries, map[], map[], t, ops);
  }

  // ---------- Expiries of whole microseconds ----------

  predicate Whole(ch: Challenge) { ch.expiresAt % 1000 == 0 }

  predicate WholeMicroseconds(ops: seq<Op>) {
    forall i :: 0 <= i < |ops| && ops[i].Put? ==> Whole(ops[i].ch)
  }

  predicate AllWhole(m: Table) { forall id :: id in m ==> Whole(m[id]) }

  predicate FoundWhole(answers: seq<Answer>) {
    forall i :: 0 <= i < |answers| && answers[i].Found? ==> Whole(answers[i].ch)
  }

  lemma {:induction false} OutstandingWhole(m: Table, ops: seq<Op>)
    requires AllWhole(m) && WholeMicroseconds(ops)
    ensures AllWhole(Outstanding(m, ops))
    decreases |ops|
  {
    if ops != [] {
      assert ops[0].Put? ==> Whole(ops[0].ch);
      OutstandingWhole(After(m, ops[0]), ops[1..]);
    }
  }

  lemma FoundWholeFirst(a: Answer, rest: seq<Answer>)
    requires (a.Found? ==> Whole(a.ch)) && FoundWhole(rest)
    ensures FoundWhole([a] + rest)
  {
    assert forall i :: 0 < i < |[a] + rest| ==> ([a] + rest)[i] == rest[i - 1];
  }

  lemma {:induction false} FoundAreWhole(maxEntries: int, m: Table, ops: seq<Op>)
    requires AllWhole(m) && WholeMicroseconds(ops)
    ensures FoundWhole(PlainRun(maxEntries, m, ops).1)
    decreases |ops|
  {
    if ops != [] {
      assert ops[0].Put? ==> Whole(ops[0].ch);
      var (m1, a) := PlainStep(maxEntries, m, ops[0]);
      assert a.Found? ==> Whole(a.ch);
      FoundAreWhole(maxEntries, m1, ops[1..]);
      FoundWholeFirst(a, PlainRun(maxEntries, m1, ops[1..]).1);
    }
  }

  /** With whole-microsecond expiries nothing is rounded, and only a refused Put tells the stores apart. */
  lemma WholeMicrosecondsAgree(maxEntries: int, ops: seq<Op>)
    requires WellShaped(ops) && ClocksInOrder(ops) && FreshNonces(ops) && WholeMicroseconds(ops)
    ensures var memory := MemoryStore.Run(maxEntries, MemoryStore.NewShards(), ops).1;
            Run(map[], ops, NoFaults(|ops|)).1 == memory <==> NoneRefused(memory)
  {
    var shared := Run(map[], ops, NoFaults(|ops|)).1;
    var memory := MemoryStore.Run(maxEntries, MemoryStore.NewShards(), ops).1;
    SharedTableMatchesMemory(maxEntries, ops);
    MemoryStore.MemoryRefinesPlainMap(maxEntries, ops);
    FoundAreWhole(maxEntries, map[], ops);
    forall i | 0 <= i < |ops| ensures !InGap(Outstanding(map[], ops[..i]), ops[i]) {
      OutstandingWhole(map[], ops[..i]);
    }
    assert forall i :: 0 <= i < |memory| ==> (SameAnswer(shared[i], memory[i]) <==> shared[i] == memory[i]);
  }

  /** The two-call case, with readings in either order: a challenge put and then redeemed is found by one
      store and not by the other iff the redemption reads the clock in the gap. */
  lemma RoundingGap(maxEntries: int, put: int, now: int, id: string, ch: Challenge)
    ensures var ops := [Put(put, id, ch), Consume(now, id)];
            && WellShaped(ops)
            && (var shared := Run(map[], ops, NoFaults(2)).1[1];
                var memory := MemoryStore.Run(maxEntries, MemoryStore.NewShards(), ops).1[1];
                shared.Found? != memory.Found? <==> Micros(ch.expiresAt) < now <= ch.expiresAt)
  {
  }

  /** The gap is not empty: expiry at 1999 ns, redeemed at 1500 ns. */
  lemma RoundingGapExample(id: string, a: Address)
    ensures var ops := [Put(0, id, Challenge("m", a, 1999, [])), Consume(1500, id)];
            && WellShaped(ops)
            && Run(map[], ops, NoFaults(2)).1[1] == NotFound
            && MemoryStore.Run(SHARDS, MemoryStore.NewShards(), ops).1[1] == Found(Challenge("m", a, 1999, []))
  {
  }

  // ---------- The store object ----------

  class Postgres {
    var table: Table

    constructor ()
      ensures table == map[]
    {
      table := map[];
    }

    /** INSERT: a duplicate nonce is an error, never an overwrite. */
    method Put(id: string, ch: Challenge, fault: Fault) returns (ok: bool)
      modifies this
      ensures forall now :: table == Step(old(table), Op.Put(now, id, ch), fault).0
      ensures ok <==> fault == NoFault && id !in old(table)
      ensures id in old(table) ==> table == old(table)
    {
      if fault == LostBefore || id in table {
        return false;
      }
      table := table[id := Kept(ch)];
      ok := fault == NoFault;
    }

    /** DELETE ... RETURNING, then the expiry check on the returned row. */
    method Consume(now: int, id: string, fault: Fault) returns (answer: Answer)
      modifies this
      ensures (table, answer) == Step(old(table), Op.Consume(now, id), fault)
    {
      if fault == LostBefore {
        return Failed;
      }
      if id !in table {
        return if fault == LostAfter then Failed else NotFound;
      }
      var row := table[id];
      table := table - {id};
      if fault == LostAfter {
        return Failed;
      }
      return if Expired(now, row) then NotFound else Found(row);
    }

    /** DELETE ... WHERE expires_at < now. Only rows already expired go. */
    method JanitorRound(now: int, fault: Fault)
      modifies this
      ensures forall k :: table == Step(old(table), Sweep(now, k), fault).0
      ensures Live(table, now) == Live(old(table), now)
    {
      if fault != LostBefore {
        table := map id | id in table && table[id].expiresAt >= Micros(now) :: table[id];
      }
    }
  }
}
