/** What a challenge store keeps and answers, and the reference both stores are held to. */
module ChallengeStore {
  import opened Lists
  import opened Text

  /** The record dauth keeps for an outstanding sign-in; times are nanoseconds. */
  datatype Challenge = Challenge(message: string, address: Address, expiresAt: int, audience: seq<string>)

  type Table = map<string, Challenge>

  /** `now.After(expiresAt)`. */
  predicate Expired(now: int, ch: Challenge) { now > ch.expiresAt }

  function Live(t: Table, now: int): Table {
    map id | id in t && !Expired(now, t[id]) :: t[id]
  }

  /** One call on a store, at the clock reading it makes under its lock. `Sweep(now, k)` is the
      janitor's visit to shard k (a shared table sweeps all rows and ignores k). */
  datatype Op =
    | Put(now: int, id: string, ch: Challenge)
    | Consume(now: int, id: string)
    | Sweep(now: int, shard: nat)

  datatype Answer = Stored | Refused | Found(ch: Challenge) | NotFound | Failed | Swept

  // ---------- Sharding ----------

  const SHARDS: nat := 64

  /** FNV-1a over the bytes of a string, 32 bits wide. */
  function Fnv1a(s: string): bv32 {
    if s == "" then 2166136261
    else (Fnv1a(s[..|s| - 1]) ^ Octet(s[|s| - 1])) * 16777619
  }

  function Octet(c: char): bv32 { (c as int % 256) as bv32 }

  lemma OctetOfA()
    ensures Octet('a') == 0x61
  {
    assert 'a' as int % 256 == 97;
    assert (97 as int) as bv32 == 0x61;
  }

  lemma OctetOfB()
    ensures Octet('b') == 0x62
  {
    assert 'b' as int % 256 == 98;
    assert (98 as int) as bv32 == 0x62;
  }

  lemma Fnv1aOfA()
    ensures Fnv1a("a") == 0xe40c292c
  {
    OctetOfA();
    assert "a"[..0] == "" && "a"[0] == 'a';
  }

  lemma Fnv1aOfAB()
    ensures Fnv1a("ab") == 0x4d2505ca
  {
    Fnv1aOfA();
    OctetOfB();
    assert "ab"[..1] == "a" && "ab"[1] == 'b';
  }

  /** Values of the published function, and the shards they lead to. */
  lemma Fnv1aExamples()
    ensures Fnv1a("") == 0x811c9dc5 && Fnv1a("a") == 0xe40c292c && Fnv1a("ab") == 0x4d2505ca
    ensures ShardOf("") == 5 && ShardOf("a") == 44 && ShardOf("ab") == 10
  {
    Fnv1aOfA();
    Fnv1aOfAB();
  }

  function ShardOf(id: string): (k: nat)
    ensures k < SHARDS
  {
    (Fnv1a(id) as nat) % SHARDS
  }

  /** The shard an operation locks. */
  function ShardOfOp(op: Op): nat {
    match op
    case Put(_, id, _) => ShardOf(id)
    case Consume(_, id) => ShardOf(id)
    case Sweep(_, k) => k
  }

  predicate WellShaped(ops: seq<Op>) {
    forall i :: 0 <= i < |ops| ==> ShardOfOp(ops[i]) < SHARDS
  }

  /** Shards are locked independently, so readings need only be in order within each shard. */
  predicate ShardClocksInOrder(ops: seq<Op>) {
    forall i, j :: 0 <= i < j < |ops| && ShardOfOp(ops[i]) == ShardOfOp(ops[j]) ==> ops[i].now <= ops[j].now
  }

  /** Per-shard capacity: maxEntries split over the shards, never below one. */
  function PerShard(maxEntries: int): nat {
    if maxEntries / SHARDS < 1 then 1 else maxEntries / SHARDS
  }

  // ---------- The reference: one plain map with lazy expiry ----------

  /** The unexpired challenges of a plain map that fall to shard k. */
  function LiveInShard(m: Table, k: nat, now: int): Table {
    map id | id in m && ShardOf(id) == k && !Expired(now, m[id]) :: m[id]
  }

  /** The reference store: one map, no shards, no eviction. Only a Consume ever removes an entry. */
  function PlainStep(maxEntries: int, m: Table, op: Op): (Table, Answer) {
    match op
    case Put(now, id, ch) =>
      if |LiveInShard(m, ShardOf(id), now)| >= PerShard(maxEntries) then (m, Refused) else (m[id := ch], Stored)
    case Consume(now, id) =>
      if id !in m then (m, NotFound)
      else (m - {id}, if Expired(now, m[id]) then NotFound else Found(m[id]))
    case Sweep(_, _) => (m, Swept)
  }

  function PlainRun(maxEntries: int, m: Table, ops: seq<Op>): (r: (Table, seq<Answer>))
    ensures |r.1| == |ops|
    decreases |ops|
  {
    if ops == [] then (m, [])
    else
      var (m1, a) := PlainStep(maxEntries, m, ops[0]);
      var (m2, rest) := PlainRun(maxEntries, m1, ops[1..]);
      (m2, [a] + rest)
  }

  // ---------- What a plain map answers, read off the calls before ----------

  lemma PlainRunFirst(maxEntries: int, m: Table, op: Op, rest: seq<Op>)
    ensures var (m1, a) := PlainStep(maxEntries, m, op);
            var (m2, answers) := PlainRun(maxEntries, m1, rest);
            PlainRun(maxEntries, m, [op] + rest) == (m2, [a] + answers)
  {
    assert ([op] + rest)[1..] == rest;
  }

  lemma PlainRunOne(maxEntries: int, m: Table, op: Op)
    ensures PlainRun(maxEntries, m, [op]) == (PlainStep(maxEntries, m, op).0, [PlainStep(maxEntries, m, op).1])
  {
    var (next, a) := PlainStep(maxEntries, m, op);
    assert [op][1..] == [];
    assert PlainRun(maxEntries, next, []) == (next, []);
    assert [a] + [] == [a];
  }

  lemma {:induction false} PlainRunLast(maxEntries: int, m: Table, init: seq<Op>, op: Op)
    ensures var r := PlainRun(maxEntries, m, init);
            var last := PlainStep(maxEntries, r.0, op);
            PlainRun(maxEntries, m, init + [op]) == (last.0, r.1 + [last.1])
    decreases |init|
  {
    if init == [] {
      PlainRunOne(maxEntries, m, op);
      var a := PlainStep(maxEntries, m, op).1;
      assert PlainRun(maxEntries, m, init) == (m, []);
      assert init + [op] == [op] && [] + [a] == [a];
    } else {
      PlainRunLast(maxEntries, PlainStep(maxEntries, m, init[0]).0, init[1..], op);
      PlainRunShift(maxEntries, m, init[0], init[1..], op);
      assert init == [init[0]] + init[1..];
    }
  }

  lemma PlainRunShift(maxEntries: int, m: Table, first: Op, middle: seq<Op>, op: Op)
    requires var r := PlainRun(maxEntries, PlainStep(maxEntries, m, first).0, middle);
             var last := PlainStep(maxEntries, r.0, op);
             PlainRun(maxEntries, PlainStep(maxEntries, m, first).0, middle + [op]) == (last.0, r.1 + [last.1])
    ensures var r := PlainRun(maxEntries, m, [first] + middle);
            var last := PlainStep(maxEntries, r.0, op);
            PlainRun(maxEntries, m, [first] + middle + [op]) == (last.0, r.1 + [last.1])
  {
    PlainRunFirst(maxEntries, m, first, middle);
    PlainRunFirst(maxEntries, m, first, middle + [op]);
    Associate([first], middle, [op]);
    var (next, a) := PlainStep(maxEntries, m, first);
    var r := PlainRun(maxEntries, next, middle);
    Associate([a], r.1, [PlainStep(maxEntries, r.0, op).1]);
  }

  /** Call j put ch under id, and it was stored. */
  predicate StoredAt(ops: seq<Op>, answers: seq<Answer>, j: nat, id: string, ch: Challenge)
    requires |answers| == |ops|
  {
    j < |ops| && ops[j].Put? && ops[j].id == id && ops[j].ch == ch && answers[j] == Stored
  }

  /** Call k took id away, or stored another challenge under it. */
  predicate Supersedes(ops: seq<Op>, answers: seq<Answer>, k: nat, id: string)
    requires |answers| == |ops| && k < |ops|
  {
    (ops[k].Consume? && ops[k].id == id) || (ops[k].Put? && ops[k].id == id && answers[k] == Stored)
  }

  /** ch is what the calls leave under id: stored by one of them, and not superseded since. */
  ghost predicate LeftUnder(ops: seq<Op>, answers: seq<Answer>, id: string, ch: Challenge)
    requires |answers| == |ops|
  {
    exists j: nat :: StoredAt(ops, answers, j, id, ch) && forall k :: j < k < |ops| ==> !Supersedes(ops, answers, k, id)
  }

  lemma LeftUnderNext(ops: seq<Op>, answers: seq<Answer>, op: Op, a: Answer, id: string, ch: Challenge)
    requires |answers| == |ops|
    ensures LeftUnder(ops + [op], answers + [a], id, ch) <==>
            if op.Put? && op.id == id && a == Stored then op.ch == ch
            else !(op.Consume? && op.id == id) && LeftUnder(ops, answers, id, ch)
  {
    var n, ops', answers' := |ops|, ops + [op], answers + [a];
    forall k | 0 <= k < n
      ensures Supersedes(ops', answers', k, id) <==> Supersedes(ops, answers, k, id)
      ensures StoredAt(ops', answers', k, id, ch) <==> StoredAt(ops, answers, k, id, ch)
    {
      assert ops'[k] == ops[k] && answers'[k] == answers[k];
    }
    assert ops'[n] == op && answers'[n] == a;
    if op.Put? && op.id == id && a == Stored {
      assert Supersedes(ops', answers', n, id);
      if op.ch == ch {
        assert StoredAt(ops', answers', n, id, ch);
      }
    } else {
      if LeftUnder(ops', answers', id, ch) {
        var j: nat :| StoredAt(ops', answers', j, id, ch)
                      && forall k :: j < k < |ops'| ==> !Supersedes(ops', answers', k, id);
        assert !Supersedes(ops', answers', n, id);
        assert j < n && StoredAt(ops, answers, j, id, ch);
      }
      if LeftUnder(ops, answers, id, ch) && !(op.Consume? && op.id == id) {
        var j: nat :| StoredAt(ops, answers, j, id, ch)
                      && forall k :: j < k < |ops| ==> !Supersedes(ops, answers, k, id);
        assert StoredAt(ops', answers', j, id, ch);
      }
    }
  }

  /** The plain map holds just what its calls leave. */
  lemma {:induction false} PlainMapHolds(maxEntries: int, ops: seq<Op>, id: string, ch: Challenge)
    ensures var (m, answers) := PlainRun(maxEntries, map[], ops);
            id in m && m[id] == ch <==> LeftUnder(ops, answers, id, ch)
    decreases |ops|
  {
    if ops != [] {
      var init, op := ops[..|ops| - 1], ops[|ops| - 1];
      PlainMapHolds(maxEntries, init, id, ch);
      PlainRunLast(maxEntries, map[], init, op);
      var (m1, answers) := PlainRun(maxEntries, map[], init);
      LeftUnderNext(init, answers, op, PlainStep(maxEntries, m1, op).1, id, ch);
      HoldsNext(maxEntries, m1, op, id, ch);
      assert ops == init + [op];
    }
  }

  lemma HoldsNext(maxEntries: int, m: Table, op: Op, id: string, ch: Challenge)
    ensures var (m', a) := PlainStep(maxEntries, m, op);
            id in m' && m'[id] == ch <==>
              if op.Put? && op.id == id && a == Stored then op.ch == ch
              else !(op.Consume? && op.id == id) && id in m && m[id] == ch
  {
  }

  /** A Consume after these calls finds ch exactly when they leave it under the id and it is not past its
      expiry; otherwise it finds nothing. */
  lemma PlainConsumeExactly(maxEntries: int, ops: seq<Op>, now: int, id: string, ch: Challenge)
    ensures var (m, answers) := PlainRun(maxEntries, map[], ops);
            var a := PlainStep(maxEntries, m, Consume(now, id)).1;
            && (a == Found(ch) <==> LeftUnder(ops, answers, id, ch) && now <= ch.expiresAt)
            && (a.Found? || a == NotFound)
  {
    PlainMapHolds(maxEntries, ops, id, ch);
  }

  // ---------- Counting, for the conservation law ----------

  function Indicator(b: bool): nat { if b then 1 else 0 }

  /** How many times the run tried to Put id. */
  function PutAttempts(ops: seq<Op>, id: string): nat {
    if ops == [] then 0
    else Indicator(ops[0].Put? && ops[0].id == id) + PutAttempts(ops[1..], id)
  }

  /** How many Consumes of id were answered with a challenge. */
  function Redemptions(ops: seq<Op>, answers: seq<Answer>, id: string): nat
    requires |answers| == |ops|
  {
    if ops == [] then 0
    else Indicator(ops[0].Consume? && ops[0].id == id && answers[0].Found?) + Redemptions(ops[1..], answers[1..], id)
  }

  /** The calls that put id, and those that redeemed it. */
  function PutsOf(ops: seq<Op>, id: string): set<nat> {
    set i: nat | i < |ops| && ops[i].Put? && ops[i].id == id
  }

  function RedemptionsOf(ops: seq<Op>, answers: seq<Answer>, id: string): set<nat>
    requires |answers| == |ops|
  {
    set i: nat | i < |ops| && ops[i].Consume? && ops[i].id == id && answers[i].Found?
  }

  lemma {:induction false} ShiftedSize(s: set<nat>, t: set<nat>, first: bool)
    requires forall i: nat :: i in t <==> (i == 0 && first) || (i > 0 && i - 1 in s)
    ensures |t| == |s| + Indicator(first)
    decreases |s|
  {
    if s == {} {
      assert t == if first then {0} else {};
    } else {
      var x :| x in s;
      ShiftedSize(s - {x}, t - {x + 1}, first);
    }
  }

  /** The counts are the numbers of those calls. */
  lemma {:induction false} CountsAreCalls(ops: seq<Op>, answers: seq<Answer>, id: string)
    requires |answers| == |ops|
    ensures PutAttempts(ops, id) == |PutsOf(ops, id)|
    ensures Redemptions(ops, answers, id) == |RedemptionsOf(ops, answers, id)|
  {
    if ops != [] {
      var rest, restAnswers := ops[1..], answers[1..];
      CountsAreCalls(rest, restAnswers, id);
      ShiftedSize(PutsOf(rest, id), PutsOf(ops, id), ops[0].Put? && ops[0].id == id);
      ShiftedSize(RedemptionsOf(rest, restAnswers, id), RedemptionsOf(ops, answers, id),
                  ops[0].Consume? && ops[0].id == id && answers[0].Found?);
    }
  }

  // ---------- Cardinality helpers ----------

  lemma {:induction false} SubsetSize<T>(a: set<T>, b: set<T>)
    requires a <= b
    ensures |a| <= |b|
    decreases a
  {
    if a != {} {
      var x :| x in a;
      SubsetSize(a - {x}, b - {x});
    }
  }

  lemma LiveSize(t: Table, now: int)
    ensures |Live(t, now)| <= |t|
  {
    assert Live(t, now).Keys <= t.Keys;
    SubsetSize(Live(t, now).Keys, t.Keys);
  }

  /** A reading no later than any in the run. */
  lemma {:induction false} Earliest(ops: seq<Op>) returns (t: int)
    ensures forall i :: 0 <= i < |ops| ==> t <= ops[i].now
  {
    t := 0;
    if ops != [] {
      var rest := Earliest(ops[1..]);
      t := if rest <= ops[0].now then rest else ops[0].now;
      forall i | 0 <= i < |ops| ensures t <= ops[i].now {
        if i > 0 { assert ops[i] == ops[1..][i - 1]; }
      }
    }
  }
}
