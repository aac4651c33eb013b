/** Key rotation: which deployments keep every outstanding token verifiable. */
module Rotation {
  import opened Text
  import opened Keys

  /** One running copy of the service: it serves during [start, end) with the keys it loaded at start-up. */
  datatype Pod = Pod(start: int, end: int, keys: seq<SigningKey>)

  predicate Serving(p: Pod, t: int) { p.start <= t < p.end }

  ghost predicate WellLoaded(pods: set<Pod>) {
    forall p :: p in pods ==> p.start < p.end && p.keys != [] && DistinctKids(p.keys)
  }

  /** The key that signs, and whose id goes in the header. */
  function ActiveKey(p: Pod): SigningKey
    requires p.keys != []
  {
    p.keys[0]
  }

  /** A token p signs at t, unexpired at u, checked at u against the key set q served at v:
      the current one, or a copy of it no older than the cache window. */
  predicate Checked(p: Pod, q: Pod, t: int, u: int, v: int, window: int, ttl: int) {
    && Serving(p, t) && t <= u < t + ttl
    && u - window <= v <= u && Serving(q, v)
  }

  ghost predicate EveryTokenVerifies(pods: set<Pod>, window: int, ttl: int)
    requires WellLoaded(pods)
  {
    forall p, q, t, u, v :: p in pods && q in pods && Checked(p, q, t, u, v, window, ttl) ==>
      Resolve(Published(q.keys), ActiveKey(p).kid) == Some(ActiveKey(p).pub)
  }

  /** The span in which p's signing key must be listed: from a cache window before p first signs
      with it until the last token p can sign has expired. */
  predicate InSpan(p: Pod, q: Pod, window: int, ttl: int) {
    q.start < p.end - 1 + ttl && p.start - window < q.end
  }

  /** A deployment plan's overlap: whatever serves within a signing key's span lists that key. */
  ghost predicate Overlaps(pods: set<Pod>, window: int, ttl: int)
    requires WellLoaded(pods)
  {
    forall p, q :: p in pods && q in pods && InSpan(p, q, window, ttl) ==>
      exists k :: k in q.keys && k.kid == ActiveKey(p).kid && k.pub == ActiveKey(p).pub
  }

  lemma OverlapSuffices(pods: set<Pod>, window: int, ttl: int)
    requires WellLoaded(pods) && Overlaps(pods, window, ttl)
    ensures EveryTokenVerifies(pods, window, ttl)
  {
    forall p, q, t, u, v | p in pods && q in pods && Checked(p, q, t, u, v, window, ttl)
      ensures Resolve(Published(q.keys), ActiveKey(p).kid) == Some(ActiveKey(p).pub)
    {
      assert InSpan(p, q, window, ttl);
      var k :| k in q.keys && k.kid == ActiveKey(p).kid && k.pub == ActiveKey(p).pub;
      ResolvesListedKey(q.keys, k);
    }
  }

  lemma OverlapNeeded(pods: set<Pod>, window: int, ttl: int, p: Pod, q: Pod)
    requires WellLoaded(pods) && EveryTokenVerifies(pods, window, ttl)
    requires window >= 0 && ttl >= 1
    requires p in pods && q in pods && InSpan(p, q, window, ttl)
    ensures exists k :: k in q.keys && k.kid == ActiveKey(p).kid && k.pub == ActiveKey(p).pub
  {
    // the earliest moment of q inside p's span, and a token of p that is checked with it
    var v := if q.start < p.start - window then p.start - window else q.start;
    var t := if v < p.start then p.start else if v < p.end then v else p.end - 1;
    var u := if v < t then t else v;
    assert Checked(p, q, t, u, v, window, ttl);
    ResolvedIsListed(q.keys, ActiveKey(p).kid);
  }

  /** For every plan, overlapping or rolling: all tokens stay verifiable iff the plan overlaps. */
  lemma RotationIsSafeIffOverlapping(pods: set<Pod>, window: int, ttl: int)
    requires WellLoaded(pods) && window >= 0 && ttl >= 1
    ensures EveryTokenVerifies(pods, window, ttl) <==> Overlaps(pods, window, ttl)
  {
    if Overlaps(pods, window, ttl) {
      OverlapSuffices(pods, window, ttl);
    }
    if EveryTokenVerifies(pods, window, ttl) {
      forall p, q | p in pods && q in pods && InSpan(p, q, window, ttl)
        ensures exists k :: k in q.keys && k.kid == ActiveKey(p).kid && k.pub == ActiveKey(p).pub
      {
        OverlapNeeded(pods, window, ttl, p, q);
      }
    }
  }

  // ---------- The documented procedure ----------

  /** Old key alone; new key added second; new key promoted; old key dropped. */
  function Procedure(outgoing: SigningKey, incoming: SigningKey,
                     t0: int, add: int, promote: int, drop: int, end: int): set<Pod>
  {
    { Pod(t0, add, [outgoing]), Pod(add, promote, [outgoing, incoming]),
      Pod(promote, drop, [incoming, outgoing]), Pod(drop, end, [incoming]) }
  }

  /** The documented waits are the exact ones: a cache window before promoting, and before dropping
      until the last old-key token has expired. */
  lemma ProcedureIsSafeIffWaits(outgoing: SigningKey, incoming: SigningKey,
                                t0: int, add: int, promote: int, drop: int, end: int,
                                window: int, ttl: int)
    requires t0 < add < promote < drop < end && window >= 0 && ttl >= 1
    requires outgoing.kid != incoming.kid
    ensures WellLoaded(Procedure(outgoing, incoming, t0, add, promote, drop, end))
    ensures EveryTokenVerifies(Procedure(outgoing, incoming, t0, add, promote, drop, end), window, ttl) <==>
            promote - add >= window && drop - (promote - 1) >= ttl
  {
    var pods := Procedure(outgoing, incoming, t0, add, promote, drop, end);
    var a, b := Pod(t0, add, [outgoing]), Pod(add, promote, [outgoing, incoming]);
    var c, d := Pod(promote, drop, [incoming, outgoing]), Pod(drop, end, [incoming]);
    assert a in pods && b in pods && c in pods && d in pods;
    RotationIsSafeIffOverlapping(pods, window, ttl);
    if Overlaps(pods, window, ttl) {
      assert !InSpan(c, a, window, ttl);
      assert !InSpan(b, d, window, ttl);
    }
    if promote - add >= window && drop - (promote - 1) >= ttl {
      assert outgoing in b.keys && outgoing in c.keys && outgoing in a.keys;
      assert incoming in b.keys && incoming in c.keys && incoming in d.keys;
      forall p, q | p in pods && q in pods && InSpan(p, q, window, ttl)
        ensures exists k :: k in q.keys && k.kid == ActiveKey(p).kid && k.pub == ActiveKey(p).pub
      {
        assert ActiveKey(p) in q.keys;
      }
    }
  }
}
