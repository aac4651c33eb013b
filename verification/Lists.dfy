/** The reference for the service's reports: the elements of a list that fail a test, in order. */
module Lists {

  function Keep<T>(p: T -> bool, s: seq<T>): seq<T> {
    if s == [] then [] else Keep(p, s[..|s| - 1]) + if p(s[|s| - 1]) then [s[|s| - 1]] else []
  }

  lemma Associate<T>(a: seq<T>, b: seq<T>, c: seq<T>)
    ensures a + b + c == a + (b + c)
  {
  }

  lemma KeepLast<T>(p: T -> bool, init: seq<T>, last: T)
    ensures Keep(p, init + [last]) == Keep(p, init) + if p(last) then [last] else []
  {
    assert (init + [last])[..|init|] == init;
  }

  /** Lists are filtered part by part, in order; with one-element lists this says which elements stay where. */
  lemma {:induction false} KeepInOrder<T>(p: T -> bool, first: seq<T>, rest: seq<T>)
    ensures Keep(p, first + rest) == Keep(p, first) + Keep(p, rest)
  {
    if rest == [] {
      assert first + rest == first;
    } else {
      var init, last := rest[..|rest| - 1], rest[|rest| - 1];
      KeepInOrder(p, first, init);
      KeepLast(p, first + init, last);
      assert first + rest == first + init + [last];
      Associate(Keep(p, first), Keep(p, init), if p(last) then [last] else []);
    }
  }

  lemma KeepOne<T>(p: T -> bool, x: T)
    ensures Keep(p, [x]) == if p(x) then [x] else []
  {
    assert [x] == [] + [x];
    KeepLast(p, [], x);
  }

  /** Each element that passes stays as often as it occurs. */
  lemma {:induction false} KeepCounts<T>(p: T -> bool, s: seq<T>, x: T)
    ensures multiset(Keep(p, s))[x] == if p(x) then multiset(s)[x] else 0
  {
    if s != [] {
      var init, last := s[..|s| - 1], s[|s| - 1];
      KeepCounts(p, init, x);
      assert s == init + [last];
    }
  }

  /** What each element contributes, in order. */
  function Gather<X, Y>(each: X -> seq<Y>, s: seq<X>): seq<Y> {
    if s == [] then [] else Gather(each, s[..|s| - 1]) + each(s[|s| - 1])
  }

  lemma GatherLast<X, Y>(each: X -> seq<Y>, init: seq<X>, last: X)
    ensures Gather(each, init + [last]) == Gather(each, init) + each(last)
  {
    assert (init + [last])[..|init|] == init;
  }

  lemma {:induction false} GatherInOrder<X, Y>(each: X -> seq<Y>, first: seq<X>, rest: seq<X>)
    ensures Gather(each, first + rest) == Gather(each, first) + Gather(each, rest)
  {
    if rest == [] {
      assert first + rest == first;
    } else {
      var init, last := rest[..|rest| - 1], rest[|rest| - 1];
      GatherInOrder(each, first, init);
      GatherLast(each, first + init, last);
      assert first + rest == first + init + [last];
      Associate(Gather(each, first), Gather(each, init), each(last));
    }
  }

  lemma {:induction false} GatherHas<X, Y>(each: X -> seq<Y>, s: seq<X>, y: Y)
    ensures y in Gather(each, s) <==> exists x :: x in s && y in each(x)
  {
    if s != [] {
      var init, last := s[..|s| - 1], s[|s| - 1];
      GatherHas(each, init, y);
      assert s == init + [last];
    }
  }
}
