/** Cloud-event grants: wildcard agreements, the check of requested filters, and filter defaulting. */
module CloudEvents {
  import opened Lists

  /** Stands for every value of its coordinate. */
  const GLOBAL: string := "*"

  datatype EventFilter = EventFilter(eventType: string, source: string, ids: seq<string>, tags: seq<string>)

  datatype Agreement = Agreement(eventType: string, source: string, ids: set<string>, tags: set<string>)
  {
    predicate Grants(t: string, s: string, id: string, tag: string) {
      && (eventType == t || eventType == GLOBAL)
      && (source == s || source == GLOBAL)
      && (id in ids || GLOBAL in ids)
      && (tag in tags || GLOBAL in tags)
    }
  }

  predicate Granted(agreements: seq<Agreement>, t: string, s: string, id: string, tag: string) {
    exists a :: a in agreements && a.Grants(t, s, id, tag)
  }

  function OrGlobal(values: seq<string>): (r: seq<string>)
    ensures r != []
  {
    if values == [] then [GLOBAL] else values
  }

  /** The agreement `Add` appends; the event type and the source are kept as they are. */
  function Made(eventType: string, source: string, ids: seq<string>, tags: seq<string>): Agreement {
    Agreement(eventType, source, set x | x in OrGlobal(ids), set x | x in OrGlobal(tags))
  }

  class CloudEventAgreements {
    var agreements: seq<Agreement>

    constructor ()
      ensures agreements == []
    {
      agreements := [];
    }

    method Add(eventType: string, source: string, ids: seq<string>, tags: seq<string>)
      modifies this
      ensures agreements == old(agreements) + [Made(eventType, source, ids, tags)]
    {
      var tagList := tags;
      if |tagList| == 0 {
        tagList := [GLOBAL];
      }
      var idList := ids;
      if |idList| == 0 {
        idList := [GLOBAL];
      }
      agreements := agreements + [Agreement(eventType, source, set x | x in idList, set x | x in tagList)];
    }
  }

  // ---------- Defaulting ----------

  function Defaulted(f: EventFilter): EventFilter {
    EventFilter(if f.eventType == "" then GLOBAL else f.eventType,
                if f.source == "" then GLOBAL else f.source,
                OrGlobal(f.ids), OrGlobal(f.tags))
  }

  function DefaultedAll(fs: seq<EventFilter>): (r: seq<EventFilter>)
    ensures |r| == |fs| && forall i :: 0 <= i < |fs| ==> r[i] == Defaulted(fs[i])
  {
    seq(|fs|, i requires 0 <= i < |fs| => Defaulted(fs[i]))
  }

  /** `addDefaultIdentifiers`, in place. */
  method AddDefaultIdentifiers(filters: array<EventFilter>)
    modifies filters
    ensures filters[..] == DefaultedAll(old(filters[..]))
  {
    for i := 0 to filters.Length
      invariant forall j :: 0 <= j < i ==> filters[j] == Defaulted(old(filters[j]))
      invariant forall j :: i <= j < filters.Length ==> filters[j] == old(filters[j])
    {
      var ce := filters[i];
      if ce.eventType == "" {
        ce := ce.(eventType := GLOBAL);
      }
      if ce.source == "" {
        ce := ce.(source := GLOBAL);
      }
      if |ce.ids| == 0 {
        ce := ce.(ids := [GLOBAL]);
      }
      if |ce.tags| == 0 {
        ce := ce.(tags := [GLOBAL]);
      }
      filters[i] := ce;
    }
  }

  // ---------- The check ----------

  /** One reported gap: the filter as written, and the id and tag that lack a grant. */
  datatype Lack = Lack(filter: EventFilter, id: string, tag: string)

  function LacksForTags(agreements: seq<Agreement>, f: EventFilter, id: string, tags: seq<string>): seq<Lack> {
    if tags == [] then []
    else
      var d, tag := Defaulted(f), tags[|tags| - 1];
      LacksForTags(agreements, f, id, tags[..|tags| - 1]) +
      (if Granted(agreements, d.eventType, d.source, id, tag) then [] else [Lack(f, id, tag)])
  }

  function LacksForIds(agreements: seq<Agreement>, f: EventFilter, ids: seq<string>, tags: seq<string>): seq<Lack> {
    if ids == [] then []
    else LacksForIds(agreements, f, ids[..|ids| - 1], tags) + LacksForTags(agreements, f, ids[|ids| - 1], tags)
  }

  function LacksOf(agreements: seq<Agreement>, f: EventFilter): seq<Lack> {
    LacksForIds(agreements, f, OrGlobal(f.ids), OrGlobal(f.tags))
  }

  /** Every requested combination without a grant, in the order the check meets them. */
  function Lacks(agreements: seq<Agreement>, filters: seq<EventFilter>): seq<Lack> {
    if filters == [] then []
    else
      Lacks(agreements, filters[..|filters| - 1]) + LacksOf(agreements, filters[|filters| - 1])
  }

  /** The innermost loop of the check: one id with every tag. */
  method EvaluateTags(agreements: seq<Agreement>, req: EventFilter, id: string, tags: seq<string>)
    returns (lacks: seq<Lack>)
    ensures lacks == LacksForTags(agreements, req, id, tags)
  {
    var eventType := if req.eventType == "" then GLOBAL else req.eventType;
    var source := if req.source == "" then GLOBAL else req.source;
    lacks := [];
    for j := 0 to |tags|
      invariant lacks == LacksForTags(agreements, req, id, tags[..j])
    {
      assert tags[..j + 1][..j] == tags[..j];
      if !Granted(agreements, eventType, source, id, tags[j]) {
        lacks := lacks + [Lack(req, id, tags[j])];
      }
    }
    assert tags[..|tags|] == tags;
  }

  /** The loop over the ids of one filter. */
  method EvaluateIds(agreements: seq<Agreement>, req: EventFilter, ids: seq<string>, tags: seq<string>)
    returns (lacks: seq<Lack>)
    ensures lacks == LacksForIds(agreements, req, ids, tags)
  {
    lacks := [];
    for i := 0 to |ids|
      invariant lacks == LacksForIds(agreements, req, ids[..i], tags)
    {
      assert ids[..i + 1][..i] == ids[..i];
      var more := EvaluateTags(agreements, req, ids[i], tags);
      lacks := lacks + more;
    }
    assert ids[..|ids|] == ids;
  }

  /** `EvaluateCloudEvents`: the joined error lists exactly the lacks. */
  method EvaluateCloudEvents(agreements: seq<Agreement>, filters: seq<EventFilter>) returns (lacks: seq<Lack>)
    ensures lacks == Lacks(agreements, filters)
  {
    lacks := [];
    for n := 0 to |filters|
      invariant lacks == Lacks(agreements, filters[..n])
    {
      assert filters[..n + 1][..n] == filters[..n];
      var req := filters[n];
      var ids := if |req.ids| == 0 then [GLOBAL] else req.ids;
      var tags := if |req.tags| == 0 then [GLOBAL] else req.tags;
      var more := EvaluateIds(agreements, req, ids, tags);
      lacks := lacks + more;
    }
    assert filters[..|filters|] == filters;
  }

  // ---------- What passing means ----------

  ghost predicate GrantsAll(agreements: seq<Agreement>, f: EventFilter) {
    forall id, tag :: id in OrGlobal(f.ids) && tag in OrGlobal(f.tags) ==>
      Granted(agreements, Defaulted(f).eventType, Defaulted(f).source, id, tag)
  }

  lemma {:induction false} NoLacksForTags(agreements: seq<Agreement>, f: EventFilter, id: string, tags: seq<string>)
    ensures LacksForTags(agreements, f, id, tags) == [] <==>
            forall tag :: tag in tags ==> Granted(agreements, Defaulted(f).eventType, Defaulted(f).source, id, tag)
  {
    if tags != [] {
      var n := |tags| - 1;
      NoLacksForTags(agreements, f, id, tags[..n]);
      assert tags == tags[..n] + [tags[n]];
    }
  }

  lemma {:induction false} NoLacksForIds(agreements: seq<Agreement>, f: EventFilter,
                                         ids: seq<string>, tags: seq<string>)
    ensures LacksForIds(agreements, f, ids, tags) == [] <==>
            forall id, tag :: id in ids && tag in tags ==>
              Granted(agreements, Defaulted(f).eventType, Defaulted(f).source, id, tag)
  {
    if ids != [] {
      var n := |ids| - 1;
      NoLacksForIds(agreements, f, ids[..n], tags);
      NoLacksForTags(agreements, f, ids[n], tags);
      assert ids == ids[..n] + [ids[n]];
    }
  }

  lemma NoLacksForFilter(agreements: seq<Agreement>, f: EventFilter)
    ensures LacksOf(agreements, f) == [] <==> GrantsAll(agreements, f)
  {
    NoLacksForIds(agreements, f, OrGlobal(f.ids), OrGlobal(f.tags));
  }

  lemma LacksNone(agreements: seq<Agreement>, filters: seq<EventFilter>, n: nat)
    requires |filters| == n + 1
    ensures Lacks(agreements, filters) == [] <==>
            Lacks(agreements, filters[..n]) == [] && GrantsAll(agreements, filters[n])
  {
    NoLacksForFilter(agreements, filters[n]);
    assert |Lacks(agreements, filters)| == |Lacks(agreements, filters[..n])| + |LacksOf(agreements, filters[n])|;
  }

  ghost predicate AllGranted(agreements: seq<Agreement>, filters: seq<EventFilter>) {
    forall i :: 0 <= i < |filters| ==> GrantsAll(agreements, filters[i])
  }

  lemma AllGrantedLast(agreements: seq<Agreement>, filters: seq<EventFilter>, n: nat)
    requires |filters| == n + 1
    ensures AllGranted(agreements, filters) <==>
            AllGranted(agreements, filters[..n]) && GrantsAll(agreements, filters[n])
  {
    if AllGranted(agreements, filters) {
      forall i | 0 <= i < n ensures GrantsAll(agreements, filters[..n][i]) {
        assert filters[..n][i] == filters[i];
      }
    }
    if AllGranted(agreements, filters[..n]) && GrantsAll(agreements, filters[n]) {
      forall i | 0 <= i < |filters| ensures GrantsAll(agreements, filters[i]) {
        if i < n {
          assert filters[..n][i] == filters[i];
        }
      }
    }
  }

  lemma {:induction false} NoLacks(agreements: seq<Agreement>, filters: seq<EventFilter>)
    ensures Lacks(agreements, filters) == [] <==> AllGranted(agreements, filters)
  {
    if filters != [] {
      var n := |filters| - 1;
      NoLacks(agreements, filters[..n]);
      LacksNone(agreements, filters, n);
      AllGrantedLast(agreements, filters, n);
    }
  }

  /** A concrete event coordinate. */
  datatype Point = Point(eventType: string, source: string, id: string, tag: string)

  predicate Matches(pattern: string, value: string) { pattern == GLOBAL || pattern == value }

  /** The points a filter asks for, wildcards and omissions standing for everything. */
  ghost predicate Asks(f: EventFilter, p: Point) {
    && (f.eventType == "" || Matches(f.eventType, p.eventType))
    && (f.source == "" || Matches(f.source, p.source))
    && (f.ids == [] || exists id :: id in f.ids && Matches(id, p.id))
    && (f.tags == [] || exists tag :: tag in f.tags && Matches(tag, p.tag))
  }

  /** The points an agreement covers. */
  ghost predicate Covers(a: Agreement, p: Point) {
    && Matches(a.eventType, p.eventType) && Matches(a.source, p.source)
    && (exists id :: id in a.ids && Matches(id, p.id))
    && (exists tag :: tag in a.tags && Matches(tag, p.tag))
  }

  ghost predicate Covered(agreements: seq<Agreement>, p: Point) {
    exists a :: a in agreements && Covers(a, p)
  }

  lemma Soundness(agreements: seq<Agreement>, f: EventFilter, p: Point)
    requires GrantsAll(agreements, f) && Asks(f, p)
    ensures Covered(agreements, p)
  {
    var d := Defaulted(f);
    if f.ids == [] { assert GLOBAL in d.ids && Matches(GLOBAL, p.id); }
    if f.tags == [] { assert GLOBAL in d.tags && Matches(GLOBAL, p.tag); }
    var id :| id in d.ids && Matches(id, p.id);
    var tag :| tag in d.tags && Matches(tag, p.tag);
    assert Granted(agreements, d.eventType, d.source, id, tag);
    var a :| a in agreements && a.Grants(d.eventType, d.source, id, tag);
    assert Covers(a, p) by {
      var idWitness := if id in a.ids then id else GLOBAL;
      assert idWitness in a.ids && Matches(idWitness, p.id);
      var tagWitness := if tag in a.tags then tag else GLOBAL;
      assert tagWitness in a.tags && Matches(tagWitness, p.tag);
    }
  }

  // ---------- Completeness: a string no agreement mentions ----------

  function Mentioned(agreements: seq<Agreement>): set<string> {
    if agreements == [] then {}
    else var a := agreements[0];
      {a.eventType, a.source} + a.ids + a.tags + Mentioned(agreements[1..])
  }

  lemma {:induction false} MentionedHolds(agreements: seq<Agreement>, a: Agreement)
    requires a in agreements
    ensures {a.eventType, a.source} + a.ids + a.tags <= Mentioned(agreements)
  {
    if a != agreements[0] {
      MentionedHolds(agreements[1..], a);
    }
  }

  lemma {:induction false} LengthBound(strings: set<string>) returns (n: nat)
    ensures forall s :: s in strings ==> |s| <= n
    decreases |strings|
  {
    n := 0;
    if strings != {} {
      var s :| s in strings;
      var rest := LengthBound(strings - {s});
      n := if |s| > rest then |s| else rest;
    }
  }

  lemma FreshString(strings: set<string>) returns (unused: string)
    ensures unused !in strings && unused != GLOBAL
  {
    var n := LengthBound(strings);
    unused := seq(n + 2, _ => 'x');
  }

  function Concrete(pattern: string, unmentioned: string): string {
    if pattern == GLOBAL then unmentioned else pattern
  }

  lemma Completeness(agreements: seq<Agreement>, f: EventFilter, id: string, tag: string)
    requires id in OrGlobal(f.ids) && tag in OrGlobal(f.tags)
    requires forall p :: Asks(f, p) ==> Covered(agreements, p)
    ensures Granted(agreements, Defaulted(f).eventType, Defaulted(f).source, id, tag)
  {
    var d := Defaulted(f);
    var u := FreshString(Mentioned(agreements));
    var p := Point(Concrete(d.eventType, u), Concrete(d.source, u), Concrete(id, u), Concrete(tag, u));
    assert Matches(id, p.id) && Matches(tag, p.tag);
    assert Asks(f, p);
    var a :| a in agreements && Covers(a, p);
    MentionedHolds(agreements, a);
    assert u !in a.ids && u !in a.tags && u != a.eventType && u != a.source;
    assert a.Grants(d.eventType, d.source, id, tag);
  }

  /** The check passes exactly when every event the request asks for, after defaulting, is covered by
      some agreement; different events may be covered by different agreements. */
  lemma CheckIsCoverage(agreements: seq<Agreement>, filters: seq<EventFilter>)
    ensures Lacks(agreements, filters) == [] <==>
            forall f, p :: f in filters && Asks(f, p) ==> Covered(agreements, p)
  {
    NoLacks(agreements, filters);
    if Lacks(agreements, filters) == [] {
      forall f, p | f in filters && Asks(f, p) ensures Covered(agreements, p) {
        var i :| 0 <= i < |filters| && filters[i] == f;
        Soundness(agreements, f, p);
      }
    }
    if forall f, p :: f in filters && Asks(f, p) ==> Covered(agreements, p) {
      forall i | 0 <= i < |filters| ensures GrantsAll(agreements, filters[i]) {
        var f := filters[i];
        assert f in filters;
        forall id, tag | id in OrGlobal(f.ids) && tag in OrGlobal(f.tags)
          ensures Granted(agreements, Defaulted(f).eventType, Defaulted(f).source, id, tag)
        {
          Completeness(agreements, f, id, tag);
        }
      }
    }
  }

  // ---------- Defaulting and the verdict ----------

  lemma DefaultedTwice(f: EventFilter)
    ensures Defaulted(Defaulted(f)) == Defaulted(f)
  {
  }

  lemma DefaultingIdempotent(filters: seq<EventFilter>)
    ensures DefaultedAll(DefaultedAll(filters)) == DefaultedAll(filters)
  {
  }

  /** Defaulting the filters first does not change the verdict of the check. */
  lemma DefaultingKeepsVerdict(agreements: seq<Agreement>, filters: seq<EventFilter>)
    ensures Lacks(agreements, DefaultedAll(filters)) == [] <==> Lacks(agreements, filters) == []
  {
    NoLacks(agreements, filters);
    NoLacks(agreements, DefaultedAll(filters));
    forall i | 0 <= i < |filters|
      ensures GrantsAll(agreements, DefaultedAll(filters)[i]) <==> GrantsAll(agreements, filters[i])
    {
      DefaultedTwice(filters[i]);
    }
  }

  lemma GrantsMonotone(few: seq<Agreement>, many: seq<Agreement>, f: EventFilter)
    requires forall a :: a in few ==> a in many
    requires GrantsAll(few, f)
    ensures GrantsAll(many, f)
  {
  }

  /** Lists with the same agreements, or more of them, grant at least as much. */
  lemma MoreAgreementsGrantMore(few: seq<Agreement>, many: seq<Agreement>, filters: seq<EventFilter>)
    requires forall a :: a in few ==> a in many
    requires Lacks(few, filters) == []
    ensures Lacks(many, filters) == []
  {
    NoLacks(few, filters);
    NoLacks(many, filters);
    forall i | 0 <= i < |filters| ensures GrantsAll(many, filters[i]) {
      GrantsMonotone(few, many, filters[i]);
    }
  }

  // ---------- Agreements without a type or a source ----------

  /** `Add` leaves an empty type or source as it is, and a request for the empty one is defaulted away. */
  predicate Nameless(a: Agreement) { a.eventType == "" || a.source == "" }

  lemma NamelessGrantsNothing(few: seq<Agreement>, many: seq<Agreement>, f: EventFilter)
    requires forall a :: a in many ==> a in few || Nameless(a)
    requires GrantsAll(many, f)
    ensures GrantsAll(few, f)
  {
    var d := Defaulted(f);
    forall id, tag | id in OrGlobal(f.ids) && tag in OrGlobal(f.tags)
      ensures Granted(few, d.eventType, d.source, id, tag)
    {
      assert Granted(many, d.eventType, d.source, id, tag);
      var a :| a in many && a.Grants(d.eventType, d.source, id, tag);
      assert !Nameless(a);
    }
  }

  /** Agreements without a type or a source change no verdict, whatever is requested. */
  lemma NamelessChangesNothing(few: seq<Agreement>, many: seq<Agreement>, filters: seq<EventFilter>)
    requires forall a :: a in few ==> a in many
    requires forall a :: a in many ==> a in few || Nameless(a)
    ensures Lacks(many, filters) == [] <==> Lacks(few, filters) == []
  {
    NoLacks(few, filters);
    NoLacks(many, filters);
    if Lacks(many, filters) == [] {
      forall i | 0 <= i < |filters| ensures GrantsAll(few, filters[i]) {
        NamelessGrantsNothing(few, many, filters[i]);
      }
    } else if Lacks(few, filters) == [] {
      MoreAgreementsGrantMore(few, many, filters);
    }
  }

  /** An agreement grants the request written like it exactly when it has a type and a source. */
  lemma GrantsItsOwnWording(eventType: string, source: string, ids: seq<string>, tags: seq<string>)
    ensures Lacks([Made(eventType, source, ids, tags)], [EventFilter(eventType, source, ids, tags)]) == [] <==>
            eventType != "" && source != ""
  {
    var a, f := Made(eventType, source, ids, tags), EventFilter(eventType, source, ids, tags);
    NoLacks([a], [f]);
    if eventType != "" && source != "" {
      forall id, tag | id in OrGlobal(ids) && tag in OrGlobal(tags)
        ensures Granted([a], eventType, source, id, tag)
      {
        assert a in [a] && a.Grants(eventType, source, id, tag);
      }
    } else {
      assert [f][0] == f;
      assert !Granted([a], Defaulted(f).eventType, Defaulted(f).source, OrGlobal(ids)[0], OrGlobal(tags)[0]);
    }
  }

  /** For instance, an agreement to every event of no type refuses the very request it was written for. */
  lemma NamelessExample()
    ensures Lacks([Made("", GLOBAL, [], [])], [EventFilter("", GLOBAL, [], [])]) != []
  {
    GrantsItsOwnWording("", GLOBAL, [], []);
  }

  // ---------- What an agreement, an omission and a lack mean ----------

  /** Some value of the list matches, an empty list standing for everything. */
  ghost predicate MatchesSome(values: seq<string>, value: string) {
    values == [] || exists v :: v in values && Matches(v, value)
  }

  /** The agreement made of these fields covers just the points they describe. */
  lemma MadeCoversItsFields(eventType: string, source: string, ids: seq<string>, tags: seq<string>, p: Point)
    ensures Covers(Made(eventType, source, ids, tags), p) <==>
            && Matches(eventType, p.eventType) && Matches(source, p.source)
            && MatchesSome(ids, p.id) && MatchesSome(tags, p.tag)
  {
    var a := Made(eventType, source, ids, tags);
    MadeSetMatches(ids, a.ids, p.id);
    MadeSetMatches(tags, a.tags, p.tag);
  }

  lemma MadeSetMatches(values: seq<string>, made: set<string>, value: string)
    requires made == set x | x in OrGlobal(values)
    ensures (exists v :: v in made && Matches(v, value)) <==> MatchesSome(values, value)
  {
    if values == [] {
      assert GLOBAL in made && Matches(GLOBAL, value);
    } else if v :| v in values && Matches(v, value) {
      assert v in made;
    }
  }

  /** A defaulted filter omits nothing and asks for the same points; one that omits nothing is left alone. */
  lemma DefaultingKeepsMeaning(f: EventFilter, p: Point)
    ensures var d := Defaulted(f);
            && d.eventType != "" && d.source != "" && d.ids != [] && d.tags != []
            && (Asks(d, p) <==> Asks(f, p))
            && (f.eventType != "" && f.source != "" && f.ids != [] && f.tags != [] ==> d == f)
  {
    assert f.ids == [] ==> GLOBAL in Defaulted(f).ids && Matches(GLOBAL, p.id);
    assert f.tags == [] ==> GLOBAL in Defaulted(f).tags && Matches(GLOBAL, p.tag);
  }

  /** What a report can list about a filter: one of its combinations that no agreement grants. */
  ghost predicate Lacking(agreements: seq<Agreement>, f: EventFilter, l: Lack) {
    && l.filter == f && l.id in OrGlobal(f.ids) && l.tag in OrGlobal(f.tags)
    && !Granted(agreements, Defaulted(f).eventType, Defaulted(f).source, l.id, l.tag)
  }

  lemma {:induction false} TagLacksListed(agreements: seq<Agreement>, f: EventFilter, id: string, tags: seq<string>,
                                          l: Lack)
    ensures l in LacksForTags(agreements, f, id, tags) <==>
            && l.filter == f && l.id == id && l.tag in tags
            && !Granted(agreements, Defaulted(f).eventType, Defaulted(f).source, id, l.tag)
  {
    if tags != [] {
      var n := |tags| - 1;
      TagLacksListed(agreements, f, id, tags[..n], l);
      assert tags == tags[..n] + [tags[n]];
    }
  }

  lemma {:induction false} IdLacksListed(agreements: seq<Agreement>, f: EventFilter, ids: seq<string>,
                                         tags: seq<string>, l: Lack)
    ensures l in LacksForIds(agreements, f, ids, tags) <==>
            && l.filter == f && l.id in ids && l.tag in tags
            && !Granted(agreements, Defaulted(f).eventType, Defaulted(f).source, l.id, l.tag)
  {
    if ids != [] {
      var n := |ids| - 1;
      IdLacksListed(agreements, f, ids[..n], tags, l);
      TagLacksListed(agreements, f, ids[n], tags, l);
      assert ids == ids[..n] + [ids[n]];
    }
  }

  lemma LacksOfListed(agreements: seq<Agreement>, f: EventFilter, l: Lack)
    ensures l in LacksOf(agreements, f) <==> Lacking(agreements, f, l)
  {
    IdLacksListed(agreements, f, OrGlobal(f.ids), OrGlobal(f.tags), l);
  }

  function LacksEach(agreements: seq<Agreement>): EventFilter -> seq<Lack> {
    (f: EventFilter) => LacksOf(agreements, f)
  }

  /** The report gathers what each filter lacks, in the order of the filters. */
  lemma {:induction false} LacksGathered(agreements: seq<Agreement>, filters: seq<EventFilter>)
    ensures Lacks(agreements, filters) == Gather(LacksEach(agreements), filters)
  {
    if filters != [] {
      LacksGathered(agreements, filters[..|filters| - 1]);
    }
  }

  /** The report lists exactly the ungranted combinations of the filters. */
  lemma LacksListed(agreements: seq<Agreement>, filters: seq<EventFilter>, l: Lack)
    ensures l in Lacks(agreements, filters) <==> l.filter in filters && Lacking(agreements, l.filter, l)
  {
    LacksGathered(agreements, filters);
    GatherHas(LacksEach(agreements), filters, l);
    forall f ensures l in LacksEach(agreements)(f) <==> Lacking(agreements, f, l) {
      LacksOfListed(agreements, f, l);
    }
  }
}
