/** What a signed access document grants: its agreements folded at the clock readings taken while
    walking them, and gated by its template. */
module Grants {
  import opened Lists
  import opened Text
  import CE = CloudEvents

  const TYPE_CLOUD_EVENT: string := "cloudevent"
  const TYPE_PERMISSION: string := "permission"

  /** An unset time is Go's zero time. */
  datatype Agreement = Agreement(
    kind: string, asset: string, effectiveAt: Option<int>, expiresAt: Option<int>,
    eventType: string, source: string, ids: seq<string>, tags: seq<string>,
    permissions: seq<string>)

  datatype Document = Document(
    grantor: string, grantee: string, effectiveAt: Option<int>, expiresAt: Option<int>,
    permissionTemplateID: string, agreements: seq<Agreement>)

  datatype TemplateResult = TemplateResult(permissions: set<string>, isActive: bool)

  datatype Error = AssetMismatch(asset: string) | TemplateFailed(reason: string)

  /** The template service's reply for one asset; a nil result is None. */
  type TemplateReply = string -> Result<Option<TemplateResult>, string>

  datatype Granted = Granted(permissions: set<string>, cloudEvents: seq<CE.Agreement>)

  predicate Effective(a: Agreement, now: int) {
    && (a.effectiveAt.Some? ==> now >= a.effectiveAt.value)
    && (a.expiresAt.Some? ==> now <= a.expiresAt.value)
  }

  function MadeFrom(a: Agreement): CE.Agreement { CE.Made(a.eventType, a.source, a.ids, a.tags) }

  /** The fold over the agreements, agreement i judged at reading i; it stops at the first effective
      agreement that names another asset. */
  function Collect(agreements: seq<Agreement>, asset: string, readings: seq<int>): Result<Granted, Error>
    requires |readings| == |agreements|
  {
    if agreements == [] then Ok(Granted({}, []))
    else
      var n := |agreements| - 1;
      match Collect(agreements[..n], asset, readings[..n])
      case Err(e) => Err(e)
      case Ok(g) => CollectOne(g, agreements[n], asset, readings[n])
  }

  function CollectOne(g: Granted, a: Agreement, asset: string, now: int): Result<Granted, Error> {
    if !Effective(a, now) then Ok(g)
    else if a.asset != asset then Err(AssetMismatch(a.asset))
    else if a.kind == TYPE_CLOUD_EVENT then Ok(g.(cloudEvents := g.cloudEvents + [MadeFrom(a)]))
    else if a.kind == TYPE_PERMISSION then Ok(g.(permissions := g.permissions + set p | p in a.permissions))
    else Ok(g)
  }

  lemma CollectNext(agreements: seq<Agreement>, asset: string, readings: seq<int>, i: nat)
    requires |readings| == |agreements| && i < |agreements|
    requires Collect(agreements[..i], asset, readings[..i]).Ok?
    ensures Collect(agreements[..i + 1], asset, readings[..i + 1]) ==
            CollectOne(Collect(agreements[..i], asset, readings[..i]).value, agreements[i], asset, readings[i])
  {
    assert agreements[..i + 1][..i] == agreements[..i];
    assert readings[..i + 1][..i] == readings[..i];
  }

  /** `matchTemplatePermissions`: an active template asks for all its permissions; an inactive one matches nothing. */
  predicate MatchTemplate(permissions: set<string>, t: Option<TemplateResult>) {
    t == None || (t.value.isActive && t.value.permissions <= permissions)
  }

  predicate UsesTemplate(templateID: string) { templateID != "" && templateID != "0" }

  /** The all-or-nothing gate on permissions; cloud-event agreements are not gated. */
  function Gate(g: Granted, templateID: string, template: TemplateReply): Result<Granted, Error> {
    if !UsesTemplate(templateID) then Ok(g)
    else
      match template(templateID)
      case Err(e) => Err(TemplateFailed(e))
      case Ok(t) => Ok(if MatchTemplate(g.permissions, t) then g else g.(permissions := {}))
  }

  function UserGrants(doc: Document, asset: string, readings: seq<int>, template: TemplateReply): Result<Granted, Error>
    requires |readings| == |doc.agreements|
  {
    match Collect(doc.agreements, asset, readings)
    case Err(e) => Err(e)
    case Ok(g) => Gate(g, doc.permissionTemplateID, template)
  }

  lemma {:induction false} MismatchStops(agreements: seq<Agreement>, asset: string, readings: seq<int>, n: nat)
    requires |readings| == |agreements| && n <= |agreements|
    requires Collect(agreements[..n], asset, readings[..n]).Err?
    ensures Collect(agreements, asset, readings) == Collect(agreements[..n], asset, readings[..n])
    decreases |agreements| - n
  {
    if n < |agreements| {
      assert agreements[..n + 1][..n] == agreements[..n] && readings[..n + 1][..n] == readings[..n];
      MismatchStops(agreements, asset, readings, n + 1);
    } else {
      assert agreements[..n] == agreements && readings[..n] == readings;
    }
  }

  /** `UserGrantMap`, reading the clock once for every agreement. */
  method UserGrantMap(doc: Document, asset: string, readings: seq<int>, template: TemplateReply)
    returns (r: Result<Granted, Error>)
    requires |readings| == |doc.agreements|
    ensures r == UserGrants(doc, asset, readings, template)
  {
    var sacdPermissions: set<string> := {};
    var cloudEvents := new CE.CloudEventAgreements();
    for i := 0 to |doc.agreements|
      invariant Collect(doc.agreements[..i], asset, readings[..i]) ==
                Ok(Granted(sacdPermissions, cloudEvents.agreements))
    {
      CollectNext(doc.agreements, asset, readings, i);
      var agreement, now := doc.agreements[i], readings[i];
      if agreement.effectiveAt.Some? && now < agreement.effectiveAt.value {
        continue;
      }
      if agreement.expiresAt.Some? && now > agreement.expiresAt.value {
        continue;
      }
      if agreement.asset != asset {
        MismatchStops(doc.agreements, asset, readings, i + 1);
        return Err(AssetMismatch(agreement.asset));
      }
      if agreement.kind == TYPE_CLOUD_EVENT {
        cloudEvents.Add(agreement.eventType, agreement.source, agreement.ids, agreement.tags);
      } else if agreement.kind == TYPE_PERMISSION {
        sacdPermissions := sacdPermissions + set p | p in agreement.permissions;
      }
    }
    assert doc.agreements[..|doc.agreements|] == doc.agreements && readings[..|readings|] == readings;
    var grants := Granted(sacdPermissions, cloudEvents.agreements);
    if doc.permissionTemplateID != "" && doc.permissionTemplateID != "0" {
      var reply := template(doc.permissionTemplateID);
      if reply.Err? {
        return Err(TemplateFailed(reply.error));
      }
      if MatchTemplate(sacdPermissions, reply.value) {
        return Ok(grants);
      }
      return Ok(grants.(permissions := {}));
    }
    return Ok(grants);
  }

  // ---------- The declarative reading ----------

  /** The moment is not before the agreement's start nor after its expiry, where it has them. */
  predicate InWindow(a: Agreement, now: int) {
    && !(a.effectiveAt.Some? && now < a.effectiveAt.value)
    && !(a.expiresAt.Some? && a.expiresAt.value < now)
  }

  /** Agreement i was in its window when the loop looked at it. */
  predicate InForce(agreements: seq<Agreement>, readings: seq<int>, i: nat)
    requires |readings| == |agreements| && i < |agreements|
  {
    InWindow(agreements[i], readings[i])
  }

  ghost predicate NamesOther(agreements: seq<Agreement>, asset: string, readings: seq<int>)
    requires |readings| == |agreements|
  {
    exists i :: 0 <= i < |agreements| && InForce(agreements, readings, i) && agreements[i].asset != asset
  }

  function PermissionUnion(agreements: seq<Agreement>, readings: seq<int>): set<string>
    requires |readings| == |agreements|
  {
    set i, p | 0 <= i < |agreements| && InForce(agreements, readings, i)
               && agreements[i].kind == "permission" && p in agreements[i].permissions :: p
  }

  function CloudEventSet(agreements: seq<Agreement>, readings: seq<int>): set<CE.Agreement>
    requires |readings| == |agreements|
  {
    set i | 0 <= i < |agreements| && InForce(agreements, readings, i) && agreements[i].kind == "cloudevent"
      :: MadeFrom(agreements[i])
  }

  function Elements<T>(s: seq<T>): set<T> { set x | x in s }

  lemma PermissionUnionSnoc(agreements: seq<Agreement>, readings: seq<int>, n: nat)
    requires |readings| == |agreements| == n + 1
    ensures var a := agreements[n];
            PermissionUnion(agreements, readings) == PermissionUnion(agreements[..n], readings[..n]) +
              (if InForce(agreements, readings, n) && a.kind == "permission" then set p | p in a.permissions else {})
  {
  }

  lemma CloudEventSetSnoc(agreements: seq<Agreement>, readings: seq<int>, n: nat)
    requires |readings| == |agreements| == n + 1
    ensures var a := agreements[n];
            CloudEventSet(agreements, readings) == CloudEventSet(agreements[..n], readings[..n]) +
              (if InForce(agreements, readings, n) && a.kind == "cloudevent" then {MadeFrom(a)} else {})
  {
  }

  lemma NamesOtherSnoc(agreements: seq<Agreement>, asset: string, readings: seq<int>, n: nat)
    requires |readings| == |agreements| == n + 1
    ensures NamesOther(agreements, asset, readings) <==>
            || NamesOther(agreements[..n], asset, readings[..n])
            || (InForce(agreements, readings, n) && agreements[n].asset != asset)
  {
  }

  /** The loop errs iff some agreement in force names another asset; otherwise it collects exactly the
      permissions and the cloud-event agreements of the agreements in force. */
  lemma {:induction false} CollectIsDeclarative(agreements: seq<Agreement>, asset: string, readings: seq<int>)
    requires |readings| == |agreements|
    ensures match Collect(agreements, asset, readings)
            case Err(e) => NamesOther(agreements, asset, readings)
            case Ok(g) =>
              && !NamesOther(agreements, asset, readings)
              && g.permissions == PermissionUnion(agreements, readings)
              && Elements(g.cloudEvents) == CloudEventSet(agreements, readings)
  {
    if agreements != [] {
      var n := |agreements| - 1;
      CollectIsDeclarative(agreements[..n], asset, readings[..n]);
      PermissionUnionSnoc(agreements, readings, n);
      CloudEventSetSnoc(agreements, readings, n);
      NamesOtherSnoc(agreements, asset, readings, n);
      var r := Collect(agreements[..n], asset, readings[..n]);
      if r.Ok? {
        var made := MadeFrom(agreements[n]);
        assert Elements(r.value.cloudEvents + [made]) == Elements(r.value.cloudEvents) + {made};
      }
    }
  }

  // ---------- Evaluating a request against the grants ----------

  /** `EvaluatePermissions`: the requested names not granted, in order. */
  function Missing(granted: set<string>, requested: seq<string>): seq<string> {
    if requested == [] then []
    else
      var n := |requested| - 1;
      Missing(granted, requested[..n]) + (if requested[n] in granted then [] else [requested[n]])
  }

  method EvaluatePermissions(granted: set<string>, requested: seq<string>) returns (missing: seq<string>)
    ensures missing == Missing(granted, requested)
    ensures missing == [] <==> forall p :: p in requested ==> p in granted
  {
    missing := [];
    for i := 0 to |requested|
      invariant missing == Missing(granted, requested[..i])
    {
      assert requested[..i + 1][..i] == requested[..i];
      if requested[i] !in granted {
        missing := missing + [requested[i]];
      }
    }
    assert requested[..|requested|] == requested;
    NothingMissing(granted, requested);
  }

  lemma {:induction false} NothingMissing(granted: set<string>, requested: seq<string>)
    ensures Missing(granted, requested) == [] <==> forall p :: p in requested ==> p in granted
  {
    if requested != [] {
      var n := |requested| - 1;
      NothingMissing(granted, requested[..n]);
      assert requested == requested[..n] + [requested[n]];
    }
  }

  /** The document, once its grantee and signature are accepted, grants the whole request. */
  predicate Passes(doc: Document, asset: string, readings: seq<int>, template: TemplateReply,
                   filters: seq<CE.EventFilter>, permissions: seq<string>)
    requires |readings| == |doc.agreements|
  {
    match UserGrants(doc, asset, readings, template)
    case Err(_) => false
    case Ok(g) => CE.Lacks(g.cloudEvents, filters) == [] && Missing(g.permissions, permissions) == []
  }

  // ---------- One instant: order and repetition do not matter, and more is never worse ----------

  function At(now: int, n: nat): (r: seq<int>)
    ensures |r| == n
  {
    seq(n, _ => now)
  }

  /** At one instant, the declarative sets only depend on which agreements occur. */
  lemma SameAgreementsSameSets(few: seq<Agreement>, many: seq<Agreement>, asset: string, now: int)
    requires forall a :: a in few ==> a in many
    ensures PermissionUnion(few, At(now, |few|)) <= PermissionUnion(many, At(now, |many|))
    ensures CloudEventSet(few, At(now, |few|)) <= CloudEventSet(many, At(now, |many|))
    ensures NamesOther(few, asset, At(now, |few|)) ==> NamesOther(many, asset, At(now, |many|))
  {
    var r, q := At(now, |few|), At(now, |many|);
    forall i | 0 <= i < |few|
      ensures exists j :: 0 <= j < |many| && many[j] == few[i] && (InForce(many, q, j) <==> InForce(few, r, i))
    {
      assert few[i] in many;
      var j :| 0 <= j < |many| && many[j] == few[i];
      assert InForce(many, q, j) <==> InForce(few, r, i);
    }
  }

  /** Monotone: with every agreement of `few` among `many`, and none in force in `many` for another
      asset, a request the first document grants is granted by the second, template or not. */
  lemma MoreAgreementsNeverWorse(few: Document, many: Document, asset: string, now: int, template: TemplateReply,
                                 filters: seq<CE.EventFilter>, permissions: seq<string>)
    requires many.permissionTemplateID == few.permissionTemplateID
    requires forall a :: a in few.agreements ==> a in many.agreements
    requires forall a :: a in many.agreements && InWindow(a, now) ==> a.asset == asset
    requires Passes(few, asset, At(now, |few.agreements|), template, filters, permissions)
    ensures Passes(many, asset, At(now, |many.agreements|), template, filters, permissions)
  {
    var r, q := At(now, |few.agreements|), At(now, |many.agreements|);
    CollectIsDeclarative(few.agreements, asset, r);
    CollectIsDeclarative(many.agreements, asset, q);
    SameAgreementsSameSets(few.agreements, many.agreements, asset, now);
    assert !NamesOther(many.agreements, asset, q);
    var g, h := Collect(few.agreements, asset, r).value, Collect(many.agreements, asset, q).value;
    assert g.permissions <= h.permissions;
    assert forall c :: c in g.cloudEvents ==> c in h.cloudEvents by {
      assert Elements(g.cloudEvents) <= Elements(h.cloudEvents);
      assert forall c :: c in g.cloudEvents ==> c in Elements(g.cloudEvents);
    }
    CE.MoreAgreementsGrantMore(g.cloudEvents, h.cloudEvents, filters);
    var gp, hp := UserGrants(few, asset, r, template).value, UserGrants(many, asset, q, template).value;
    assert gp.permissions <= hp.permissions;
    NothingMissing(gp.permissions, permissions);
    NothingMissing(hp.permissions, permissions);
  }

  /** Acceptance does not depend on the order or the repetition of the agreements. */
  lemma OrderAndRepetitionIrrelevant(a: Document, b: Document, asset: string, now: int, template: TemplateReply,
                                     filters: seq<CE.EventFilter>, permissions: seq<string>)
    requires a.permissionTemplateID == b.permissionTemplateID
    requires Elements(a.agreements) == Elements(b.agreements)
    ensures Passes(a, asset, At(now, |a.agreements|), template, filters, permissions) <==>
            Passes(b, asset, At(now, |b.agreements|), template, filters, permissions)
  {
    SameElements(a.agreements, b.agreements);
    NoOtherAsset(a, asset, now);
    NoOtherAsset(b, asset, now);
    if Passes(a, asset, At(now, |a.agreements|), template, filters, permissions) {
      MoreAgreementsNeverWorse(a, b, asset, now, template, filters, permissions);
    }
    if Passes(b, asset, At(now, |b.agreements|), template, filters, permissions) {
      MoreAgreementsNeverWorse(b, a, asset, now, template, filters, permissions);
    }
  }

  lemma SameElements<T>(a: seq<T>, b: seq<T>)
    requires Elements(a) == Elements(b)
    ensures forall x :: x in a <==> x in b
  {
    assert forall x :: x in a <==> x in Elements(a);
    assert forall x :: x in b <==> x in Elements(b);
  }

  lemma NoOtherAsset(doc: Document, asset: string, now: int)
    ensures Collect(doc.agreements, asset, At(now, |doc.agreements|)).Ok? <==>
            forall a :: a in doc.agreements && InWindow(a, now) ==> a.asset == asset
  {
    var r := At(now, |doc.agreements|);
    CollectIsDeclarative(doc.agreements, asset, r);
    forall a | a in doc.agreements
      ensures exists i :: 0 <= i < |doc.agreements| && doc.agreements[i] == a
                          && (InForce(doc.agreements, r, i) <==> InWindow(a, now))
    {
      var i :| 0 <= i < |doc.agreements| && doc.agreements[i] == a;
      assert InForce(doc.agreements, r, i) <==> InWindow(a, now);
    }
  }

  /** The whole evaluation, read off the agreements in force and the template's reply. */
  lemma PassesExactly(doc: Document, asset: string, readings: seq<int>, template: TemplateReply,
                      filters: seq<CE.EventFilter>, permissions: seq<string>)
    requires |readings| == |doc.agreements|
    ensures Passes(doc, asset, readings, template, filters, permissions) <==>
            GrantsDeclared(doc, asset, readings, template, filters, permissions)
  {
    CollectIsDeclarative(doc.agreements, asset, readings);
    var collected := Collect(doc.agreements, asset, readings);
    if collected.Ok? {
      var g := collected.value;
      EventsDeclared(doc.agreements, readings, g.cloudEvents, filters);
      GateExactly(g, doc.permissionTemplateID, template, permissions);
    }
  }

  /** The gate errs iff the template's reply does, leaves the cloud-event agreements alone, and lets
      permissions through all or nothing. */
  lemma GateExactly(g: Granted, templateID: string, template: TemplateReply, permissions: seq<string>)
    ensures var gated := Gate(g, templateID, template);
            && (gated.Ok? <==> (UsesTemplate(templateID) ==> template(templateID).Ok?))
            && (gated.Ok? ==>
                  && gated.value.cloudEvents == g.cloudEvents
                  && (Missing(gated.value.permissions, permissions) == [] <==>
                      forall p :: p in permissions ==>
                        && p in g.permissions
                        && (UsesTemplate(templateID) ==> MatchTemplate(g.permissions, template(templateID).value))))
  {
    NothingMissing(g.permissions, permissions);
    NothingMissing({}, permissions);
  }

  lemma EventsDeclared(agreements: seq<Agreement>, readings: seq<int>, cloudEvents: seq<CE.Agreement>,
                       filters: seq<CE.EventFilter>)
    requires |readings| == |agreements| && Elements(cloudEvents) == CloudEventSet(agreements, readings)
    ensures CE.Lacks(cloudEvents, filters) == [] <==>
            forall f, p :: f in filters && CE.Asks(f, p) ==> CoveredInForce(agreements, readings, p)
  {
    CE.CheckIsCoverage(cloudEvents, filters);
    forall p ensures CE.Covered(cloudEvents, p) <==> CoveredInForce(agreements, readings, p) {
      CoveredDeclared(agreements, readings, cloudEvents, p);
    }
  }

  lemma CoveredDeclared(agreements: seq<Agreement>, readings: seq<int>, cloudEvents: seq<CE.Agreement>, p: CE.Point)
    requires |readings| == |agreements| && Elements(cloudEvents) == CloudEventSet(agreements, readings)
    ensures CE.Covered(cloudEvents, p) <==> CoveredInForce(agreements, readings, p)
  {
    if c :| c in cloudEvents && CE.Covers(c, p) {
      assert c in Elements(cloudEvents);
      var i :| 0 <= i < |agreements| && InForce(agreements, readings, i)
               && agreements[i].kind == "cloudevent" && c == MadeFrom(agreements[i]);
      var a := agreements[i];
      CE.MadeCoversItsFields(a.eventType, a.source, a.ids, a.tags, p);
      assert Describes(a, p);
    }
    if i :| 0 <= i < |agreements| && InForce(agreements, readings, i) && Describes(agreements[i], p) {
      var a := agreements[i];
      CE.MadeCoversItsFields(a.eventType, a.source, a.ids, a.tags, p);
      assert MadeFrom(a) in Elements(cloudEvents);
      assert MadeFrom(a) in cloudEvents && CE.Covers(MadeFrom(a), p);
    }
  }

  /** A cloud-event agreement whose own fields describe the point. */
  ghost predicate Describes(a: Agreement, p: CE.Point) {
    && a.kind == "cloudevent"
    && CE.Matches(a.eventType, p.eventType) && CE.Matches(a.source, p.source)
    && CE.MatchesSome(a.ids, p.id) && CE.MatchesSome(a.tags, p.tag)
  }

  /** Some cloud-event agreement in force describes the point. */
  ghost predicate CoveredInForce(agreements: seq<Agreement>, readings: seq<int>, p: CE.Point)
    requires |readings| == |agreements|
  {
    exists i :: 0 <= i < |agreements| && InForce(agreements, readings, i) && Describes(agreements[i], p)
  }

  /** The document names a template, whose reply is needed. */
  predicate Templated(doc: Document) { !(doc.permissionTemplateID == "" || doc.permissionTemplateID == "0") }

  /** Nothing stands in the way of these permissions: no template, or none found, or an active one all of
      whose permissions are among them. */
  ghost predicate LetThrough(doc: Document, permissions: set<string>, template: TemplateReply) {
    Templated(doc) ==>
      && template(doc.permissionTemplateID).Ok?
      && (var t := template(doc.permissionTemplateID).value;
          t.Some? ==> t.value.isActive && forall p :: p in t.value.permissions ==> p in permissions)
  }

  /** No agreement in force names another asset, the template's reply is usable, every event asked for
      is covered, and every permission is in the union that the template, if any, lets through. */
  ghost predicate GrantsDeclared(doc: Document, asset: string, readings: seq<int>, template: TemplateReply,
                                 filters: seq<CE.EventFilter>, permissions: seq<string>)
    requires |readings| == |doc.agreements|
  {
    && !NamesOther(doc.agreements, asset, readings)
    && (Templated(doc) ==> template(doc.permissionTemplateID).Ok?)
    && (forall f, p :: f in filters && CE.Asks(f, p) ==> CoveredInForce(doc.agreements, readings, p))
    && (forall p :: p in permissions ==>
          && p in PermissionUnion(doc.agreements, readings)
          && LetThrough(doc, PermissionUnion(doc.agreements, readings), template))
  }

  // ---------- The document's own window ----------

  /** Agreement i, in force, is to events that some request can name. */
  ghost predicate GivesEvents(agreements: seq<Agreement>, readings: seq<int>, i: nat)
    requires |readings| == |agreements| && i < |agreements|
  {
    && InForce(agreements, readings, i) && agreements[i].kind == "cloudevent"
    && agreements[i].eventType != "" && agreements[i].source != ""
  }

  /** The document can be evaluated, and something in force in it gets past the template. */
  ghost predicate GivesSomething(doc: Document, asset: string, readings: seq<int>, template: TemplateReply)
    requires |readings| == |doc.agreements|
  {
    var granted := PermissionUnion(doc.agreements, readings);
    && !NamesOther(doc.agreements, asset, readings)
    && (Templated(doc) ==> template(doc.permissionTemplateID).Ok?)
    && (|| (exists i :: 0 <= i < |doc.agreements| && GivesEvents(doc.agreements, readings, i))
        || (granted != {} && LetThrough(doc, granted, template)))
  }

  predicate AsksSomething(filters: seq<CE.EventFilter>, permissions: seq<string>) { filters != [] || permissions != [] }

  lemma OwnWordingPasses(doc: Document, asset: string, readings: seq<int>, template: TemplateReply, i: nat)
    requires |readings| == |doc.agreements| && i < |doc.agreements|
    requires !NamesOther(doc.agreements, asset, readings)
    requires Templated(doc) ==> template(doc.permissionTemplateID).Ok?
    requires GivesEvents(doc.agreements, readings, i)
    ensures var a := doc.agreements[i];
            Passes(doc, asset, readings, template, [CE.EventFilter(a.eventType, a.source, a.ids, a.tags)], [])
  {
    var a := doc.agreements[i];
    var filters := [CE.EventFilter(a.eventType, a.source, a.ids, a.tags)];
    CollectIsDeclarative(doc.agreements, asset, readings);
    var g := Collect(doc.agreements, asset, readings).value;
    CE.GrantsItsOwnWording(a.eventType, a.source, a.ids, a.tags);
    assert MadeFrom(a) in Elements(g.cloudEvents);
    CE.MoreAgreementsGrantMore([MadeFrom(a)], g.cloudEvents, filters);
    GateExactly(g, doc.permissionTemplateID, template, []);
  }

  lemma PassedEventsGiven(doc: Document, asset: string, readings: seq<int>, template: TemplateReply,
                          filters: seq<CE.EventFilter>, permissions: seq<string>)
    requires |readings| == |doc.agreements| && filters != []
    requires Passes(doc, asset, readings, template, filters, permissions)
    ensures exists i :: 0 <= i < |doc.agreements| && GivesEvents(doc.agreements, readings, i)
  {
    CollectIsDeclarative(doc.agreements, asset, readings);
    var g := Collect(doc.agreements, asset, readings).value;
    GateExactly(g, doc.permissionTemplateID, template, permissions);
    var f := filters[0];
    CE.NoLacks(g.cloudEvents, filters);
    var d := CE.Defaulted(f);
    assert CE.Granted(g.cloudEvents, d.eventType, d.source, d.ids[0], d.tags[0]);
    var c :| c in g.cloudEvents && c.Grants(d.eventType, d.source, d.ids[0], d.tags[0]);
    assert c in Elements(g.cloudEvents);
    var i :| 0 <= i < |doc.agreements| && InForce(doc.agreements, readings, i)
             && doc.agreements[i].kind == "cloudevent" && c == MadeFrom(doc.agreements[i]);
    assert GivesEvents(doc.agreements, readings, i);
  }

  /** A document passes some request that asks for something exactly when it gives something. */
  lemma PassesSomethingExactly(doc: Document, asset: string, readings: seq<int>, template: TemplateReply)
    requires |readings| == |doc.agreements|
    ensures (exists filters, permissions ::
               AsksSomething(filters, permissions) && Passes(doc, asset, readings, template, filters, permissions)) <==>
            GivesSomething(doc, asset, readings, template)
  {
    if filters, permissions :| AsksSomething(filters, permissions)
                               && Passes(doc, asset, readings, template, filters, permissions) {
      PassesExactly(doc, asset, readings, template, filters, permissions);
      if filters != [] {
        PassedEventsGiven(doc, asset, readings, template, filters, permissions);
      } else {
        assert permissions[0] in PermissionUnion(doc.agreements, readings);
      }
    }
    if GivesSomething(doc, asset, readings, template) {
      if i :| 0 <= i < |doc.agreements| && GivesEvents(doc.agreements, readings, i) {
        OwnWordingPasses(doc, asset, readings, template, i);
        var a := doc.agreements[i];
        assert AsksSomething([CE.EventFilter(a.eventType, a.source, a.ids, a.tags)], []);
      } else {
        var p :| p in PermissionUnion(doc.agreements, readings);
        PassesExactly(doc, asset, readings, template, [], [p]);
        assert AsksSomething([], [p]);
      }
    }
  }

  predicate InOwnWindow(doc: Document, now: int) {
    && (doc.effectiveAt.Some? ==> now >= doc.effectiveAt.value)
    && (doc.expiresAt.Some? ==> now <= doc.expiresAt.value)
  }

  /** The document's own window is not consulted. Passing implies being inside it, for every request that
      asks for something, exactly when the document is inside it or gives nothing at that moment. */
  lemma OwnWindowKeptExactly(doc: Document, asset: string, now: int, template: TemplateReply)
    ensures (forall filters, permissions ::
               AsksSomething(filters, permissions)
               && Passes(doc, asset, At(now, |doc.agreements|), template, filters, permissions) ==>
               InOwnWindow(doc, now)) <==>
            InOwnWindow(doc, now) || !GivesSomething(doc, asset, At(now, |doc.agreements|), template)
  {
    PassesSomethingExactly(doc, asset, At(now, |doc.agreements|), template);
  }

  /** When no agreement is in force outside the document's own window, an accepted document is inside it. */
  lemma NestedWindowsKept(doc: Document, asset: string, now: int, template: TemplateReply,
                          filters: seq<CE.EventFilter>, permissions: seq<string>)
    requires forall a :: a in doc.agreements && InWindow(a, now) ==> InOwnWindow(doc, now)
    requires AsksSomething(filters, permissions)
    requires Passes(doc, asset, At(now, |doc.agreements|), template, filters, permissions)
    ensures InOwnWindow(doc, now)
  {
    var readings := At(now, |doc.agreements|);
    PassesSomethingExactly(doc, asset, readings, template);
    if i :| 0 <= i < |doc.agreements| && GivesEvents(doc.agreements, readings, i) {
      assert doc.agreements[i] in doc.agreements;
    } else {
      var p :| p in PermissionUnion(doc.agreements, readings);
      var i :| 0 <= i < |doc.agreements| && InForce(doc.agreements, readings, i)
               && doc.agreements[i].kind == "permission" && p in doc.agreements[i].permissions;
      assert doc.agreements[i] in doc.agreements;
    }
  }

  /** A document that expired at 10 passes at 20, on an agreement that never expires. */
  lemma ExpiredDocumentPasses(template: TemplateReply, did: string, name: string)
    ensures var a := Agreement("permission", did, None, None, "", "", [], [], [name]);
            var doc := Document("", "", None, Some(10), "", [a]);
            !InOwnWindow(doc, 20) && Passes(doc, did, At(20, 1), template, [], [name])
  {
    var a := Agreement("permission", did, None, None, "", "", [], [], [name]);
    var doc := Document("", "", None, Some(10), "", [a]);
    PassesExactly(doc, did, At(20, 1), template, [], [name]);
    assert InForce(doc.agreements, At(20, 1), 0);
    assert name in PermissionUnion(doc.agreements, At(20, 1)) by {
      assert name in doc.agreements[0].permissions;
    }
  }

  function NotGranted(granted: set<string>): string -> bool { (name: string) => name !in granted }

  /** The report keeps the names not granted, in order. */
  lemma {:induction false} MissingKept(granted: set<string>, requested: seq<string>)
    ensures Missing(granted, requested) == Keep(NotGranted(granted), requested)
  {
    if requested != [] {
      MissingKept(granted, requested[..|requested| - 1]);
    }
  }

  // ---------- Agreements out of their window ----------

  function Without<T>(s: seq<T>, i: nat): seq<T>
    requires i < |s|
  {
    s[..i] + s[i + 1..]
  }

  function Extend(r: Result<Granted, Error>, a: Agreement, asset: string, now: int): Result<Granted, Error> {
    match r
    case Err(e) => Err(e)
    case Ok(g) => CollectOne(g, a, asset, now)
  }

  lemma CollectLast(init: seq<Agreement>, a: Agreement, asset: string, readings: seq<int>, now: int)
    requires |readings| == |init|
    ensures Collect(init + [a], asset, readings + [now]) == Extend(Collect(init, asset, readings), a, asset, now)
  {
    assert (init + [a])[..|init|] == init && (readings + [now])[..|init|] == readings;
  }

  lemma WithoutBeforeLast<T>(s: seq<T>, i: nat)
    requires i + 1 < |s|
    ensures Without(s, i) == Without(s[..|s| - 1], i) + [s[|s| - 1]]
  {
  }

  lemma {:induction false} CollectSkips(agreements: seq<Agreement>, asset: string, readings: seq<int>, i: nat)
    requires |readings| == |agreements| && i < |agreements| && !InForce(agreements, readings, i)
    ensures Collect(Without(agreements, i), asset, Without(readings, i)) == Collect(agreements, asset, readings)
    decreases |agreements|
  {
    var n := |agreements| - 1;
    assert agreements == agreements[..n] + [agreements[n]] && readings == readings[..n] + [readings[n]];
    CollectLast(agreements[..n], agreements[n], asset, readings[..n], readings[n]);
    if i == n {
      assert Without(agreements, i) == agreements[..n] && Without(readings, i) == readings[..n];
    } else {
      CollectSkips(agreements[..n], asset, readings[..n], i);
      WithoutBeforeLast(agreements, i);
      WithoutBeforeLast(readings, i);
      CollectLast(Without(agreements[..n], i), agreements[n], asset, Without(readings[..n], i), readings[n]);
    }
  }

  /** An agreement read before its start or after its expiry can be removed: the outcome is the same. */
  lemma OutOfWindowIsAbsent(doc: Document, asset: string, readings: seq<int>, template: TemplateReply, i: nat)
    requires |readings| == |doc.agreements| && i < |doc.agreements|
    requires var a := doc.agreements[i];
             || (a.effectiveAt.Some? && readings[i] < a.effectiveAt.value)
             || (a.expiresAt.Some? && a.expiresAt.value < readings[i])
    ensures UserGrants(doc.(agreements := Without(doc.agreements, i)), asset, Without(readings, i), template) ==
            UserGrants(doc, asset, readings, template)
  {
    CollectSkips(doc.agreements, asset, readings, i);
  }

  /** An agreement expired at 10 gives nothing at 20, and neither does one that starts at 30. */
  lemma OutOfWindowExample(template: TemplateReply, did: string, name: string, early: bool)
    ensures var a := Agreement("permission", did, if early then Some(30) else None, if early then None else Some(10),
                               "", "", [], [], [name]);
            !Passes(Document("", "", None, None, "", [a]), did, At(20, 1), template, [], [name])
  {
    var a := Agreement("permission", did, if early then Some(30) else None, if early then None else Some(10),
                       "", "", [], [], [name]);
    var doc := Document("", "", None, None, "", [a]);
    PassesExactly(doc, did, At(20, 1), template, [], [name]);
    assert !InForce(doc.agreements, At(20, 1), 0);
    assert name in [name];
  }

  lemma {:induction false} MissingRequested(granted: set<string>, requested: seq<string>)
    ensures forall p :: p in Missing(granted, requested) <==> p in requested && p !in granted
  {
    if requested != [] {
      var n := |requested| - 1;
      MissingRequested(granted, requested[..n]);
      assert requested == requested[..n] + [requested[n]];
    }
  }
}
