/** Documents and templates together: what a document grants when its template is answered by the
    caching service, in the middle of any other calls. */
module TemplateGate {
  import opened Text
  import CE = CloudEvents
  import G = Grants
  import T = Template

  /** The template service's reply, as the evaluation takes it. */
  ghost predicate RepliesWith(reply: Result<Option<G.TemplateResult>, string>,
                              r: Result<T.PermissionsResult, T.Error>)
  {
    match r
    case Err(_) => reply.Err?
    case Ok(t) => reply == Ok(Some(G.TemplateResult(t.permissions, t.isActive)))
  }

  /** The evaluation of doc for an asset of this contract got its template's reply from call k. */
  ghost predicate AnsweredBy(template: G.TemplateReply, doc: G.Document, contract: string, k: T.Call) {
    && (k.Answered? || k.Failed?)
    && k.id == doc.permissionTemplateID && k.asset == contract
    && RepliesWith(template(k.id), T.Outcome(k))
  }

  /** Permission p is in a permission agreement of the template for this contract. */
  ghost predicate Names(agreements: seq<T.Agreement>, contract: string, p: string) {
    exists i :: 0 <= i < |agreements| && agreements[i].asset == contract && agreements[i].kind == "permission"
                && p in agreements[i].permissions
  }

  /** A templated document passes exactly when the signed template can be read from the backends, its
      status too if it names any permission for the contract, all events are covered (the template has no
      say in them), and any permissions asked for are granted by the document, while the template names
      some for the contract, is active now, and names only granted ones. */
  ghost predicate PassesWithTemplate(
    doc: G.Document, asset: string, readings: seq<int>, filters: seq<CE.EventFilter>, permissions: seq<string>,
    agreements: seq<T.Agreement>, contract: string, active: Option<bool>)
    requires |readings| == |doc.agreements|
  {
    var granted := G.PermissionUnion(doc.agreements, readings);
    && !G.NamesOther(doc.agreements, asset, readings)
    && ((exists q :: Names(agreements, contract, q)) ==> active.Some?)
    && (forall f, p :: f in filters && CE.Asks(f, p) ==> G.CoveredInForce(doc.agreements, readings, p))
    && (forall p :: p in permissions ==> p in granted)
    && (permissions != [] ==>
          && (exists q :: Names(agreements, contract, q)) && active == Some(true)
          && (forall q :: Names(agreements, contract, q) ==> q in granted))
  }

  lemma NamesAreExtracted(agreements: seq<T.Agreement>, contract: string)
    ensures forall p :: p in T.PermissionsFor(agreements, contract) <==> Names(agreements, contract, p)
    ensures T.PermissionsFor(agreements, contract) == {} <==> !exists q :: Names(agreements, contract, q)
  {
    if T.PermissionsFor(agreements, contract) != {} {
      var q :| q in T.PermissionsFor(agreements, contract);
      assert Names(agreements, contract, q);
    }
  }

  /** What the template's reply lets through, read off the fetched agreements and the status. */
  lemma ReplyLetsThrough(doc: G.Document, granted: set<string>, template: G.TemplateReply,
                         contract: string, b: T.Backend, status: T.Status)
    requires G.Templated(doc)
    requires var id := doc.permissionTemplateID; RepliesWith(template(id), T.Uncached(b, status, id, contract))
    ensures var id := doc.permissionTemplateID;
            var fetched := T.FetchAgreements(b, id);
            && (template(id).Ok? ==> fetched.Ok?)
            && (fetched.Ok? ==>
                  var active := status(ParseInteger(id).value);
                  && (template(id).Ok? <==> ((exists q :: Names(fetched.value, contract, q)) ==> active.Some?))
                  && (G.LetThrough(doc, granted, template) <==>
                        && (exists q :: Names(fetched.value, contract, q)) && active == Some(true)
                        && (forall q :: Names(fetched.value, contract, q) ==> q in granted)))
  {
    var fetched := T.FetchAgreements(b, doc.permissionTemplateID);
    if fetched.Ok? {
      NamesAreExtracted(fetched.value, contract);
    }
  }

  lemma TemplatedByReply(
    doc: G.Document, asset: string, readings: seq<int>, template: G.TemplateReply,
    filters: seq<CE.EventFilter>, permissions: seq<string>, contract: string, b: T.Backend, status: T.Status)
    requires |readings| == |doc.agreements| && G.Templated(doc)
    requires var id := doc.permissionTemplateID; RepliesWith(template(id), T.Uncached(b, status, id, contract))
    ensures var fetched := T.FetchAgreements(b, doc.permissionTemplateID);
            G.Passes(doc, asset, readings, template, filters, permissions) <==>
              && fetched.Ok?
              && PassesWithTemplate(doc, asset, readings, filters, permissions, fetched.value,
                                    contract, status(ParseInteger(doc.permissionTemplateID).value))
  {
    var granted := G.PermissionUnion(doc.agreements, readings);
    G.PassesExactly(doc, asset, readings, template, filters, permissions);
    ReplyLetsThrough(doc, granted, template, contract, b, status);
    if permissions != [] && (forall p :: p in permissions ==> p in granted && G.LetThrough(doc, granted, template)) {
      assert permissions[0] in permissions;
    }
  }

  lemma TemplatedDocumentExactly(
    doc: G.Document, asset: string, readings: seq<int>, template: G.TemplateReply,
    filters: seq<CE.EventFilter>, permissions: seq<string>,
    casing: Casing, chainId: nat, contract: Address,
    b: T.Backend, steps: seq<T.Step>, c: nat)
    requires |readings| == |doc.agreements| && G.Templated(doc)
    requires T.AllUse(steps, b) && c in T.Execute(T.START, steps).calls
    requires AnsweredBy(template, doc, T.EthrDid(casing, chainId, contract), T.Execute(T.START, steps).calls[c])
    ensures var k := T.Execute(T.START, steps).calls[c];
            var fetched := T.FetchAgreements(b, doc.permissionTemplateID);
            G.Passes(doc, asset, readings, template, filters, permissions) <==>
              && k.Answered? && fetched.Ok?
              && PassesWithTemplate(doc, asset, readings, filters, permissions, fetched.value,
                                    T.EthrDid(casing, chainId, contract), k.status(ParseInteger(k.id).value))
  {
    var k := T.Execute(T.START, steps).calls[c];
    T.CacheIsTransparent(b, steps, c, k.id);
    if k.Answered? {
      TemplatedByReply(doc, asset, readings, template, filters, permissions, k.asset, b, k.status);
    }
  }
}
