/** The access decision: a signed document first, the on-chain permission bits as a fallback. */
module Access {
  import opened Text
  import opened Bits
  import CE = CloudEvents
  import Grants
  import P = Privileges

  datatype Asset = Erc721(chainId: nat, contract: Address, tokenId: int) | Ethr(chainId: nat, contract: Address)

  datatype Request = Request(asset: Asset, permissions: seq<string>, filters: seq<CE.EventFilter>)

  // ---------- Oracles ----------

  /** The grants identity-api reports; permissions is None when its hex does not parse. */
  datatype VehicleGrant = VehicleGrant(permissions: Option<nat>, source: string)

  datatype VehicleReply = Vehicle(owner: Address, grant: Option<VehicleGrant>) | VehicleNotFound | VehicleUnavailable

  /** A fetched access document; its content is None when it does not parse. */
  datatype RawDocument = RawDocument(content: Option<Grants.Document>, signature: string)

  /** Everything outside the service, each entry asked at most once in a decision. Identity-api may be
      asked twice, and may answer differently. None is a failed call. */
  datatype World = World(
    casing: Casing,
    vehicleContract: Address,
    manufacturerContract: Address,
    did: Asset -> string,
    recordVehicle: (int, Address) -> VehicleReply,
    permissionVehicle: (int, Address) -> VehicleReply,
    chainRecord: (Address, int, Address) -> Option<string>,
    accountRecord: (Address, Address) -> Option<string>,
    chainPermissions: (Address, int, Address, nat) -> Option<nat>,
    accountPermissions: (Address, Address, nat) -> Option<nat>,
    document: string -> Option<RawDocument>,
    validSignature: (Grants.Document, string) -> Option<bool>,
    template: (string, Asset) -> Result<Option<Grants.TemplateResult>, string>,
    clock: nat -> int)

  datatype Error =
    | RecordFailed | DocumentFailed | Unparseable | GranteeMismatch | SignatureNotChecked | InvalidSignature
    | GrantsFailed(cause: Grants.Error) | EventsLacking(lacks: seq<CE.Lack>) | PermissionsMissing(names: seq<string>)
    | PermissionsFailed | BitsLacking(ids: seq<nat>)

  // ---------- The SACD proxy ----------

  const MAX_INT32: int := 0x7FFF_FFFF
  const MAX_INT64: int := 0x7FFF_FFFF_FFFF_FFFF

  /** `convertTokenID`: identity-api takes positive 32-bit ids. */
  function ConvertTokenID(tokenId: int): (r: Option<int>)
    ensures r.Some? <==> 0 < tokenId <= MAX_INT32
    ensures r.Some? ==> r.value == tokenId
  {
    if tokenId <= 0 then None
    else if tokenId > MAX_INT64 then None
    else if tokenId > MAX_INT32 then None
    else Some(tokenId)
  }

  function Ask(identity: (int, Address) -> VehicleReply, tokenId: int, grantee: Address): VehicleReply {
    match ConvertTokenID(tokenId)
    case None => VehicleUnavailable
    case Some(id) => identity(id, grantee)
  }

  /** The document source in the current permission record; a missing vehicle or grant has none. */
  function CurrentSource(w: World, contract: Address, tokenId: int, grantee: Address): Option<string> {
    if contract == w.vehicleContract then
      match Ask(w.recordVehicle, tokenId, grantee)
      case VehicleNotFound => Some("")
      case VehicleUnavailable => None
      case Vehicle(_, grant) =>
        if grant.None? then Some("")
        else if grant.value.permissions.None? then None
        else Some(grant.value.source)
    else w.chainRecord(contract, tokenId, grantee)
  }

  /** `Proxy.GetPermissions`: the masked permissions of the grantee, all of them for the owner. */
  function GetPermissions(w: World, contract: Address, tokenId: int, grantee: Address, mask: nat): Option<nat> {
    if contract == w.vehicleContract then
      match Ask(w.permissionVehicle, tokenId, grantee)
      case VehicleNotFound => Some(0)
      case VehicleUnavailable => None
      case Vehicle(owner, grant) =>
        if owner == grantee then Some(mask)
        else if grant.None? then Some(0)
        else if grant.value.permissions.None? then None
        else Some(And(grant.value.permissions.value, mask))
    else w.chainPermissions(contract, tokenId, grantee, mask)
  }

  // ---------- Via the signed document ----------

  function Source(w: World, asset: Asset, grantee: Address): Option<string> {
    match asset
    case Ethr(_, contract) => w.accountRecord(contract, grantee)
    case Erc721(_, contract, tokenId) => CurrentSource(w, contract, tokenId, grantee)
  }

  /** The clock readings of the walk over the agreements. */
  function Readings(w: World, doc: Grants.Document): (r: seq<int>)
    ensures |r| == |doc.agreements| && forall i :: 0 <= i < |r| ==> r[i] == w.clock(i)
  {
    seq(|doc.agreements|, (i: nat) => w.clock(i))
  }

  function TemplateFor(w: World, asset: Asset): (reply: Grants.TemplateReply)
    ensures forall id :: reply(id) == w.template(id, asset)
  {
    (id: string) => w.template(id, asset)
  }

  /** `evaluateSacdDoc`. */
  function EvaluateDocument(w: World, raw: RawDocument, req: Request, grantee: Address): Result<(), Error> {
    if raw.content.None? then Err(Unparseable)
    else
      var doc := raw.content.value;
      if doc.grantee != AddressHex(w.casing, grantee) then Err(GranteeMismatch)
      else
        match w.validSignature(doc, raw.signature)
        case None => Err(SignatureNotChecked)
        case Some(valid) =>
          if !valid then Err(InvalidSignature)
          else
            match Grants.UserGrants(doc, w.did(req.asset), Readings(w, doc), TemplateFor(w, req.asset))
            case Err(e) => Err(GrantsFailed(e))
            case Ok(g) => CheckGrants(g, req)
  }

  /** Events first, then permissions; what is lacking is reported in full. */
  function CheckGrants(g: Grants.Granted, req: Request): Result<(), Error> {
    if CE.Lacks(g.cloudEvents, req.filters) != [] then Err(EventsLacking(CE.Lacks(g.cloudEvents, req.filters)))
    else if Grants.Missing(g.permissions, req.permissions) != [] then
      Err(PermissionsMissing(Grants.Missing(g.permissions, req.permissions)))
    else Ok(())
  }

  function ViaSourceDoc(w: World, req: Request, grantee: Address): Result<(), Error> {
    match Source(w, req.asset, grantee)
    case None => Err(RecordFailed)
    case Some(source) =>
      match w.document(source)
      case None => Err(DocumentFailed)
      case Some(raw) => EvaluateDocument(w, raw, req, grantee)
  }

  // ---------- Via the permission record ----------

  function TableFor(w: World, asset: Asset): (table: map<int, string>)
    ensures P.Injective(table)
    ensures forall id :: id in table ==> 0 <= id < 128
  {
    P.TablesAreInjective();
    if asset.contract == w.manufacturerContract then P.MANUFACTURER_PRIVILEGE_ID_TO_NAME else P.PRIVILEGE_ID_TO_NAME
  }

  lemma IDsInRange(w: World, asset: Asset, names: seq<string>)
    requires P.IDsOf(P.NameToID(TableFor(w, asset)), names).Ok?
    ensures InRange(P.IDsOf(P.NameToID(TableFor(w, asset)), names).value, 128)
  {
    var table := TableFor(w, asset);
    P.MissingOrAllNamed(P.NameToID(table), names);
    forall i | 0 <= i < |names| ensures 0 <= P.NameToID(table)[names[i]] < 128 {
      P.InverseValue(table, names[i]);
    }
  }

  function Permissions(w: World, asset: Asset, grantee: Address, mask: nat): Option<nat> {
    match asset
    case Ethr(_, contract) => w.accountPermissions(contract, grantee, mask)
    case Erc721(_, contract, tokenId) => GetPermissions(w, contract, tokenId, grantee, mask)
  }

  /** The privilege ids of the requested names, when all have one. */
  function RequestedIDs(w: World, req: Request): (r: Result<seq<nat>, seq<string>>)
    ensures r.Ok? ==> forall i :: 0 <= i < |r.value| ==> r.value[i] < 128
  {
    var r := P.IDsOf(P.NameToID(TableFor(w, req.asset)), req.permissions);
    match r
    case Err(missing) => Err(missing)
    case Ok(ids) => IDsInRange(w, req.asset, req.permissions); Ok(ids)
  }

  /** The names of a legacy request lead back to the very ids it listed, so those build the mask. */
  lemma LegacyIDsBuildMask(w: World, asset: Asset, ids: seq<int>, filters: seq<CE.EventFilter>)
    requires P.AllKnown(TableFor(w, asset), ids)
    ensures P.NamesOf(TableFor(w, asset), ids).Ok?
    ensures RequestedIDs(w, Request(asset, P.NamesOf(TableFor(w, asset), ids).value, filters)) == Ok(ids)
  {
    P.PrivilegeRoundTrip(TableFor(w, asset), ids);
  }

  function ViaRecord(w: World, req: Request, grantee: Address): Result<(), Error> {
    match RequestedIDs(w, req)
    case Err(missing) => Err(PermissionsMissing(missing))
    case Ok(ids) =>
      match Permissions(w, req.asset, grantee, Mask(ids))
      case None => Err(PermissionsFailed)
      case Some(bits) => if LackingBits(ids, bits) != [] then Err(BitsLacking(LackingBits(ids, bits))) else Ok(())
  }

  /** `ValidateAccessViaRecord` and `evaluatePermissionsBits`, with their loops; building the mask never fails. */
  method ValidateAccessViaRecord(w: World, req: Request, grantee: Address) returns (r: Result<(), Error>)
    ensures r == ViaRecord(w, req, grantee)
  {
    var ids := P.IDsFromPermissions(P.NameToID(TableFor(w, req.asset)), req.permissions);
    if ids.Err? {
      return Err(PermissionsMissing(ids.error));
    }
    IDsInRange(w, req.asset, req.permissions);
    var mask := IntArrayTo2BitArray(ids.value, 128);
    var permissions: seq<nat> := ids.value;
    MaskIsMask(permissions);
    MaskUnique(permissions, mask.value, Mask(permissions));
    var bits := Permissions(w, req.asset, grantee, mask.value);
    if bits.None? {
      return Err(PermissionsFailed);
    }
    var lack := EvaluatePermissionsBits(permissions, bits.value);
    if |lack| != 0 {
      return Err(BitsLacking(lack));
    }
    return Ok(());
  }

  // ---------- The decision ----------

  /** The document decides; the record is asked only when the document fails and no events were requested. */
  function ValidateAccess(w: World, req: Request, grantee: Address): Result<(), Error> {
    var viaDoc := ViaSourceDoc(w, req, grantee);
    if viaDoc.Ok? then Ok(())
    else if req.filters != [] then viaDoc
    else ViaRecord(w, req, grantee)
  }

  /** What the record of the asset for this grantee gives as its document's source: of an account, of a
      token on the chain, or of a vehicle as identity-api knows it, where no grant means no source. */
  ghost predicate RecordNames(w: World, asset: Asset, grantee: Address, source: string) {
    match asset
    case Ethr(_, contract) => w.accountRecord(contract, grantee) == Some(source)
    case Erc721(_, contract, tokenId) =>
      if contract != w.vehicleContract then w.chainRecord(contract, tokenId, grantee) == Some(source)
      else
        && 0 < tokenId <= 0x7FFF_FFFF
        && (var reply := w.recordVehicle(tokenId, grantee);
            || (reply.VehicleNotFound? && source == "")
            || (reply.Vehicle? && reply.grant.None? && source == "")
            || (reply.Vehicle? && reply.grant.Some? && reply.grant.value.permissions.Some?
                && source == reply.grant.value.source))
  }

  lemma SourceIsRecorded(w: World, asset: Asset, grantee: Address, source: string)
    ensures Source(w, asset, grantee) == Some(source) <==> RecordNames(w, asset, grantee, source)
  {
  }

  /** A signed document for this grantee is found, verifies, and grants all that is requested. */
  ghost predicate DocumentGrants(w: World, req: Request, grantee: Address) {
    exists source ::
      && RecordNames(w, req.asset, grantee, source)
      && (var raw := w.document(source);
          && raw.Some? && raw.value.content.Some?
          && DocumentContentGrants(w, raw.value.content.value, raw.value.signature, req, grantee))
  }

  ghost predicate DocumentContentGrants(w: World, doc: Grants.Document, signature: string, req: Request,
                                        grantee: Address)
  {
    && ParseAddress(doc.grantee) == Some(grantee)
    && doc.grantee == AddressHex(w.casing, grantee)
    && w.validSignature(doc, signature) == Some(true)
    && Grants.GrantsDeclared(doc, w.did(req.asset), Readings(w, doc), TemplateFor(w, req.asset),
                             req.filters, req.permissions)
  }

  /** The masked permissions that the asset's kind gives this grantee: an account's, a chain token's, or a
      vehicle's as identity-api knows it, where the owner has the whole mask. */
  ghost predicate Permitted(w: World, asset: Asset, grantee: Address, mask: nat, bits: nat) {
    match asset
    case Ethr(_, contract) => w.accountPermissions(contract, grantee, mask) == Some(bits)
    case Erc721(_, contract, tokenId) =>
      if contract != w.vehicleContract then w.chainPermissions(contract, tokenId, grantee, mask) == Some(bits)
      else 0 < tokenId <= 0x7FFF_FFFF && PermittedOnVehicle(w.permissionVehicle(tokenId, grantee), grantee, mask, bits)
  }

  ghost predicate PermittedOnVehicle(reply: VehicleReply, grantee: Address, mask: nat, bits: nat) {
    || (reply.VehicleNotFound? && bits == 0)
    || (reply.Vehicle? && reply.owner == grantee && bits == mask)
    || (reply.Vehicle? && reply.owner != grantee && reply.grant.None? && bits == 0)
    || (reply.Vehicle? && reply.owner != grantee && reply.grant.Some? && reply.grant.value.permissions.Some?
        && bits == And(reply.grant.value.permissions.value, mask))
  }

  lemma PermissionsArePermitted(w: World, asset: Asset, grantee: Address, mask: nat, bits: nat)
    ensures Permissions(w, asset, grantee, mask) == Some(bits) <==> Permitted(w, asset, grantee, mask, bits)
  {
  }

  /** These are the legacy ids of the names, in the table of the asset's contract. */
  ghost predicate IDsNamed(w: World, asset: Asset, names: seq<string>, ids: seq<nat>) {
    var table := if asset.contract == w.manufacturerContract then P.MANUFACTURER_PRIVILEGE_ID_TO_NAME
                 else P.PRIVILEGE_ID_TO_NAME;
    |ids| == |names| && forall i :: 0 <= i < |ids| ==> ids[i] in table && table[ids[i]] == names[i]
  }

  lemma RequestedIDsAreNamed(w: World, req: Request, ids: seq<nat>)
    ensures RequestedIDs(w, req) == Ok(ids) <==> IDsNamed(w, req.asset, req.permissions, ids)
  {
    var table := TableFor(w, req.asset);
    P.IDsOfMeaning(P.NameToID(table), req.permissions);
    if IDsNamed(w, req.asset, req.permissions, ids) {
      forall i | 0 <= i < |ids|
        ensures req.permissions[i] in P.NameToID(table) && P.NameToID(table)[req.permissions[i]] == ids[i]
      {
        P.InverseHolds(table, ids[i]);
      }
      assert RequestedIDs(w, req).value == ids;
    }
    if RequestedIDs(w, req) == Ok(ids) {
      forall i | 0 <= i < |ids| ensures ids[i] in table && table[ids[i]] == req.permissions[i] {
        P.InverseValue(table, req.permissions[i]);
      }
    }
  }

  /** Every name has an id in the asset's table, and the permissions read with the mask of those ids hold
      the whole mask, which is to say both bits of each. */
  ghost predicate RecordGrants(w: World, req: Request, grantee: Address) {
    exists ids: seq<nat>, mask: nat, bits: nat ::
      && IDsNamed(w, req.asset, req.permissions, ids) && MaskOf(ids, mask)
      && Permitted(w, req.asset, grantee, mask, bits) && And(bits, mask) == mask
  }

  lemma DocumentPathExactly(w: World, req: Request, grantee: Address)
    ensures ViaSourceDoc(w, req, grantee).Ok? <==> DocumentGrants(w, req, grantee)
  {
    var source := Source(w, req.asset, grantee);
    forall s ensures source == Some(s) <==> RecordNames(w, req.asset, grantee, s) {
      SourceIsRecorded(w, req.asset, grantee, s);
    }
    if source.Some? {
      assert DocumentGrants(w, req, grantee) ==> RecordNames(w, req.asset, grantee, source.value);
      if w.document(source.value).Some? && w.document(source.value).value.content.Some? {
        ContentExactly(w, w.document(source.value).value, req, grantee);
      }
    }
  }

  lemma ContentExactly(w: World, raw: RawDocument, req: Request, grantee: Address)
    requires raw.content.Some?
    ensures EvaluateDocument(w, raw, req, grantee).Ok? <==>
            DocumentContentGrants(w, raw.content.value, raw.signature, req, grantee)
  {
    var doc := raw.content.value;
    AddressRoundTrip(w.casing, grantee);
    Grants.PassesExactly(doc, w.did(req.asset), Readings(w, doc), TemplateFor(w, req.asset),
                         req.filters, req.permissions);
  }

  lemma RecordPathExactly(w: World, req: Request, grantee: Address)
    ensures ViaRecord(w, req, grantee).Ok? <==> RecordGrants(w, req, grantee)
  {
    if ViaRecord(w, req, grantee).Ok? {
      GrantedByRecord(w, req, grantee);
    }
    if ids: seq<nat>, mask: nat, bits: nat :|
        && IDsNamed(w, req.asset, req.permissions, ids) && MaskOf(ids, mask)
        && Permitted(w, req.asset, grantee, mask, bits) && And(bits, mask) == mask
    {
      RecordDecides(w, req, grantee, ids, mask, bits);
    }
  }

  lemma GrantedByRecord(w: World, req: Request, grantee: Address)
    requires ViaRecord(w, req, grantee).Ok?
    ensures RecordGrants(w, req, grantee)
  {
    var ids := RequestedIDs(w, req).value;
    var bits := Permissions(w, req.asset, grantee, Mask(ids)).value;
    RequestedIDsAreNamed(w, req, ids);
    MaskIsMask(ids);
    PermissionsArePermitted(w, req.asset, grantee, Mask(ids), bits);
    LacksNothingIffMaskHeld(ids, Mask(ids), bits);
  }

  lemma RecordDecides(w: World, req: Request, grantee: Address, ids: seq<nat>, mask: nat, bits: nat)
    requires IDsNamed(w, req.asset, req.permissions, ids) && MaskOf(ids, mask)
    requires Permitted(w, req.asset, grantee, mask, bits) && And(bits, mask) == mask
    ensures ViaRecord(w, req, grantee).Ok?
  {
    RequestedIDsAreNamed(w, req, ids);
    MaskIsMask(ids);
    MaskUnique(ids, mask, Mask(ids));
    PermissionsArePermitted(w, req.asset, grantee, mask, bits);
    LacksNothingIffMaskHeld(ids, mask, bits);
  }

  /** The document path alone decides when it accepts or when events are asked for; else the record does. */
  lemma AccessByPaths(w: World, req: Request, grantee: Address)
    ensures req.filters != [] || ViaSourceDoc(w, req, grantee).Ok? ==>
              ValidateAccess(w, req, grantee) == ViaSourceDoc(w, req, grantee)
    ensures req.filters == [] && ViaSourceDoc(w, req, grantee).Err? ==>
              ValidateAccess(w, req, grantee) == ViaRecord(w, req, grantee)
  {
  }

  /** `ValidateAccess` succeeds exactly when the document grants everything, or nothing was asked of
      cloud events and the record does. So event filters can never succeed through the record. */
  lemma AccessExactly(w: World, req: Request, grantee: Address)
    ensures ValidateAccess(w, req, grantee).Ok? <==>
            DocumentGrants(w, req, grantee) || (req.filters == [] && RecordGrants(w, req, grantee))
    ensures req.filters != [] ==> ValidateAccess(w, req, grantee) == ViaSourceDoc(w, req, grantee)
  {
    AccessByPaths(w, req, grantee);
    DocumentPathExactly(w, req, grantee);
    if req.filters == [] && ViaSourceDoc(w, req, grantee).Err? {
      RecordPathExactly(w, req, grantee);
    }
  }

  /** The owner has everything; a grantee what the grant's own permissions hold; without vehicle or grant
      there is only nothing to be had. */
  ghost predicate VehicleGrants(reply: VehicleReply, grantee: Address, asksNothing: bool, mask: nat) {
    || (reply.Vehicle? && reply.owner == grantee)
    || (reply.VehicleNotFound? && asksNothing)
    || (reply.Vehicle? && reply.grant.None? && asksNothing)
    || (reply.Vehicle? && reply.grant.Some? && reply.grant.value.permissions.Some?
        && And(reply.grant.value.permissions.value, mask) == mask)
  }

  lemma VehicleReplyGrants(reply: VehicleReply, grantee: Address, ids: seq<nat>, mask: nat)
    requires MaskOf(ids, mask)
    ensures (exists bits :: PermittedOnVehicle(reply, grantee, mask, bits) && And(bits, mask) == mask) <==>
            VehicleGrants(reply, grantee, ids == [], mask)
  {
    EmptyMask(ids, mask);
    MaskAgain(mask, mask);
    if reply.Vehicle? && reply.grant.Some? && reply.grant.value.permissions.Some? {
      MaskAgain(reply.grant.value.permissions.value, mask);
      assert reply.owner != grantee ==>
               PermittedOnVehicle(reply, grantee, mask, And(reply.grant.value.permissions.value, mask));
    }
    assert reply.Vehicle? && reply.owner == grantee ==> PermittedOnVehicle(reply, grantee, mask, mask);
    assert reply.VehicleNotFound? ==> PermittedOnVehicle(reply, grantee, mask, 0);
    assert reply.Vehicle? && reply.owner != grantee && reply.grant.None? ==>
             PermittedOnVehicle(reply, grantee, mask, 0);
    assert And(0, mask) == 0;
  }

  /** For a vehicle the masking on the way makes no difference: the record grants exactly by the reply. */
  lemma VehicleRecordExactly(w: World, req: Request, grantee: Address)
    requires req.asset.Erc721? && req.asset.contract == w.vehicleContract
    ensures ViaRecord(w, req, grantee).Ok? <==>
            && 0 < req.asset.tokenId <= 0x7FFF_FFFF
            && exists ids: seq<nat>, mask: nat ::
                 && IDsNamed(w, req.asset, req.permissions, ids) && MaskOf(ids, mask)
                 && VehicleGrants(w.permissionVehicle(req.asset.tokenId, grantee), grantee, req.permissions == [], mask)
  {
    RecordPathExactly(w, req, grantee);
    var reply := w.permissionVehicle(req.asset.tokenId, grantee);
    if ids: seq<nat>, mask: nat, bits: nat :|
        && IDsNamed(w, req.asset, req.permissions, ids) && MaskOf(ids, mask)
        && Permitted(w, req.asset, grantee, mask, bits) && And(bits, mask) == mask
    {
      VehicleReplyGrants(reply, grantee, ids, mask);
    }
    if 0 < req.asset.tokenId <= 0x7FFF_FFFF {
      if ids: seq<nat>, mask: nat :|
          && IDsNamed(w, req.asset, req.permissions, ids) && MaskOf(ids, mask)
          && VehicleGrants(reply, grantee, req.permissions == [], mask)
      {
        VehicleReplyGrants(reply, grantee, ids, mask);
        var bits :| PermittedOnVehicle(reply, grantee, mask, bits) && And(bits, mask) == mask;
        assert Permitted(w, req.asset, grantee, mask, bits);
      }
    }
  }

  lemma DefaultingKeepsDocument(w: World, raw: RawDocument, req: Request, grantee: Address)
    ensures EvaluateDocument(w, raw, req.(filters := CE.DefaultedAll(req.filters)), grantee).Ok? <==>
            EvaluateDocument(w, raw, req, grantee).Ok?
  {
    if raw.content.Some? {
      var doc := raw.content.value;
      var g := Grants.UserGrants(doc, w.did(req.asset), Readings(w, doc), TemplateFor(w, req.asset));
      if g.Ok? {
        DefaultingKeepsCheck(g.value, req);
      }
    }
  }

  lemma DefaultingKeepsCheck(g: Grants.Granted, req: Request)
    ensures CheckGrants(g, req.(filters := CE.DefaultedAll(req.filters))).Ok? <==> CheckGrants(g, req).Ok?
  {
    CE.DefaultingKeepsVerdict(g.cloudEvents, req.filters);
  }

  lemma RecordIgnoresFilters(w: World, req: Request, filters: seq<CE.EventFilter>, grantee: Address)
    ensures ViaRecord(w, req.(filters := filters), grantee) == ViaRecord(w, req, grantee)
  {
  }

  /** Defaulting the filters first, as the HTTP path does, changes no decision. */
  lemma DefaultingKeepsDecision(w: World, req: Request, grantee: Address)
    ensures ValidateAccess(w, req.(filters := CE.DefaultedAll(req.filters)), grantee).Ok? <==>
            ValidateAccess(w, req, grantee).Ok?
  {
    var source := Source(w, req.asset, grantee);
    if source.Some? && w.document(source.value).Some? {
      DefaultingKeepsDocument(w, w.document(source.value).value, req, grantee);
    }
    RecordIgnoresFilters(w, req, CE.DefaultedAll(req.filters), grantee);
    if req.filters == [] {
      assert CE.DefaultedAll(req.filters) == [];
    } else {
      assert CE.DefaultedAll(req.filters) != [];
    }
  }

  // ---------- Why a document is refused ----------

  ghost predicate Unusable(w: World, doc: Grants.Document, req: Request) {
    || Grants.NamesOther(doc.agreements, w.did(req.asset), Readings(w, doc))
    || (Grants.Templated(doc) && w.template(doc.permissionTemplateID, req.asset).Err?)
  }

  ghost predicate EventsCovered(w: World, doc: Grants.Document, req: Request) {
    forall f, p :: f in req.filters && CE.Asks(f, p) ==> Grants.CoveredInForce(doc.agreements, Readings(w, doc), p)
  }

  /** A readable document is refused for the first of these reasons that applies: another grantee, a signature
      that cannot be checked or does not match, agreements for another asset or an unreadable template, an
      event not covered, a permission not granted. */
  lemma RefusalsExactly(w: World, raw: RawDocument, req: Request, grantee: Address)
    requires raw.content.Some?
    ensures var doc := raw.content.value;
            var r := EvaluateDocument(w, raw, req, grantee);
            if doc.grantee != AddressHex(w.casing, grantee) then r == Err(GranteeMismatch)
            else if w.validSignature(doc, raw.signature) == None then r == Err(SignatureNotChecked)
            else if w.validSignature(doc, raw.signature) == Some(false) then r == Err(InvalidSignature)
            else if Unusable(w, doc, req) then r.Err? && r.error.GrantsFailed?
            else if !EventsCovered(w, doc, req) then r.Err? && r.error.EventsLacking? && r.error.lacks != []
            else r.Err? ==>
              && r.error.PermissionsMissing? && r.error.names != []
              && forall p :: p in r.error.names ==> p in req.permissions
  {
    var doc := raw.content.value;
    if doc.grantee == AddressHex(w.casing, grantee) && w.validSignature(doc, raw.signature) == Some(true) {
      GrantsRefused(w, doc, req);
    }
  }

  lemma GrantsRefused(w: World, doc: Grants.Document, req: Request)
    ensures var r := Grants.UserGrants(doc, w.did(req.asset), Readings(w, doc), TemplateFor(w, req.asset));
            && (r.Err? <==> Unusable(w, doc, req))
            && (r.Ok? ==>
                  && (CE.Lacks(r.value.cloudEvents, req.filters) == [] <==> EventsCovered(w, doc, req))
                  && forall p :: p in Grants.Missing(r.value.permissions, req.permissions) ==> p in req.permissions)
  {
    var asset, readings, template := w.did(req.asset), Readings(w, doc), TemplateFor(w, req.asset);
    Grants.CollectIsDeclarative(doc.agreements, asset, readings);
    var collected := Grants.Collect(doc.agreements, asset, readings);
    if collected.Ok? {
      Grants.GateExactly(collected.value, doc.permissionTemplateID, template, req.permissions);
      Grants.EventsDeclared(doc.agreements, readings, collected.value.cloudEvents, req.filters);
      var r := Grants.UserGrants(doc, asset, readings, template);
      if r.Ok? {
        Grants.MissingRequested(r.value.permissions, req.permissions);
      }
    }
  }
}
