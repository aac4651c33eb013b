/** The exchange surface: from an authenticated request to a permission token, over HTTP, and the
    access check over gRPC. */
module Exchange {
  import Lists
  import opened Text
  import CE = CloudEvents
  import P = Privileges
  import A = Access

  /** A decoded request body; its cloud-event filters live in a slice that is changed in place. */
  datatype TokenRequest = TokenRequest(
    asset: string, permissions: seq<string>, audience: seq<string>,
    tokenId: int, privileges: seq<int>, nftContractAddress: string)

  /** Service settings; DID decoding is left open. */
  datatype Config = Config(chainId: nat, issuer: string, ttl: int, decode: string -> Option<A.Asset>)

  datatype PermissionToken = PermissionToken(
    issuer: string, subject: string, audience: seq<string>, issuedAt: int, notBefore: int, expiresAt: int,
    asset: string, permissions: seq<string>, events: seq<CE.EventFilter>,
    contract: Address, tokenId: Option<int>, privilegeIDs: seq<int>)

  datatype HttpError =
    | NoAddress | LicenseUnavailable | NotDevLicense | BadAsset | UnknownPrivileges(ids: seq<int>)
    | NothingRequested | Denied(error: A.Error)

  const DEFAULT_AUDIENCE: seq<string> := ["dimo.zone"]

  // ---------- Request conversion ----------

  function AssetFromRequest(cfg: Config, req: TokenRequest): Option<A.Asset> {
    if req.asset != "" then cfg.decode(req.asset)
    else
      match ParseAddress(req.nftContractAddress)
      case None => None
      case Some(contract) => Some(A.Erc721(cfg.chainId, contract, req.tokenId))
  }

  /** The permissions named; legacy privilege ids stand in for them only when there are none. */
  function RequestedNames(w: A.World, asset: A.Asset, req: TokenRequest): Result<seq<string>, seq<int>> {
    if req.permissions != [] then Ok(req.permissions) else P.NamesOf(A.TableFor(w, asset), req.privileges)
  }

  /** `tokenReqToAccessReq`. */
  function AccessRequestFor(w: A.World, cfg: Config, req: TokenRequest, filters: seq<CE.EventFilter>)
    : Result<A.Request, HttpError>
  {
    match AssetFromRequest(cfg, req)
    case None => Err(BadAsset)
    case Some(asset) =>
      match RequestedNames(w, asset, req)
      case Err(unknown) => Err(UnknownPrivileges(unknown))
      case Ok(names) => Ok(A.Request(asset, names, filters))
  }

  // ---------- Minting ----------

  function TokenIdOf(asset: A.Asset): Option<int> {
    match asset
    case Erc721(_, _, tokenId) => Some(tokenId)
    case Ethr(_, _) => None
  }

  function TokenFor(w: A.World, cfg: Config, req: A.Request, audience: seq<string>, subject: string, now: int)
    : PermissionToken
  {
    PermissionToken(cfg.issuer, subject, audience, now, now, now + cfg.ttl,
                    w.did(req.asset), req.permissions, req.filters,
                    req.asset.contract, TokenIdOf(req.asset), P.MintedIDs(req.permissions))
  }

  method FillEvents(filters: seq<CE.EventFilter>) returns (events: seq<CE.EventFilter>)
    ensures events == filters
  {
    var slice := new CE.EventFilter[|filters|](_ => CE.EventFilter("", "", [], []));
    for i := 0 to |filters|
      invariant slice[..i] == filters[..i]
    {
      var event := filters[i];
      slice[i] := CE.EventFilter(event.eventType, event.source, event.ids, event.tags);
    }
    events := slice[..];
  }

  /** `SignPrivilegePayload`: both claim slices are filled index by index, then the claims are built. */
  method SignPrivilegePayload(w: A.World, cfg: Config, req: A.Request, audience: seq<string>, subject: string, now: int)
    returns (tok: PermissionToken)
    ensures tok == TokenFor(w, cfg, req, audience, subject, now)
  {
    P.TablesAreInjective();
    var privs := P.FillIDs(P.NameToID(P.PRIVILEGE_ID_TO_NAME), req.permissions);
    var events := FillEvents(req.filters);
    tok := PermissionToken(cfg.issuer, subject, audience, now, now, now + cfg.ttl,
                           w.did(req.asset), req.permissions, events,
                           req.asset.contract, TokenIdOf(req.asset), privs);
  }

  // ---------- The HTTP exchange ----------

  /** What the exchange answers to a caller whose bearer token claims an address. The developer-license
      check comes first; it fixes the subject, and the same claim names the grantee. */
  function ExchangeResult(w: A.World, cfg: Config, claimed: string, license: Address -> Option<bool>,
                   req: TokenRequest, filters: seq<CE.EventFilter>, now: int): Result<PermissionToken, HttpError>
  {
    match ParseAddress(claimed)
    case None => Err(NoAddress)
    case Some(caller) =>
      match license(caller)
      case None => Err(LicenseUnavailable)
      case Some(licensed) =>
        if !licensed then Err(NotDevLicense)
        else
          match AccessRequestFor(w, cfg, req, CE.DefaultedAll(filters))
          case Err(e) => Err(e)
          case Ok(accessReq) =>
            if accessReq.permissions == [] && accessReq.filters == [] then Err(NothingRequested)
            else
              match A.ValidateAccess(w, accessReq, caller)
              case Err(e) => Err(Denied(e))
              case Ok(_) =>
                Ok(TokenFor(w, cfg, accessReq, if req.audience == [] then DEFAULT_AUDIENCE else req.audience,
                            AddressHex(w.casing, caller), now))
  }

  /** `ExchangeToken` behind its middleware. The filters are defaulted in place, before the check, and the
      minted claims are read from that same slice. */
  method ExchangeToken(w: A.World, cfg: Config, claimed: string, license: Address -> Option<bool>,
                       req: TokenRequest, filters: array<CE.EventFilter>, now: int)
    returns (r: Result<PermissionToken, HttpError>)
    modifies filters
    ensures r == ExchangeResult(w, cfg, claimed, license, req, old(filters[..]), now)
    ensures r.Ok? ==>
              && ParseAddress(claimed).Some? && license(ParseAddress(claimed).value) == Some(true)
              && CheckedFor(w, cfg, req, old(filters[..]), r.value, ParseAddress(claimed).value)
              && r.value.events == filters[..]
    ensures filters[..] == if r.Ok? || r.error.Denied? then CE.DefaultedAll(old(filters[..])) else old(filters[..])
  {
    var clientAddress := ParseAddress(claimed);
    if clientAddress.None? {
      return Err(NoAddress);
    }
    var licensed := license(clientAddress.value);
    if licensed.None? {
      return Err(LicenseUnavailable);
    }
    if !licensed.value {
      return Err(NotDevLicense);
    }
    var subject := AddressHex(w.casing, clientAddress.value);
    var asset := AssetFromRequest(cfg, req);
    if asset.None? {
      return Err(BadAsset);
    }
    var permissions := req.permissions;
    if |permissions| == 0 {
      var names := P.PermissionsFromPrivileges(A.TableFor(w, asset.value), req.privileges);
      if names.Err? {
        return Err(UnknownPrivileges(names.error));
      }
      permissions := names.value;
    }
    if |permissions| == 0 && filters.Length == 0 {
      return Err(NothingRequested);
    }
    ghost var given := filters[..];
    CE.AddDefaultIdentifiers(filters);
    var accessReq := A.Request(asset.value, permissions, filters[..]);
    assert AccessRequestFor(w, cfg, req, CE.DefaultedAll(given)) == Ok(accessReq);
    var ethAddr := ParseAddress(claimed);
    var verdict := A.ValidateAccess(w, accessReq, ethAddr.value);
    if verdict.Err? {
      return Err(Denied(verdict.error));
    }
    var audience := req.audience;
    if |audience| == 0 {
      audience := DEFAULT_AUDIENCE;
    }
    var tok := SignPrivilegePayload(w, cfg, accessReq, audience, subject, now);
    MintedTokenWasChecked(w, cfg, claimed, license, req, given, now, tok);
    r := Ok(tok);
  }

  /** The asset a request is about: the one its DID names, or the token of the contract it gives. */
  ghost predicate IsAbout(cfg: Config, req: TokenRequest, asset: A.Asset) {
    if req.asset != "" then cfg.decode(req.asset) == Some(asset)
    else
      && ParseAddress(req.nftContractAddress).Some?
      && asset == A.Erc721(cfg.chainId, ParseAddress(req.nftContractAddress).value, req.tokenId)
  }

  lemma AssetIsRequested(cfg: Config, req: TokenRequest, asset: A.Asset)
    ensures AssetFromRequest(cfg, req) == Some(asset) <==> IsAbout(cfg, req, asset)
  {
  }

  /** The names asked for: the ones given, or those of the legacy ids in the table of the asset's contract. */
  ghost predicate AsksFor(w: A.World, asset: A.Asset, req: TokenRequest, names: seq<string>) {
    var table := if asset.contract == w.manufacturerContract then P.MANUFACTURER_PRIVILEGE_ID_TO_NAME
                 else P.PRIVILEGE_ID_TO_NAME;
    if req.permissions != [] then names == req.permissions
    else
      && |names| == |req.privileges|
      && forall i :: 0 <= i < |names| ==> req.privileges[i] in table && table[req.privileges[i]] == names[i]
  }

  lemma NamesAreAskedFor(w: A.World, asset: A.Asset, req: TokenRequest, names: seq<string>)
    ensures RequestedNames(w, asset, req) == Ok(names) <==> AsksFor(w, asset, req, names)
  {
    var table := A.TableFor(w, asset);
    P.UnknownOrAllKnown(table, req.privileges);
    if req.permissions == [] && AsksFor(w, asset, req, names) {
      assert P.NamesOf(table, req.privileges).value == names;
    }
  }

  /** The token is for the caller, about the asset of the request, for what it names and the defaulted
      events, which is something; and the caller passed the access check for exactly that. */
  ghost predicate CheckedFor(w: A.World, cfg: Config, req: TokenRequest, filters: seq<CE.EventFilter>,
                             tok: PermissionToken, caller: Address)
  {
    exists asset ::
      && IsAbout(cfg, req, asset)
      && AsksFor(w, asset, req, tok.permissions)
      && tok.asset == w.did(asset) && tok.contract == asset.contract
      && tok.tokenId == (if asset.Erc721? then Some(asset.tokenId) else None)
      && tok.events == CE.DefaultedAll(filters)
      && (tok.permissions != [] || tok.events != [])
      && A.ValidateAccess(w, A.Request(asset, tok.permissions, tok.events), caller).Ok?
      && tok.subject == AddressHex(w.casing, caller)
      && tok.audience == (if req.audience != [] then req.audience else ["dimo.zone"])
      && tok.issuer == cfg.issuer && tok.notBefore == tok.issuedAt && tok.expiresAt == tok.issuedAt + cfg.ttl
  }

  /** `CheckedFor` holds of whatever the exchange answers with. */
  lemma MintedTokenWasChecked(w: A.World, cfg: Config, claimed: string, license: Address -> Option<bool>,
                              req: TokenRequest, filters: seq<CE.EventFilter>, now: int, tok: PermissionToken)
    requires ExchangeResult(w, cfg, claimed, license, req, filters, now) == Ok(tok)
    ensures ParseAddress(claimed).Some? && license(ParseAddress(claimed).value) == Some(true)
    ensures CheckedFor(w, cfg, req, filters, tok, ParseAddress(claimed).value)
  {
    var asset := AssetFromRequest(cfg, req).value;
    AssetIsRequested(cfg, req, asset);
    NamesAreAskedFor(w, asset, req, tok.permissions);
  }

  /** A vehicle request made with legacy ids gets a token with those ids; a manufacturer's gets zeros. */
  lemma LegacyIDsInToken(w: A.World, cfg: Config, claimed: string, license: Address -> Option<bool>,
                         req: TokenRequest, filters: seq<CE.EventFilter>, now: int)
    requires ExchangeResult(w, cfg, claimed, license, req, filters, now).Ok? && req.permissions == []
    ensures var tok := ExchangeResult(w, cfg, claimed, license, req, filters, now).value;
            tok.privilegeIDs ==
            if tok.contract == w.manufacturerContract then seq(|req.privileges|, _ => 0) else req.privileges
  {
    var asset := AssetFromRequest(cfg, req).value;
    P.UnknownOrAllKnown(A.TableFor(w, asset), req.privileges);
    P.MintedIDsOfLegacyRequest(req.privileges);
  }

  /** One unknown id rejects the whole legacy request, whatever else it asks for. */
  lemma UnknownPrivilegeRejects(w: A.World, cfg: Config, req: TokenRequest, filters: seq<CE.EventFilter>)
    requires req.permissions == [] && AssetFromRequest(cfg, req).Some?
    ensures AccessRequestFor(w, cfg, req, filters).Ok? <==>
            forall i :: 0 <= i < |req.privileges| ==>
              req.privileges[i] in A.TableFor(w, AssetFromRequest(cfg, req).value)
  {
    P.UnknownOrAllKnown(A.TableFor(w, AssetFromRequest(cfg, req).value), req.privileges);
  }

  // ---------- The gRPC access check ----------

  datatype RpcEvent = RpcEvent(eventType: string, source: string, ids: seq<string>)

  datatype RpcReply = Failed | HasAccess | NoAccess(error: A.Error)

  function FromRpc(events: seq<RpcEvent>): (r: seq<CE.EventFilter>)
    ensures |r| == |events|
    ensures forall i :: 0 <= i < |r| ==>
              r[i] == CE.EventFilter(events[i].eventType, events[i].source, events[i].ids, [])
  {
    seq(|events|, i requires 0 <= i < |events| =>
      CE.EventFilter(events[i].eventType, events[i].source, events[i].ids, []))
  }

  /** `AccessCheck`; the grantee is None when it is the empty string. Its filters are not defaulted and have no tags. */
  method AccessCheck(w: A.World, cfg: Config, asset: string, permissions: seq<string>, events: seq<RpcEvent>,
                     grantee: Option<Address>)
    returns (reply: RpcReply)
    ensures reply == CheckReply(w, cfg, asset, permissions, events, grantee)
  {
    var assetDID := cfg.decode(asset);
    if assetDID.None? {
      return Failed;
    }
    var filters: seq<CE.EventFilter> := [];
    for i := 0 to |events|
      invariant filters == FromRpc(events)[..i]
    {
      var event := events[i];
      filters := filters + [CE.EventFilter(event.eventType, event.source, event.ids, [])];
    }
    assert filters == FromRpc(events);
    if grantee.None? {
      return Failed;
    }
    var verdict := A.ValidateAccess(w, A.Request(assetDID.value, permissions, filters), grantee.value);
    return if verdict.Ok? then HasAccess else NoAccess(verdict.error);
  }

  function CheckReply(w: A.World, cfg: Config, asset: string, permissions: seq<string>, events: seq<RpcEvent>,
                      grantee: Option<Address>): RpcReply
  {
    if cfg.decode(asset).None? || grantee.None? then Failed
    else
      match A.ValidateAccess(w, A.Request(cfg.decode(asset).value, permissions, FromRpc(events)), grantee.value)
      case Ok(_) => HasAccess
      case Err(e) => NoAccess(e)
  }

  /** For a licensed caller, HTTP mints exactly when the request is about an asset and asks for names, both
      readable, something is asked for, and access is granted on the defaulted filters. */
  lemma HttpVerdict(w: A.World, cfg: Config, caller: Address, license: Address -> Option<bool>,
                    req: TokenRequest, filters: seq<CE.EventFilter>, now: int)
    requires license(caller) == Some(true)
    ensures ExchangeResult(w, cfg, AddressHex(w.casing, caller), license, req, filters, now).Ok? <==>
            exists asset, names ::
              && IsAbout(cfg, req, asset) && AsksFor(w, asset, req, names)
              && (names != [] || filters != [])
              && A.ValidateAccess(w, A.Request(asset, names, CE.DefaultedAll(filters)), caller).Ok?
  {
    AddressRoundTrip(w.casing, caller);
    assert |CE.DefaultedAll(filters)| == |filters|;
    forall asset ensures AssetFromRequest(cfg, req) == Some(asset) <==> IsAbout(cfg, req, asset) {
      AssetIsRequested(cfg, req, asset);
    }
    if AssetFromRequest(cfg, req).Some? {
      var asset := AssetFromRequest(cfg, req).value;
      forall names ensures RequestedNames(w, asset, req) == Ok(names) <==> AsksFor(w, asset, req, names) {
        NamesAreAskedFor(w, asset, req, names);
      }
    }
  }

  /** On requests without tags the two surfaces decide alike, legacy ids counting as the permissions they
      name, with one exception: a request for nothing at all, which gRPC puts to the access check and HTTP
      turns away. */
  lemma SurfacesAgree(w: A.World, cfg: Config, caller: Address, license: Address -> Option<bool>,
                      req: TokenRequest, events: seq<RpcEvent>, now: int)
    requires req.asset != "" && license(caller) == Some(true)
    ensures ExchangeResult(w, cfg, AddressHex(w.casing, caller), license, req, FromRpc(events), now).Ok? <==>
            exists asset, names ::
              && cfg.decode(req.asset) == Some(asset) && AsksFor(w, asset, req, names)
              && (names != [] || events != [])
              && CheckReply(w, cfg, req.asset, names, events, Some(caller)) == HasAccess
  {
    var filters := FromRpc(events);
    HttpVerdict(w, cfg, caller, license, req, filters, now);
    forall asset, names | cfg.decode(req.asset) == Some(asset) && AsksFor(w, asset, req, names)
      ensures A.ValidateAccess(w, A.Request(asset, names, CE.DefaultedAll(filters)), caller).Ok? <==>
              CheckReply(w, cfg, req.asset, names, events, Some(caller)) == HasAccess
    {
      A.DefaultingKeepsDecision(w, A.Request(asset, names, filters), caller);
    }
  }

  lemma RequestReadable(w: A.World, cfg: Config, req: TokenRequest, filters: seq<CE.EventFilter>, asset: A.Asset)
    ensures var r := AccessRequestFor(w, cfg, req, filters);
            && (r == Err(BadAsset) <==> forall a :: !IsAbout(cfg, req, a))
            && (IsAbout(cfg, req, asset) ==>
                  && (r.Err? ==> r.error.UnknownPrivileges?)
                  && (r.Err? <==> forall names :: !AsksFor(w, asset, req, names))
                  && (r.Ok? ==> AsksFor(w, asset, req, r.value.permissions) && r.value.filters == filters))
  {
    forall a ensures AssetFromRequest(cfg, req) == Some(a) <==> IsAbout(cfg, req, a) {
      AssetIsRequested(cfg, req, a);
    }
    forall names ensures RequestedNames(w, asset, req) == Ok(names) <==> AsksFor(w, asset, req, names) {
      NamesAreAskedFor(w, asset, req, names);
    }
    if AssetFromRequest(cfg, req).Some? {
      assert IsAbout(cfg, req, AssetFromRequest(cfg, req).value);
    }
    if RequestedNames(w, asset, req).Ok? {
      assert AsksFor(w, asset, req, RequestedNames(w, asset, req).value);
    }
  }

  lemma AsksForOne(w: A.World, asset: A.Asset, req: TokenRequest, names: seq<string>, other: seq<string>)
    requires AsksFor(w, asset, req, names) && AsksFor(w, asset, req, other)
    ensures names == other
  {
  }

  /** Why HTTP turns a request away before access is decided: the first of these reasons that applies. */
  lemma RefusalsExactly(w: A.World, cfg: Config, claimed: string, license: Address -> Option<bool>,
                        req: TokenRequest, filters: seq<CE.EventFilter>, now: int, asset: A.Asset)
    ensures var r := ExchangeResult(w, cfg, claimed, license, req, filters, now);
            if ParseAddress(claimed).None? then r == Err(NoAddress)
            else if license(ParseAddress(claimed).value).None? then r == Err(LicenseUnavailable)
            else if license(ParseAddress(claimed).value) == Some(false) then r == Err(NotDevLicense)
            else if forall a :: !IsAbout(cfg, req, a) then r == Err(BadAsset)
            else IsAbout(cfg, req, asset) ==>
              if forall names :: !AsksFor(w, asset, req, names) then r.Err? && r.error.UnknownPrivileges?
              else if AsksFor(w, asset, req, []) && filters == [] then r == Err(NothingRequested)
              else r.Ok? || r.error.Denied?
  {
    var all := CE.DefaultedAll(filters);
    assert |all| == |filters|;
    RequestReadable(w, cfg, req, all, asset);
    var r := AccessRequestFor(w, cfg, req, all);
    if r.Ok? && AsksFor(w, asset, req, []) && AsksFor(w, asset, req, r.value.permissions) {
      AsksForOne(w, asset, req, r.value.permissions, []);
    }
  }

  /** The ids reported as unknown are those not in the table of the asset's contract, in order. */
  lemma UnknownReported(w: A.World, asset: A.Asset, req: TokenRequest)
    requires RequestedNames(w, asset, req).Err?
    ensures RequestedNames(w, asset, req).error == Lists.Keep(P.NotKey(A.TableFor(w, asset)), req.privileges)
  {
    P.UnknownKept(A.TableFor(w, asset), req.privileges);
  }

  /** gRPC fails exactly without an asset or a grantee; otherwise it answers with the decision, and its error. */
  lemma RpcVerdict(w: A.World, cfg: Config, asset: string, permissions: seq<string>, events: seq<RpcEvent>,
                   grantee: Option<Address>)
    ensures var reply := CheckReply(w, cfg, asset, permissions, events, grantee);
            if cfg.decode(asset).None? || grantee.None? then reply == Failed
            else
              var req := A.Request(cfg.decode(asset).value, permissions, FromRpc(events));
              var verdict := A.ValidateAccess(w, req, grantee.value);
              if verdict.Ok? then reply == HasAccess else reply == NoAccess(verdict.error)
  {
  }
}
