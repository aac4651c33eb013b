/** Both surfaces in one run: every permission token goes back to a redeemed challenge. */
module EndToEnd {
  import opened Text
  import S = SignIn
  import A = Access
  import X = Exchange
  import CE = CloudEvents

  /** One call of the exchange: its settings, its view of the outside, and what it was sent. */
  datatype Call = Call(
    world: A.World, cfg: X.Config, bearer: S.Claims, license: Address -> Option<bool>,
    req: X.TokenRequest, filters: seq<CE.EventFilter>)

  /** A permission token, the call that minted it and the moment. */
  datatype Minted = Minted(token: X.PermissionToken, call: Call, at: int)

  datatype State = State(signIn: S.State, minted: seq<Minted>)

  datatype Step = SignInStep(step: S.Step) | ExchangeStep(call: Call)

  ghost predicate Initial(s: State) { S.Initial(s.signIn) && s.minted == [] }

  /** Sign-in signatures cannot be forged and the sign-in keys sign nothing else, so a bearer token that
      verifies was issued in this run; an expired one is turned away. */
  ghost predicate Authentic(s: S.State, bearer: S.Claims) {
    s.now < bearer.expiresAt && exists q :: 0 <= q < |s.tokens| && s.tokens[q].claims == bearer
  }

  function Answer(c: Call, now: int): Result<X.PermissionToken, X.HttpError> {
    X.ExchangeResult(c.world, c.cfg, c.bearer.ethereumAddress, c.license, c.req, c.filters, now)
  }

  ghost function Next(w: S.World, s: State, step: Step): State {
    match step
    case SignInStep(inner) => s.(signIn := S.Next(w, s.signIn, inner))
    case ExchangeStep(c) =>
      if !Authentic(s.signIn, c.bearer) || c.world.casing != w.printer.casing then s
      else
        match Answer(c, s.signIn.now)
        case Err(_) => s
        case Ok(token) => s.(minted := s.minted + [Minted(token, c, s.signIn.now)])
  }

  ghost function Execute(w: S.World, s: State, steps: seq<Step>): State
    decreases |steps|
  {
    if steps == [] then s else Execute(w, Next(w, s, steps[0]), steps[1..])
  }

  ghost predicate Backed(w: S.World, s: S.State, m: Minted, q: nat) {
    && q < |s.tokens| && s.tokens[q].claims == m.call.bearer
    && m.at <= s.now && s.tokens[q].claims.issuedAt <= m.at < s.tokens[q].claims.expiresAt
    && m.call.world.casing == w.printer.casing
    && Answer(m.call, m.at) == Ok(m.token)
  }

  ghost predicate HasBearer(w: S.World, s: S.State, m: Minted) {
    exists q :: Backed(w, s, m, q)
  }

  ghost predicate AllBacked(w: S.World, s: S.State, minted: seq<Minted>) {
    forall i :: 0 <= i < |minted| ==> HasBearer(w, s, minted[i])
  }

  ghost predicate Inv(w: S.World, s: State) { S.Inv(w, s.signIn) && AllBacked(w, s.signIn, s.minted) }

  /** Sign-in tokens and the clock only ever grow. */
  lemma TokensAppendOnly(w: S.World, s: S.State, step: S.Step)
    ensures var s' := S.Next(w, s, step);
            s.now <= s'.now && |s.tokens| <= |s'.tokens| && s'.tokens[..|s.tokens|] == s.tokens
  {
  }

  lemma BackedPersists(w: S.World, s: S.State, s': S.State, m: Minted, q: nat)
    requires Backed(w, s, m, q)
    requires s.now <= s'.now && |s.tokens| <= |s'.tokens| && s'.tokens[..|s.tokens|] == s.tokens
    ensures Backed(w, s', m, q)
  {
    assert s'.tokens[q] == s'.tokens[..|s.tokens|][q];
  }

  lemma MintBacked(w: S.World, s: State, c: Call, token: X.PermissionToken)
    requires S.Inv(w, s.signIn) && Authentic(s.signIn, c.bearer) && c.world.casing == w.printer.casing
    requires Answer(c, s.signIn.now) == Ok(token)
    ensures HasBearer(w, s.signIn, Minted(token, c, s.signIn.now))
  {
    var q :| 0 <= q < |s.signIn.tokens| && s.signIn.tokens[q].claims == c.bearer;
    assert S.TokenOk(w, s.signIn, s.signIn.tokens[q]);
    assert Backed(w, s.signIn, Minted(token, c, s.signIn.now), q);
  }

  lemma SignInKeepsInv(w: S.World, s: State, inner: S.Step)
    requires Inv(w, s)
    ensures Inv(w, s.(signIn := S.Next(w, s.signIn, inner)))
  {
    var next := S.Next(w, s.signIn, inner);
    S.NextKeepsInv(w, s.signIn, inner);
    TokensAppendOnly(w, s.signIn, inner);
    forall i | 0 <= i < |s.minted| ensures HasBearer(w, next, s.minted[i]) {
      assert HasBearer(w, s.signIn, s.minted[i]);
      var q :| Backed(w, s.signIn, s.minted[i], q);
      BackedPersists(w, s.signIn, next, s.minted[i], q);
    }
  }

  lemma MintKeepsInv(w: S.World, s: State, m: Minted)
    requires Inv(w, s) && HasBearer(w, s.signIn, m)
    ensures Inv(w, s.(minted := s.minted + [m]))
  {
    var minted := s.minted + [m];
    forall i | 0 <= i < |minted| ensures HasBearer(w, s.signIn, minted[i]) {
      if i < |s.minted| {
        assert minted[i] == s.minted[i];
      } else {
        assert minted[i] == m;
      }
    }
  }

  lemma NextKeepsInv(w: S.World, s: State, step: Step)
    requires Inv(w, s)
    ensures Inv(w, Next(w, s, step))
  {
    match step {
      case SignInStep(inner) => SignInKeepsInv(w, s, inner);
      case ExchangeStep(c) =>
        if Authentic(s.signIn, c.bearer) && c.world.casing == w.printer.casing {
          var r := Answer(c, s.signIn.now);
          if r.Ok? {
            MintBacked(w, s, c, r.value);
            MintKeepsInv(w, s, Minted(r.value, c, s.signIn.now));
          }
        }
    }
  }

  lemma {:induction false} ExecuteKeepsInv(w: S.World, s: State, steps: seq<Step>)
    requires Inv(w, s)
    ensures Inv(w, Execute(w, s, steps))
    decreases |steps|
  {
    if steps != [] {
      NextKeepsInv(w, s, steps[0]);
      ExecuteKeepsInv(w, Next(w, s, steps[0]), steps[1..]);
    }
  }

  /** The bearer behind a minted token, traced to the address that redeemed a challenge, which is the
      subject and the address whose access check passed. */
  ghost predicate SubjectProven(w: S.World, s: State, m: Minted, q: nat) {
    && q < |s.signIn.tokens|
    && S.Traced(w, s.signIn, s.signIn.tokens[q])
    && s.signIn.tokens[q].claims.issuedAt <= m.at < s.signIn.tokens[q].claims.expiresAt
    && m.token.subject == s.signIn.tokens[q].claims.subject
    && X.CheckedFor(m.call.world, m.call.cfg, m.call.req, m.call.filters, m.token, Redeemer(s.signIn, q))
  }

  /** The address that redeemed the challenge behind sign-in token q. */
  function Redeemer(s: S.State, q: nat): Address
    requires q < |s.tokens| && s.tokens[q].redemption < |s.redemptions|
    requires s.redemptions[s.tokens[q].redemption].origin < |s.requests|
  {
    s.requests[s.redemptions[s.tokens[q].redemption].origin].address
  }

  lemma BackedIsProven(w: S.World, s: State, m: Minted, q: nat)
    requires S.Inv(w, s.signIn) && Backed(w, s.signIn, m, q)
    ensures SubjectProven(w, s, m, q)
  {
    S.TokenIsTraced(w, s.signIn, q);
    var caller := Redeemer(s.signIn, q);
    AddressRoundTrip(w.printer.casing, caller);
    assert ParseAddress(m.call.bearer.ethereumAddress) == Some(caller);
    X.MintedTokenWasChecked(m.call.world, m.call.cfg, m.call.bearer.ethereumAddress, m.call.license,
                            m.call.req, m.call.filters, m.at, m.token);
  }

  /** In every run of both surfaces, every minted permission token's subject redeemed a challenge earlier
      in the run, by a valid signature, and passed the access check for what the token carries. */
  lemma EveryPermissionTokenProven(w: S.World, s0: State, steps: seq<Step>, i: nat)
    requires Initial(s0) && i < |Execute(w, s0, steps).minted|
    ensures exists q :: SubjectProven(w, Execute(w, s0, steps), Execute(w, s0, steps).minted[i], q)
  {
    S.InitialInv(w, s0.signIn);
    ExecuteKeepsInv(w, s0, steps);
    var s := Execute(w, s0, steps);
    assert HasBearer(w, s.signIn, s.minted[i]);
    var q :| Backed(w, s.signIn, s.minted[i], q);
    BackedIsProven(w, s, s.minted[i], q);
  }

  /** The call is about an asset and asks for names and events, at least one, that this address may have. */
  ghost predicate MayHave(c: Call, caller: Address) {
    exists asset, names ::
      && X.IsAbout(c.cfg, c.req, asset) && X.AsksFor(c.world, asset, c.req, names)
      && (names != [] || c.filters != [])
      && A.ValidateAccess(c.world, A.Request(asset, names, CE.DefaultedAll(c.filters)), caller).Ok?
  }

  lemma AnsweredExactly(c: Call, caller: Address, now: int)
    requires c.bearer.ethereumAddress == AddressHex(c.world.casing, caller) && c.license(caller) == Some(true)
    ensures Answer(c, now).Ok? <==> MayHave(c, caller)
  {
    X.HttpVerdict(c.world, c.cfg, caller, c.license, c.req, c.filters, now);
  }

  lemma ExchangeStepMints(w: S.World, s: State, c: Call)
    requires Authentic(s.signIn, c.bearer) && c.world.casing == w.printer.casing
    ensures |Next(w, s, ExchangeStep(c)).minted| == |s.minted| + (if Answer(c, s.signIn.now).Ok? then 1 else 0)
  {
  }

  /** The bearer of an issued, unexpired sign-in token with a developer license gets a permission token exactly
      when the address behind it may have what is asked. */
  lemma BearerIsServed(w: S.World, s: State, c: Call, q: nat)
    requires q < |s.signIn.tokens| && c.bearer == s.signIn.tokens[q].claims
    requires s.signIn.now < c.bearer.expiresAt && c.world.casing == w.printer.casing
    requires S.Traced(w, s.signIn, s.signIn.tokens[q]) && c.license(Redeemer(s.signIn, q)) == Some(true)
    ensures |Next(w, s, ExchangeStep(c)).minted| ==
            |s.minted| + (if MayHave(c, Redeemer(s.signIn, q)) then 1 else 0)
  {
    assert Authentic(s.signIn, c.bearer);
    AnsweredExactly(c, Redeemer(s.signIn, q), s.signIn.now);
    ExchangeStepMints(w, s, c);
  }
}
