/** The stateless OAuth flow of the MCP endpoint.  Client ids, sign-in tickets,
    codes and tokens are signed claims; the server keeps no table of them.

    Signing is symbolic: a request may carry any text, but a signed text passes
    verification only if the server signed those very claims earlier.  S256 is an
    injective term (section 4.6 of RFC 7636). */
module McpOauth {
  import opened Wrappers

  type ProfileId = string

  const ACCESS_TTL := 3600
  const REFRESH_TTL := 30 * 24 * 3600
  const CODE_TTL := 300
  const CLIENT_TTL := 10 * 365 * 24 * 3600
  const WEB_TTL := 7 * 24 * 3600

  datatype Url = Url(scheme: string, host: string, port: Option<nat>, path: string, rest: string)

  datatype Challenge = S256(verifier: string) | Opaque(text: string)

  datatype Typ = McpClient | McpLogin | McpCode | McpAccess | McpRefresh

  /** The sets of claims the backend signs, all with the same secret. */
  datatype Claims =
    | Client(redirectUris: seq<Url>)
    | Login(sub: ProfileId)
    | Code(sub: ProfileId, cid: Text, ru: Url, cc: Challenge)
    | Access(sub: ProfileId)
    | Refresh(sub: ProfileId, cid: Text)
    | WebLogin(name: string, profileId: ProfileId)

  /** The `typ` claim, which a web login lacks. */
  function TypOf(c: Claims): Option<Typ> {
    match c
    case Client(_) => Some(McpClient)
    case Login(_) => Some(McpLogin)
    case Code(_, _, _, _) => Some(McpCode)
    case Access(_) => Some(McpAccess)
    case Refresh(_, _) => Some(McpRefresh)
    case WebLogin(_, _) => None
  }

  /** The `profile_id` claim, which only a web login has. */
  function ProfileIdOf(c: Claims): Option<ProfileId> {
    match c
    case WebLogin(_, id) => Some(id)
    case _ => None
  }

  datatype Token = Token(claims: Claims, iat: int, exp: int)

  /** Text as a request presents it. */
  datatype Text = Jwt(token: Token) | Plain(text: string)

  function Ttl(c: Claims): int {
    match c
    case Client(_) => CLIENT_TTL
    case Login(_) => CODE_TTL
    case Code(_, _, _, _) => CODE_TTL
    case Access(_) => ACCESS_TTL
    case Refresh(_, _) => REFRESH_TTL
    case WebLogin(_, _) => WEB_TTL
  }

  // ---- who is who, as the database answers at the time of a request ----

  datatype Agent = Agent(id: ProfileId, name: string)
  datatype Profile = Profile(admin: bool, org: string)
  datatype Directory = Directory(profiles: map<ProfileId, Profile>, agents: map<string, seq<Agent>>)

  /** The agent identities a profile may connect as: admins only, of their own organisation. */
  function AgentIdentities(d: Directory, user: ProfileId): seq<Agent> {
    if user in d.profiles && d.profiles[user].admin && d.profiles[user].org in d.agents
    then d.agents[d.profiles[user].org] else []
  }

  function AgentNamed(agents: seq<Agent>, name: string): (r: Option<ProfileId>)
    ensures r.Some? ==> exists a :: a in agents && a.id == r.value && a.name == name
  {
    if agents == [] then None
    else if agents[0].name == name then assert agents[0] in agents; Some(agents[0].id)
    else AgentNamed(agents[1..], name)
  }

  predicate MayActAs(d: Directory, user: ProfileId, identity: ProfileId) {
    identity == user || exists a :: a in AgentIdentities(d, user) && a.id == identity
  }

  // ---- requests ----

  /** The authorize parameters; `wanted` is the agent named by the resource link,
      `metadata` the redirect list a client's document answers with, if any. */
  datatype Form = Form(clientId: Text, redirect: Url, responseType: string, challenge: Challenge,
                       challengeMethod: string, wanted: string, metadata: Option<seq<Url>>)

  datatype Request =
    | Register(uris: seq<Url>)
    | WebSignIn(name: string, user: ProfileId)               // the backend signs a web login for this user
    | Authorize(form: Form, authenticated: Option<ProfileId>) // password form; the user whose password was right
    | Handoff(form: Form, originOk: bool, web: Text)          // sign-in from the web app
    | Pick(form: Form, login: Text, identity: ProfileId)      // choice on the picker page
    | Redeem(code: Text, clientId: Text, redirect: Url, verifier: string)
    | Renew(refresh: Text, maybeClient: Option<Text>)
    | SetClock(now: int)
    | SetDirectory(directory: Directory)

  datatype Response =
    | Done | Refused | LoginPage
    | Picker(login: Token)
    | Redirect(code: Token)
    | Tokens(access: Token, refresh: Token)
    | ClientId(client: Token)

  /** How the server knew the user when it issued a code or a picker page. */
  datatype Proof = ByPassword | ByHandoff(web: Token) | ByPick(login: Token)

  datatype Event =
    | SignedInOnWeb(web: Token, user: ProfileId)
    | Registered(client: Token)
    | ShowedPicker(login: Token, user: ProfileId, proof: Proof)
    | IssuedCode(code: Token, user: ProfileId, proof: Proof, directory: Directory, rule: Option<RedirectRule>)
    | Redeemed(code: Token, clientId: Text, redirect: Url, verifier: string, at: int, access: Token, refresh: Token)
    | Renewed(before: Token, at: int, access: Token, refresh: Token)

  datatype State = State(now: int, directory: Directory, issued: set<Token>, log: seq<Event>)

  // ---- verification ----

  /** Signature and lifetime, whatever the text was signed for. */
  function Decode(s: State, t: Text): Option<Token> {
    if t.Jwt? && t.token in s.issued && s.now < t.token.exp then Some(t.token) else None
  }

  function Verify(s: State, t: Text, typ: Typ): Option<Token> {
    var v := Decode(s, t);
    if v.Some? && TypOf(v.value.claims) == Some(typ) then v else None
  }

  function Sign(s: State, c: Claims): Token { Token(c, s.now, s.now + Ttl(c)) }

  /** Where a client's codes may be sent. */
  datatype RedirectRule = RedirectRule(uris: seq<Url>, loopbackAnyPort: bool)

  function ClientOf(s: State, f: Form): Option<RedirectRule> {
    var signed := Verify(s, f.clientId, McpClient);
    if signed.Some? then Some(RedirectRule(signed.value.claims.redirectUris, false))
    else if f.clientId.Plain? && f.metadata.Some? && |f.metadata.value| <= 20 then
      Some(RedirectRule(f.metadata.value, true))
    else None
  }

  predicate Loopback(u: Url) {
    u.scheme == "http" && (u.host == "localhost" || u.host == "127.0.0.1" || u.host == "::1")
  }

  predicate RedirectOk(c: RedirectRule, u: Url) {
    u in c.uris || (c.loopbackAnyPort && Loopback(u) && exists r :: r in c.uris && Loopback(r) && r.path == u.path)
  }

  predicate ValidForm(s: State, f: Form) {
    && ClientOf(s, f).Some? && RedirectOk(ClientOf(s, f).value, f.redirect)
    && f.responseType == "code"
    && f.challenge != Opaque("") && f.challengeMethod == "S256"
  }

  // ---- transitions ----

  function Issue(s: State, tokens: set<Token>, e: Event): State {
    s.(issued := s.issued + tokens, log := s.log + [e])
  }

  function SendCode(s: State, f: Form, user: ProfileId, proof: Proof, identity: ProfileId): (State, Response) {
    var code := Sign(s, Code(identity, f.clientId, f.redirect, f.challenge));
    (Issue(s, {code}, IssuedCode(code, user, proof, s.directory, ClientOf(s, f))), Redirect(code))
  }

  function AfterSignIn(s: State, f: Form, user: ProfileId, proof: Proof): (State, Response) {
    var agents := AgentIdentities(s.directory, user);
    if f.wanted != "" then
      var agent := AgentNamed(agents, f.wanted);
      if agent.None? then (s, LoginPage) else SendCode(s, f, user, proof, agent.value)
    else if agents != [] then
      var login := Sign(s, Login(user));
      (Issue(s, {login}, ShowedPicker(login, user, proof)), Picker(login))
    else SendCode(s, f, user, proof, user)
  }

  function GiveTokens(s: State, sub: ProfileId, cid: Text): (Token, Token) {
    (Sign(s, Access(sub)), Sign(s, Refresh(sub, cid)))
  }

  function RedeemStep(s: State, code: Text, clientId: Text, redirect: Url, verifier: string): (State, Response) {
    var t := Verify(s, code, McpCode);
    if t.None? then (s, Refused)
    else
      var c := t.value.claims;
      if c.cid != clientId || c.ru != redirect then (s, Refused)
      else if S256(verifier) != c.cc then (s, Refused)
      else if c.sub !in s.directory.profiles then (s, Refused)
      else
        var (access, refresh) := GiveTokens(s, c.sub, c.cid);
        (Issue(s, {access, refresh}, Redeemed(t.value, clientId, redirect, verifier, s.now, access, refresh)),
         Tokens(access, refresh))
  }

  function RenewStep(s: State, refresh: Text, clientId: Option<Text>): (State, Response) {
    var t := Verify(s, refresh, McpRefresh);
    if t.None? then (s, Refused)
    else
      var c := t.value.claims;
      if clientId.Some? && clientId.value != Plain("") && clientId.value != c.cid then (s, Refused)
      else if c.sub !in s.directory.profiles then (s, Refused)
      else
        var (access, next) := GiveTokens(s, c.sub, c.cid);
        (Issue(s, {access, next}, Renewed(t.value, s.now, access, next)), Tokens(access, next))
  }

  function Serve(s: State, q: Request): (State, Response) {
    match q
    case Register(uris) =>
      if uris == [] then (s, Refused)
      else
        var client := Sign(s, Client(uris));
        (Issue(s, {client}, Registered(client)), ClientId(client))
    case WebSignIn(name, user) =>
      var web := Sign(s, WebLogin(name, user));
      (Issue(s, {web}, SignedInOnWeb(web, user)), Done)
    case Authorize(form, user) =>
      if !ValidForm(s, form) then (s, Refused)
      else if user.None? || user.value !in s.directory.profiles then (s, LoginPage)
      else AfterSignIn(s, form, user.value, ByPassword)
    case Handoff(form, originOk, web) =>
      var t := Decode(s, web);
      var user := if t.Some? then ProfileIdOf(t.value.claims) else None;
      if !originOk || !ValidForm(s, form) then (s, Refused)
      else if user.None? || user.value == "" || user.value !in s.directory.profiles then (s, LoginPage)
      else AfterSignIn(s, form, user.value, ByHandoff(t.value))
    case Pick(form, login, identity) =>
      var t := Verify(s, login, McpLogin);
      if !ValidForm(s, form) then (s, Refused)
      else if t.None? || t.value.claims.sub !in s.directory.profiles then (s, Refused)
      else if !MayActAs(s.directory, t.value.claims.sub, identity) then (s, Refused)
      else SendCode(s, form, t.value.claims.sub, ByPick(t.value), identity)
    case Redeem(code, clientId, redirect, verifier) => RedeemStep(s, code, clientId, redirect, verifier)
    case Renew(refresh, clientId) => RenewStep(s, refresh, clientId)
    case SetClock(now) => (s.(now := now), Done)
    case SetDirectory(d) => (s.(directory := d), Done)
  }

  const START := State(0, Directory(map[], map[]), {}, [])

  function Run(qs: seq<Request>): State {
    if qs == [] then START else Serve(Run(qs[..|qs| - 1]), qs[|qs| - 1]).0
  }

  /** The identity a bearer of this text acts as. */
  function ActsAs(s: State, t: Text): Option<ProfileId> {
    var v := Verify(s, t, McpAccess);
    if v.Some? && v.value.claims.sub in s.directory.profiles then Some(v.value.claims.sub) else None
  }

  // ---- where tokens come from ----

  /** The first n events account for the user being signed in by `proof`. */
  ghost predicate SignInProved(log: seq<Event>, n: nat, user: ProfileId, proof: Proof)
    decreases n, 1
  {
    match proof
    case ByPassword => true
    case ByHandoff(web) => ProfileIdOf(web.claims) == Some(user) && Justified(log, n, web)
    case ByPick(login) => login.claims == Login(user) && Justified(log, n, login)
  }

  /** Event i issued the token, and everything it relied on is accounted for by earlier events. */
  ghost predicate Produced(log: seq<Event>, i: nat, t: Token)
    requires i < |log|
    decreases i, 2
  {
    match log[i]
    case SignedInOnWeb(web, user) => t == web && ProfileIdOf(t.claims) == Some(user)
    case Registered(client) => t == client && t.claims.Client?
    case ShowedPicker(login, user, proof) => t == login && t.claims == Login(user) && SignInProved(log, i, user, proof)
    case IssuedCode(code, user, proof, d, client) =>
      && t == code && t.claims.Code? && SignInProved(log, i, user, proof)
      && MayActAs(d, user, t.claims.sub)
      && client.Some? && RedirectOk(client.value, t.claims.ru)
    case Redeemed(code, clientId, redirect, verifier, at, access, refresh) =>
      && code.claims.Code? && Justified(log, i, code)
      && at < code.exp
      && code.claims.cid == clientId && code.claims.ru == redirect && code.claims.cc == S256(verifier)
      && (t == access || t == refresh)
      && (t.claims == Access(code.claims.sub) || t.claims == Refresh(code.claims.sub, code.claims.cid))
    case Renewed(before, at, access, refresh) =>
      && before.claims.Refresh? && Justified(log, i, before)
      && at < before.exp
      && (t == access || t == refresh)
      && (t.claims == Access(before.claims.sub) || t.claims == before.claims)
  }

  ghost predicate Justified(log: seq<Event>, n: nat, t: Token)
    decreases n, 0
  {
    exists i: nat :: i < n && i < |log| && Produced(log, i, t)
  }

  // ---- the account stays valid as the log grows ----

  lemma {:induction false} ProducedAppend(log: seq<Event>, e: Event, i: nat, t: Token)
    requires i < |log| && Produced(log, i, t)
    ensures Produced(log + [e], i, t)
    decreases i, 4
  {
    var after := log + [e];
    assert after[i] == log[i];
    match log[i]
    case ShowedPicker(login, user, proof) => SignInAppend(log, e, i, user, proof);
    case IssuedCode(code, user, proof, d, client) => SignInAppend(log, e, i, user, proof);
    case Redeemed(code, _, _, _, _, _, _) => JustifiedAppend(log, e, i, i, code);
    case Renewed(before, _, _, _) => JustifiedAppend(log, e, i, i, before);
    case _ =>
  }

  lemma {:induction false} SignInAppend(log: seq<Event>, e: Event, n: nat, user: ProfileId, proof: Proof)
    requires SignInProved(log, n, user, proof)
    ensures SignInProved(log + [e], n, user, proof)
    decreases n, 3
  {
    if proof.ByHandoff? { JustifiedAppend(log, e, n, n, proof.web); }
    if proof.ByPick? { JustifiedAppend(log, e, n, n, proof.login); }
  }

  lemma {:induction false} JustifiedAppend(log: seq<Event>, e: Event, m: nat, n: nat, t: Token)
    requires m <= n && Justified(log, m, t)
    ensures Justified(log + [e], n, t)
    decreases m, 2
  {
    var i: nat :| i < m && i < |log| && Produced(log, i, t);
    ProducedAppend(log, e, i, t);
  }

  // ---- every token in circulation is accounted for ----

  ghost predicate AllJustified(s: State) {
    forall t :: t in s.issued ==> Justified(s.log, |s.log|, t) && t.exp == t.iat + Ttl(t.claims)
  }

  lemma IssueJustified(s: State, tokens: set<Token>, e: Event)
    requires AllJustified(s)
    requires forall t :: t in tokens ==> Produced(s.log + [e], |s.log|, t) && t.exp == t.iat + Ttl(t.claims)
    ensures AllJustified(Issue(s, tokens, e))
  {
    var after := Issue(s, tokens, e);
    forall t | t in after.issued ensures Justified(after.log, |after.log|, t) {
      if t in tokens {
        assert Produced(after.log, |s.log|, t);
      } else {
        JustifiedAppend(s.log, e, |s.log|, |after.log|, t);
      }
    }
  }

  /** A presented text that verifies is one of the justified tokens. */
  lemma VerifiedJustified(s: State, t: Text, e: Event)
    requires AllJustified(s) && Decode(s, t).Some?
    ensures Justified(s.log + [e], |s.log|, Decode(s, t).value)
  {
    JustifiedAppend(s.log, e, |s.log|, |s.log|, Decode(s, t).value);
  }

  lemma SendCodeJustified(s: State, f: Form, user: ProfileId, proof: Proof, identity: ProfileId)
    requires AllJustified(s) && ValidForm(s, f) && SignInProved(s.log, |s.log|, user, proof)
    requires MayActAs(s.directory, user, identity)
    ensures AllJustified(SendCode(s, f, user, proof, identity).0)
  {
    var code := Sign(s, Code(identity, f.clientId, f.redirect, f.challenge));
    var e := IssuedCode(code, user, proof, s.directory, ClientOf(s, f));
    SignInAppend(s.log, e, |s.log|, user, proof);
    assert Produced(s.log + [e], |s.log|, code);
    IssueJustified(s, {code}, e);
  }

  lemma AfterSignInJustified(s: State, f: Form, user: ProfileId, proof: Proof)
    requires AllJustified(s) && ValidForm(s, f) && SignInProved(s.log, |s.log|, user, proof)
    ensures AllJustified(AfterSignIn(s, f, user, proof).0)
  {
    var agents := AgentIdentities(s.directory, user);
    if f.wanted != "" {
      if AgentNamed(agents, f.wanted).Some? {
        SendCodeJustified(s, f, user, proof, AgentNamed(agents, f.wanted).value);
      }
    } else if agents != [] {
      var login := Sign(s, Login(user));
      var e := ShowedPicker(login, user, proof);
      SignInAppend(s.log, e, |s.log|, user, proof);
      assert Produced(s.log + [e], |s.log|, login);
      IssueJustified(s, {login}, e);
    } else {
      SendCodeJustified(s, f, user, proof, user);
    }
  }

  lemma RedeemJustified(s: State, code: Text, clientId: Text, redirect: Url, verifier: string)
    requires AllJustified(s)
    ensures AllJustified(RedeemStep(s, code, clientId, redirect, verifier).0)
  {
    var (after, r) := RedeemStep(s, code, clientId, redirect, verifier);
    if r.Tokens? {
      var t := Verify(s, code, McpCode).value;
      var e := Redeemed(t, clientId, redirect, verifier, s.now, r.access, r.refresh);
      VerifiedJustified(s, code, e);
      assert Produced(s.log + [e], |s.log|, r.access) && Produced(s.log + [e], |s.log|, r.refresh);
      IssueJustified(s, {r.access, r.refresh}, e);
    }
  }

  lemma RenewJustified(s: State, refresh: Text, clientId: Option<Text>)
    requires AllJustified(s)
    ensures AllJustified(RenewStep(s, refresh, clientId).0)
  {
    var (after, r) := RenewStep(s, refresh, clientId);
    if r.Tokens? {
      var t := Verify(s, refresh, McpRefresh).value;
      var e := Renewed(t, s.now, r.access, r.refresh);
      VerifiedJustified(s, refresh, e);
      assert Produced(s.log + [e], |s.log|, r.access) && Produced(s.log + [e], |s.log|, r.refresh);
      IssueJustified(s, {r.access, r.refresh}, e);
    }
  }

  lemma ServeJustified(s: State, q: Request)
    requires AllJustified(s)
    ensures AllJustified(Serve(s, q).0)
  {
    match q
    case Register(uris) =>
      if uris != [] {
        var client := Sign(s, Client(uris));
        assert Produced(s.log + [Registered(client)], |s.log|, client);
        IssueJustified(s, {client}, Registered(client));
      }
    case WebSignIn(name, user) =>
      var web := Sign(s, WebLogin(name, user));
      assert Produced(s.log + [SignedInOnWeb(web, user)], |s.log|, web);
      IssueJustified(s, {web}, SignedInOnWeb(web, user));
    case Authorize(form, user) =>
      if ValidForm(s, form) && user.Some? { AfterSignInJustified(s, form, user.value, ByPassword); }
    case Handoff(form, originOk, web) =>
      var t := Decode(s, web);
      if ValidForm(s, form) && t.Some? && ProfileIdOf(t.value.claims).Some? {
        AfterSignInJustified(s, form, ProfileIdOf(t.value.claims).value, ByHandoff(t.value));
      }
    case Pick(form, login, identity) =>
      var t := Verify(s, login, McpLogin);
      if ValidForm(s, form) && t.Some? && MayActAs(s.directory, t.value.claims.sub, identity) {
        SendCodeJustified(s, form, t.value.claims.sub, ByPick(t.value), identity);
      }
    case Redeem(code, clientId, redirect, verifier) => RedeemJustified(s, code, clientId, redirect, verifier);
    case Renew(refresh, clientId) => RenewJustified(s, refresh, clientId);
    case _ =>
  }

  lemma {:induction false} RunJustified(qs: seq<Request>)
    ensures AllJustified(Run(qs))
    decreases |qs|
  {
    if qs != [] {
      RunJustified(qs[..|qs| - 1]);
      ServeJustified(Run(qs[..|qs| - 1]), qs[|qs| - 1]);
    }
  }

  // ---- what a bearer token proves ----

  /** Event i issued a code for x to a user who might act as x, and event j
      redeemed that very code with its own client, redirect and verifier. */
  ghost predicate Descent(log: seq<Event>, i: nat, j: nat, x: ProfileId) {
    && i < |log| && j < |log| && i < j
    && log[i].IssuedCode? && log[i].code.claims.Code? && log[i].code.claims.sub == x
    && MayActAs(log[i].directory, log[i].user, x)
    && SignInProved(log, i, log[i].user, log[i].proof)
    && log[i].rule.Some? && RedirectOk(log[i].rule.value, log[i].code.claims.ru)
    && log[j].Redeemed? && log[j].code == log[i].code && log[j].at < log[i].code.exp
    && log[j].clientId == log[i].code.claims.cid && log[j].redirect == log[i].code.claims.ru
    && S256(log[j].verifier) == log[i].code.claims.cc
  }

  /** Event k handed out t: the redemption j itself, or a renewal, in time, of a
      refresh token that goes back to it. */
  ghost predicate HandedOut(log: seq<Event>, k: nat, t: Token, j: nat)
    requires k < |log|
    decreases k, 1
  {
    match log[k]
    case Redeemed(_, _, _, _, _, access, refresh) => k == j && (t == access || t == refresh)
    case Renewed(before, at, access, refresh) =>
      (t == access || t == refresh) && before.claims.Refresh? && at < before.exp && GoesBack(log, k, before, j)
    case _ => false
  }

  /** Among the first n events a chain of renewals leads from t back to the redemption j. */
  ghost predicate GoesBack(log: seq<Event>, n: nat, t: Token, j: nat)
    decreases n, 0
  {
    exists k: nat :: k < n && k < |log| && HandedOut(log, k, t, j)
  }

  lemma ProducerOf(log: seq<Event>, n: nat, t: Token) returns (i: nat)
    requires Justified(log, n, t)
    ensures i < n && i < |log| && Produced(log, i, t)
  {
    i :| i < n && i < |log| && Produced(log, i, t);
  }

  /** Follows this access or refresh token back through its renewals to the
      redemption it started with; identity and client stay the same all the way. */
  lemma {:induction false} TokenDescends(log: seq<Event>, n: nat, t: Token) returns (i: nat, j: nat)
    requires Justified(log, n, t) && (t.claims.Access? || t.claims.Refresh?)
    ensures Descent(log, i, j, t.claims.sub) && GoesBack(log, n, t, j)
    ensures t.claims.Refresh? ==> t.claims.cid == log[i].code.claims.cid
    decreases n
  {
    var k := ProducerOf(log, n, t);
    if log[k].Renewed? {
      i, j := TokenDescends(log, k, log[k].before);
    } else {
      j := k;
      i := ProducerOf(log, k, log[k].code);
    }
    assert HandedOut(log, k, t, j);
  }

  // ---- the log against the requests that were made ----

  /** The user proved who they are in this request: on the password form or in the web app. */
  predicate SignsIn(q: Request, user: ProfileId) {
    (q.WebSignIn? && q.user == user) || (q.Authorize? && q.authenticated == Some(user))
  }

  ghost predicate SignedIn(qs: seq<Request>, user: ProfileId) {
    exists k :: 0 <= k < |qs| && SignsIn(qs[k], user)
  }

  /** What an event says is true of the request that logged it. */
  ghost predicate EventTrue(q: Request, d: Directory, e: Event) {
    match e
    case SignedInOnWeb(_, user) => SignsIn(q, user)
    case ShowedPicker(_, user, proof) => proof.ByPassword? ==> SignsIn(q, user)
    case IssuedCode(_, user, proof, directory, _) => (proof.ByPassword? ==> SignsIn(q, user)) && directory == d
    case _ => true
  }

  /** `after` logs what `s` logged and at most one more event, which is true of the request. */
  ghost predicate LogsTruly(q: Request, s: State, after: State) {
    || after.log == s.log
    || exists e :: after.log == s.log + [e] && EventTrue(q, s.directory, e)
  }

  lemma IssueLogs(q: Request, s: State, tokens: set<Token>, e: Event)
    requires EventTrue(q, s.directory, e)
    ensures LogsTruly(q, s, Issue(s, tokens, e))
  {
    assert Issue(s, tokens, e).log == s.log + [e];
  }

  lemma AfterSignInLogs(q: Request, s: State, f: Form, user: ProfileId, proof: Proof)
    requires proof.ByPassword? ==> SignsIn(q, user)
    ensures LogsTruly(q, s, AfterSignIn(s, f, user, proof).0)
  {
    var agents := AgentIdentities(s.directory, user);
    if f.wanted != "" {
      if AgentNamed(agents, f.wanted).Some? {
        SendCodeLogs(q, s, f, user, proof, AgentNamed(agents, f.wanted).value);
      }
    } else if agents != [] {
      IssueLogs(q, s, {Sign(s, Login(user))}, ShowedPicker(Sign(s, Login(user)), user, proof));
    } else {
      SendCodeLogs(q, s, f, user, proof, user);
    }
  }

  lemma SendCodeLogs(q: Request, s: State, f: Form, user: ProfileId, proof: Proof, identity: ProfileId)
    requires proof.ByPassword? ==> SignsIn(q, user)
    ensures LogsTruly(q, s, SendCode(s, f, user, proof, identity).0)
  {
    var code := Sign(s, Code(identity, f.clientId, f.redirect, f.challenge));
    IssueLogs(q, s, {code}, IssuedCode(code, user, proof, s.directory, ClientOf(s, f)));
  }

  lemma ServeLogs(s: State, q: Request)
    ensures LogsTruly(q, s, Serve(s, q).0)
  {
    match q
    case Register(uris) =>
      var client := Sign(s, Client(uris));
      IssueLogs(q, s, {client}, Registered(client));
    case WebSignIn(name, user) =>
      var web := Sign(s, WebLogin(name, user));
      IssueLogs(q, s, {web}, SignedInOnWeb(web, user));
    case Authorize(form, authenticated) =>
      if authenticated.Some? { AfterSignInLogs(q, s, form, authenticated.value, ByPassword); }
    case Handoff(form, _, web) =>
      var t := Decode(s, web);
      if t.Some? && ProfileIdOf(t.value.claims).Some? {
        AfterSignInLogs(q, s, form, ProfileIdOf(t.value.claims).value, ByHandoff(t.value));
      }
    case Pick(form, login, identity) =>
      var t := Verify(s, login, McpLogin);
      if t.Some? { SendCodeLogs(q, s, form, t.value.claims.sub, ByPick(t.value), identity); }
    case Redeem(code, clientId, redirect, verifier) =>
      var (after, r) := RedeemStep(s, code, clientId, redirect, verifier);
      if r.Tokens? {
        assert EventTrue(q, s.directory, after.log[|s.log|]);
      }
    case Renew(refresh, maybeClient) =>
      var (after, r) := RenewStep(s, refresh, maybeClient);
      if r.Tokens? {
        assert EventTrue(q, s.directory, after.log[|s.log|]);
      }
    case _ =>
  }

  /** Request k logged event i. */
  ghost predicate LoggedBy(qs: seq<Request>, i: nat, k: nat) {
    && k < |qs| && i < |Run(qs).log|
    && |Run(qs[..k]).log| == i && |Run(qs[..k + 1]).log| == i + 1
    && EventTrue(qs[k], Run(qs[..k]).directory, Run(qs).log[i])
  }

  lemma {:induction false} LoggerOf(qs: seq<Request>, i: nat) returns (k: nat)
    requires i < |Run(qs).log|
    ensures LoggedBy(qs, i, k)
    decreases |qs|
  {
    var first, q := qs[..|qs| - 1], qs[|qs| - 1];
    ServeLogs(Run(first), q);
    if i < |Run(first).log| {
      k := LoggerOf(first, i);
      assert first[..k] == qs[..k] && first[..k + 1] == qs[..k + 1];
    } else {
      k := |qs| - 1;
      assert qs[..k + 1] == qs;
    }
  }

  lemma {:induction false} LogGrows(qs: seq<Request>, k: nat)
    requires k <= |qs|
    ensures |Run(qs[..k]).log| <= |Run(qs).log|
    decreases |qs|
  {
    if k < |qs| {
      var first := qs[..|qs| - 1];
      ServeLogs(Run(first), qs[|qs| - 1]);
      LogGrows(first, k);
      assert first[..k] == qs[..k];
    } else {
      assert qs[..k] == qs;
    }
  }

  /** Earlier events were logged by earlier requests. */
  lemma LoggedInOrder(qs: seq<Request>, i: nat, k: nat, i': nat, k': nat)
    requires LoggedBy(qs, i, k) && LoggedBy(qs, i', k') && i < i'
    ensures k < k'
  {
    if k >= k' {
      assert qs[..k'] == qs[..k][..k'];
      LogGrows(qs[..k], k');
    }
  }

  /** A sign-in accepted by event i goes back to a request, no later than the one
      that logged the event, in which that user signed in. */
  lemma {:induction false} ProofIsSignIn(qs: seq<Request>, i: nat, k: nat, user: ProfileId, proof: Proof)
    requires LoggedBy(qs, i, k) && SignInProved(Run(qs).log, i, user, proof)
    requires proof.ByPassword? ==> SignsIn(qs[k], user)
    ensures SignedIn(qs[..k + 1], user)
    decreases i
  {
    var log := Run(qs).log;
    if proof.ByPassword? {
      assert qs[..k + 1][k] == qs[k];
    } else {
      var m := ProducerOf(log, i, if proof.ByHandoff? then proof.web else proof.login);
      var l := LoggerOf(qs, m);
      LoggedInOrder(qs, m, l, i, k);
      if proof.ByHandoff? {
        assert qs[..k + 1][l] == qs[l];
      } else {
        ProofIsSignIn(qs, m, l, user, log[m].proof);
        var h :| 0 <= h <= l && SignsIn(qs[..l + 1][h], user);
        assert qs[..k + 1][h] == qs[h];
      }
    }
  }

  /** The account of a token t that acts for x.  Renewals lead from t back to the
      redemption j.  It redeemed, in time, with the client, redirect and verifier
      of its S256 challenge, the code that request k issued as event i.  The user
      it was issued to had signed in by then, and was x or, by the directory of
      that moment, an admin whose agents included x. */
  ghost predicate Account(qs: seq<Request>, t: Token, x: ProfileId, k: nat, i: nat, j: nat) {
    && GoesBack(Run(qs).log, |Run(qs).log|, t, j)
    && Descent(Run(qs).log, i, j, x)
    && LoggedBy(qs, i, k)
    && SignedIn(qs[..k + 1], Run(qs).log[i].user)
    && MayActAs(Run(qs[..k]).directory, Run(qs).log[i].user, x)
  }

  lemma AccountOf(qs: seq<Request>, t: Token) returns (k: nat, i: nat, j: nat)
    requires t in Run(qs).issued && (t.claims.Access? || t.claims.Refresh?)
    ensures Account(qs, t, t.claims.sub, k, i, j)
    ensures i < |Run(qs).log| && Run(qs).log[i].IssuedCode? && Run(qs).log[i].code.claims.Code?
    ensures Run(qs).log[i].code.claims.sub == t.claims.sub
    ensures t.claims.Refresh? ==> t.claims.cid == Run(qs).log[i].code.claims.cid
  {
    var log := Run(qs).log;
    RunJustified(qs);
    i, j := TokenDescends(log, |log|, t);
    k := LoggerOf(qs, i);
    ProofIsSignIn(qs, i, k, log[i].user, log[i].proof);
  }

  /** Whoever acts as x over MCP presents an access token with such an account. */
  lemma AccessDescendsFromSignIn(qs: seq<Request>, text: Text, x: ProfileId)
    requires ActsAs(Run(qs), text) == Some(x)
    ensures exists k: nat, i: nat, j: nat :: Account(qs, text.token, x, k, i, j)
  {
    hide Account, Run;
    var k, i, j := AccountOf(qs, text.token);
  }

  /** So does whoever renews: the refresh token has an account, and the new tokens
      are for the identity and the client of the code it started with. */
  lemma RefreshKeepsIdentityAndClient(qs: seq<Request>, refresh: Text, maybeClient: Option<Text>)
    requires RenewStep(Run(qs), refresh, maybeClient).1.Tokens?
    ensures var r := RenewStep(Run(qs), refresh, maybeClient).1;
      exists k: nat, i: nat, j: nat :: Account(qs, refresh.token, refresh.token.claims.sub, k, i, j)
        && r.access.claims == Access(Run(qs).log[i].code.claims.sub)
        && r.refresh.claims == Refresh(Run(qs).log[i].code.claims.sub, Run(qs).log[i].code.claims.cid)
  {
    hide Account, Run;
    var k, i, j := AccountOf(qs, refresh.token);
  }

  // ---- kinds of tokens ----

  /** Exactly the unexpired codes signed here, presented with their own client,
      redirect and verifier, buy tokens; exactly the unexpired refresh tokens renew.
      The tokens are for the identity and the client of what was presented. */
  lemma GrantsExact(s: State, t: Text, clientId: Text, redirect: Url, verifier: string, maybeClient: Option<Text>)
    ensures RedeemStep(s, t, clientId, redirect, verifier).1.Tokens? <==>
      t.Jwt? && t.token in s.issued && s.now < t.token.exp && t.token.claims.Code?
      && t.token.claims == Code(t.token.claims.sub, clientId, redirect, S256(verifier))
      && t.token.claims.sub in s.directory.profiles
    ensures RenewStep(s, t, maybeClient).1.Tokens? <==>
      t.Jwt? && t.token in s.issued && s.now < t.token.exp && t.token.claims.Refresh?
      && (maybeClient.Some? && maybeClient.value != Plain("") ==> maybeClient.value == t.token.claims.cid)
      && t.token.claims.sub in s.directory.profiles
    ensures RedeemStep(s, t, clientId, redirect, verifier).1.Tokens? ==>
      TokensFor(s, t.token.claims, RedeemStep(s, t, clientId, redirect, verifier).1)
    ensures RenewStep(s, t, maybeClient).1.Tokens? ==> TokensFor(s, t.token.claims, RenewStep(s, t, maybeClient).1)
  {
  }

  predicate TokensFor(s: State, c: Claims, r: Response) {
    && (c.Code? || c.Refresh?)
    && r == Tokens(Token(Access(c.sub), s.now, s.now + 3600), Token(Refresh(c.sub, c.cid), s.now, s.now + 30 * 24 * 3600))
  }

  /** A text signed under one `typ` is refused wherever another is expected.  The
      handoff from the web app never looks at the `typ`; it refuses all of them too,
      because none carries a `profile_id`. */
  lemma KindsDoNotMix(s: State, t: Token, form: Form, identity: ProfileId,
                      clientId: Text, redirect: Url, verifier: string)
    ensures TypOf(t.claims) != Some(McpCode) ==>
      RedeemStep(s, Jwt(t), clientId, redirect, verifier) == (s, Refused)
    ensures TypOf(t.claims) != Some(McpRefresh) ==> RenewStep(s, Jwt(t), None) == (s, Refused)
    ensures TypOf(t.claims) != Some(McpAccess) ==> ActsAs(s, Jwt(t)) == None
    ensures TypOf(t.claims) != Some(McpLogin) ==> Serve(s, Pick(form, Jwt(t), identity)) == (s, Refused)
    ensures TypOf(t.claims) != Some(McpClient) && form.clientId == Jwt(t) ==> !ValidForm(s, form)
    ensures TypOf(t.claims).Some? ==> Serve(s, Handoff(form, true, Jwt(t))).0 == s
  {
    assert TypOf(t.claims).Some? ==> ProfileIdOf(t.claims).None?;
  }

  // ---- for whom a code is issued ----

  predicate LoopbackUrl(u: Url) { u.scheme == "http" && u.host in {"localhost", "127.0.0.1", "::1"} }

  /** A client that registered here may send codes to the very addresses it
      registered; one that publishes a document also to another port of a loopback
      address listed there. */
  ghost predicate MaySendTo(s: State, f: Form) {
    match f.clientId
    case Jwt(t) => t in s.issued && s.now < t.exp && t.claims.Client? && f.redirect in t.claims.redirectUris
    case Plain(_) =>
      && f.metadata.Some? && |f.metadata.value| <= 20
      && (f.redirect in f.metadata.value
          || (LoopbackUrl(f.redirect)
              && exists r :: r in f.metadata.value && LoopbackUrl(r) && r.path == f.redirect.path))
  }

  ghost predicate Acceptable(s: State, f: Form) {
    && MaySendTo(s, f) && f.responseType == "code"
    && f.challengeMethod == "S256" && f.challenge != Opaque("")
  }

  lemma AcceptableExact(s: State, f: Form)
    ensures ValidForm(s, f) <==> Acceptable(s, f)
  {
  }

  ghost predicate FirstNamed(agents: seq<Agent>, name: string, k: nat) {
    k < |agents| && agents[k].name == name && forall j :: 0 <= j < k ==> agents[j].name != name
  }

  /** The user is an admin, and agent k is the first of their organisation with that name. */
  ghost predicate NamedAgent(d: Directory, user: ProfileId, name: string, k: nat) {
    HasAgents(d, user) && FirstNamed(d.agents[d.profiles[user].org], name, k)
  }

  predicate HasAgents(d: Directory, user: ProfileId) {
    && user in d.profiles && d.profiles[user].admin
    && d.profiles[user].org in d.agents && d.agents[d.profiles[user].org] != []
  }

  /** The answer is a code for x, to be redeemed within five minutes by the client
      of the form, at its redirect, with the verifier of its challenge. */
  predicate CodeFor(s: State, f: Form, x: ProfileId, r: Response) {
    r == Redirect(Token(Code(x, f.clientId, f.redirect, f.challenge), s.now, s.now + 300))
  }

  /** What a signed-in user is answered: with a pinned agent, a code for the first
      of their agents with that name, or the login page again if there is none;
      otherwise a choice if they have agents, and a code for themselves if not. */
  ghost predicate AnswersFor(s: State, f: Form, user: ProfileId, r: Response) {
    if f.wanted != "" then
      if exists k: nat :: NamedAgent(s.directory, user, f.wanted, k) then
        forall k: nat :: NamedAgent(s.directory, user, f.wanted, k) ==>
          CodeFor(s, f, s.directory.agents[s.directory.profiles[user].org][k].id, r)
      else r == LoginPage
    else if HasAgents(s.directory, user) then r == Picker(Token(Login(user), s.now, s.now + 300))
    else CodeFor(s, f, user, r)
  }

  /** AgentNamed finds the first agent of that name. */
  lemma {:induction false} AgentNamedFirst(agents: seq<Agent>, name: string)
    ensures AgentNamed(agents, name).None? <==> forall a :: a in agents ==> a.name != name
    ensures forall k: nat :: FirstNamed(agents, name, k) ==> AgentNamed(agents, name) == Some(agents[k].id)
    decreases |agents|
  {
    if agents != [] {
      AgentNamedFirst(agents[1..], name);
      forall k: nat | k > 0 && FirstNamed(agents, name, k) ensures AgentNamed(agents, name) == Some(agents[k].id) {
        assert FirstNamed(agents[1..], name, k - 1);
      }
    }
  }

  lemma {:induction false} FirstOfName(agents: seq<Agent>, name: string, i: nat) returns (k: nat)
    requires i < |agents| && agents[i].name == name
    ensures FirstNamed(agents, name, k)
    decreases i
  {
    if j :| 0 <= j < i && agents[j].name == name {
      k := FirstOfName(agents, name, j);
    } else {
      k := i;
    }
  }

  lemma AfterSignInAnswers(s: State, f: Form, user: ProfileId, proof: Proof)
    ensures AnswersFor(s, f, user, AfterSignIn(s, f, user, proof).1)
  {
    var agents := AgentIdentities(s.directory, user);
    AgentNamedFirst(agents, f.wanted);
    if a :| a in agents && a.name == f.wanted {
      var i :| 0 <= i < |agents| && agents[i] == a;
      var k := FirstOfName(agents, f.wanted, i);
      assert NamedAgent(s.directory, user, f.wanted, k);
    }
  }

  /** The web login names an existing user and still is good. */
  predicate WebUser(s: State, web: Text, user: ProfileId) {
    && web.Jwt? && web.token in s.issued && s.now < web.token.exp && web.token.claims.WebLogin?
    && web.token.claims.profileId == user && user != "" && user in s.directory.profiles
  }

  /** The password form: refused exactly when the request is not acceptable; then
      the right answer for whoever signed in. */
  lemma AuthorizeExact(s: State, f: Form, authenticated: Option<ProfileId>)
    ensures var r := Serve(s, Authorize(f, authenticated)).1;
      && (r == Refused <==> !Acceptable(s, f))
      && (Acceptable(s, f) ==>
            if authenticated.Some? && authenticated.value in s.directory.profiles
            then AnswersFor(s, f, authenticated.value, r) else r == LoginPage)
  {
    AcceptableExact(s, f);
    if authenticated.Some? { AfterSignInAnswers(s, f, authenticated.value, ByPassword); }
  }

  /** The handoff from the web app answers the user of the web login in the same way. */
  lemma HandoffExact(s: State, f: Form, originOk: bool, web: Text)
    ensures var r := Serve(s, Handoff(f, originOk, web)).1;
      && (r == Refused <==> !originOk || !Acceptable(s, f))
      && (originOk && Acceptable(s, f) ==>
            && (forall user :: WebUser(s, web, user) ==> AnswersFor(s, f, user, r))
            && ((forall user :: !WebUser(s, web, user)) ==> r == LoginPage))
  {
    AcceptableExact(s, f);
    forall user | WebUser(s, web, user) ensures AnswersFor(s, f, user, AfterSignIn(s, f, user, ByHandoff(web.token)).1) {
      AfterSignInAnswers(s, f, user, ByHandoff(web.token));
    }
    hide AnswersFor, Acceptable, AfterSignIn;
    if web.Jwt? && web.token.claims.WebLogin? {
      assert WebUser(s, web, web.token.claims.profileId) <==> exists user :: WebUser(s, web, user);
    }
  }

  /** A choice on the picker page is answered with a code for the identity picked,
      exactly when it is the user of the page or one of their agents. */
  lemma PickExact(s: State, f: Form, login: Text, identity: ProfileId)
    ensures var (user, r) := (if login.Jwt? && login.token.claims.Login? then login.token.claims.sub else "",
                              Serve(s, Pick(f, login, identity)).1);
      if Acceptable(s, f) && login.Jwt? && login.token in s.issued && s.now < login.token.exp
        && login.token.claims.Login? && user in s.directory.profiles
        && (identity == user || (HasAgents(s.directory, user) && exists a ::
              a in s.directory.agents[s.directory.profiles[user].org] && a.id == identity))
      then CodeFor(s, f, identity, r) else r == Refused
  {
    AcceptableExact(s, f);
  }

  /** A registration is answered with an id for the very addresses given. */
  lemma RegisterExact(s: State, uris: seq<Url>)
    ensures Serve(s, Register(uris)).1 ==
      if uris == [] then Refused else ClientId(Token(Client(uris), s.now, s.now + 10 * 365 * 24 * 3600))
  {
  }

  /** Whoever acts as x shows an access token for x signed here within the hour. */
  lemma ActsAsExact(qs: seq<Request>, text: Text, x: ProfileId)
    ensures var s := Run(qs);
      ActsAs(s, text) == Some(x) <==>
        && text.Jwt? && text.token in s.issued && text.token.claims == Access(x)
        && s.now < text.token.iat + 3600 && x in s.directory.profiles
  {
    RunJustified(qs);
  }

  /** How long each kind of text lives, in seconds. */
  lemma Lifetimes(qs: seq<Request>, t: Token)
    requires t in Run(qs).issued
    ensures t.exp - t.iat ==
      match t.claims
      case Client(_) => 315_360_000
      case Login(_) => 300
      case Code(_, _, _, _) => 300
      case Access(_) => 3_600
      case Refresh(_, _) => 2_592_000
      case WebLogin(_, _) => 604_800
  {
    RunJustified(qs);
  }
}
