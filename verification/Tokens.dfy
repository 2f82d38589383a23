/** Sessions and their rotating refresh tokens (section 10.4 of RFC 6749).

    A row's index is its id; a presented token is the id of the row its hash finds. Times are in
    milliseconds, the expiry of an access token in seconds (section 4.1.4 of RFC 7519). */
module Tokens {
  import opened Prelude

  const DAY_MS: nat := 86_400_000
  const MAX_ACCESS_TTL: nat := 3600

  type SessionId = nat
  type TokenId = nat
  type AccessTtl = s: nat | 60 <= s <= MAX_ACCESS_TTL witness 600
  type RefreshDays = d: nat | 1 <= d <= 90 witness 7

  datatype Error = Unauthorized | Forbidden | NotFound

  datatype Session = Session(user: nat, role: string, revoked: bool)
  datatype Token = Token(session: SessionId, expiresAt: int, used: bool, replacedBy: Option<TokenId>)
  datatype Revocation = Revocation(session: SessionId, horizon: int)

  /** A signed access token; `early` records that its session was not yet revoked. */
  datatype Access = Access(session: SessionId, exp: int, early: bool)

  datatype Auth = Auth(
    now: nat, sessions: seq<Session>, tokens: seq<Token>, outbox: seq<Revocation>, issued: seq<Access>)

  const EMPTY := Auth(0, [], [], [], [])

  datatype Settings = Settings(accessTtl: AccessTtl, refreshDays: RefreshDays)

  function Sign(a: Auth, s: SessionId, ttl: AccessTtl): Auth {
    a.(issued := a.issued + [Access(s, a.now / 1000 + ttl, s < |a.sessions| && !a.sessions[s].revoked)])
  }

  function NewToken(a: Auth, s: SessionId, days: RefreshDays): Auth {
    a.(tokens := a.tokens + [Token(s, a.now + days * DAY_MS, false, None)])
  }

  /** Registering and logging in both open a session of their own. */
  function OpenSession(a: Auth, user: nat, role: string, cfg: Settings): Auth {
    var s := |a.sessions|;
    Sign(NewToken(a.(sessions := a.sessions + [Session(user, role, false)]), s, cfg.refreshDays), s, cfg.accessTtl)
  }

  function Revoke(a: Auth, s: SessionId): Auth {
    if s >= |a.sessions| || a.sessions[s].revoked then a
    else a.(sessions := a.sessions[s := a.sessions[s].(revoked := true)],
            outbox := a.outbox + [Revocation(s, a.now / 1000 + MAX_ACCESS_TTL)])
  }

  predicate Usable(a: Auth, t: TokenId) {
    && t < |a.tokens| && a.tokens[t].session < |a.sessions|
    && !a.sessions[a.tokens[t].session].revoked && a.tokens[t].expiresAt > a.now
  }

  function Rotate(a: Auth, t: TokenId, cfg: Settings): Auth
    requires t < |a.tokens|
  {
    var row := a.tokens[t];
    var minted := NewToken(a, row.session, cfg.refreshDays);
    Sign(minted.(tokens := minted.tokens[t := row.(used := true, replacedBy := Some(|a.tokens|))]), row.session, cfg.accessTtl)
  }

  datatype Refreshed = Fresh(id: TokenId) | Reused

  /** A reuse is committed, not rolled back: the revocation must survive the refusal. */
  function Refresh(a: Auth, t: TokenId, cfg: Settings): Result<(Auth, Refreshed), Error> {
    if !Usable(a, t) then Err(Unauthorized)
    else if a.tokens[t].used then Ok((Revoke(a, a.tokens[t].session), Reused))
    else Ok((Rotate(a, t, cfg), Fresh(|a.tokens|)))
  }

  /** By session id, else by refresh token; naming neither, or an unknown one, does nothing. */
  function Logout(a: Auth, session: Option<SessionId>, token: Option<TokenId>): Auth {
    if session.Some? then Revoke(a, session.value)
    else if token.Some? && token.value < |a.tokens| then Revoke(a, a.tokens[token.value].session)
    else a
  }

  function SelectRole(a: Auth, s: SessionId, role: string, allowed: seq<string>): Result<Auth, Error> {
    if role !in allowed then Err(Forbidden)
    else if s >= |a.sessions| || a.sessions[s].revoked then Err(NotFound)
    else Ok(a.(sessions := a.sessions[s := a.sessions[s].(role := role)]))
  }

  /** `LateSign` is the signature that `selectRole` and `onboard` make after their own transaction,
      without looking at the session again. */
  datatype Op =
    | Pass(ms: nat)
    | DoOpen(user: nat, role: string, cfg: Settings)
    | DoRefresh(token: TokenId, cfg: Settings)
    | DoLogout(session: Option<SessionId>, presented: Option<TokenId>)
    | DoSelectRole(chosen: SessionId, role: string, allowed: seq<string>)
    | LateSign(signed: SessionId, ttl: AccessTtl)

  function Step(a: Auth, op: Op): Auth {
    match op
    case Pass(ms) => a.(now := a.now + ms)
    case DoOpen(user, role, cfg) => OpenSession(a, user, role, cfg)
    case DoRefresh(t, cfg) => var r := Refresh(a, t, cfg); if r.Ok? then r.value.0 else a
    case DoLogout(s, t) => Logout(a, s, t)
    case DoSelectRole(s, role, allowed) => var r := SelectRole(a, s, role, allowed); if r.Ok? then r.value else a
    case LateSign(s, ttl) => Sign(a, s, ttl)
  }

  function Run(a: Auth, ops: seq<Op>): Auth {
    if ops == [] then a else Step(Run(a, ops[..|ops| - 1]), ops[|ops| - 1])
  }

  // ----- what each request leaves -----

  /** `s` is ended and its horizon, an hour ahead, announced. */
  predicate Ends(a: Auth, d: Auth, s: SessionId) {
    && s < |a.sessions| && !a.sessions[s].revoked
    && d == a.(sessions := a.sessions[s := a.sessions[s].(revoked := true)],
               outbox := a.outbox + [Revocation(s, a.now / 1000 + 3600)])
  }

  /** Registering or logging in opens a session, with a refresh token of the configured days and an access
      token of the configured seconds. */
  lemma OpenLeaves(a: Auth, user: nat, role: string, cfg: Settings)
    ensures
      var s := |a.sessions|;
      Step(a, DoOpen(user, role, cfg)) == a.(
        sessions := a.sessions + [Session(user, role, false)],
        tokens := a.tokens + [Token(s, a.now + cfg.refreshDays * 86_400_000, false, None)],
        issued := a.issued + [Access(s, a.now / 1000 + cfg.accessTtl, true)])
  {
  }

  /** A refresh token is taken while it has not expired and its session was not ended. A fresh one is spent for
      a new pair; one that was spent before ends the session instead. */
  lemma RefreshIff(a: Auth, t: TokenId, cfg: Settings)
    ensures
      var r, d := Refresh(a, t, cfg), Step(a, DoRefresh(t, cfg));
      && (r.Ok? <==>
            && t < |a.tokens| && a.now < a.tokens[t].expiresAt
            && a.tokens[t].session < |a.sessions| && !a.sessions[a.tokens[t].session].revoked)
      && (r.Err? ==> r.error == Unauthorized && d == a)
      && (r.Ok? && a.tokens[t].used ==> r.value.1 == Reused && Ends(a, d, a.tokens[t].session))
      && (r.Ok? && !a.tokens[t].used ==>
            var n, s := |a.tokens|, a.tokens[t].session;
            && r.value.1 == Fresh(n)
            && d == a.(
                 tokens := a.tokens[t := Token(s, a.tokens[t].expiresAt, true, Some(n))]
                             + [Token(s, a.now + cfg.refreshDays * 86_400_000, false, None)],
                 issued := a.issued + [Access(s, a.now / 1000 + cfg.accessTtl, true)]))
  {
    if t < |a.tokens| {
      var row := a.tokens[t];
      var minted := Token(row.session, a.now + cfg.refreshDays * 86_400_000, false, None);
      assert (a.tokens + [minted])[t := row.(used := true, replacedBy := Some(|a.tokens|))]
        == a.tokens[t := row.(used := true, replacedBy := Some(|a.tokens|))] + [minted];
    }
  }

  /** A logout ends the session it names, or the one of the token it presents; a session already ended, or
      nothing named, changes nothing. */
  lemma LogoutLeaves(a: Auth, session: Option<SessionId>, presented: Option<TokenId>)
    ensures
      var d := Step(a, DoLogout(session, presented));
      var named := if session.Some? then session
                   else if presented.Some? && presented.value < |a.tokens| then Some(a.tokens[presented.value].session)
                   else None;
      if named.Some? && named.value < |a.sessions| && !a.sessions[named.value].revoked then Ends(a, d, named.value)
      else d == a
  {
  }

  lemma {:induction false} ExpiryIsFixed(a: Auth, ops: seq<Op>, t: TokenId)
    requires t < |a.tokens|
    ensures
      var d := Run(a, ops);
      t < |d.tokens| && d.tokens[t].expiresAt == a.tokens[t].expiresAt && d.tokens[t].session == a.tokens[t].session
    ensures |Run(a, ops).sessions| >= |a.sessions|
  {
    if ops != [] {
      ExpiryIsFixed(a, ops[..|ops| - 1], t);
    }
  }

  /** So, whatever happens after a login, its refresh token is taken for exactly the configured days, until
      the session is ended. */
  lemma TokenLivesItsDays(a: Auth, user: nat, role: string, cfg: Settings, ops: seq<Op>, later: Settings)
    ensures
      var t, s, d := |a.tokens|, |a.sessions|, Run(Step(a, DoOpen(user, role, cfg)), ops);
      && s < |d.sessions|
      && (Refresh(d, t, later).Ok? <==> d.now - a.now < cfg.refreshDays * 86_400_000 && !d.sessions[s].revoked)
  {
    var begun := Step(a, DoOpen(user, role, cfg));
    OpenLeaves(a, user, role, cfg);
    hide Step;
    ExpiryIsFixed(begun, ops, |a.tokens|);
    hide Run, Rotate, Revoke;
  }

  // ----- families -----

  /** The tokens of one session, oldest first. */
  function Family(tokens: seq<Token>, s: SessionId): seq<TokenId> {
    if tokens == [] then []
    else
      var n := |tokens| - 1;
      if tokens[n].session == s then Family(tokens[..n], s) + [n] else Family(tokens[..n], s)
  }

  lemma {:induction false} FamilyIs(tokens: seq<Token>, s: SessionId)
    ensures
      var f := Family(tokens, s);
      && (forall i :: 0 <= i < |f| ==> f[i] < |tokens| && tokens[f[i]].session == s)
      && (forall i, j :: 0 <= i < j < |f| ==> f[i] < f[j])
      && (forall t :: 0 <= t < |tokens| && tokens[t].session == s ==> t in f)
  {
    if tokens != [] {
      FamilyIs(tokens[..|tokens| - 1], s);
    }
  }

  lemma {:induction false} FamilySame(a: seq<Token>, b: seq<Token>, s: SessionId)
    requires |a| == |b| && forall t :: 0 <= t < |a| ==> a[t].session == b[t].session
    ensures Family(a, s) == Family(b, s)
  {
    if a != [] {
      FamilySame(a[..|a| - 1], b[..|b| - 1], s);
    }
  }

  lemma FamilyAppend(tokens: seq<Token>, token: Token, s: SessionId)
    ensures Family(tokens + [token], s)
      == if token.session == s then Family(tokens, s) + [|tokens|] else Family(tokens, s)
  {
    assert (tokens + [token])[..|tokens|] == tokens;
  }

  /** One chain of replacements through `f`, with its one unused token at the end. */
  ghost predicate Chain(tokens: seq<Token>, f: seq<TokenId>) {
    && f != []
    && (forall i :: 0 <= i < |f| ==> f[i] < |tokens|)
    && (forall i :: 0 <= i < |f| - 1 ==> tokens[f[i]].used && tokens[f[i]].replacedBy == Some(f[i + 1]))
    && !tokens[f[|f| - 1]].used && tokens[f[|f| - 1]].replacedBy == None
  }

  ghost predicate ChainOk(a: Auth, s: SessionId) { Chain(a.tokens, Family(a.tokens, s)) }

  lemma ChainElsewhere(before: seq<Token>, after: seq<Token>, f: seq<TokenId>)
    requires Chain(before, f) && |before| <= |after|
    requires forall i :: 0 <= i < |f| ==> after[f[i]] == before[f[i]]
    ensures Chain(after, f)
  {
  }

  lemma ChainExtends(before: seq<Token>, after: seq<Token>, f: seq<TokenId>)
    requires Chain(before, f) && |after| == |before| + 1
    requires forall i, j :: 0 <= i < j < |f| ==> f[i] < f[j]
    requires forall u :: 0 <= u < |before| && u != f[|f| - 1] ==> after[u] == before[u]
    requires after[f[|f| - 1]].used && after[f[|f| - 1]].replacedBy == Some(|before|)
    requires !after[|before|].used && after[|before|].replacedBy == None
    ensures Chain(after, f + [|before|])
  {
    var g := f + [|before|];
    forall i | 0 <= i < |g| - 1 ensures after[g[i]].used && after[g[i]].replacedBy == Some(g[i + 1]) {
      if i < |f| - 1 {
        assert f[i] < f[|f| - 1];
      }
    }
  }

  ghost predicate ChainsOk(a: Auth) {
    && (forall t :: 0 <= t < |a.tokens| ==> a.tokens[t].session < |a.sessions|)
    && (forall s :: 0 <= s < |a.sessions| ==> ChainOk(a, s))
  }

  lemma OpenKeepsChains(a: Auth, user: nat, role: string, cfg: Settings)
    requires ChainsOk(a)
    ensures ChainsOk(OpenSession(a, user, role, cfg))
  {
    var d := OpenSession(a, user, role, cfg);
    var token := d.tokens[|a.tokens|];
    forall s | 0 <= s < |d.sessions| ensures ChainOk(d, s) {
      FamilyAppend(a.tokens, token, s);
      FamilyIs(a.tokens, s);
      hide Family;
      if s < |a.sessions| {
        assert ChainOk(a, s);
        ChainElsewhere(a.tokens, d.tokens, Family(a.tokens, s));
      }
    }
  }

  lemma UnusedIsLast(a: Auth, t: TokenId)
    requires ChainsOk(a) && t < |a.tokens| && !a.tokens[t].used
    ensures var f := Family(a.tokens, a.tokens[t].session); f != [] && f[|f| - 1] == t
  {
    FamilyIs(a.tokens, a.tokens[t].session);
    assert ChainOk(a, a.tokens[t].session);
  }

  lemma RotateFamily(a: Auth, t: TokenId, cfg: Settings, s: SessionId)
    requires t < |a.tokens|
    ensures
      Family(Rotate(a, t, cfg).tokens, s)
        == if a.tokens[t].session == s then Family(a.tokens, s) + [|a.tokens|] else Family(a.tokens, s)
  {
    var minted := NewToken(a, a.tokens[t].session, cfg.refreshDays);
    FamilyAppend(a.tokens, minted.tokens[|a.tokens|], s);
    FamilySame(minted.tokens, Rotate(a, t, cfg).tokens, s);
  }

  lemma RotateRows(a: Auth, t: TokenId, cfg: Settings)
    requires t < |a.tokens|
    ensures
      var after, n := Rotate(a, t, cfg).tokens, |a.tokens|;
      && |after| == n + 1 && (forall u :: 0 <= u < n && u != t ==> after[u] == a.tokens[u])
      && after[t].used && after[t].replacedBy == Some(n) && !after[n].used && after[n].replacedBy == None
  {
  }

  lemma RotateKeepsChain(a: Auth, t: TokenId, cfg: Settings, s: SessionId)
    requires ChainsOk(a) && t < |a.tokens| && !a.tokens[t].used && s < |a.sessions|
    ensures ChainOk(Rotate(a, t, cfg), s)
  {
    UnusedIsLast(a, t);
    assert ChainOk(a, s);
    hide Family, ChainsOk, Chain, Rotate;
    RotateFamily(a, t, cfg, s);
    RotateRows(a, t, cfg);
    FamilyIs(a.tokens, s);
    var d, f := Rotate(a, t, cfg), Family(a.tokens, s);
    if a.tokens[t].session == s {
      ChainExtends(a.tokens, d.tokens, f);
    } else {
      ChainElsewhere(a.tokens, d.tokens, f);
    }
  }

  lemma StepKeepsChains(a: Auth, op: Op)
    requires ChainsOk(a)
    ensures ChainsOk(Step(a, op))
  {
    hide ChainOk;
    var d := Step(a, op);
    if op.DoOpen? {
      OpenKeepsChains(a, op.user, op.role, op.cfg);
    } else if op.DoRefresh? && Usable(a, op.token) && !a.tokens[op.token].used {
      forall s | 0 <= s < |d.sessions| ensures ChainOk(d, s) {
        RotateKeepsChain(a, op.token, op.cfg, s);
      }
    } else {
      assert d.tokens == a.tokens && |d.sessions| == |a.sessions|;
      forall s | 0 <= s < |d.sessions| ensures ChainOk(d, s) {
        SameTokensSameChain(a, d, s);
      }
    }
  }

  lemma SameTokensSameChain(a: Auth, d: Auth, s: SessionId)
    requires d.tokens == a.tokens && ChainOk(a, s)
    ensures ChainOk(d, s)
  {
  }

  /** In every reachable state each session's tokens form one chain ending in its one unused token. */
  lemma {:induction false} ChainsInvariant(ops: seq<Op>)
    ensures ChainsOk(Run(EMPTY, ops))
  {
    hide Step;
    if ops != [] {
      hide ChainsOk;
      ChainsInvariant(ops[..|ops| - 1]);
      StepKeepsChains(Run(EMPTY, ops[..|ops| - 1]), ops[|ops| - 1]);
    }
  }

  /** A refresh spends exactly the newest token of the family and leaves a newer one in its place. */
  lemma FreshOnlyForNewest(a: Auth, t: TokenId, cfg: Settings)
    requires ChainsOk(a) && Refresh(a, t, cfg).Ok? && Refresh(a, t, cfg).value.1.Fresh?
    ensures
      var d, s := Refresh(a, t, cfg).value.0, a.tokens[t].session;
      var f := Family(a.tokens, s);
      f != [] && f[|f| - 1] == t && Family(d.tokens, s) == f + [|a.tokens|]
  {
    UnusedIsLast(a, t);
    RotateFamily(a, t, cfg, a.tokens[t].session);
  }

  // ----- reuse and revocation -----

  predicate RevokedIn(a: Auth, s: SessionId) { s < |a.sessions| && a.sessions[s].revoked }

  /** Presenting a token that was already replaced ends the session, for its thief and its owner. */
  lemma ReuseRevokes(a: Auth, t: TokenId, cfg: Settings)
    requires Usable(a, t) && a.tokens[t].used
    ensures Refresh(a, t, cfg).Ok? && Refresh(a, t, cfg).value.1 == Reused
    ensures RevokedIn(Step(a, DoRefresh(t, cfg)), a.tokens[t].session)
    ensures Step(a, DoRefresh(t, cfg)).tokens == a.tokens && Step(a, DoRefresh(t, cfg)).issued == a.issued
  {
  }

  /** Whoever held a token keeps a token of the same session; sessions are never un-revoked. */
  lemma {:induction false} RevokedForever(a: Auth, ops: seq<Op>, s: SessionId, t: TokenId, cfg: Settings)
    requires RevokedIn(a, s)
    ensures RevokedIn(Run(a, ops), s)
    ensures t < |Run(a, ops).tokens| && Run(a, ops).tokens[t].session == s ==>
      Refresh(Run(a, ops), t, cfg) == Err(Unauthorized)
  {
    if ops != [] {
      RevokedForever(a, ops[..|ops| - 1], s, t, cfg);
    }
  }

  function RevocationsOf(s: SessionId): Revocation -> int {
    (r: Revocation) => if r.session == s then 1 else 0
  }

  /** One event per revoked session, however many logouts and reuses there were. */
  ghost predicate RevokedOnce(a: Auth) {
    forall s: SessionId :: Sum(a.outbox, RevocationsOf(s)) == if RevokedIn(a, s) then 1 else 0
  }

  lemma RevokeKeepsOnce(a: Auth, s: SessionId)
    requires RevokedOnce(a)
    ensures RevokedOnce(Revoke(a, s))
  {
    if s < |a.sessions| && !a.sessions[s].revoked {
      forall r: SessionId ensures Sum(Revoke(a, s).outbox, RevocationsOf(r)) == if RevokedIn(Revoke(a, s), r) then 1 else 0 {
        SumAppend(a.outbox, Revocation(s, a.now / 1000 + MAX_ACCESS_TTL), RevocationsOf(r));
      }
    }
  }

  predicate MayRevoke(a: Auth, op: Op) {
    op.DoLogout? || (op.DoRefresh? && Usable(a, op.token) && a.tokens[op.token].used)
  }

  lemma QuietKeepsOnce(a: Auth, op: Op)
    requires RevokedOnce(a) && !MayRevoke(a, op)
    ensures RevokedOnce(Step(a, op))
  {
    var d := Step(a, op);
    assert d.outbox == a.outbox;
    forall s: SessionId ensures RevokedIn(d, s) == RevokedIn(a, s) {
    }
  }

  lemma {:induction false} RevokedOnceInvariant(ops: seq<Op>)
    ensures RevokedOnce(Run(EMPTY, ops))
  {
    if ops != [] {
      hide RevokedOnce, Revoke, Usable, Rotate;
      var a, op := Run(EMPTY, ops[..|ops| - 1]), ops[|ops| - 1];
      RevokedOnceInvariant(ops[..|ops| - 1]);
      if op.DoLogout? {
        if op.session.Some? {
          RevokeKeepsOnce(a, op.session.value);
        } else if op.presented.Some? && op.presented.value < |a.tokens| {
          RevokeKeepsOnce(a, a.tokens[op.presented.value].session);
        }
      } else if MayRevoke(a, op) {
        RevokeKeepsOnce(a, a.tokens[op.token].session);
      } else {
        QuietKeepsOnce(a, op);
      }
    }
  }

  // ----- each token is exchanged at most once -----

  function Exchanges(a: Auth, ops: seq<Op>, t: TokenId): nat {
    if ops == [] then 0
    else
      var mid, op := Run(a, ops[..|ops| - 1]), ops[|ops| - 1];
      Exchanges(a, ops[..|ops| - 1], t)
      + if op.DoRefresh? && op.token == t && Usable(mid, t) && !mid.tokens[t].used then 1 else 0
  }

  predicate Spent(a: Auth, t: TokenId) { t < |a.tokens| && a.tokens[t].used }

  lemma StepSpends(a: Auth, op: Op, t: TokenId)
    ensures Spent(Step(a, op), t) <==>
      Spent(a, t) || (op.DoRefresh? && op.token == t && Usable(a, t) && !a.tokens[t].used)
  {
  }

  /** Over every run a token is exchanged for a new one at most once: exactly when it is spent. */
  lemma {:induction false} ExchangedAtMostOnce(ops: seq<Op>, t: TokenId)
    ensures Exchanges(EMPTY, ops, t) == if Spent(Run(EMPTY, ops), t) then 1 else 0
  {
    hide Step, Usable;
    if ops != [] {
      hide Spent;
      ExchangedAtMostOnce(ops[..|ops| - 1], t);
      StepSpends(Run(EMPTY, ops[..|ops| - 1]), ops[|ops| - 1], t);
      SpentMeans(Run(EMPTY, ops[..|ops| - 1]), t);
    } else {
      assert !Spent(EMPTY, t);
    }
  }

  lemma SpentMeans(a: Auth, t: TokenId)
    ensures Spent(a, t) ==> t < |a.tokens| && a.tokens[t].used
  {
  }

  // ----- access tokens and the revocation horizon -----

  /** No access token outlives the cap, and one issued before its session's revocation expires by the
      horizon announced with it, whatever lifetimes were configured in between. */
  ghost predicate HorizonOk(a: Auth) {
    && (forall i :: 0 <= i < |a.issued| ==> a.issued[i].exp <= a.now / 1000 + MAX_ACCESS_TTL)
    && (forall i, j ::
          0 <= i < |a.issued| && 0 <= j < |a.outbox| && a.issued[i].session == a.outbox[j].session && a.issued[i].early ==>
          a.issued[i].exp <= a.outbox[j].horizon)
    && (forall j :: 0 <= j < |a.outbox| ==> RevokedIn(a, a.outbox[j].session))
  }

  lemma SignKeepsHorizon(a: Auth, s: SessionId, ttl: AccessTtl)
    requires HorizonOk(a)
    ensures HorizonOk(Sign(a, s, ttl))
  {
  }

  lemma RevokeKeepsHorizon(a: Auth, s: SessionId)
    requires HorizonOk(a)
    ensures HorizonOk(Revoke(a, s))
  {
  }

  lemma QuietKeepsHorizon(a: Auth, d: Auth)
    requires HorizonOk(a) && d.issued == a.issued && d.outbox == a.outbox && a.now <= d.now
    requires forall s: SessionId :: RevokedIn(a, s) ==> RevokedIn(d, s)
    ensures HorizonOk(d)
  {
  }

  lemma StepKeepsHorizon(a: Auth, op: Op)
    requires HorizonOk(a)
    ensures HorizonOk(Step(a, op))
  {
    hide HorizonOk;
    match op
    case Pass(ms) => QuietKeepsHorizon(a, Step(a, op));
    case DoOpen(user, role, cfg) =>
      var s := |a.sessions|;
      var begun := NewToken(a.(sessions := a.sessions + [Session(user, role, false)]), s, cfg.refreshDays);
      QuietKeepsHorizon(a, begun);
      SignKeepsHorizon(begun, s, cfg.accessTtl);
    case DoRefresh(t, cfg) =>
      if Usable(a, t) {
        var row := a.tokens[t];
        if row.used {
          RevokeKeepsHorizon(a, row.session);
        } else {
          var minted := NewToken(a, row.session, cfg.refreshDays);
          var spent := minted.(tokens := minted.tokens[t := row.(used := true, replacedBy := Some(|a.tokens|))]);
          QuietKeepsHorizon(a, spent);
          SignKeepsHorizon(spent, row.session, cfg.accessTtl);
        }
      }
    case DoLogout(s, t) =>
      if s.Some? {
        RevokeKeepsHorizon(a, s.value);
      } else if t.Some? && t.value < |a.tokens| {
        RevokeKeepsHorizon(a, a.tokens[t.value].session);
      }
    case DoSelectRole(s, role, allowed) => QuietKeepsHorizon(a, Step(a, op));
    case LateSign(s, ttl) => SignKeepsHorizon(a, s, ttl);
  }

  lemma {:induction false} HorizonInvariant(ops: seq<Op>)
    ensures HorizonOk(Run(EMPTY, ops))
  {
    hide Step;
    if ops != [] {
      hide HorizonOk;
      HorizonInvariant(ops[..|ops| - 1]);
      StepKeepsHorizon(Run(EMPTY, ops[..|ops| - 1]), ops[|ops| - 1]);
    }
  }
}
