/** The identity service's session and token tables, written row by row. */
module AuthService {
  import opened Prelude
  import opened Tokens

  class Service {
    var now: nat
    var sessions: seq<Session>
    var tokens: seq<Token>
    var outbox: seq<Revocation>
    ghost var issued: seq<Access>

    ghost function State(): Auth
      reads this
    {
      Auth(now, sessions, tokens, outbox, issued)
    }

    constructor ()
      ensures State() == EMPTY
    {
      now, sessions, tokens, outbox, issued := 0, [], [], [], [];
    }

    method NewRefreshToken(s: SessionId, days: RefreshDays) returns (t: TokenId)
      modifies this`tokens
      ensures State() == NewToken(old(State()), s, days) && t == |old(tokens)|
      ensures tokens == old(tokens) + [Token(s, now + days * 86_400_000, false, None)]
    {
      t := |tokens|;
      tokens := tokens + [Token(s, now + days * DAY_MS, false, None)];
    }

    /** Signs an access token; nothing about it is stored. */
    method AccessFor(s: SessionId, ttl: AccessTtl) returns (exp: int)
      modifies this`issued
      ensures State() == Sign(old(State()), s, ttl) && exp == now / 1000 + ttl
      ensures issued == old(issued) + [Access(s, exp, s < |sessions| && !sessions[s].revoked)]
      ensures now / 1000 + 60 <= exp <= now / 1000 + 3600
    {
      exp := now / 1000 + ttl;
      issued := issued + [Access(s, exp, s < |sessions| && !sessions[s].revoked)];
    }

    /** The end of both `register` and `login`. */
    method Open(user: nat, role: string, cfg: Settings) returns (t: TokenId)
      modifies this`sessions, this`tokens, this`issued
      ensures State() == Step(old(State()), DoOpen(user, role, cfg))
      ensures t == |old(tokens)|
    {
      var s := |sessions|;
      sessions := sessions + [Session(user, role, false)];
      t := NewRefreshToken(s, cfg.refreshDays);
      var _ := AccessFor(s, cfg.accessTtl);
    }

    method RevokeSession(s: SessionId)
      modifies this`sessions, this`outbox
      ensures State() == Revoke(old(State()), s)
      ensures if s < |old(sessions)| && !old(sessions)[s].revoked then Ends(old(State()), State(), s)
              else State() == old(State())
    {
      if s < |sessions| && !sessions[s].revoked {
        sessions := sessions[s := sessions[s].(revoked := true)];
        outbox := outbox + [Revocation(s, now / 1000 + MAX_ACCESS_TTL)];
      }
    }

    method RefreshTokens(presented: TokenId, cfg: Settings) returns (r: Result<Refreshed, Error>)
      modifies this`sessions, this`tokens, this`outbox, this`issued
      ensures State() == Step(old(State()), DoRefresh(presented, cfg))
      ensures var spec := Refresh(old(State()), presented, cfg);
        r == (if spec.Ok? then Ok(spec.value.1) else Err(spec.error))
    {
      if presented >= |tokens| || tokens[presented].session >= |sessions| {
        return Err(Unauthorized);
      }
      var row := tokens[presented];
      if sessions[row.session].revoked || row.expiresAt <= now {
        return Err(Unauthorized);
      }
      if row.used {
        RevokeSession(row.session);
        return Ok(Reused);
      }
      var replacedBy := NewRefreshToken(row.session, cfg.refreshDays);
      tokens := tokens[presented := row.(used := true, replacedBy := Some(replacedBy))];
      var _ := AccessFor(row.session, cfg.accessTtl);
      return Ok(Fresh(replacedBy));
    }

    method LogoutBy(session: Option<SessionId>, token: Option<TokenId>)
      modifies this`sessions, this`outbox
      ensures State() == Step(old(State()), DoLogout(session, token))
    {
      var s := session;
      if s.None? && token.Some? && token.value < |tokens| {
        s := Some(tokens[token.value].session);
      }
      if s.Some? {
        RevokeSession(s.value);
      }
    }

    /** The new access token is signed after the update, as a step of its own. */
    method SelectRoleOf(s: SessionId, role: string, allowed: seq<string>) returns (r: Result<(), Error>)
      modifies this`sessions
      ensures State() == Step(old(State()), DoSelectRole(s, role, allowed))
      ensures r.Ok? <==> role in allowed && s < |old(sessions)| && !old(sessions)[s].revoked
      ensures role !in allowed ==> r == Err(Forbidden)
      ensures r.Err? && role in allowed ==> r == Err(NotFound)
      ensures sessions == if r.Ok? then old(sessions)[s := old(sessions)[s].(role := role)] else old(sessions)
    {
      if role !in allowed {
        return Err(Forbidden);
      }
      if s >= |sessions| || sessions[s].revoked {
        return Err(NotFound);
      }
      sessions := sessions[s := sessions[s].(role := role)];
      return Ok(());
    }

    method Serve(op: Op)
      modifies this
      ensures State() == Step(old(State()), op)
    {
      match op
      case Pass(ms) => now := now + ms;
      case DoOpen(user, role, cfg) => var _ := Open(user, role, cfg);
      case DoRefresh(t, cfg) => var _ := RefreshTokens(t, cfg);
      case DoLogout(s, t) => LogoutBy(s, t);
      case DoSelectRole(s, role, allowed) => var _ := SelectRoleOf(s, role, allowed);
      case LateSign(s, ttl) => var _ := AccessFor(s, ttl);
    }

    /** Over any sequence of requests: every session's tokens are one chain with one unused token at its
        end, each revoked session was announced once, and no early token outlives its horizon. */
    method ServeAll(ops: seq<Op>)
      requires State() == EMPTY
      modifies this
      ensures State() == Run(EMPTY, ops)
      ensures ChainsOk(State()) && RevokedOnce(State()) && HorizonOk(State())
    {
      hide Step, ChainsOk, RevokedOnce, HorizonOk;
      for i := 0 to |ops|
        invariant State() == Run(EMPTY, ops[..i])
      {
        assert ops[..i + 1][..i] == ops[..i];
        Serve(ops[i]);
      }
      assert ops[..|ops|] == ops;
      ChainsInvariant(ops);
      RevokedOnceInvariant(ops);
      HorizonInvariant(ops);
    }
  }
}
