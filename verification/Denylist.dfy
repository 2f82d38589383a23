/** The list of revoked sessions each service keeps in memory, and what it guarantees. */
module Denylist {
  import opened Prelude
  import Tokens

  type Sid = Tokens.SessionId
  type Horizons = map<Sid, int>

  const PRUNE_OVER: nat := 10_000

  /** Horizons are in seconds, the clock in milliseconds. */
  predicate Ahead(horizon: int, now: int) { horizon * 1000 > now }

  // ----- the list as a value -----

  function Pruned(m: Horizons, now: int): Horizons { map s | s in m && Ahead(m[s], now) :: m[s] }

  function Noted(m: Horizons, s: Sid, horizon: int, now: int): Horizons {
    var noted := m[s := horizon];
    if |noted| > PRUNE_OVER then Pruned(noted, now) else noted
  }

  predicate Listed(m: Horizons, s: Sid, now: int) { s in m && Ahead(m[s], now) }

  /** Asking about an entry that has run out drops it. */
  function Asked(m: Horizons, s: Sid, now: int): Horizons { if s in m && !Ahead(m[s], now) then m - {s} else m }

  datatype Call = Note(session: Sid, horizon: int, at: int) | Ask(session: Sid, at: int)

  function Told(m: Horizons, call: Call): Horizons {
    match call
    case Note(s, horizon, at) => Noted(m, s, horizon, at)
    case Ask(s, at) => Asked(m, s, at)
  }

  /** The list after a history of calls: replayed streams, repeats, prunes and lookups. */
  function After(calls: seq<Call>): Horizons {
    if calls == [] then map[] else Told(After(calls[..|calls| - 1]), calls[|calls| - 1])
  }

  /** The simple list that never forgets: the last horizon heard for each session. */
  function Known(calls: seq<Call>): Horizons {
    if calls == [] then map[]
    else
      var m := Known(calls[..|calls| - 1]);
      match calls[|calls| - 1]
      case Note(s, horizon, _) => m[s := horizon]
      case Ask(_, _) => m
  }

  predicate Chronological(calls: seq<Call>, now: int) {
    && (forall i, j :: 0 <= i < j < |calls| ==> calls[i].at <= calls[j].at)
    && (forall i :: 0 <= i < |calls| ==> calls[i].at <= now)
  }

  /** Pruning never changes an answer: at any later moment the list says exactly what one that forgot
      nothing would say, for every session, known or not. */
  lemma {:induction false} PruningIsInvisible(calls: seq<Call>, s: Sid, now: int)
    requires Chronological(calls, now)
    ensures s in After(calls) ==> s in Known(calls) && After(calls)[s] == Known(calls)[s]
    ensures Listed(After(calls), s, now) <==> Listed(Known(calls), s, now)
  {
    if calls != [] {
      var last := calls[|calls| - 1];
      PruningIsInvisible(calls[..|calls| - 1], s, last.at);
    }
  }

  // ----- what a service accepts -----

  /** A verified access token is accepted until it expires, unless its session is listed. */
  predicate Accepts(m: Horizons, token: Tokens.Access, now: int) {
    token.exp > now / 1000 && !Listed(m, token.session, now)
  }

  ghost predicate FromStream(calls: seq<Call>, a: Tokens.Auth) {
    forall i :: 0 <= i < |calls| && calls[i].Note? ==>
      exists j :: 0 <= j < |a.outbox| && a.outbox[j] == Tokens.Revocation(calls[i].session, calls[i].horizon)
  }

  lemma {:induction false} KnownWasHeard(calls: seq<Call>, s: Sid)
    ensures s in Known(calls) <==> exists i :: 0 <= i < |calls| && calls[i].Note? && calls[i].session == s
    ensures s in Known(calls) ==>
      exists i :: 0 <= i < |calls| && calls[i].Note? && calls[i].session == s && calls[i].horizon == Known(calls)[s]
  {
    if calls != [] {
      var init := calls[..|calls| - 1];
      KnownWasHeard(init, s);
      if i :| 0 <= i < |calls| && calls[i].Note? && calls[i].session == s {
        assert i < |init| ==> init[i] == calls[i];
      }
      if i :| 0 <= i < |init| && init[i].Note? && init[i].session == s && s in Known(init) && init[i].horizon == Known(init)[s] {
        assert calls[i] == init[i];
      }
    }
  }

  /** Once a service has heard that a session was revoked it accepts none of the access tokens issued
      before the revocation - at any later time, whatever lifetimes were configured when they were
      issued, and however often the list was pruned or the stream replayed. */
  lemma RevokedTokensStayRefused(ops: seq<Tokens.Op>, calls: seq<Call>, i: nat, k: nat, now: int)
    requires FromStream(calls, Tokens.Run(Tokens.EMPTY, ops)) && Chronological(calls, now)
    requires i < |Tokens.Run(Tokens.EMPTY, ops).issued| && Tokens.Run(Tokens.EMPTY, ops).issued[i].early
    requires k < |calls| && calls[k].Note? && calls[k].session == Tokens.Run(Tokens.EMPTY, ops).issued[i].session
    ensures !Accepts(After(calls), Tokens.Run(Tokens.EMPTY, ops).issued[i], now)
  {
    var a := Tokens.Run(Tokens.EMPTY, ops);
    var token := a.issued[i];
    Tokens.HorizonInvariant(ops);
    hide Tokens.Run;
    KnownWasHeard(calls, token.session);
    PruningIsInvisible(calls, token.session, now);
    var n :| 0 <= n < |calls| && calls[n].Note? && calls[n].session == token.session
      && calls[n].horizon == Known(calls)[token.session];
    var j :| 0 <= j < |a.outbox| && a.outbox[j] == Tokens.Revocation(calls[n].session, calls[n].horizon);
    assert token.exp <= a.outbox[j].horizon;
  }

  /** For any token of a session heard revoked, the exact condition: it is accepted at some moment from
      `last` on if and only if it outlives both that moment and the horizon. */
  lemma AcceptedAgainIff(calls: seq<Call>, token: Tokens.Access, last: nat)
    requires Chronological(calls, last) && token.session in Known(calls)
    ensures (exists now :: last <= now && Accepts(After(calls), token, now))
      <==> token.exp > last / 1000 && token.exp > Known(calls)[token.session]
  {
    hide After, Known;
    var h := Known(calls)[token.session];
    if now :| last <= now && Accepts(After(calls), token, now) {
      PruningIsInvisible(calls, token.session, now);
    }
    if token.exp > last / 1000 && token.exp > h {
      var now := if h * 1000 > last then h * 1000 else last;
      PruningIsInvisible(calls, token.session, now);
      assert Accepts(After(calls), token, now);
    }
  }

  /** A session no one revoked is never refused. */
  lemma OthersAreAccepted(ops: seq<Tokens.Op>, calls: seq<Call>, token: Tokens.Access, now: int)
    requires FromStream(calls, Tokens.Run(Tokens.EMPTY, ops)) && Chronological(calls, now)
    requires !Tokens.RevokedIn(Tokens.Run(Tokens.EMPTY, ops), token.session)
    ensures Accepts(After(calls), token, now) <==> token.exp > now / 1000
  {
    Tokens.HorizonInvariant(ops);
    hide Tokens.Run;
    KnownWasHeard(calls, token.session);
    PruningIsInvisible(calls, token.session, now);
  }

  /** The word "before" is needed: `onboard` signs without looking at the session, so a token signed a
      second after the revocation with the longest lifetime outlives the horizon. */
  lemma LateTokenOutlivesHorizon()
    ensures
      var cfg := Tokens.Settings(3600, 7);
      var a := Tokens.Step(Tokens.Step(Tokens.Step(Tokens.Step(Tokens.EMPTY,
        Tokens.DoOpen(1, "buyer", cfg)), Tokens.DoLogout(Some(0), None)), Tokens.Pass(1000)), Tokens.LateSign(0, 3600));
      var calls := [Note(0, 3600, 1000)];
      && |a.outbox| == 1 && a.outbox[0] == Tokens.Revocation(0, 3600)
      && |a.issued| == 2 && a.issued[1] == Tokens.Access(0, 3601, false)
      && Accepts(After(calls), a.issued[1], 3_600_500)
  {
    var calls := [Note(0, 3600, 1000)];
    assert calls[..0] == [];
    assert After([]) == map[];
  }

  // ----- the list as the service keeps it -----

  lemma AfterCall(calls: seq<Call>, call: Call)
    ensures After(calls + [call]) == Told(After(calls), call)
  {
    assert (calls + [call])[..|calls|] == calls;
  }

  class SessionDenylist {
    var revoked: Horizons
    ghost var calls: seq<Call>

    ghost predicate Valid()
      reads this
    {
      revoked == After(calls)
    }

    constructor ()
      ensures Valid() && calls == []
    {
      revoked := map[];
      calls := [];
    }

    method Prune(now: int)
      modifies this`revoked
      ensures revoked == Pruned(old(revoked), now)
      ensures revoked == map s | s in old(revoked) && old(revoked)[s] * 1000 > now :: old(revoked)[s]
    {
      var todo := revoked.Keys;
      while todo != {}
        invariant todo <= revoked.Keys
        invariant revoked == map s | s in old(revoked) && (s in todo || Ahead(old(revoked)[s], now)) :: old(revoked)[s]
        decreases |todo|
      {
        var s :| s in todo;
        todo := todo - {s};
        if !Ahead(revoked[s], now) {
          revoked := revoked - {s};
        }
      }
    }

    method Revoke(s: Sid, horizon: int, now: int)
      requires Valid()
      modifies this
      ensures Valid() && calls == old(calls) + [Note(s, horizon, now)]
      ensures
        var noted := old(revoked)[s := horizon];
        revoked == if |noted| > 10_000 then map t | t in noted && noted[t] * 1000 > now :: noted[t] else noted
    {
      AfterCall(calls, Note(s, horizon, now));
      revoked := revoked[s := horizon];
      if |revoked| > PRUNE_OVER {
        Prune(now);
      }
      calls := calls + [Note(s, horizon, now)];
    }

    /** Answers as the list that never forgets would. */
    method IsRevoked(s: Sid, now: int) returns (refused: bool)
      requires Valid() && Chronological(calls, now)
      modifies this
      ensures Valid() && calls == old(calls) + [Ask(s, now)]
      ensures refused <==> s in Known(old(calls)) && Known(old(calls))[s] * 1000 > now
    {
      hide After, Known, Noted, Pruned;
      AfterCall(calls, Ask(s, now));
      PruningIsInvisible(calls, s, now);
      hide Chronological;
      calls := calls + [Ask(s, now)];
      if s !in revoked {
        return false;
      }
      if !Ahead(revoked[s], now) {
        revoked := revoked - {s};
        return false;
      }
      return true;
    }
  }
}
