/** One consumer queue with its retry and parking queues, and the life of a message in it.

    The broker is taken to keep a copy published to the parking exchange: that publish, unlike the
    relay's, waits for no confirmation. */
module Consumer {
  import opened Prelude

  type EventId = nat

  /** The broker's record of a dead-lettering: how often, from which queue. */
  datatype Death = Death(count: Option<nat>, fromRetry: bool)
  datatype Message = Message(id: EventId, deaths: seq<Death>)

  function Count(deaths: seq<Death>): nat {
    if deaths == [] then 0
    else Count(deaths[..|deaths| - 1]) + deaths[|deaths| - 1].count.GetOr(0)
  }

  /** `1 + sum / 2`, a fraction in JavaScript. */
  function Attempts(m: Message): real { 1.0 + Count(m.deaths) as real / 2.0 }

  /** The broker keeps one entry per queue and moves the latest to the front. */
  function Recorded(deaths: seq<Death>, fromRetry: bool): seq<Death> {
    var at := EntryOf(deaths, fromRetry);
    if at.None? then [Death(Some(1), fromRetry)] + deaths
    else
      [Death(Some(deaths[at.value].count.GetOr(0) + 1), fromRetry)] + deaths[..at.value] + deaths[at.value + 1..]
  }

  function EntryOf(deaths: seq<Death>, fromRetry: bool): (at: Option<nat>)
    ensures at.Some? ==> at.value < |deaths| && deaths[at.value].fromRetry == fromRetry
    ensures at.None? ==> forall i :: 0 <= i < |deaths| ==> deaths[i].fromRetry != fromRetry
  {
    if deaths == [] then None
    else
      var init := EntryOf(deaths[..|deaths| - 1], fromRetry);
      if init.Some? then init
      else if deaths[|deaths| - 1].fromRetry == fromRetry then Some(|deaths| - 1)
      else None
  }

  lemma {:induction false} CountConcat(a: seq<Death>, b: seq<Death>)
    ensures Count(a + b) == Count(a) + Count(b)
  {
    if b == [] {
      assert a + b == a;
    } else {
      CountConcat(a, b[..|b| - 1]);
      assert (a + b)[..|a + b| - 1] == a + b[..|b| - 1];
    }
  }

  /** However the entries are laid out, one more death adds one to their sum. */
  lemma RecordedCounts(deaths: seq<Death>, fromRetry: bool)
    ensures Count(Recorded(deaths, fromRetry)) == Count(deaths) + 1
  {
    var at := EntryOf(deaths, fromRetry);
    if at.None? {
      CountConcat([Death(Some(1), fromRetry)], deaths);
      assert [Death(Some(1), fromRetry)][..0] == [];
    } else {
      var i := at.value;
      var entry := deaths[i];
      var head := [Death(Some(entry.count.GetOr(0) + 1), fromRetry)];
      assert deaths == deaths[..i] + [entry] + deaths[i + 1..];
      CountConcat(deaths[..i] + [entry], deaths[i + 1..]);
      CountConcat(deaths[..i], [entry]);
      CountConcat(head + deaths[..i], deaths[i + 1..]);
      CountConcat(head, deaths[..i]);
      assert head[..0] == [] && [entry][..0] == [];
    }
  }

  // ----- one delivery -----

  datatype Settings = Settings(stream: bool, maxAttempts: int)

  /** How a delivery goes: unparsable, handled (or of a type nobody handles), failed; or the process dies
      before deciding anything, or after what it does for a malformed or failed message but before the
      acknowledgement. */
  datatype Outcome = Malformed | Handled | Failed | Died | DiedUnacked(malformed: bool)

  datatype Verdict = Ack | Nack | Requeue

  predicate GivesUp(m: Message, cfg: Settings) { Attempts(m) >= cfg.maxAttempts as real }

  predicate Parks(m: Message, cfg: Settings, outcome: Outcome) {
    && !cfg.stream
    && match outcome
       case Malformed => true
       case Failed => GivesUp(m, cfg)
       case DiedUnacked(malformed) => malformed || GivesUp(m, cfg)
       case _ => false
  }

  function VerdictOn(m: Message, cfg: Settings, outcome: Outcome): Verdict {
    match outcome
    case Malformed => Ack
    case Handled => Ack
    case Failed => if cfg.stream || GivesUp(m, cfg) then Ack else Nack
    case Died => Requeue
    case DiedUnacked(_) => Requeue
  }

  // ----- the message's life -----

  /** `runs` counts runs of the handler, `failed` the failures it reported, `parked` copies parked;
      `done` means acknowledged for good, and `waiting` in the retry queue. */
  datatype Life = Life(m: Message, waiting: bool, done: bool, runs: nat, failed: nat, parked: nat, succeeded: bool)

  function Arrive(id: EventId): Life { Life(Message(id, []), false, false, 0, 0, 0, false) }

  /** A rejected message dead-letters to the retry queue; one requeued goes back as it was. */
  function Delivered(l: Life, cfg: Settings, outcome: Outcome): Life {
    if l.done || l.waiting then l
    else
      var after := l.(
        runs := if outcome.Malformed? || outcome == DiedUnacked(true) then l.runs else l.runs + 1,
        failed := if outcome.Failed? then l.failed + 1 else l.failed,
        parked := if Parks(l.m, cfg, outcome) then l.parked + 1 else l.parked,
        succeeded := outcome.Handled?);
      match VerdictOn(l.m, cfg, outcome)
      case Ack => after.(done := true)
      case Requeue => after
      case Nack => after.(waiting := true, m := l.m.(deaths := Recorded(l.m.deaths, false)))
  }

  /** The retry queue's time-to-live runs out: back to the consumer's queue, and to no other. */
  function Redelivered(l: Life): Life {
    if l.waiting then l.(waiting := false, m := l.m.(deaths := Recorded(l.m.deaths, true))) else l
  }

  datatype Turn = Delivery(outcome: Outcome) | RetryExpires

  function Take(l: Life, cfg: Settings, turn: Turn): Life {
    match turn
    case Delivery(outcome) => Delivered(l, cfg, outcome)
    case RetryExpires => Redelivered(l)
  }

  function LifeOf(id: EventId, cfg: Settings, turns: seq<Turn>): Life {
    if turns == [] then Arrive(id) else Take(LifeOf(id, cfg, turns[..|turns| - 1]), cfg, turns[|turns| - 1])
  }

  /** A message is in the queue with two deaths per failure, in the retry queue one short of that, or
      acknowledged - and then it was handled or a copy is parked. */
  ghost predicate LifeOk(l: Life, cfg: Settings) {
    && (!l.done && !l.waiting ==> Count(l.m.deaths) == 2 * l.failed)
    && (!l.done && l.waiting ==> l.failed >= 1 && Count(l.m.deaths) == 2 * l.failed - 1)
    && (l.done ==> !l.waiting && (l.succeeded || l.parked >= 1 || cfg.stream))
  }

  lemma TurnKeepsLife(l: Life, cfg: Settings, turn: Turn)
    requires LifeOk(l, cfg)
    ensures LifeOk(Take(l, cfg, turn), cfg)
  {
    hide GivesUp, Attempts, Recorded, Count;
    RecordedCounts(l.m.deaths, false);
    RecordedCounts(l.m.deaths, true);
  }

  /** Under any mix of failures, crashes and redeliveries no message is lost, and the attempt number a
      handler's failure is judged by is one more than the failures before it; crashes do not count. */
  lemma {:induction false} NoMessageLost(id: EventId, cfg: Settings, turns: seq<Turn>)
    ensures LifeOk(LifeOf(id, cfg, turns), cfg)
    ensures
      var l := LifeOf(id, cfg, turns);
      !l.done && !l.waiting ==> Attempts(l.m) == (1 + l.failed) as real
  {
    hide Take;
    if turns != [] {
      hide LifeOk;
      NoMessageLost(id, cfg, turns[..|turns| - 1]);
      TurnKeepsLife(LifeOf(id, cfg, turns[..|turns| - 1]), cfg, turns[|turns| - 1]);
    }
    InQueue(LifeOf(id, cfg, turns), cfg);
  }

  lemma InQueue(l: Life, cfg: Settings)
    requires LifeOk(l, cfg)
    ensures !l.done && !l.waiting ==> Attempts(l.m) == (1 + l.failed) as real
  {
  }

  function Limit(cfg: Settings): nat { if cfg.maxAttempts >= 1 then cfg.maxAttempts else 1 }

  /** A handler that always fails: how much of its budget is left, counting both queues. */
  function Left(l: Life, cfg: Settings): int {
    if l.done then 0 else 2 * (Limit(cfg) - l.failed) + if l.waiting then 1 else 0
  }

  ghost predicate AlwaysFails(turns: seq<Turn>) {
    forall k :: 0 <= k < |turns| ==> turns[k].RetryExpires? || turns[k].outcome.Failed?
  }

  ghost predicate Failing(l: Life, cfg: Settings) {
    && LifeOk(l, cfg)
    && l.runs == l.failed && l.failed <= Limit(cfg) && !l.succeeded
    && (l.done <==> l.failed == Limit(cfg))
    && l.parked == if l.done then 1 else 0
  }

  lemma FailureCounts(l: Life, cfg: Settings, turn: Turn)
    requires Failing(l, cfg) && !cfg.stream && (turn.RetryExpires? || turn.outcome.Failed?)
    ensures Failing(Take(l, cfg, turn), cfg)
    ensures 0 <= Left(Take(l, cfg, turn), cfg) <= Left(l, cfg)
    ensures !l.done && (turn.RetryExpires? <==> l.waiting) ==> Left(Take(l, cfg, turn), cfg) < Left(l, cfg)
  {
    TurnKeepsLife(l, cfg, turn);
    InQueue(l, cfg);
    hide Attempts, Recorded;
  }

  /** A message whose handler always fails is handed to it at most `maxAttempts` times (once, if that
      is less than one), and exactly when it has been the last time it is parked, once, for good. */
  lemma {:induction false} FailsExactlyMaxAttempts(id: EventId, cfg: Settings, turns: seq<Turn>)
    requires !cfg.stream && AlwaysFails(turns)
    ensures
      var l := LifeOf(id, cfg, turns);
      && l.runs <= Limit(cfg)
      && (l.done <==> l.runs == Limit(cfg))
      && l.parked == (if l.done then 1 else 0)
      && Failing(l, cfg)
  {
    hide Take;
    if turns != [] {
      FailsExactlyMaxAttempts(id, cfg, turns[..|turns| - 1]);
      FailureCounts(LifeOf(id, cfg, turns[..|turns| - 1]), cfg, turns[|turns| - 1]);
    }
  }

  function Cycles(n: nat): seq<Turn> {
    if n == 0 then [] else Cycles(n - 1) + [Delivery(Failed), RetryExpires]
  }

  /** And it does get there: that many rounds of delivery and retry finish it. */
  lemma {:induction false} CyclesPark(id: EventId, cfg: Settings, n: nat)
    requires !cfg.stream
    ensures
      var l := LifeOf(id, cfg, Cycles(n));
      && Failing(l, cfg) && !l.waiting
      && (if n >= Limit(cfg) then l.done else !l.done && l.failed == n)
  {
    hide Take;
    if n > 0 {
      CyclesPark(id, cfg, n - 1);
      var before := Cycles(n - 1);
      var l := LifeOf(id, cfg, before);
      assert Cycles(n)[..|Cycles(n)| - 1] == before + [Delivery(Failed)];
      assert (before + [Delivery(Failed)])[..|before|] == before;
      OneCycle(l, cfg);
    }
  }

  lemma OneCycle(l: Life, cfg: Settings)
    requires Failing(l, cfg) && !cfg.stream && !l.waiting
    ensures
      var after := Take(Take(l, cfg, Delivery(Failed)), cfg, RetryExpires);
      && Failing(after, cfg) && !after.waiting
      && (if l.done then after == l
          else after.failed == l.failed + 1)
  {
    FailureCounts(l, cfg, Delivery(Failed));
    FailureCounts(Take(l, cfg, Delivery(Failed)), cfg, RetryExpires);
    hide Attempts, Recorded;
  }

  /** The process dies with a copy of the message parked but not acknowledged. */
  predicate DiesParked(l: Life, cfg: Settings, turn: Turn) {
    && !l.done && !l.waiting
    && turn.Delivery? && turn.outcome.DiedUnacked? && Parks(l.m, cfg, turn.outcome)
  }

  function DeathsParked(id: EventId, cfg: Settings, turns: seq<Turn>): nat {
    if turns == [] then 0
    else
      DeathsParked(id, cfg, turns[..|turns| - 1])
      + if DiesParked(LifeOf(id, cfg, turns[..|turns| - 1]), cfg, turns[|turns| - 1]) then 1 else 0
  }

  /** Acknowledged without having been handled. */
  predicate GivenUp(l: Life) { l.done && !l.succeeded }

  lemma ParkedGrows(l: Life, cfg: Settings, turn: Turn)
    requires l.waiting ==> !l.done
    ensures
      var after := Take(l, cfg, turn);
      && (after.waiting ==> !after.done)
      && after.parked - (if GivenUp(after) && !cfg.stream then 1 else 0)
           == l.parked - (if GivenUp(l) && !cfg.stream then 1 else 0) + (if DiesParked(l, cfg, turn) then 1 else 0)
  {
    hide GivesUp, Attempts, Recorded;
  }

  /** Parking and acknowledging are two steps. Exactly: one copy for each death in between, and one for
      giving the message up. */
  lemma {:induction false} ParkedExactly(id: EventId, cfg: Settings, turns: seq<Turn>)
    ensures
      var l := LifeOf(id, cfg, turns);
      && (l.waiting ==> !l.done)
      && l.parked == DeathsParked(id, cfg, turns) + if GivenUp(l) && !cfg.stream then 1 else 0
  {
    if turns != [] {
      hide Take, DiesParked, GivenUp;
      ParkedExactly(id, cfg, turns[..|turns| - 1]);
      ParkedGrows(LifeOf(id, cfg, turns[..|turns| - 1]), cfg, turns[|turns| - 1]);
    } else {
      hide DiesParked;
    }
  }

  /** So a message is parked at most once if and only if the process never died over a parked copy, or
      did so once and the message was handled in the end or is still on its way. */
  lemma ParkedAtMostOnceIff(id: EventId, cfg: Settings, turns: seq<Turn>)
    requires !cfg.stream
    ensures
      var deaths := DeathsParked(id, cfg, turns);
      LifeOf(id, cfg, turns).parked <= 1 <==>
        deaths == 0 || (deaths == 1 && !GivenUp(LifeOf(id, cfg, turns)))
  {
    hide Take;
    ParkedExactly(id, cfg, turns);
  }

  /** Both ways of parking twice: a failed and a malformed message. */
  lemma CrashParksTwice(id: EventId)
    ensures LifeOf(id, Settings(false, 1), [Delivery(DiedUnacked(false)), Delivery(Failed)]).parked == 2
    ensures LifeOf(id, Settings(false, 5), [Delivery(DiedUnacked(true)), Delivery(Malformed)]).parked == 2
  {
    TwoTurns(id, Settings(false, 1), Delivery(DiedUnacked(false)), Delivery(Failed));
    TwoTurns(id, Settings(false, 5), Delivery(DiedUnacked(true)), Delivery(Malformed));
  }

  lemma TwoTurns(id: EventId, cfg: Settings, first: Turn, second: Turn)
    ensures LifeOf(id, cfg, [first, second]) == Take(Take(Arrive(id), cfg, first), cfg, second)
  {
    hide Take;
    assert [first, second][..1] == [first] && [first][..0] == [];
    assert LifeOf(id, cfg, []) == Arrive(id);
    assert LifeOf(id, cfg, [first]) == Take(Arrive(id), cfg, first);
  }

  /** A stream is never retried or parked: the first delivery that ends acknowledges it. */
  lemma StreamsAckEverything(l: Life, cfg: Settings, outcome: Outcome)
    requires cfg.stream && !l.done && !l.waiting && !outcome.Died? && !outcome.DiedUnacked?
    ensures Delivered(l, cfg, outcome).done && Delivered(l, cfg, outcome).parked == l.parked
  {
  }

  // ----- the channel -----

  /** What one instance tells the broker about the messages it is handed. */
  class Channel {
    const cfg: Settings
    var acked: seq<Message>
    var nacked: seq<Message>
    var parked: seq<Message>

    constructor (cfg: Settings)
      ensures this.cfg == cfg && acked == [] && nacked == [] && parked == []
    {
      this.cfg := cfg;
      acked, nacked, parked := [], [], [];
    }

    method Park(m: Message)
      modifies this`parked
      ensures parked == if cfg.stream then old(parked) else old(parked) + [m]
    {
      if !cfg.stream {
        parked := parked + [m];
      }
    }

    /** One callback, for a delivery that does not kill the process: `parsed` and `handled` are the
        results of reading the envelope and of running the handler. */
    method OnMessage(m: Message, parsed: bool, handled: bool)
      modifies this`acked, this`nacked, this`parked
      ensures
        var outcome := if !parsed then Malformed else if handled then Handled else Failed;
        && acked == (if VerdictOn(m, cfg, outcome).Ack? then old(acked) + [m] else old(acked))
        && nacked == (if VerdictOn(m, cfg, outcome).Nack? then old(nacked) + [m] else old(nacked))
        && parked == (if Parks(m, cfg, outcome) then old(parked) + [m] else old(parked))
      ensures
        var lastTry := 2 + Count(m.deaths) >= 2 * cfg.maxAttempts;
        var retried := parsed && !handled && !cfg.stream && !lastTry;
        && acked == (if retried then old(acked) else old(acked) + [m])
        && nacked == (if retried then old(nacked) + [m] else old(nacked))
        && parked == (if !cfg.stream && (!parsed || (!handled && lastTry)) then old(parked) + [m] else old(parked))
    {
      if !parsed {
        Park(m);
        acked := acked + [m];
        return;
      }
      if handled {
        acked := acked + [m];
        return;
      }
      var attempt := Attempts(m);
      if cfg.stream {
        acked := acked + [m];
        return;
      }
      if attempt >= cfg.maxAttempts as real {
        Park(m);
        acked := acked + [m];
        return;
      }
      nacked := nacked + [m];
    }
  }

  // ----- the inbox -----

  /** Event ids already processed, recorded in the transaction of their effect. */
  class Inbox {
    var seen: set<EventId>

    constructor ()
      ensures seen == {}
    {
      seen := {};
    }

    /** True exactly the first time an id is offered. */
    method FirstDelivery(id: EventId) returns (first: bool)
      modifies this
      ensures first <==> id !in old(seen)
      ensures seen == old(seen) + {id}
    {
      first := id !in seen;
      seen := seen + {id};
    }

    /** Any sequence of redeliveries runs the guarded effect once per distinct id. */
    method Deliver(ids: seq<EventId>) returns (effects: seq<EventId>)
      modifies this
      ensures seen == old(seen) + set id | id in ids
      ensures forall id :: id in effects <==> id in ids && id !in old(seen)
      ensures forall i, j :: 0 <= i < j < |effects| ==> effects[i] != effects[j]
    {
      effects := [];
      for i := 0 to |ids|
        invariant seen == old(seen) + set id | id in ids[..i]
        invariant forall id :: id in effects <==> id in ids[..i] && id !in old(seen)
        invariant forall k, j :: 0 <= k < j < |effects| ==> effects[k] != effects[j]
      {
        var first := FirstDelivery(ids[i]);
        if first {
          effects := effects + [ids[i]];
        }
      }
      assert ids[..|ids|] == ids;
    }
  }
}
