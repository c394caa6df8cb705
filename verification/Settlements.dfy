/** How each request is settled: over every run, a request is resolved by the one reply that fits it, and by
    nothing else. */
module Settlements {
  import opened Options
  import opened WorkerProtocol

  /** The reply is for request `id`, not from an earlier worker, and neither output nor an error. */
  predicate Answers(s: State, m: Message, id: nat) {
    && m.id == id && (m.generation == None || m.generation == Some(s.workerGeneration))
    && m.kind != "stream" && m.kind != "error"
  }

  /** The type of reply that the request asks for which this event makes. */
  predicate AsksFor(e: Event, kind: string) {
    match e
    case Execute(_) => kind == "execute_reply"
    case Ask(expectedType, _, _) => kind == expectedType
    case Fire(_, _) => kind == "kernel_info_reply"
    case Crash(_) => kind == "kernel_info_reply"
    case _ => false
  }

  /** Request 1 is the first worker's initial one; every other is made by the event that takes its number. */
  ghost predicate MadeFor(cfg: Config, s: State, events: seq<Event>, id: nat, kind: string) {
    || (id == 1 && kind == "kernel_info_reply")
    || exists j :: 0 <= j < |events| && TakesNumber(cfg, s, events, id, j) && AsksFor(events[j], kind)
  }

  predicate TakesNumber(cfg: Config, s: State, events: seq<Event>, id: nat, j: nat)
    requires j < |events|
  {
    Before(cfg, s, events, j).nextMessageId == id && Before(cfg, s, events, j + 1).nextMessageId == id + 1
  }

  // ---- One event ----

  predicate IsResolved(s: State, id: nat) {
    id in s.outcomes && s.outcomes[id] == Resolved
  }

  predicate Resolves(s: State, e: Event, id: nat) {
    e.Receive? && Answers(s, e.message, id) && id in s.pending && e.message.kind == s.pending[id].expectedType
  }

  /** A request pending afterwards was pending before, or is new and of the type the event asks for. */
  predicate EntersOnly(s: State, e: Event, s': State, id: nat)
    requires id in s'.pending
  {
    if id in s.pending then s'.pending[id].expectedType == s.pending[id].expectedType
    else id == s.nextMessageId && s'.nextMessageId == id + 1 && AsksFor(e, s'.pending[id].expectedType)
  }

  lemma RequestSettles(cfg: Config, s: State, execute: bool, expectedType: string, timeoutMs: real,
                       postFails: bool, id: nat)
    requires Inv(s)
    ensures var s' := Request(cfg, s, execute, expectedType, timeoutMs, postFails);
            && (IsResolved(s', id) <==> IsResolved(s, id)) && s'.nextMessageId == s.nextMessageId + 1
            && (id in s'.pending && id in s.pending ==> s'.pending[id].expectedType == s.pending[id].expectedType)
            && (id in s'.pending && id !in s.pending ==>
                  id == s.nextMessageId && s'.pending[id].expectedType == expectedType)
  {
    Unsettled(s, s.nextMessageId);
    hide Inv;
  }

  lemma RejectAllSettles(s: State, id: nat)
    requires id in s.pending ==> id !in s.outcomes
    ensures IsResolved(RejectAll(s), id) <==> IsResolved(s, id)
    ensures RejectAll(s).pending == map[] && RejectAll(s).nextMessageId == s.nextMessageId
  {
  }

  lemma RestartSettles(cfg: Config, s: State, initFails: bool, id: nat)
    requires Inv(s)
    ensures var s' := Restart(cfg, s, initFails);
            && (IsResolved(s', id) <==> IsResolved(s, id)) && s'.nextMessageId == s.nextMessageId + 1
            && (id in s'.pending ==>
                  id == s.nextMessageId && id !in s.pending && s'.pending[id].expectedType == "kernel_info_reply")
  {
    if id in s.pending {
      Unsettled(s, id);
      assert PendingOk(s, id);
    }
    hide Inv, RejectAll, Request;
    var s1 := ResetFlag(cfg, NextGeneration(s));
    RejectAllSettles(s1, id);
    RejectedKeeps(cfg, s);
    RequestSettles(cfg, RejectAll(s1), false, "kernel_info_reply", READY_TIMEOUT_MS, initFails, id);
  }

  lemma FireSettles(cfg: Config, s: State, t: nat, initFails: bool, id: nat)
    requires Inv(s) && t in s.timers
    ensures var s' := FireTimer(cfg, s, t, initFails);
            && (IsResolved(s', id) <==> IsResolved(s, id))
            && (id in s'.pending && id in s.pending ==> s'.pending[id].expectedType == s.pending[id].expectedType)
            && (id in s'.pending && id !in s.pending ==>
                  && id == s.nextMessageId && s'.nextMessageId == id + 1
                  && s'.pending[id].expectedType == "kernel_info_reply")
  {
    hide Restart;
    var timer := s.timers[t];
    if timer.kind != Soft {
      HardOwes(s, t);
      var s1 := s.(timers := s.timers - {t}, pending := s.pending - {timer.id});
      SettlePays(s1, timer.id, Rejected);
      Unsettled(s, timer.id);
      if timer.kind == HardExecute {
        RestartSettles(cfg, Settle(s1, timer.id, Rejected), initFails, id);
        assert id == timer.id ==> PendingOk(s, id);
      }
    }
  }

  /** One event resolves a request exactly when it is the fitting reply while the request is pending. */
  lemma StepSettles(cfg: Config, s: State, e: Event, id: nat)
    requires Inv(s)
    ensures IsResolved(Step(cfg, s, e), id) <==> IsResolved(s, id) || Resolves(s, e, id)
    ensures var s' := Step(cfg, s, e); id in s'.pending ==> EntersOnly(s, e, s', id)
  {
    hide Request, Restart, RejectAll, FireTimer;
    if id in s.pending {
      Unsettled(s, id);
    }
    match e
    case Execute(postFails) => RequestSettles(cfg, s, true, "execute_reply", cfg.hardTimeoutMs, postFails, id);
    case Ask(expectedType, timeoutMs, postFails) =>
      RequestSettles(cfg, s, false, expectedType, timeoutMs, postFails, id);
    case Receive(m) =>
      assert m.id in s.pending ==> PendingOk(s, m.id);
    case Fire(t, initFails) =>
      if MayFire(s, t) {
        FireSettles(cfg, s, t, initFails, id);
      }
    case Crash(initFails) => RestartSettles(cfg, s, initFails, id);
    case Interrupt =>
    case WorkerBegins =>
    case Dispose => RejectAllSettles(s, id);
  }

  // ---- Over whole runs ----

  lemma BeforeLonger(cfg: Config, s: State, events: seq<Event>, e: Event, k: nat)
    requires k <= |events|
    ensures Before(cfg, s, events + [e], k) == Before(cfg, s, events, k)
  {
    assert (events + [e])[..k] == events[..k];
  }

  lemma BeforeEnd(cfg: Config, s: State, events: seq<Event>, e: Event)
    ensures Before(cfg, s, events, |events|) == Run(cfg, s, events)
    ensures Before(cfg, s, events + [e], |events| + 1) == Step(cfg, Run(cfg, s, events), e)
  {
    hide Run, Step;
    assert events[..|events|] == events && (events + [e])[..|events| + 1] == events + [e];
    RunLast(cfg, s, events, e);
  }

  lemma MadeForLonger(cfg: Config, s: State, events: seq<Event>, e: Event, id: nat, kind: string)
    requires MadeFor(cfg, s, events, id, kind)
    ensures MadeFor(cfg, s, events + [e], id, kind)
  {
    hide Run, AsksFor;
    if !(id == 1 && kind == "kernel_info_reply") {
      var j :| 0 <= j < |events| && TakesNumber(cfg, s, events, id, j) && AsksFor(events[j], kind);
      BeforeLonger(cfg, s, events, e, j);
      BeforeLonger(cfg, s, events, e, j + 1);
      assert TakesNumber(cfg, s, events + [e], id, j) && (events + [e])[j] == events[j];
    }
  }

  /** Message ids count up, so a number is taken once. */
  lemma MadeForOne(cfg: Config, s: State, events: seq<Event>, id: nat, kind: string, other: string)
    requires Inv(s) && 1 < s.nextMessageId
    requires MadeFor(cfg, s, events, id, kind) && MadeFor(cfg, s, events, id, other)
    ensures kind == other
  {
    hide Run, Inv, AsksFor;
    forall j | 0 <= j < |events| && TakesNumber(cfg, s, events, id, j)
      ensures id != 1
      ensures forall i :: 0 <= i < j ==> !TakesNumber(cfg, s, events, id, i)
    {
      NumbersGrow(cfg, s, events, 0, j);
      assert events[..0] == [];
      RunNothing(cfg, s);
      forall i | 0 <= i < j ensures !TakesNumber(cfg, s, events, id, i) {
        NumbersGrow(cfg, s, events, i + 1, j);
      }
    }
    if id != 1 {
      var i :| 0 <= i < |events| && TakesNumber(cfg, s, events, id, i) && AsksFor(events[i], kind);
      var j :| 0 <= j < |events| && TakesNumber(cfg, s, events, id, j) && AsksFor(events[j], other);
      assert i == j;
      OneKind(events[i], kind, other);
    }
  }

  lemma OneKind(e: Event, kind: string, other: string)
    requires AsksFor(e, kind) && AsksFor(e, other)
    ensures kind == other
  {
  }

  lemma RunNothing(cfg: Config, s: State)
    ensures Run(cfg, s, []) == s
  {
  }

  lemma NumbersGrow(cfg: Config, s: State, events: seq<Event>, i: nat, j: nat)
    requires Inv(s) && i <= j <= |events|
    ensures Before(cfg, s, events, i).nextMessageId <= Before(cfg, s, events, j).nextMessageId
    decreases j - i
  {
    hide Run, Inv, Step;
    if i < j {
      NumbersGrow(cfg, s, events, i, j - 1);
      assert events[..j] == events[..j - 1] + [events[j - 1]];
      RunLast(cfg, s, events[..j - 1], events[j - 1]);
      RunKeeps(cfg, s, events[..j - 1]);
      StepFollows(cfg, Run(cfg, s, events[..j - 1]), events[j - 1]);
    }
  }

  /** A pending request waits for the type of reply that the event asked for which made it. */
  lemma {:induction false} PendingWaitsFor(cfg: Config, s: State, events: seq<Event>, id: nat)
    requires Inv(s) && forall i :: i in s.pending ==> i == 1 && s.pending[i].expectedType == "kernel_info_reply"
    requires id in Run(cfg, s, events).pending
    ensures MadeFor(cfg, s, events, id, Run(cfg, s, events).pending[id].expectedType)
    decreases |events|
  {
    hide Run, Inv, Step;
    if events == [] {
      RunNothing(cfg, s);
    } else {
      var n := |events| - 1;
      var front, e := events[..n], events[n];
      assert events == front + [e];
      var s1, s2 := Run(cfg, s, front), Run(cfg, s, events);
      RunLast(cfg, s, front, e);
      RunKeeps(cfg, s, front);
      StepSettles(cfg, s1, e, id);
      if id in s1.pending {
        PendingWaitsFor(cfg, s, front, id);
        MadeForLonger(cfg, s, front, e, id, s2.pending[id].expectedType);
      } else {
        BeforeEnd(cfg, s, front, e);
        BeforeLonger(cfg, s, front, e, n);
        assert TakesNumber(cfg, s, events, id, n);
      }
    }
  }

  /** The k-th event is a reply to the pending request, of the type that was asked for when it was made. */
  ghost predicate FitsAt(cfg: Config, s: State, events: seq<Event>, id: nat, k: nat)
    requires k < |events|
  {
    && events[k].Receive? && Answers(Before(cfg, s, events, k), events[k].message, id)
    && id in Before(cfg, s, events, k).pending
    && MadeFor(cfg, s, events[..k], id, events[k].message.kind)
  }

  lemma FitsLonger(cfg: Config, s: State, events: seq<Event>, e: Event, id: nat, k: nat)
    requires k < |events|
    ensures FitsAt(cfg, s, events + [e], id, k) <==> FitsAt(cfg, s, events, id, k)
  {
    hide Run, MadeFor, Answers;
    BeforeLonger(cfg, s, events, e, k);
    assert (events + [e])[..k] == events[..k] && (events + [e])[k] == events[k];
  }

  /** The last event fits exactly when it resolves the request. */
  lemma FitsLast(cfg: Config, s: State, events: seq<Event>, e: Event, id: nat)
    requires Inv(s) && 1 < s.nextMessageId
    requires forall i :: i in s.pending ==> i == 1 && s.pending[i].expectedType == "kernel_info_reply"
    ensures FitsAt(cfg, s, events + [e], id, |events|) <==> Resolves(Run(cfg, s, events), e, id)
  {
    hide Run, Inv, MadeFor, Answers;
    BeforeEnd(cfg, s, events, e);
    BeforeLonger(cfg, s, events, e, |events|);
    assert (events + [e])[..|events|] == events;
    var s1 := Run(cfg, s, events);
    if id in s1.pending && e.Receive? {
      PendingWaitsFor(cfg, s, events, id);
      if MadeFor(cfg, s, events, id, e.message.kind) {
        MadeForOne(cfg, s, events, id, e.message.kind, s1.pending[id].expectedType);
      }
    }
  }

  lemma {:induction false} ResolvedFrom(cfg: Config, s: State, events: seq<Event>, id: nat)
    requires Inv(s) && 1 < s.nextMessageId && forall i :: i in s.outcomes ==> s.outcomes[i] == Rejected
    requires forall i :: i in s.pending ==> i == 1 && s.pending[i].expectedType == "kernel_info_reply"
    ensures IsResolved(Run(cfg, s, events), id) <==> exists k :: 0 <= k < |events| && FitsAt(cfg, s, events, id, k)
    decreases |events|
  {
    hide Run, Inv, Step, FitsAt, Resolves;
    if events == [] {
      RunNothing(cfg, s);
    } else {
      var n := |events| - 1;
      var front, e := events[..n], events[n];
      assert events == front + [e];
      ResolvedFrom(cfg, s, front, id);
      RunLast(cfg, s, front, e);
      RunKeeps(cfg, s, front);
      StepSettles(cfg, Run(cfg, s, front), e, id);
      FitsLast(cfg, s, front, e, id);
      forall k: nat | k < n ensures FitsAt(cfg, s, events, id, k) <==> FitsAt(cfg, s, front, id, k) {
        FitsLonger(cfg, s, front, e, id, k);
      }
      assert FitsAt(cfg, s, events, id, n) <==> Resolves(Run(cfg, s, front), e, id);
    }
  }

  lemma StartState(cfg: Config, initFails: bool)
    ensures var s := Start(cfg, initFails);
            && s.nextMessageId == 2 && (forall i :: i in s.outcomes ==> s.outcomes[i] == Rejected)
            && (forall i :: i in s.pending ==> i == 1 && s.pending[i].expectedType == "kernel_info_reply")
  {
  }

  /** Over every run from the start: a request is resolved if and only if some event of the run is a reply to it
      that is neither output nor an error, that no earlier worker sent, that comes while the request is pending,
      and that is of the type asked for by the event that made the request. */
  lemma ResolvedIff(cfg: Config, initFails: bool, events: seq<Event>, id: nat)
    ensures var s := Start(cfg, initFails);
            var outcomes := Run(cfg, s, events).outcomes;
            id in outcomes && outcomes[id] == Resolved
            <==> exists k :: 0 <= k < |events| && FitsAt(cfg, s, events, id, k)
  {
    hide Run, FitsAt;
    StartState(cfg, initFails);
    StartKeeps(cfg, initFails);
    ResolvedFrom(cfg, Start(cfg, initFails), events, id);
  }

  // ---- When a request ends ----

  /** A pending request ends, one way or the other, exactly with a reply to it from the current worker, with its
      own hard timer, with any event that restarts the worker, and with dispose. */
  lemma PendingEndsIff(cfg: Config, s: State, e: Event, id: nat)
    requires Inv(s) && id in s.pending
    ensures id !in Step(cfg, s, e).pending <==>
            match e
            case Receive(m) =>
              m.id == id && m.kind != "stream" && (m.generation == None || m.generation == Some(s.workerGeneration))
            case Fire(t, _) =>
              && t in s.timers && (forall u :: u in s.timers && u < t ==> s.timers[u].delay > s.timers[t].delay)
              && (s.timers[t].kind == HardExecute || (s.timers[t].kind == HardPlain && s.timers[t].id == id))
            case Crash(_) => true
            case Dispose => true
            case _ => false
  {
    hide Inv, Restart, RejectAll, Request, FireTimer;
    PendingIs(s, id);
    match e
    case Execute(postFails) => RequestStays(cfg, s, true, "execute_reply", cfg.hardTimeoutMs, postFails, id);
    case Ask(expectedType, timeoutMs, postFails) =>
      RequestStays(cfg, s, false, expectedType, timeoutMs, postFails, id);
    case Fire(t, initFails) =>
      if MayFire(s, t) {
        FireEnds(cfg, s, t, initFails, id);
      }
    case Crash(initFails) => RestartSettles(cfg, s, initFails, id);
    case Dispose =>
      Unsettled(s, id);
      RejectAllSettles(s, id);
    case _ =>
  }

  lemma PendingIs(s: State, id: nat)
    requires Inv(s) && id in s.pending
    ensures id < s.nextMessageId && s.pending[id].generation == s.workerGeneration && !s.disposed
  {
    assert PendingOk(s, id);
  }

  lemma FireEnds(cfg: Config, s: State, t: nat, initFails: bool, id: nat)
    requires Inv(s) && id in s.pending && t in s.timers
    ensures id !in FireTimer(cfg, s, t, initFails).pending <==>
            s.timers[t].kind == HardExecute || (s.timers[t].kind == HardPlain && s.timers[t].id == id)
  {
    hide Inv, Restart;
    if s.timers[t].kind == HardExecute {
      PendingIs(s, id);
      HardOwes(s, t);
      var s1 := s.(timers := s.timers - {t}, pending := s.pending - {s.timers[t].id});
      SettlePays(s1, s.timers[t].id, Rejected);
      RestartSettles(cfg, Settle(s1, s.timers[t].id, Rejected), initFails, id);
    }
  }

  lemma RequestStays(cfg: Config, s: State, execute: bool, expectedType: string, timeoutMs: real,
                     postFails: bool, id: nat)
    requires id in s.pending && id < s.nextMessageId
    ensures id in Request(cfg, s, execute, expectedType, timeoutMs, postFails).pending
  {
  }

  lemma RequestRefused(cfg: Config, s: State, execute: bool, expectedType: string, timeoutMs: real, postFails: bool)
    requires Inv(s) && (postFails || s.disposed)
    ensures var s', id := Request(cfg, s, execute, expectedType, timeoutMs, postFails), s.nextMessageId;
            id !in s'.pending && id in s'.outcomes && s'.outcomes[id] == Rejected && s'.timers == s.timers
  {
    assert forall i :: i in s.pending ==> PendingOk(s, i) && i < s.nextMessageId;
    assert forall t :: t in s.timers ==> TimerOk(s, t) && t < s.nextTimer;
    hide Inv;
  }

  /** A request is rejected at once, and leaves no timer, when posting it fails or the kernel is disposed. */
  lemma RefusedAtOnce(cfg: Config, s: State, timeoutMs: real, kind: string, postFails: bool)
    requires Inv(s) && (postFails || s.disposed)
    ensures var s', id := Step(cfg, s, Execute(postFails)), s.nextMessageId;
            id !in s'.pending && id in s'.outcomes && s'.outcomes[id] == Rejected && s'.timers == s.timers
    ensures var s', id := Step(cfg, s, Ask(kind, timeoutMs, postFails)), s.nextMessageId;
            id !in s'.pending && id in s'.outcomes && s'.outcomes[id] == Rejected && s'.timers == s.timers
  {
    hide Inv, Request;
    RequestRefused(cfg, s, true, "execute_reply", cfg.hardTimeoutMs, postFails);
    RequestRefused(cfg, s, false, kind, timeoutMs, postFails);
  }

  lemma RejectAllNumbers(s: State)
    ensures RejectAll(s).nextMessageId == s.nextMessageId
  {
  }

  /** The timers a request starts with.  An execution gets a soft one only with an interrupt buffer, and without
      one its hard timer has the soft delay. */
  lemma TimersArmed(cfg: Config, s: State, timeoutMs: real, kind: string)
    requires Inv(s) && !s.disposed
    ensures var s', id := Step(cfg, s, Execute(false)), s.nextMessageId;
            && id in s'.pending && s'.pending[id].hardTimer in s'.timers
            && var ms := if cfg.hasInterruptBuffer then cfg.hardTimeoutMs else cfg.softTimeoutMs;
            && s'.timers[s'.pending[id].hardTimer] == Timer(id, HardExecute, HostDelay(ms))
            && match s'.pending[id].timer
               case None => !cfg.hasInterruptBuffer
               case Some(t) => cfg.hasInterruptBuffer && t in s'.timers
                               && s'.timers[t] == Timer(id, Soft, HostDelay(cfg.softTimeoutMs))
    ensures var s', id := Step(cfg, s, Ask(kind, timeoutMs, false)), s.nextMessageId;
            && id in s'.pending && s'.pending[id].hardTimer in s'.timers && s'.pending[id].timer == None
            && s'.timers[s'.pending[id].hardTimer] == Timer(id, HardPlain, HostDelay(timeoutMs))
    ensures var s', id := Step(cfg, s, Crash(false)), s.nextMessageId;
            && id in s'.pending && s'.pending[id].hardTimer in s'.timers && s'.pending[id].timer == None
            && s'.timers[s'.pending[id].hardTimer] == Timer(id, HardPlain, HostDelay(15000.0))
  {
    hide RejectAll, Inv;
    RejectAllDisposed(ResetFlag(cfg, NextGeneration(s)));
    RejectAllNumbers(ResetFlag(cfg, NextGeneration(s)));
  }
}
