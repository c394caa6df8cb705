/** The flag through which an execution is interrupted: who sets it, who clears it, and when it is still set. */
module Interrupts {
  import opened Options
  import opened WorkerProtocol

  /** The user's interrupt, or a soft timer. */
  predicate Sets(cfg: Config, s: State, e: Event) {
    match e
    case Interrupt => cfg.hasInterruptBuffer
    case Fire(t, _) => MayFire(s, t) && s.timers[t].kind == Soft
    case _ => false
  }

  /** The reply belongs to a pending request of the current worker. */
  predicate Delivered(s: State, m: Message) {
    && (m.generation.None? || m.generation.value == s.workerGeneration)
    && m.kind != "stream" && m.id in s.pending && s.pending[m.id].generation == s.workerGeneration
  }

  /** Any new request, any delivered reply, the worker taking up an execution, and every restart. */
  predicate Clears(cfg: Config, s: State, e: Event) {
    && cfg.hasInterruptBuffer
    && match e
       case Execute(_) => !s.disposed
       case Ask(_, _, _) => !s.disposed
       case Receive(m) => Delivered(s, m)
       case Fire(t, _) => MayFire(s, t) && s.timers[t].kind == HardExecute
       case Crash(_) => true
       case WorkerBegins => true
       case _ => false
  }

  lemma RequestFlag(cfg: Config, s: State, execute: bool, expectedType: string, timeoutMs: real, postFails: bool)
    ensures Request(cfg, s, execute, expectedType, timeoutMs, postFails).interruptFlag
         == (s.interruptFlag && !(cfg.hasInterruptBuffer && !s.disposed))
  {
  }

  lemma RestartFlag(cfg: Config, s: State, initFails: bool)
    ensures Restart(cfg, s, initFails).interruptFlag == (s.interruptFlag && !cfg.hasInterruptBuffer)
  {
    hide Request, RejectAll;
    var s1 := ResetFlag(cfg, NextGeneration(s));
    RejectFlag(s1);
    RequestFlag(cfg, RejectAll(s1), false, "kernel_info_reply", READY_TIMEOUT_MS, initFails);
  }

  lemma RejectFlag(s: State)
    ensures RejectAll(s).interruptFlag == s.interruptFlag
  {
  }

  /** One event sets the flag, clears it, or leaves it alone. */
  lemma StepFlag(cfg: Config, s: State, e: Event)
    ensures !(Sets(cfg, s, e) && Clears(cfg, s, e))
    ensures Step(cfg, s, e).interruptFlag <==> Sets(cfg, s, e) || (s.interruptFlag && !Clears(cfg, s, e))
  {
    hide Request, Restart, RejectAll;
    match e
    case Execute(postFails) => RequestFlag(cfg, s, true, "execute_reply", cfg.hardTimeoutMs, postFails);
    case Ask(expectedType, timeoutMs, postFails) => RequestFlag(cfg, s, false, expectedType, timeoutMs, postFails);
    case Receive(m) =>
    case Fire(t, initFails) =>
      if MayFire(s, t) && s.timers[t].kind == HardExecute {
        var timer := s.timers[t];
        var s1 := s.(timers := s.timers - {t}, pending := s.pending - {timer.id});
        RestartFlag(cfg, Settle(s1, timer.id, Rejected), initFails);
      }
    case Crash(initFails) => RestartFlag(cfg, s, initFails);
    case Interrupt =>
    case WorkerBegins =>
    case Dispose => RejectFlag(s);
  }

  /** The flag is set before the k-th event, by the event in front of it or from the beginning, and not cleared
      from there on. */
  ghost predicate SetSince(cfg: Config, s: State, events: seq<Event>, k: nat)
    requires k <= |events|
  {
    && (if k == 0 then s.interruptFlag else Sets(cfg, Before(cfg, s, events, k - 1), events[k - 1]))
    && forall j :: k <= j < |events| ==> !Clears(cfg, Before(cfg, s, events, j), events[j])
  }

  lemma SetSinceLonger(cfg: Config, s: State, events: seq<Event>, e: Event, k: nat)
    requires k <= |events| + 1
    ensures k <= |events| ==>
              (SetSince(cfg, s, events + [e], k)
               <==> SetSince(cfg, s, events, k) && !Clears(cfg, Run(cfg, s, events), e))
    ensures k == |events| + 1 ==> (SetSince(cfg, s, events + [e], k) <==> Sets(cfg, Run(cfg, s, events), e))
  {
    hide Run, Sets, Clears;
    var more := events + [e];
    assert forall j :: 0 <= j <= |events| ==> more[..j] == events[..j];
    assert events[..|events|] == events;
    if k <= |events| {
      assert SetSince(cfg, s, more, k) ==> !Clears(cfg, Before(cfg, s, more, |events|), more[|events|]);
      assert forall j :: 0 <= j < |events| ==> Before(cfg, s, more, j) == Before(cfg, s, events, j);
    }
  }

  /** Over every run: the flag is set exactly when something set it and nothing has cleared it since.  So an
      interrupt reaches an execution that is still running when, and only when, no request was made and no reply
      delivered in between. */
  lemma {:induction false} FlagSetIff(cfg: Config, s: State, events: seq<Event>)
    ensures Run(cfg, s, events).interruptFlag <==> exists k :: 0 <= k <= |events| && SetSince(cfg, s, events, k)
    decreases |events|
  {
    hide Run, Step, Sets, Clears, SetSince;
    if events == [] {
      NoEvents(cfg, s);
    } else {
      var n := |events| - 1;
      var e := events[n];
      assert events == events[..n] + [e];
      FlagSetIff(cfg, s, events[..n]);
      RunLast(cfg, s, events[..n], e);
      StepFlag(cfg, Run(cfg, s, events[..n]), e);
      forall k: nat | k <= n + 1
        ensures SetSince(cfg, s, events, k) <==>
                  if k <= n then SetSince(cfg, s, events[..n], k) && !Clears(cfg, Run(cfg, s, events[..n]), e)
                  else Sets(cfg, Run(cfg, s, events[..n]), e)
      {
        SetSinceLonger(cfg, s, events[..n], e, k);
      }
      if Sets(cfg, Run(cfg, s, events[..n]), e) {
        assert SetSince(cfg, s, events, n + 1);
      }
    }
  }

  lemma NoEvents(cfg: Config, s: State)
    ensures Run(cfg, s, []) == s && (SetSince(cfg, s, [], 0) <==> s.interruptFlag)
  {
  }

  /** An execution is interrupted, then a completion is asked for: the execution is still running, and the flag
      is gone. */
  lemma InterruptLost(cfg: Config, s: State)
    requires Inv(s) && cfg.hasInterruptBuffer && !s.disposed
    ensures var id := s.nextMessageId;
            var s1 := Step(cfg, Step(cfg, s, Execute(false)), Interrupt);
            var s' := Step(cfg, s1, Ask("complete_reply", 5000.0, false));
            id in s'.pending && !s'.interruptFlag
  {
    hide Inv;
    var s1 := Step(cfg, s, Execute(false));
    assert s.nextMessageId in s1.pending && !s1.disposed;
    var s2 := Step(cfg, s1, Interrupt);
    assert s2.interruptFlag && s2.pending == s1.pending;
  }

  /** The new worker becomes ready, another cell is executed, and the soft timer of the first one goes off. */
  function StrayTimer(): seq<Event> {
    LateSoftTimer() + [Receive(Message(3, Some(1), "kernel_info_reply")), Execute(false), Fire(2, false)]
  }

  /** A soft timer left armed by its own request interrupts a later execution. */
  lemma StrayTimerInterrupts(cfg: Config)
    requires !SoftFirst(cfg)
    ensures var s := Run(cfg, Start(cfg, false), StrayTimer());
            s.interruptFlag && s.pending.Keys == {4} && s.pending[4].expectedType == "execute_reply"
  {
    var s3 := Run(cfg, Start(cfg, false), LateSoftTimer());
    LateState(cfg);
    hide Run, Start, Step, SoftFirst;
    var e := [Receive(Message(3, Some(1), "kernel_info_reply")), Execute(false), Fire(2, false)];
    RunAppend(cfg, Start(cfg, false), LateSoftTimer(), e);
    RunThree(cfg, s3, e[0], e[1], e[2]);
    ReadyAgain(cfg, s3);
    ExecutedAgain(cfg, Step(cfg, s3, e[0]));
  }

  lemma {:induction false} RunAppend(cfg: Config, s: State, a: seq<Event>, b: seq<Event>)
    ensures Run(cfg, s, a + b) == Run(cfg, Run(cfg, s, a), b)
    decreases |a|
  {
    hide Step;
    if a == [] {
      assert a + b == b;
    } else {
      assert (a + b)[1..] == a[1..] + b;
      RunAppend(cfg, Step(cfg, s, a[0]), a[1..], b);
    }
  }

  lemma ReadyAgain(cfg: Config, s: State)
    requires IsLate(s)
    ensures var s' := Step(cfg, s, Receive(Message(3, Some(1), "kernel_info_reply")));
            s'.pending == map[] && s'.timers.Keys == {2} && s'.timers[2] == s.timers[2]
            && s'.nextTimer == 5 && s'.nextMessageId == 4 && !s'.disposed
  {
  }

  lemma ExecutedAgain(cfg: Config, s: State)
    requires cfg.hasInterruptBuffer && s.pending == map[] && s.timers.Keys == {2} && s.timers[2].kind == Soft
    requires s.timers[2].id == 2 && s.nextTimer == 5 && s.nextMessageId == 4 && !s.disposed
    ensures var s' := Step(cfg, Step(cfg, s, Execute(false)), Fire(2, false));
            s'.interruptFlag && s'.pending.Keys == {4} && s'.pending[4].expectedType == "execute_reply"
  {
    var s1 := Step(cfg, s, Execute(false));
    assert s1.timers.Keys == {2, 5, 6} && MayFire(s1, 2);
    assert s1.pending.Keys == {4};
  }
}
