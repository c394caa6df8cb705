/** The kernel object: its methods take the steps of the worker protocol by updating its fields. */
module ObjcKernels {
  import opened Options
  import opened WorkerProtocol

  ghost function HandlesOf(pending: map<nat, Pending>, done: set<nat>): set<nat>
    requires done <= pending.Keys
  {
    set id, t | id in done && t in Handles(pending[id]) :: t
  }

  lemma HandlesNext(pending: map<nat, Pending>, done: set<nat>, id: nat)
    requires done <= pending.Keys && id in pending
    ensures HandlesOf(pending, done + {id}) == HandlesOf(pending, done) + Handles(pending[id])
  {
  }

  ghost function AllRejected(outcomes: map<nat, Outcome>, done: set<nat>): map<nat, Outcome> {
    outcomes + map id | id in done :: Rejected
  }

  lemma AllRejectedNext(outcomes: map<nat, Outcome>, done: set<nat>, id: nat)
    ensures AllRejected(outcomes, done + {id}) == AllRejected(outcomes, done)[id := Rejected]
  {
  }

  lemma CountNext(settled: multiset<nat>, done: set<nat>, id: nat)
    requires id !in done
    ensures settled + multiset(done + {id}) == settled + multiset(done) + multiset{id}
  {
    assert multiset(done + {id}) == multiset(done) + multiset{id};
  }

  /** The requests in `done` have been rejected, the others not yet. */
  ghost function RejectSome(s: State, done: set<nat>): State
    requires done <= s.pending.Keys
  {
    s.(pending := s.pending - done,
       timers := s.timers - HandlesOf(s.pending, done),
       settled := s.settled + multiset(done),
       outcomes := AllRejected(s.outcomes, done))
  }

  lemma RejectNext(s: State, done: set<nat>, id: nat)
    requires done <= s.pending.Keys && id in s.pending && id !in done
    ensures id in RejectSome(s, done).pending && RejectSome(s, done).pending[id] == s.pending[id]
    ensures RejectSome(s, done + {id}) == Settle(Forget(RejectSome(s, done), id), id, Rejected)
  {
    HandlesNext(s.pending, done, id);
    AllRejectedNext(s.outcomes, done, id);
    CountNext(s.settled, done, id);
    hide HandlesOf, Handles, AllRejected;
    assert s.pending - (done + {id}) == s.pending - done - {id};
    assert s.timers - (HandlesOf(s.pending, done) + Handles(s.pending[id]))
        == s.timers - HandlesOf(s.pending, done) - Handles(s.pending[id]);
  }

  ghost predicate AllUnsettled(s: State) {
    forall id :: id in s.pending ==> s.settled[id] == 0
  }

  lemma PendingUnsettled(cfg: Config, s: State)
    requires Inv(s)
    ensures AllUnsettled(ResetFlag(cfg, WorkerProtocol.NextGeneration(s)))
  {
    forall id | id in s.pending ensures s.settled[id] == 0 {
      assert SettledOk(s, id) && PendingOk(s, id);
    }
  }

  lemma StillPending(s: State, done: set<nat>, id: nat)
    requires done <= s.pending.Keys && id in RejectSome(s, done).pending && AllUnsettled(s)
    ensures id in s.pending && id !in done && RejectSome(s, done).settled[id] == 0
  {
  }

  lemma RejectedEvery(s: State, done: set<nat>)
    requires done <= s.pending.Keys && RejectSome(s, done).pending == map[]
    ensures RejectSome(s, done) == RejectAll(s)
  {
    var left := s.pending - done;
    assert forall id :: id in left <==> id in s.pending && id !in done;
    assert forall id :: id in s.pending.Keys ==> id in done;
    assert done == s.pending.Keys;
    RejectEvery(s);
  }

  lemma RejectNone(s: State)
    ensures RejectSome(s, {}) == s
  {
    var now := RejectSome(s, {});
    assert now.pending == s.pending && now.timers == s.timers && now.settled == s.settled && now.outcomes == s.outcomes;
  }

  lemma RejectEvery(s: State)
    ensures RejectSome(s, s.pending.Keys) == RejectAll(s)
  {
    var now := RejectSome(s, s.pending.Keys);
    assert forall t :: Owned(s.pending, t) <==> t in HandlesOf(s.pending, s.pending.Keys);
    assert now.timers == RejectAll(s).timers;
    assert now.pending == map[];
  }

  class ObjcKernel {
    const cfg: Config
    var pending: map<nat, Pending>
    var workerGeneration: nat
    var nextMessageId: nat
    var disposed: bool
    /** The flag in the buffer shared with the worker. */
    var interruptFlag: bool
    /** The timers armed at the host. */
    var timers: map<nat, Timer>
    var nextTimer: nat
    /** How often each request has been resolved or rejected, and how. */
    ghost var settled: multiset<nat>
    ghost var outcomes: map<nat, Outcome>

    ghost function Now(): State
      reads this
    {
      State(pending, workerGeneration, nextMessageId, disposed, interruptFlag, timers, nextTimer, settled, outcomes)
    }

    constructor (cfg: Config, initFails: bool)
      ensures this.cfg == cfg && Now() == Start(cfg, initFails) && Inv(Now())
    {
      this.cfg := cfg;
      pending, workerGeneration, nextMessageId, disposed, interruptFlag := map[], 0, 1, false, false;
      timers, nextTimer, settled, outcomes := map[], 1, multiset{}, map[];
      new;
      assert forall k: nat :: SettledOk(Now(), k);
      var id := Request(false, "kernel_info_reply", READY_TIMEOUT_MS, initFails);
    }

    /** Resolve or reject the promise of a request that is not settled. */
    ghost method SettlePromise(id: nat, how: Outcome)
      requires settled[id] == 0
      modifies this`settled, this`outcomes
      ensures Now() == Settle(old(Now()), id, how)
    {
      settled := settled + multiset{id};
      outcomes := outcomes[id := how];
    }

    method SetTimeout(timer: Timer) returns (handle: nat)
      modifies this`timers, this`nextTimer
      ensures handle == old(nextTimer) && nextTimer == handle + 1 && timers == old(timers)[handle := timer]
    {
      handle := nextTimer;
      timers := timers[handle := timer];
      nextTimer := nextTimer + 1;
    }

    /** A soft and a hard timer for an execution, a hard one only without the buffer or for other requests. */
    method ArmTimers(id: nat, execute: bool, timeoutMs: real) returns (soft: Option<nat>, hard: nat)
      modifies this`timers, this`nextTimer
      ensures Now() == Arm(cfg, old(Now()), id, execute, timeoutMs)
      ensures soft == SoftHandle(cfg, old(Now()), execute) && hard == HardHandle(cfg, old(Now()), execute)
    {
      if execute && cfg.hasInterruptBuffer {
        var handle := SetTimeout(Timer(id, Soft, HostDelay(cfg.softTimeoutMs)));
        soft := Some(handle);
        hard := SetTimeout(Timer(id, HardExecute, HostDelay(timeoutMs)));
      } else {
        soft := None;
        if execute {
          hard := SetTimeout(Timer(id, HardExecute, HostDelay(cfg.softTimeoutMs)));
        } else {
          hard := SetTimeout(Timer(id, HardPlain, HostDelay(timeoutMs)));
        }
      }
    }

    method ClearPendingTimers(p: Pending)
      modifies this`timers
      ensures Now() == old(Now()).(timers := old(timers) - Handles(p))
    {
      if p.timer.Some? {
        timers := timers - {p.timer.value};
      }
      timers := timers - {p.hardTimer};
    }

    method ResetInterruptFlag()
      modifies this`interruptFlag
      ensures Now() == ResetFlag(cfg, old(Now()))
    {
      if cfg.hasInterruptBuffer {
        interruptFlag := false;
      }
    }

    method Request(execute: bool, expectedType: string, timeoutMs: real, postFails: bool) returns (id: nat)
      requires Inv(Now())
      modifies this
      ensures Now() == WorkerProtocol.Request(cfg, old(Now()), execute, expectedType, timeoutMs, postFails)
      ensures id == old(nextMessageId) && Inv(Now())
    {
      ghost var s := Now();
      RequestKeeps(cfg, s, execute, expectedType, timeoutMs, postFails);
      assert SettledOk(s, nextMessageId);
      hide Inv, ArmSoft, SoftHandle, HardHandle, HardTimer, Handles;
      id := nextMessageId;
      nextMessageId := nextMessageId + 1;
      if disposed {
        SettlePromise(id, Rejected);
        return;
      }
      ResetInterruptFlag();
      var soft, hard := ArmTimers(id, execute, timeoutMs);
      var entry := Pending(expectedType, soft, hard, workerGeneration, false);
      pending := pending[id := entry];
      assert Now() == Enter(cfg, ResetFlag(cfg, s.(nextMessageId := id + 1)), id, execute, expectedType, timeoutMs);
      hide Enter, Arm;
      if postFails {
        RejectOne(id);
      }
    }

    method OnWorkerMessage(m: Message)
      requires Inv(Now())
      modifies this
      ensures Now() == Step(cfg, old(Now()), Receive(m)) && Inv(Now())
    {
      ghost var s := Now();
      DeliverKeeps(cfg, s, m);
      assert SettledOk(s, m.id);
      hide Inv;
      if m.generation.Some? && m.generation.value != workerGeneration {
        return;
      }
      if m.kind == "stream" || m.id !in pending {
        return;
      }
      var entry := pending[m.id];
      if entry.generation != workerGeneration {
        return;
      }
      ClearPendingTimers(entry);
      pending := pending - {m.id};
      ResetInterruptFlag();
      if m.kind == "error" {
        SettlePromise(m.id, Rejected);
        return;
      }
      if m.kind != entry.expectedType {
        SettlePromise(m.id, Rejected);
        return;
      }
      SettlePromise(m.id, Resolved);
    }

    method RejectOne(id: nat)
      requires id in Now().pending && Now().settled[id] == 0
      modifies this
      ensures Now() == Settle(Forget(old(Now()), id), id, Rejected)
    {
      ClearPendingTimers(pending[id]);
      SettlePromise(id, Rejected);
      pending := pending - {id};
    }

    /** Some pending request, if there is one. */
    method NextPending() returns (id: Option<nat>)
      ensures id.None? ==> Now().pending == map[]
      ensures id.Some? ==> id.value in Now().pending
    {
      if pending == map[] {
        return None;
      }
      var next :| next in pending;
      id := Some(next);
    }

    /** Reject the pending requests one by one, taking each out. */
    method RejectPending()
      requires AllUnsettled(Now())
      modifies this
      ensures Now() == RejectAll(old(Now()))
    {
      ghost var s0 := Now();
      ghost var done: set<nat> := {};
      RejectNone(s0);
      var next := NextPending();
      while next.Some?
        invariant done <= s0.pending.Keys && Now() == RejectSome(s0, done)
        invariant next.None? ==> Now().pending == map[]
        invariant next.Some? ==> next.value in Now().pending
        decreases s0.pending.Keys - done, next
      {
        hide Now, RejectSome, RejectAll;
        StillPending(s0, done, next.value);
        RejectNext(s0, done, next.value);
        RejectOne(next.value);
        done := done + {next.value};
        next := NextPending();
      }
      RejectedEvery(s0, done);
    }

    method NextGeneration()
      modifies this`workerGeneration
      ensures Now() == WorkerProtocol.NextGeneration(old(Now()))
    {
      workerGeneration := workerGeneration + 1;
    }

    /** Terminate the worker, reject what it owed, and start another one. */
    method RestartWorker(initFails: bool)
      requires Inv(Now())
      modifies this
      ensures Now() == Restart(cfg, old(Now()), initFails) && Inv(Now())
    {
      ghost var s := Now();
      ghost var s1 := ResetFlag(cfg, WorkerProtocol.NextGeneration(s));
      PendingUnsettled(cfg, s);
      RejectedKeeps(cfg, s);
      hide Now, Inv, AllUnsettled, RejectAll, ResetFlag, WorkerProtocol.NextGeneration, WorkerProtocol.Request;
      NextGeneration();
      ResetInterruptFlag();
      assert Now() == s1;
      RejectPending();
      assert Now() == RejectAll(s1);
      var init := Request(false, "kernel_info_reply", READY_TIMEOUT_MS, initFails);
    }

    /** A timer goes off at the host. */
    method TimerFires(t: nat, initFails: bool)
      requires Inv(Now()) && MayFire(Now(), t)
      modifies this
      ensures Now() == Step(cfg, old(Now()), Fire(t, initFails)) && Inv(Now())
    {
      ghost var s := Now();
      FireKeeps(cfg, s, t, initFails);
      var timer := timers[t];
      if timer.kind == Soft {
        timers := timers - {t};
        if timer.id in pending {
          pending := pending[timer.id := pending[timer.id].(softInterrupted := true)];
        }
        interruptFlag := true;
      } else {
        HardOwes(s, t);
        hide Inv;
        timers := timers - {t};
        pending := pending - {timer.id};
        SettlePays(Now(), timer.id, Rejected);
        SettlePromise(timer.id, Rejected);
        if timer.kind == HardExecute {
          RestartWorker(initFails);
        }
      }
    }

    method HandleInterrupt()
      requires Inv(Now())
      modifies this`interruptFlag
      ensures Now() == Step(cfg, old(Now()), Interrupt) && Inv(Now())
    {
      FlagKeeps(Now(), true);
      if cfg.hasInterruptBuffer {
        interruptFlag := true;
      }
    }

    method DisposeKernel()
      requires Inv(Now())
      modifies this
      ensures Now() == Step(cfg, old(Now()), Dispose) && Inv(Now())
    {
      if disposed {
        return;
      }
      ghost var s := Now();
      StepKeeps(cfg, s, Dispose);
      forall id | id in s.pending ensures s.settled[id] == 0 {
        assert SettledOk(s, id);
      }
      RejectNone(s);
      hide Inv, RejectSome, RejectAll;
      var left := pending;
      ghost var done: set<nat> := {};
      while left != map[]
        invariant done <= s.pending.Keys && left.Keys == s.pending.Keys - done
        invariant Now().(pending := RejectSome(s, done).pending) == RejectSome(s, done)
        invariant pending == s.pending
        invariant forall id :: id in left ==> settled[id] == 0
        decreases |left|
      {
        var id :| id in left;
        RejectNext(s, done, id);
        ClearPendingTimers(pending[id]);
        SettlePromise(id, Rejected);
        left := left - {id};
        done := done + {id};
      }
      assert done == s.pending.Keys;
      RejectEvery(s);
      pending := map[];
      disposed := true;
      RejectAllEmpties(s);
    }
  }

  lemma RejectAllEmpties(s: State)
    ensures RejectAll(s).pending == map[]
  {
  }
}
