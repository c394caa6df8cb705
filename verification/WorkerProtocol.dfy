/** The request protocol between the kernel and its worker, as a state and its steps: requests, worker
    messages, timers, crashes, restarts and dispose, in any order. */
module WorkerProtocol {
  import opened Int32
  import opened Options

  datatype TimerKind = Soft | HardExecute | HardPlain

  /** An armed timer: the request it was set for, what it does, and its delay. */
  datatype Timer = Timer(id: nat, kind: TimerKind, delay: nat)

  /** A request awaiting its reply; the timer handles stay in place when the timers fire. */
  datatype Pending = Pending(expectedType: string, timer: Option<nat>, hardTimer: nat, generation: nat,
                             softInterrupted: bool)

  datatype Outcome = Resolved | Rejected

  datatype Message = Message(id: nat, generation: Option<nat>, kind: string)

  datatype Config = Config(hasInterruptBuffer: bool, softTimeoutMs: real, hardTimeoutMs: real)

  /** The kernel's fields, the timers armed at the host, and what has been settled: how often each request
      was resolved or rejected, and how.  Timer handles and message ids both count up. */
  datatype State = State(
    pending: map<nat, Pending>,
    workerGeneration: nat,
    nextMessageId: nat,
    disposed: bool,
    interruptFlag: bool,
    timers: map<nat, Timer>,
    nextTimer: nat,
    settled: multiset<nat>,
    outcomes: map<nat, Outcome>)

  datatype Event =
    | Execute(postFails: bool)
    | Ask(expectedType: string, timeoutMs: real, postFails: bool)
    | Receive(message: Message)
    | Fire(timer: nat, initFails: bool)
    | Crash(initFails: bool)
    | Interrupt
    | WorkerBegins
    | Dispose

  const READY_TIMEOUT_MS: real := 15000.0

  function Truncated(ms: real): int {
    if ms < 0.0 then -(-ms).Floor else ms.Floor
  }

  /** The delay a timer gets at the host, which converts to 32 bits and takes a negative delay as 0 (the steps
      of setTimeout in the HTML Standard, the conversion to long in the Web IDL Standard). */
  function HostDelay(ms: real): (delay: nat) {
    var d := Wrap(Truncated(ms));
    if d < 0 then 0 else d
  }

  /** Without its fraction and up to a multiple of 2^32 it is the number of milliseconds, unless that is negative. */
  lemma HostDelayIs(ms: real) returns (d: int, k: int)
    ensures ms >= 0.0 ==> d + k * 0x1_0000_0000 == ms.Floor
    ensures ms < 0.0 ==> d + k * 0x1_0000_0000 == -(-ms).Floor
    ensures -0x8000_0000 <= d < 0x8000_0000 && HostDelay(ms) == if d < 0 then 0 else d
  {
    d := Wrap(Truncated(ms));
    k := (Truncated(ms) - d) / 0x1_0000_0000;
  }

  /** Below 2^31 a delay only loses its fraction. */
  lemma DelayKept(ms: real)
    requires 0.0 <= ms < TWO31 as real
    ensures HostDelay(ms) == ms.Floor
  {
    WrapUnique(ms.Floor, ms.Floor);
  }

  // ---- Steps ----

  function Settle(s: State, id: nat, how: Outcome): State {
    s.(settled := s.settled + multiset{id}, outcomes := s.outcomes[id := how])
  }

  /** Forget a request and disarm its timers. */
  function Forget(s: State, id: nat): State
    requires id in s.pending
  {
    s.(pending := s.pending - {id}, timers := s.timers - Handles(s.pending[id]))
  }

  function Handles(p: Pending): set<nat> {
    {p.hardTimer} + (if p.timer.Some? then {p.timer.value} else {})
  }

  function ResetFlag(cfg: Config, s: State): State {
    if cfg.hasInterruptBuffer then s.(interruptFlag := false) else s
  }

  /** The soft timer's handle of a request about to be entered: only an execution has one, and only with a
      buffer to interrupt through. */
  function SoftHandle(cfg: Config, s: State, execute: bool): Option<nat> {
    if execute && cfg.hasInterruptBuffer then Some(s.nextTimer) else None
  }

  function HardHandle(cfg: Config, s: State, execute: bool): nat {
    if execute && cfg.hasInterruptBuffer then s.nextTimer + 1 else s.nextTimer
  }

  function HardTimer(cfg: Config, id: nat, execute: bool, timeoutMs: real): Timer {
    if execute then Timer(id, HardExecute, HostDelay(if cfg.hasInterruptBuffer then timeoutMs else cfg.softTimeoutMs))
    else Timer(id, HardPlain, HostDelay(timeoutMs))
  }

  function ArmSoft(cfg: Config, s: State, id: nat, execute: bool): State {
    if execute && cfg.hasInterruptBuffer
    then s.(timers := s.timers[s.nextTimer := Timer(id, Soft, HostDelay(cfg.softTimeoutMs))],
            nextTimer := s.nextTimer + 1)
    else s
  }

  function Arm(cfg: Config, s: State, id: nat, execute: bool, timeoutMs: real): State {
    var s1 := ArmSoft(cfg, s, id, execute);
    s1.(timers := s1.timers[s1.nextTimer := HardTimer(cfg, id, execute, timeoutMs)], nextTimer := s1.nextTimer + 1)
  }

  /** Arm the timers of a new request and enter it. */
  function Enter(cfg: Config, s: State, id: nat, execute: bool, expectedType: string, timeoutMs: real): State {
    var soft, hard := SoftHandle(cfg, s, execute), HardHandle(cfg, s, execute);
    var entry := Pending(expectedType, soft, hard, s.workerGeneration, false);
    Arm(cfg, s, id, execute, timeoutMs).(pending := s.pending[id := entry])
  }

  function Request(cfg: Config, s: State, execute: bool, expectedType: string, timeoutMs: real,
                   postFails: bool): State {
    var id := s.nextMessageId;
    var s1 := s.(nextMessageId := id + 1);
    if s.disposed then Settle(s1, id, Rejected)
    else
      var s2 := Enter(cfg, ResetFlag(cfg, s1), id, execute, expectedType, timeoutMs);
      if postFails then Settle(Forget(s2, id), id, Rejected) else s2
  }

  /** Reject every pending request. */
  function RejectAll(s: State): State {
    s.(pending := map[],
       timers := map t | t in s.timers && !Owned(s.pending, t) :: s.timers[t],
       settled := s.settled + multiset(s.pending.Keys),
       outcomes := s.outcomes + map id | id in s.pending :: Rejected)
  }

  predicate Owned(pending: map<nat, Pending>, t: nat) {
    exists id :: id in pending && t in Handles(pending[id])
  }

  function NextGeneration(s: State): State {
    s.(workerGeneration := s.workerGeneration + 1)
  }

  function Restart(cfg: Config, s: State, initFails: bool): State {
    var s1 := RejectAll(ResetFlag(cfg, NextGeneration(s)));
    Request(cfg, s1, false, "kernel_info_reply", READY_TIMEOUT_MS, initFails)
  }

  function Deliver(cfg: Config, s: State, m: Message): State {
    if m.generation.Some? && m.generation.value != s.workerGeneration then s
    else if m.kind == "stream" || m.id !in s.pending || s.pending[m.id].generation != s.workerGeneration then s
    else
      var ok := m.kind != "error" && m.kind == s.pending[m.id].expectedType;
      Settle(ResetFlag(cfg, Forget(s, m.id)), m.id, if ok then Resolved else Rejected)
  }

  /** A timer may fire once no timer set before it with the same or a shorter delay is still armed. */
  predicate MayFire(s: State, t: nat) {
    t in s.timers && forall u :: u in s.timers && u < t ==> s.timers[u].delay > s.timers[t].delay
  }

  function FireTimer(cfg: Config, s: State, t: nat, initFails: bool): State
    requires t in s.timers
  {
    var timer := s.timers[t];
    var s1 := s.(timers := s.timers - {t});
    match timer.kind
    case Soft =>
      s1.(interruptFlag := true,
          pending := if timer.id !in s.pending then s.pending
                     else s.pending[timer.id := s.pending[timer.id].(softInterrupted := true)])
    case HardExecute => Restart(cfg, Settle(s1.(pending := s1.pending - {timer.id}), timer.id, Rejected), initFails)
    case HardPlain => Settle(s1.(pending := s1.pending - {timer.id}), timer.id, Rejected)
  }

  function Step(cfg: Config, s: State, e: Event): State {
    match e
    case Execute(postFails) => Request(cfg, s, true, "execute_reply", cfg.hardTimeoutMs, postFails)
    case Ask(expectedType, timeoutMs, postFails) => Request(cfg, s, false, expectedType, timeoutMs, postFails)
    case Receive(m) => Deliver(cfg, s, m)
    case Fire(t, initFails) => if MayFire(s, t) then FireTimer(cfg, s, t, initFails) else s
    case Crash(initFails) => Restart(cfg, s, initFails)
    case Interrupt => if cfg.hasInterruptBuffer then s.(interruptFlag := true) else s
    // The worker clears the shared flag when it takes up an execution.
    case WorkerBegins => ResetFlag(cfg, s)
    case Dispose => if s.disposed then s else RejectAll(s).(disposed := true)
  }

  /** A new kernel: the first worker and its initial request. */
  function Start(cfg: Config, initFails: bool): State {
    var s := State(map[], 0, 1, false, false, map[], 1, multiset{}, map[]);
    Request(cfg, s, false, "kernel_info_reply", READY_TIMEOUT_MS, initFails)
  }

  function Run(cfg: Config, s: State, events: seq<Event>): State
    decreases |events|
  {
    if events == [] then s else Run(cfg, Step(cfg, s, events[0]), events[1..])
  }

  // ---- The invariant ----

  predicate IsHard(t: Timer, id: nat) {
    t.id == id && t.kind != Soft
  }

  predicate PendingOk(s: State, id: nat)
    requires id in s.pending
  {
    var p := s.pending[id];
    && 0 < id < s.nextMessageId && p.generation == s.workerGeneration
    && p.hardTimer in s.timers && IsHard(s.timers[p.hardTimer], id)
    && (p.timer.Some? ==> p.timer.value < p.hardTimer)
    && (p.timer.Some? && p.timer.value in s.timers ==>
          s.timers[p.timer.value].id == id && s.timers[p.timer.value].kind == Soft)
  }

  predicate TimerOk(s: State, t: nat)
    requires t in s.timers
  {
    && t < s.nextTimer
    && (s.timers[t].kind != Soft ==> s.timers[t].id in s.pending && s.pending[s.timers[t].id].hardTimer == t)
  }

  predicate SettledOk(s: State, id: nat) {
    && s.settled[id] == (if 0 < id < s.nextMessageId && id !in s.pending then 1 else 0)
    && (id in s.outcomes <==> s.settled[id] == 1)
  }

  /** Every issued request is either pending, with the current generation and an armed hard timer of its own,
      or settled exactly once; a disposed kernel has none pending. */
  ghost predicate Inv(s: State) {
    && 0 < s.nextMessageId
    && (forall id :: id in s.pending ==> PendingOk(s, id))
    && (forall t :: t in s.timers ==> TimerOk(s, t))
    && (forall id: nat :: SettledOk(s, id))
    && (s.disposed ==> s.pending == map[])
  }

  predicate SoftOk(s: State, t: nat)
    requires t in s.timers
  {
    s.timers[t].kind == Soft ==>
      && s.timers[t].id in s.pending
      && var p := s.pending[s.timers[t].id];
      && p.timer == Some(t) && p.hardTimer in s.timers && t < p.hardTimer
      && s.timers[t].delay <= s.timers[p.hardTimer].delay
  }

  /** Soft timers belong to pending requests and are due before the hard ones. */
  ghost predicate Tidy(s: State) {
    forall t :: t in s.timers ==> SoftOk(s, t)
  }

  /** No settled request has an armed timer. */
  ghost predicate NoStray(s: State) {
    forall t :: t in s.timers ==> s.timers[t].id in s.pending
  }

  lemma TidyHasNoStray(s: State)
    requires Inv(s) && Tidy(s)
    ensures NoStray(s)
  {
    forall t | t in s.timers ensures s.timers[t].id in s.pending {
      assert TimerOk(s, t) && SoftOk(s, t);
    }
  }

  /** Between taking a request out (or refusing it) and settling it. */
  ghost predicate Owed(s: State, id: nat) {
    && 0 < id < s.nextMessageId && id !in s.pending && s.settled[id] == 0 && id !in s.outcomes
    && (forall k :: k in s.pending ==> PendingOk(s, k))
    && (forall t :: t in s.timers ==> TimerOk(s, t))
    && (forall k: nat :: k != id ==> SettledOk(s, k))
    && (s.disposed ==> s.pending == map[])
  }

  lemma SettlePays(s: State, id: nat, how: Outcome)
    requires Owed(s, id)
    ensures Inv(Settle(s, id, how))
  {
    var s' := Settle(s, id, how);
    forall k: nat ensures SettledOk(s', k) {
      assert k != id ==> SettledOk(s, k);
    }
    assert forall k :: k in s'.pending ==> PendingOk(s, k);
    assert forall t :: t in s'.timers ==> TimerOk(s, t);
  }

  lemma IssueOwes(s: State, flag: bool)
    requires Inv(s)
    ensures Owed(s.(nextMessageId := s.nextMessageId + 1, interruptFlag := flag), s.nextMessageId)
  {
    var id := s.nextMessageId;
    var s' := s.(nextMessageId := id + 1, interruptFlag := flag);
    assert SettledOk(s, id);
    assert id !in s.pending by {
      assert id in s.pending ==> PendingOk(s, id);
    }
    forall k: nat | k != id ensures SettledOk(s', k) {
      assert SettledOk(s, k);
    }
    assert forall k :: k in s'.pending ==> PendingOk(s, k);
    assert forall t :: t in s'.timers ==> TimerOk(s, t);
  }

  lemma EnterKeeps(cfg: Config, s: State, id: nat, execute: bool, expectedType: string, timeoutMs: real)
    requires Owed(s, id) && !s.disposed
    ensures Inv(Enter(cfg, s, id, execute, expectedType, timeoutMs))
  {
    var s' := Enter(cfg, s, id, execute, expectedType, timeoutMs);
    forall k: nat ensures SettledOk(s', k) {
      assert k != id ==> SettledOk(s, k);
    }
    forall k | k in s'.pending ensures PendingOk(s', k) {
      if k != id {
        assert PendingOk(s, k);
        assert TimerOk(s, s.pending[k].hardTimer);
      }
    }
    forall t | t in s'.timers ensures TimerOk(s', t) {
      assert t in s.timers ==> TimerOk(s, t);
    }
  }

  /** Taking out a request disarms its timers and no others. */
  lemma ForgetOwes(s: State, id: nat)
    requires Inv(s) && id in s.pending
    ensures Owed(Forget(s, id), id)
  {
    var s' := Forget(s, id);
    assert SettledOk(s, id) && PendingOk(s, id);
    forall k: nat | k != id ensures SettledOk(s', k) {
      assert SettledOk(s, k);
    }
    forall k | k in s'.pending ensures PendingOk(s', k) {
      assert PendingOk(s, k);
      assert s.timers[s.pending[k].hardTimer].id == k;
    }
    forall t | t in s'.timers ensures TimerOk(s', t) {
      assert TimerOk(s, t);
    }
  }

  /** A hard timer that fires leaves its request to be settled. */
  lemma HardOwes(s: State, t: nat)
    requires Inv(s) && t in s.timers && s.timers[t].kind != Soft
    ensures s.timers[t].id in s.pending
    ensures Owed(s.(timers := s.timers - {t}, pending := s.pending - {s.timers[t].id}), s.timers[t].id)
  {
    var id := s.timers[t].id;
    var s' := s.(timers := s.timers - {t}, pending := s.pending - {id});
    assert TimerOk(s, t);
    assert SettledOk(s, id) && PendingOk(s, id);
    forall k: nat | k != id ensures SettledOk(s', k) {
      assert SettledOk(s, k);
    }
    forall k | k in s'.pending ensures PendingOk(s', k) {
      assert PendingOk(s, k);
    }
    forall u | u in s'.timers ensures TimerOk(s', u) {
      assert TimerOk(s, u);
    }
  }

  lemma SoftKeeps(cfg: Config, s: State, t: nat, initFails: bool)
    requires Inv(s) && t in s.timers && s.timers[t].kind == Soft
    ensures Inv(FireTimer(cfg, s, t, initFails))
  {
    var s' := FireTimer(cfg, s, t, initFails);
    forall k: nat ensures SettledOk(s', k) {
      assert SettledOk(s, k);
    }
    forall k | k in s'.pending ensures PendingOk(s', k) {
      assert PendingOk(s, k);
    }
    forall u | u in s'.timers ensures TimerOk(s', u) {
      assert TimerOk(s, u);
    }
  }

  /** Rejecting everything, whatever happens to the generation and the flag. */
  lemma RejectAllKeeps(s: State, generation: nat, flag: bool, disposed: bool)
    requires Inv(s)
    ensures Inv(RejectAll(s.(workerGeneration := generation, interruptFlag := flag)).(disposed := disposed))
  {
    var s' := RejectAll(s.(workerGeneration := generation, interruptFlag := flag)).(disposed := disposed);
    forall k: nat ensures SettledOk(s', k) {
      assert SettledOk(s, k);
      assert k in s.pending ==> PendingOk(s, k);
    }
    forall t | t in s.timers && s.timers[t].kind != Soft ensures Owned(s.pending, t) {
      assert TimerOk(s, t) && t in Handles(s.pending[s.timers[t].id]);
    }
    forall t | t in s'.timers ensures TimerOk(s', t) {
      assert TimerOk(s, t);
    }
  }

  lemma RequestKeeps(cfg: Config, s: State, execute: bool, expectedType: string, timeoutMs: real, postFails: bool)
    requires Inv(s)
    ensures Inv(Request(cfg, s, execute, expectedType, timeoutMs, postFails))
  {
    hide Inv, Owed;
    var id := s.nextMessageId;
    var s1 := s.(nextMessageId := id + 1);
    if s.disposed {
      IssueOwes(s, s.interruptFlag);
      SettlePays(s1, id, Rejected);
    } else {
      var flag := if cfg.hasInterruptBuffer then false else s.interruptFlag;
      IssueOwes(s, flag);
      assert ResetFlag(cfg, s1) == s1.(interruptFlag := flag);
      EnterKeeps(cfg, ResetFlag(cfg, s1), id, execute, expectedType, timeoutMs);
      if postFails {
        var s2 := Enter(cfg, ResetFlag(cfg, s1), id, execute, expectedType, timeoutMs);
        ForgetOwes(s2, id);
        SettlePays(Forget(s2, id), id, Rejected);
      }
    }
  }

  lemma RejectedKeeps(cfg: Config, s: State)
    requires Inv(s)
    ensures Inv(RejectAll(ResetFlag(cfg, NextGeneration(s))))
  {
    hide Inv;
    var flag := if cfg.hasInterruptBuffer then false else s.interruptFlag;
    RejectAllKeeps(s, s.workerGeneration + 1, flag, s.disposed);
    var s1 := RejectAll(ResetFlag(cfg, NextGeneration(s)));
    assert s1 == s1.(disposed := s.disposed);
  }

  lemma RestartKeeps(cfg: Config, s: State, initFails: bool)
    requires Inv(s)
    ensures Inv(Restart(cfg, s, initFails))
  {
    hide Inv, RejectAll, Request;
    RejectedKeeps(cfg, s);
    var s1 := RejectAll(ResetFlag(cfg, NextGeneration(s)));
    RequestKeeps(cfg, s1, false, "kernel_info_reply", READY_TIMEOUT_MS, initFails);
  }

  lemma DeliverKeeps(cfg: Config, s: State, m: Message)
    requires Inv(s)
    ensures Inv(Deliver(cfg, s, m))
  {
    hide Inv, Owed;
    if Deliver(cfg, s, m) != s {
      ForgetOwes(s, m.id);
      var s1 := ResetFlag(cfg, Forget(s, m.id));
      FlagIrrelevant(Forget(s, m.id), m.id, s1.interruptFlag);
      SettlePays(s1, m.id, Resolved);
      SettlePays(s1, m.id, Rejected);
    }
  }

  lemma FlagIrrelevant(s: State, id: nat, flag: bool)
    requires Owed(s, id)
    ensures Owed(s.(interruptFlag := flag), id)
  {
    var s' := s.(interruptFlag := flag);
    forall k: nat | k != id ensures SettledOk(s', k) {
      assert SettledOk(s, k);
    }
    assert forall k :: k in s'.pending ==> PendingOk(s, k);
    assert forall t :: t in s'.timers ==> TimerOk(s, t);
  }

  lemma FireKeeps(cfg: Config, s: State, t: nat, initFails: bool)
    requires Inv(s) && t in s.timers
    ensures Inv(FireTimer(cfg, s, t, initFails))
  {
    hide Inv, Owed;
    var timer := s.timers[t];
    if timer.kind == Soft {
      SoftKeeps(cfg, s, t, initFails);
    } else {
      HardOwes(s, t);
      var s1 := s.(timers := s.timers - {t}, pending := s.pending - {timer.id});
      SettlePays(s1, timer.id, Rejected);
      if timer.kind == HardExecute {
        RestartKeeps(cfg, Settle(s1, timer.id, Rejected), initFails);
      }
    }
  }

  lemma FlagKeeps(s: State, flag: bool)
    requires Inv(s)
    ensures Inv(s.(interruptFlag := flag))
  {
    var s' := s.(interruptFlag := flag);
    assert forall k :: k in s'.pending ==> PendingOk(s, k);
    assert forall t :: t in s'.timers ==> TimerOk(s, t);
    assert forall k: nat :: SettledOk(s', k) <==> SettledOk(s, k);
  }

  lemma StepKeeps(cfg: Config, s: State, e: Event)
    requires Inv(s)
    ensures Inv(Step(cfg, s, e))
  {
    hide Inv;
    match e
    case Execute(postFails) => RequestKeeps(cfg, s, true, "execute_reply", cfg.hardTimeoutMs, postFails);
    case Ask(expectedType, timeoutMs, postFails) => RequestKeeps(cfg, s, false, expectedType, timeoutMs, postFails);
    case Receive(m) => DeliverKeeps(cfg, s, m);
    case Fire(t, initFails) =>
      if MayFire(s, t) {
        FireKeeps(cfg, s, t, initFails);
      }
    case Crash(initFails) => RestartKeeps(cfg, s, initFails);
    case Interrupt => FlagKeeps(s, true);
    case WorkerBegins => FlagKeeps(s, false);
    case Dispose => RejectAllKeeps(s, s.workerGeneration, s.interruptFlag, true);
  }

  // ---- Over whole runs ----

  /** The state before the k-th event of a run. */
  function Before(cfg: Config, s: State, events: seq<Event>, k: nat): State
    requires k <= |events|
  {
    Run(cfg, s, events[..k])
  }

  lemma {:induction false} RunLast(cfg: Config, s: State, events: seq<Event>, e: Event)
    ensures Run(cfg, s, events + [e]) == Step(cfg, Run(cfg, s, events), e)
    decreases |events|
  {
    hide Step;
    if events == [] {
      assert [e][1..] == [];
      assert Run(cfg, Step(cfg, s, e), []) == Step(cfg, s, e);
      assert events + [e] == [e];
    } else {
      assert (events + [e])[1..] == events[1..] + [e];
      RunLast(cfg, Step(cfg, s, events[0]), events[1..], e);
    }
  }

  lemma {:induction false} RunKeeps(cfg: Config, s: State, events: seq<Event>)
    requires Inv(s)
    ensures Inv(Run(cfg, s, events))
    decreases |events|
  {
    hide Inv, Step;
    if events != [] {
      StepKeeps(cfg, s, events[0]);
      RunKeeps(cfg, Step(cfg, s, events[0]), events[1..]);
    }
  }

  lemma StartKeeps(cfg: Config, initFails: bool)
    ensures Inv(Start(cfg, initFails))
  {
    var s := State(map[], 0, 1, false, false, map[], 1, multiset{}, map[]);
    assert forall k: nat :: SettledOk(s, k);
    RequestKeeps(cfg, s, false, "kernel_info_reply", READY_TIMEOUT_MS, initFails);
  }

  /** In every interleaving, every request is settled at most once, and one that is not settled is pending,
      carries the current worker generation and has a hard timer armed. */
  lemma SettledAtMostOnce(cfg: Config, initFails: bool, events: seq<Event>, id: nat)
    requires 0 < id < Run(cfg, Start(cfg, initFails), events).nextMessageId
    ensures var s := Run(cfg, Start(cfg, initFails), events);
            && s.settled[id] <= 1
            && (s.settled[id] == 0 <==> id in s.pending)
            && (id in s.pending ==>
                  && s.pending[id].generation == s.workerGeneration
                  && s.pending[id].hardTimer in s.timers && IsHard(s.timers[s.pending[id].hardTimer], id))
  {
    StartKeeps(cfg, initFails);
    RunKeeps(cfg, Start(cfg, initFails), events);
    var s := Run(cfg, Start(cfg, initFails), events);
    assert SettledOk(s, id);
    assert id in s.pending ==> PendingOk(s, id);
  }

  /** How a later state treats the requests of an earlier one: outcomes are final, a request no longer
      pending stays so, and with a new worker generation none of them is pending. */
  predicate Follows(s: State, s': State) {
    && s.nextMessageId <= s'.nextMessageId && s.workerGeneration <= s'.workerGeneration
    && (s.disposed ==> s'.disposed)
    && (forall id :: id in s.outcomes ==> id in s'.outcomes && s'.outcomes[id] == s.outcomes[id])
    && (forall id :: id in s'.pending && id < s.nextMessageId ==> id in s.pending)
    && (s.workerGeneration < s'.workerGeneration ==> forall id :: id in s'.pending ==> s.nextMessageId <= id)
  }

  lemma FollowsTrans(s: State, s1: State, s2: State)
    requires Follows(s, s1) && Follows(s1, s2)
    ensures Follows(s, s2)
  {
  }

  /** Pending requests and requests still to be issued have no outcome. */
  lemma Unsettled(s: State, id: nat)
    requires Inv(s) && (id in s.pending || s.nextMessageId <= id)
    ensures id !in s.outcomes
  {
    assert SettledOk(s, id);
    assert id in s.pending ==> PendingOk(s, id);
  }

  lemma RequestFollows(cfg: Config, s: State, execute: bool, expectedType: string, timeoutMs: real, postFails: bool)
    requires Inv(s)
    ensures Follows(s, Request(cfg, s, execute, expectedType, timeoutMs, postFails))
    ensures Request(cfg, s, execute, expectedType, timeoutMs, postFails).workerGeneration == s.workerGeneration
  {
    Unsettled(s, s.nextMessageId);
    hide Inv;
  }

  lemma RejectAllFollows(s: State, generation: nat, flag: bool)
    requires Inv(s) && s.workerGeneration <= generation
    ensures Follows(s, RejectAll(s.(workerGeneration := generation, interruptFlag := flag)))
  {
    forall id | id in s.pending ensures id !in s.outcomes {
      Unsettled(s, id);
    }
    hide Inv;
  }

  lemma RestartFollows(cfg: Config, s: State, initFails: bool)
    requires Inv(s)
    ensures Follows(s, Restart(cfg, s, initFails))
  {
    hide Inv, Follows, RejectAll, Request;
    var flag := if cfg.hasInterruptBuffer then false else s.interruptFlag;
    RejectAllKeeps(s, s.workerGeneration + 1, flag, s.disposed);
    RejectAllFollows(s, s.workerGeneration + 1, flag);
    var s0 := s.(workerGeneration := s.workerGeneration + 1, interruptFlag := flag);
    assert s0 == ResetFlag(cfg, NextGeneration(s));
    var s1 := RejectAll(s0);
    assert s1.disposed == s.disposed by {
      RejectAllDisposed(s0);
    }
    assert s1 == s1.(disposed := s.disposed);
    RequestFollows(cfg, s1, false, "kernel_info_reply", READY_TIMEOUT_MS, initFails);
    FollowsTrans(s, s1, Restart(cfg, s, initFails));
  }

  lemma RejectAllDisposed(s: State)
    ensures RejectAll(s).disposed == s.disposed
  {
  }

  lemma FireFollows(cfg: Config, s: State, t: nat, initFails: bool)
    requires Inv(s) && t in s.timers
    ensures Follows(s, FireTimer(cfg, s, t, initFails))
  {
    var timer := s.timers[t];
    if timer.kind != Soft {
      HardOwes(s, t);
      Unsettled(s, timer.id);
      var s1 := s.(timers := s.timers - {t}, pending := s.pending - {timer.id});
      SettlePays(s1, timer.id, Rejected);
      hide Inv, Owed;
      var s2 := Settle(s1, timer.id, Rejected);
      assert Follows(s, s2);
      if timer.kind == HardExecute {
        RestartFollows(cfg, s2, initFails);
        FollowsTrans(s, s2, Restart(cfg, s2, initFails));
      }
    }
  }

  lemma StepFollows(cfg: Config, s: State, e: Event)
    requires Inv(s)
    ensures Follows(s, Step(cfg, s, e))
  {
    match e
    case Execute(postFails) => RequestFollows(cfg, s, true, "execute_reply", cfg.hardTimeoutMs, postFails);
    case Ask(expectedType, timeoutMs, postFails) => RequestFollows(cfg, s, false, expectedType, timeoutMs, postFails);
    case Receive(m) =>
      if m.id in s.pending {
        Unsettled(s, m.id);
      }
    case Fire(t, initFails) =>
      if MayFire(s, t) {
        FireFollows(cfg, s, t, initFails);
      }
    case Crash(initFails) => RestartFollows(cfg, s, initFails);
    case Interrupt =>
    case WorkerBegins =>
    case Dispose =>
      forall id | id in s.pending ensures id !in s.outcomes {
        Unsettled(s, id);
      }
  }

  lemma {:induction false} RunFollows(cfg: Config, s: State, events: seq<Event>)
    requires Inv(s)
    ensures Follows(s, Run(cfg, s, events))
    decreases |events|
  {
    hide Inv, Step;
    if events != [] {
      var s1 := Step(cfg, s, events[0]);
      StepKeeps(cfg, s, events[0]);
      StepFollows(cfg, s, events[0]);
      RunFollows(cfg, s1, events[1..]);
      hide Follows;
      FollowsTrans(s, s1, Run(cfg, s, events));
    } else {
      assert Run(cfg, s, events) == s;
    }
  }

  /** After any restart a reply to an earlier request changes nothing at all, even one that does not say
      which generation it comes from. */
  lemma LateReplyIgnored(cfg: Config, s: State, events: seq<Event>, m: Message)
    requires Inv(s) && Run(cfg, s, events).workerGeneration != s.workerGeneration && m.id < s.nextMessageId
    ensures Step(cfg, Run(cfg, s, events), Receive(m)) == Run(cfg, s, events)
  {
    RunFollows(cfg, s, events);
  }

  /** A request settles one way only: once resolved or rejected, no later event changes that. */
  lemma OutcomeFinal(cfg: Config, s: State, events: seq<Event>, id: nat)
    requires Inv(s) && id in s.outcomes
    ensures var s' := Run(cfg, s, events); id in s'.outcomes && s'.outcomes[id] == s.outcomes[id] && id !in s'.pending
  {
    RunFollows(cfg, s, events);
    RunKeeps(cfg, s, events);
    assert SettledOk(Run(cfg, s, events), id);
  }

  /** Nothing is pending after dispose, whatever happens then. */
  lemma DisposedForGood(cfg: Config, s: State, events: seq<Event>)
    requires Inv(s)
    ensures Run(cfg, Step(cfg, s, Dispose), events).disposed && Run(cfg, Step(cfg, s, Dispose), events).pending == map[]
  {
    var s1 := Step(cfg, s, Dispose);
    StepKeeps(cfg, s, Dispose);
    RunKeeps(cfg, s1, events);
    RunFollows(cfg, s1, events);
  }

  // ---- Timers of settled requests ----

  predicate SoftFirst(cfg: Config) {
    cfg.hasInterruptBuffer ==> HostDelay(cfg.softTimeoutMs) <= HostDelay(cfg.hardTimeoutMs)
  }

  lemma EnterTidy(cfg: Config, s: State, id: nat, execute: bool, expectedType: string, timeoutMs: real)
    requires Owed(s, id) && Tidy(s) && SoftFirst(cfg) && (execute ==> timeoutMs == cfg.hardTimeoutMs)
    ensures Tidy(Enter(cfg, s, id, execute, expectedType, timeoutMs))
    ensures id in Enter(cfg, s, id, execute, expectedType, timeoutMs).pending
  {
    var s' := Enter(cfg, s, id, execute, expectedType, timeoutMs);
    assert forall t :: t in s.timers ==> TimerOk(s, t);
    hide Owed;
    forall t | t in s'.timers ensures SoftOk(s', t) {
      if t in s.timers {
        assert SoftOk(s, t);
        assert t < s.nextTimer;
      }
    }
  }

  lemma ForgetTidy(s: State, id: nat)
    requires Inv(s) && Tidy(s) && id in s.pending
    ensures Tidy(Forget(s, id))
  {
    var s' := Forget(s, id);
    forall t | t in s'.timers ensures SoftOk(s', t) {
      assert SoftOk(s, t) && TimerOk(s, t);
      if s.timers[t].kind == Soft {
        assert PendingOk(s, id) && PendingOk(s, s.timers[t].id);
      }
    }
  }

  /** Being tidy concerns only the pending requests and the timers. */
  lemma TidyDepends(s: State, s': State)
    requires Tidy(s) && s'.pending == s.pending && s'.timers == s.timers
    ensures Tidy(s')
  {
    assert forall t :: t in s.timers ==> SoftOk(s, t) && SoftOk(s', t);
  }

  lemma RequestTidy(cfg: Config, s: State, execute: bool, expectedType: string, timeoutMs: real, postFails: bool)
    requires Inv(s) && Tidy(s) && SoftFirst(cfg) && (execute ==> timeoutMs == cfg.hardTimeoutMs)
    ensures Tidy(Request(cfg, s, execute, expectedType, timeoutMs, postFails))
  {
    hide Inv, Owed, Tidy, Enter, SoftFirst;
    var id := s.nextMessageId;
    var flag := if cfg.hasInterruptBuffer && !s.disposed then false else s.interruptFlag;
    var s1 := s.(nextMessageId := id + 1, interruptFlag := flag);
    IssueOwes(s, flag);
    TidyDepends(s, s1);
    if s.disposed {
      TidyDepends(s1, Settle(s1, id, Rejected));
    } else {
      assert s1 == ResetFlag(cfg, s.(nextMessageId := id + 1));
      EnterKeeps(cfg, s1, id, execute, expectedType, timeoutMs);
      EnterTidy(cfg, s1, id, execute, expectedType, timeoutMs);
      if postFails {
        var s2 := Enter(cfg, s1, id, execute, expectedType, timeoutMs);
        ForgetOwes(s2, id);
        ForgetTidy(s2, id);
        TidyDepends(Forget(s2, id), Settle(Forget(s2, id), id, Rejected));
      }
    }
  }

  lemma RejectAllTidy(s: State, generation: nat, flag: bool, disposed: bool)
    requires Inv(s) && Tidy(s)
    ensures Tidy(RejectAll(s.(workerGeneration := generation, interruptFlag := flag)).(disposed := disposed))
  {
    forall t | t in s.timers ensures Owned(s.pending, t) {
      assert TimerOk(s, t) && SoftOk(s, t);
      assert t in Handles(s.pending[s.timers[t].id]);
    }
  }

  lemma RestartTidy(cfg: Config, s: State, initFails: bool)
    requires Inv(s) && Tidy(s) && SoftFirst(cfg)
    ensures Tidy(Restart(cfg, s, initFails))
  {
    hide Inv, Tidy, RejectAll, Request;
    var flag := if cfg.hasInterruptBuffer then false else s.interruptFlag;
    var s0 := s.(workerGeneration := s.workerGeneration + 1, interruptFlag := flag);
    assert s0 == ResetFlag(cfg, NextGeneration(s));
    RejectAllKeeps(s, s.workerGeneration + 1, flag, s.disposed);
    RejectAllTidy(s, s.workerGeneration + 1, flag, s.disposed);
    RejectAllDisposed(s0);
    var s1 := RejectAll(s0);
    assert s1 == s1.(disposed := s.disposed);
    RequestTidy(cfg, s1, false, "kernel_info_reply", READY_TIMEOUT_MS, initFails);
  }

  lemma DeliverTidy(cfg: Config, s: State, m: Message)
    requires Inv(s) && Tidy(s)
    ensures Tidy(Deliver(cfg, s, m))
  {
    hide Inv, Tidy;
    if m.id in s.pending {
      ForgetTidy(s, m.id);
      if Deliver(cfg, s, m) != s {
        TidyDepends(Forget(s, m.id), Deliver(cfg, s, m));
      }
    }
  }

  /** The hard timer of a request fires only after its soft timer. */
  lemma FireTidy(cfg: Config, s: State, t: nat, initFails: bool)
    requires Inv(s) && Tidy(s) && SoftFirst(cfg) && MayFire(s, t)
    ensures Tidy(FireTimer(cfg, s, t, initFails))
  {
    var timer := s.timers[t];
    if timer.kind == Soft {
      var s' := FireTimer(cfg, s, t, initFails);
      forall u | u in s'.timers ensures SoftOk(s', u) {
        assert SoftOk(s, u);
      }
    } else {
      HardOwes(s, t);
      var s1 := s.(timers := s.timers - {t}, pending := s.pending - {timer.id});
      SettlePays(s1, timer.id, Rejected);
      var s2 := Settle(s1, timer.id, Rejected);
      assert TimerOk(s, t);
      forall u | u in s2.timers ensures SoftOk(s2, u) {
        assert SoftOk(s, u);
        assert u < t ==> s.timers[u].delay > timer.delay;
        if s.timers[u].kind == Soft {
          assert PendingOk(s, s.timers[u].id);
        }
      }
      assert Tidy(s2);
      if timer.kind == HardExecute {
        RestartTidy(cfg, s2, initFails);
      }
    }
  }

  lemma StepTidy(cfg: Config, s: State, e: Event)
    requires Inv(s) && Tidy(s) && SoftFirst(cfg)
    ensures Tidy(Step(cfg, s, e))
  {
    match e
    case Execute(postFails) => RequestTidy(cfg, s, true, "execute_reply", cfg.hardTimeoutMs, postFails);
    case Ask(expectedType, timeoutMs, postFails) => RequestTidy(cfg, s, false, expectedType, timeoutMs, postFails);
    case Receive(m) => DeliverTidy(cfg, s, m);
    case Fire(t, initFails) =>
      if MayFire(s, t) {
        FireTidy(cfg, s, t, initFails);
      }
    case Crash(initFails) => RestartTidy(cfg, s, initFails);
    case Interrupt =>
    case WorkerBegins =>
    case Dispose => RejectAllTidy(s, s.workerGeneration, s.interruptFlag, true);
  }

  lemma {:induction false} RunTidy(cfg: Config, s: State, events: seq<Event>)
    requires Inv(s) && Tidy(s) && SoftFirst(cfg)
    ensures Tidy(Run(cfg, s, events))
    decreases |events|
  {
    hide Inv, Tidy, Step;
    if events != [] {
      StepKeeps(cfg, s, events[0]);
      StepTidy(cfg, s, events[0]);
      RunTidy(cfg, Step(cfg, s, events[0]), events[1..]);
    }
  }

  /** The worker is ready, a cell is executed, and its hard timer fires before its soft timer. */
  function LateSoftTimer(): seq<Event> {
    [Receive(Message(1, Some(0), "kernel_info_reply")), Execute(false), Fire(3, false)]
  }

  lemma RunThree(cfg: Config, s: State, a: Event, b: Event, c: Event)
    ensures Run(cfg, s, [a, b, c]) == Step(cfg, Step(cfg, Step(cfg, s, a), b), c)
  {
    hide Step;
    assert [a, b, c][1..] == [b, c] && [b, c][1..] == [c] && [c][1..] == [];
    var s1 := Step(cfg, s, a);
    var s2 := Step(cfg, s1, b);
    assert Run(cfg, s2, [c]) == Run(cfg, Step(cfg, s2, c), []);
    assert Run(cfg, s1, [b, c]) == Run(cfg, s2, [c]);
  }

  lemma ReadyState(cfg: Config)
    ensures var s := Step(cfg, Start(cfg, false), LateSoftTimer()[0]);
            s.pending == map[] && s.timers == map[] && s.nextTimer == 2 && s.nextMessageId == 2 && !s.disposed
            && s.workerGeneration == 0
  {
    var s0 := Start(cfg, false);
    assert s0.pending.Keys == {1} && s0.timers.Keys == {1};
  }

  lemma LateSoftTimerStays(cfg: Config)
    requires !SoftFirst(cfg)
    ensures !NoStray(Run(cfg, Start(cfg, false), LateSoftTimer()))
  {
    LateState(cfg);
    hide Run;
    assert 2 in Run(cfg, Start(cfg, false), LateSoftTimer()).timers;
  }

  lemma LateFrom(cfg: Config, s: State)
    requires !SoftFirst(cfg) && !s.disposed && s.workerGeneration == 0
    requires s.pending == map[] && s.timers == map[] && s.nextTimer == 2 && s.nextMessageId == 2
    ensures IsLate(Step(cfg, Step(cfg, s, Execute(false)), Fire(3, false)))
  {
    hide Step, IsLate, Request, FireTimer, MayFire, SoftAndHard;
    ExecutedState(cfg, s);
    var s1 := Request(cfg, s, true, "execute_reply", cfg.hardTimeoutMs, false);
    TakesStep(cfg, s);
    FiresStep(cfg, s1, 3);
    SoftSurvives(cfg, s1);
  }

  lemma TakesStep(cfg: Config, s: State)
    ensures Step(cfg, s, Execute(false)) == Request(cfg, s, true, "execute_reply", cfg.hardTimeoutMs, false)
  {
    hide Request;
  }

  lemma FiresStep(cfg: Config, s: State, t: nat)
    requires MayFire(s, t)
    ensures Step(cfg, s, Fire(t, false)) == FireTimer(cfg, s, t, false)
  {
    hide FireTimer;
  }

  function SoftAndHard(cfg: Config): map<nat, Timer> {
    map[2 := Timer(2, Soft, HostDelay(cfg.softTimeoutMs)), 3 := Timer(2, HardExecute, HostDelay(cfg.hardTimeoutMs))]
  }

  lemma ExecutedState(cfg: Config, s: State)
    requires cfg.hasInterruptBuffer && !s.disposed
    requires s.pending == map[] && s.timers == map[] && s.nextTimer == 2 && s.nextMessageId == 2
    ensures var s' := Request(cfg, s, true, "execute_reply", cfg.hardTimeoutMs, false);
            && s'.pending.Keys == {2} && s'.nextMessageId == 3 && s'.nextTimer == 4
            && s'.timers == SoftAndHard(cfg) && s'.workerGeneration == s.workerGeneration && !s'.disposed
            && (!SoftFirst(cfg) ==> MayFire(s', 3))
  {
  }

  lemma SoftSurvives(cfg: Config, s: State)
    requires s.pending.Keys == {2} && s.nextMessageId == 3 && s.nextTimer == 4 && s.workerGeneration == 0 && !s.disposed
    requires s.timers == SoftAndHard(cfg)
    ensures IsLate(FireTimer(cfg, s, 3, false))
  {
    hide Restart, IsLate;
    var s1 := s.(timers := s.timers - {3}, pending := s.pending - {2});
    assert s1.pending == map[] && s1.timers == map[2 := s.timers[2]];
    RestartedLate(cfg, Settle(s1, 2, Rejected));
  }

  lemma RestartedLate(cfg: Config, s: State)
    requires s.pending == map[] && s.timers.Keys == {2} && s.timers[2].kind == Soft && s.timers[2].id == 2
    requires s.nextMessageId == 3 && s.nextTimer == 4 && s.workerGeneration == 0 && !s.disposed
    ensures IsLate(Restart(cfg, s, false))
  {
    hide RejectAll;
    var s1 := ResetFlag(cfg, NextGeneration(s));
    RejectNothing(s1);
    RequestedLate(cfg, RejectAll(s1));
  }

  lemma RejectNothing(s: State)
    requires s.pending == map[]
    ensures var s' := RejectAll(s);
            && s'.pending == map[] && s'.timers == s.timers && s'.nextMessageId == s.nextMessageId
            && s'.nextTimer == s.nextTimer && s'.workerGeneration == s.workerGeneration && s'.disposed == s.disposed
  {
  }

  lemma RequestedLate(cfg: Config, s: State)
    requires s.pending == map[] && s.timers.Keys == {2} && s.timers[2].kind == Soft && s.timers[2].id == 2
    requires s.nextMessageId == 3 && s.nextTimer == 4 && s.workerGeneration == 1 && !s.disposed
    ensures IsLate(Request(cfg, s, false, "kernel_info_reply", READY_TIMEOUT_MS, false))
  {
  }

  /** After that run: the new worker has been asked, and the soft timer of request 2 is still armed. */
  predicate IsLate(s: State) {
    && s.pending.Keys == {3} && s.pending[3].generation == s.workerGeneration == 1
    && s.pending[3].timer == None && s.pending[3].hardTimer == 4 && s.pending[3].expectedType == "kernel_info_reply"
    && s.timers.Keys == {2, 4} && s.timers[2].kind == Soft && s.timers[2].id == 2
    && s.nextTimer == 5 && s.nextMessageId == 4 && !s.disposed
  }

  lemma LateState(cfg: Config)
    requires !SoftFirst(cfg)
    ensures IsLate(Run(cfg, Start(cfg, false), LateSoftTimer()))
  {
    var events := LateSoftTimer();
    ReadyState(cfg);
    RunThree(cfg, Start(cfg, false), events[0], events[1], events[2]);
    hide Run, Start, Step, SoftFirst, IsLate;
    LateFrom(cfg, Step(cfg, Start(cfg, false), events[0]));
  }

  /** The timeouts alone do not tell: with a soft timeout of 30 seconds and a hard one of 2^31 milliseconds, the
      hard timer is due at once and leaves the soft one armed; the other way round all is well. */
  lemma LongDelaysWrap(events: seq<Event>)
    ensures var cfg := Config(true, 30000.0, 2147483648.0); !NoStray(Run(cfg, Start(cfg, false), LateSoftTimer()))
    ensures var cfg := Config(true, 2147483648.0, 30000.0); NoStray(Run(cfg, Start(cfg, false), events))
  {
    hide Run, Start, NoStray, LateSoftTimer;
    DelayKept(30000.0);
    assert Wrap(2147483648) == -2147483648;
    assert HostDelay(2147483648.0) == 0;
    LateSoftTimerStays(Config(true, 30000.0, 2147483648.0));
    TimersTidyIff(Config(true, 2147483648.0, 30000.0));
  }

  /** No settled request ever has an armed timer exactly when the host's delay for the soft timeout is not longer
      than that for the hard one, or there is no interrupt buffer and so no soft timer. */
  lemma TimersTidyIff(cfg: Config)
    ensures SoftFirst(cfg) <==> forall initFails, events :: NoStray(Run(cfg, Start(cfg, initFails), events))
  {
    if SoftFirst(cfg) {
      forall initFails, events ensures NoStray(Run(cfg, Start(cfg, initFails), events)) {
        var s := State(map[], 0, 1, false, false, map[], 1, multiset{}, map[]);
        assert forall k: nat :: SettledOk(s, k);
        RequestTidy(cfg, s, false, "kernel_info_reply", READY_TIMEOUT_MS, initFails);
        StartKeeps(cfg, initFails);
        RunTidy(cfg, Start(cfg, initFails), events);
        RunKeeps(cfg, Start(cfg, initFails), events);
        TidyHasNoStray(Run(cfg, Start(cfg, initFails), events));
      }
    } else {
      LateSoftTimerStays(cfg);
    }
  }
}
