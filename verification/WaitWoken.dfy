/** The handshake of wait_woken and woken_wake_function: one waiter, any number of wakers,
    every interleaving of their steps. */
module WaitWoken {

  /** Where the waiter is in its loop: checking the condition, then inside wait_woken. */
  datatype Waiter = Check | SetMode | TestFlag | Schedule | Asleep | SetRunning | ClearFlag | Left

  /** Where a waker is: about to set the condition, then the flag, then to wake. */
  datatype Waker = SetCondition | SetFlag | Wake

  /** The shared state: the condition, the WOKEN flag of the wait entry, and whether the
      state of the task is the sleeping mode. */
  datatype State = State(condition: bool, woken: bool, sleepy: bool, waiter: Waiter, wakers: seq<Waker>)

  /** A step of the waiter (told to stop as a kernel thread, or not), the end of a timeout,
      or a step of a waker. */
  datatype Step = WaiterStep(stop: bool) | TimedOut | WakerStep(who: nat)

  function Start(condition: bool, wakers: nat): State {
    State(condition, false, false, Check, seq(wakers, _ => SetCondition))
  }

  function WaiterNext(s: State, stop: bool): State {
    match s.waiter
    case Check => s.(waiter := if s.condition then Left else SetMode)
    case SetMode => s.(sleepy := true, waiter := TestFlag)
    case TestFlag => s.(waiter := if s.woken || stop then SetRunning else Schedule)
    case Schedule => s.(waiter := if s.sleepy then Asleep else SetRunning)
    case Asleep => if s.sleepy then s else s.(waiter := SetRunning)
    case SetRunning => s.(sleepy := false, waiter := ClearFlag)
    case ClearFlag => s.(woken := false, waiter := Check)
    case Left => s
  }

  function WakerNext(s: State, who: nat): State
    requires who < |s.wakers|
  {
    match s.wakers[who]
    case SetCondition => s.(condition := true, wakers := s.wakers[who := SetFlag])
    case SetFlag => s.(woken := true, wakers := s.wakers[who := Wake])
    case Wake => s.(sleepy := false, wakers := s.wakers[who := SetCondition])
  }

  /** One atomic step; a step that cannot be taken leaves the state alone. */
  function Next(s: State, step: Step): State {
    match step
    case WaiterStep(stop) => WaiterNext(s, stop)
    case TimedOut => if s.waiter == Asleep then s.(sleepy := false) else s
    case WakerStep(who) => if who < |s.wakers| then WakerNext(s, who) else s
  }

  function Run(s: State, steps: seq<Step>): State
    decreases |steps|
  {
    if steps == [] then s else Run(Next(s, steps[0]), steps[1..])
  }

  // ----- safety -----

  predicate SomeAt(s: State, at: Waker) { exists i :: 0 <= i < |s.wakers| && s.wakers[i] == at }

  /** Some waker has set the condition and not yet woken the waiter. */
  predicate InProgress(s: State) { SomeAt(s, SetFlag) || SomeAt(s, Wake) }

  /** What every step keeps.  Once the condition holds, a waiter that has not tested the
      flag yet will find it set, unless a waker is about to set it; and one that found it
      clear will not stay asleep, unless a waker is about to wake it. */
  predicate Inv(s: State) {
    && (s.waiter == SetMode || s.waiter == TestFlag ==> s.condition ==> s.woken || SomeAt(s, SetFlag))
    && (s.waiter == Schedule || s.waiter == Asleep ==> s.condition ==> !s.sleepy || InProgress(s))
  }

  lemma WakersMove(s: State, who: nat, at: Waker)
    requires who < |s.wakers|
    ensures SomeAt(s.(wakers := s.wakers[who := at]), at)
    ensures forall x :: x != s.wakers[who] && SomeAt(s, x) ==> SomeAt(s.(wakers := s.wakers[who := at]), x)
  {
    var t := s.(wakers := s.wakers[who := at]);
    assert t.wakers[who] == at;
    forall x | x != s.wakers[who] && SomeAt(s, x) ensures SomeAt(t, x) {
      var i :| 0 <= i < |s.wakers| && s.wakers[i] == x;
      assert t.wakers[i] == x;
    }
  }

  lemma InvKept(s: State, step: Step)
    requires Inv(s)
    ensures Inv(Next(s, step))
  {
    if step.WakerStep? && step.who < |s.wakers| {
      WakersMove(s, step.who, Next(s, step).wakers[step.who]);
      assert SomeAt(s, s.wakers[step.who]);
    }
  }

  lemma {:induction false} InvAlways(s: State, steps: seq<Step>)
    requires Inv(s)
    ensures Inv(Run(s, steps))
    decreases |steps|
  {
    hide Inv; hide Next;
    if steps != [] {
      InvKept(s, steps[0]);
      InvAlways(Next(s, steps[0]), steps[1..]);
    }
  }

  /** No wake-up is lost: in no interleaving is the waiter asleep while the condition holds
      and no waker is still at work. */
  lemma NoLostWakeup(condition: bool, wakers: nat, steps: seq<Step>)
    ensures var s := Run(Start(condition, wakers), steps);
            s.waiter == Asleep && s.sleepy && s.condition ==> InProgress(s)
  {
    InvAlways(Start(condition, wakers), steps);
  }

  // ----- progress -----

  function WaiterRun(s: State, stops: seq<bool>): State
    decreases |stops|
  {
    if stops == [] then s else WaiterRun(WaiterNext(s, stops[0]), stops[1..])
  }

  /** How many steps of its own the waiter is from leaving, once it cannot sleep. */
  function Distance(w: Waiter): nat {
    match w
    case Left => 0
    case Check => 1
    case ClearFlag => 2
    case SetRunning => 3
    case TestFlag => 4
    case Schedule => 4
    case Asleep => 4
    case SetMode => 5
  }

  /** The condition holds, the waiter is going to see it, and no waker is needed for that. */
  predicate Awake(s: State) {
    && s.condition
    && (s.waiter == SetMode || s.waiter == TestFlag ==> s.woken)
    && (s.waiter == Schedule || s.waiter == Asleep ==> !s.sleepy)
  }

  lemma {:induction false} AwakeLeaves(s: State, stops: seq<bool>)
    requires Awake(s) && |stops| >= Distance(s.waiter)
    ensures WaiterRun(s, stops).waiter == Left
    decreases |stops|
  {
    if stops != [] {
      var t := WaiterNext(s, stops[0]);
      assert Awake(t) && (s.waiter == Left || Distance(t.waiter) == Distance(s.waiter) - 1);
      AwakeLeaves(t, stops[1..]);
    }
  }

  /** In every interleaving, once the condition holds and no waker is at work, the waiter
      needs no timeout and no further wake-up: five steps of its own and it has left. */
  lemma WaiterLeaves(condition: bool, wakers: nat, steps: seq<Step>, stops: seq<bool>)
    requires var s := Run(Start(condition, wakers), steps); s.condition && !InProgress(s)
    requires |stops| >= 5
    ensures WaiterRun(Run(Start(condition, wakers), steps), stops).waiter == Left
  {
    InvAlways(Start(condition, wakers), steps);
    var s := Run(Start(condition, wakers), steps);
    hide Run; hide WaiterRun;
    assert Awake(s);
    AwakeLeaves(s, stops);
  }

  /** How many steps of its own the waiter is from sleeping, while the condition is false:
      a flag that is still set costs it one round. */
  function ToSleep(s: State): nat {
    match s.waiter
    case Asleep => if s.sleepy then 0 else 7
    case Schedule => if s.sleepy then 1 else 7
    case TestFlag => if s.woken then 7 else if s.sleepy then 2 else 8
    case SetMode => if s.woken then 8 else 3
    case Check => if s.woken then 9 else 4
    case ClearFlag => 5
    case SetRunning => 6
    case Left => 0
  }

  /** The waiter does not spin: while the condition is false and nobody wakes it or tells it
      to stop, it sleeps after nine steps of its own at most, and goes on sleeping. */
  lemma Sleeps(s: State, stops: seq<bool>)
    requires !s.condition && s.waiter != Left
    requires |stops| >= 9 && forall stop :: stop in stops ==> !stop
    ensures var t := WaiterRun(s, stops); t.waiter == Asleep && t.sleepy && !t.condition
  {
    SleepsSoon(s, stops);
  }

  lemma {:induction false} SleepsSoon(s: State, stops: seq<bool>)
    requires !s.condition && s.waiter != Left
    requires |stops| >= ToSleep(s) && forall stop :: stop in stops ==> !stop
    ensures var t := WaiterRun(s, stops); t.waiter == Asleep && t.sleepy && !t.condition
    decreases |stops|
  {
    if stops != [] {
      var t := WaiterNext(s, stops[0]);
      assert stops[0] in stops && forall stop :: stop in stops[1..] ==> stop in stops;
      assert ToSleep(t) <= (if ToSleep(s) == 0 then 0 else ToSleep(s) - 1) && !t.condition && t.waiter != Left;
      SleepsSoon(t, stops[1..]);
    }
  }

  /** The waiter leaves only after the condition was set. */
  lemma {:induction false} LeavesOnlyWhenSet(s: State, steps: seq<Step>)
    requires s.waiter == Left ==> s.condition
    ensures Run(s, steps).waiter == Left ==> Run(s, steps).condition
    decreases |steps|
  {
    if steps != [] {
      LeavesOnlyWhenSet(Next(s, steps[0]), steps[1..]);
    }
  }
}
