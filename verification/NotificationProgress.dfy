/** What owners get, and that every call returns, in the interleavings of NotificationProtocol. */
module NotificationProgress {
  import opened MachineIntegers
  import opened AwaiterQueue
  import opened NotificationProtocol
  import opened NotificationInvariant
  import opened NotificationSafety
  import opened NotificationRefinement

  // ----- one step of the lock holder -----

  /** How many steps the holder of the lock has left at most. */
  function TicksLeft(pc: Pc): nat {
    match pc
    case Unlocked => 0
    case RegisterEnter(_, _) => 5
    case RegisterFields(_, _) => 4
    case RegisterLink(_, _) => 3
    case RegisterTail(_, _) => 2
    case RegisterPublish(_, _) => 1
    case UnregisterEnter(_) => 7
    case NotifyEnter(_) => 7
    case SpliceRead(_, _) => 6
    case SplicePrev(_, _, _, _) => 5
    case SpliceNext(_, _, _, _) => 4
    case TakeWaker(_, _) => 3
    case Publish(_, _, _) => 2
    case Return(_, _) => 1
    case Advancing => 1
  }

  /** What a step of the holder can write into the log. */
  ghost predicate LogsLittle(before: multiset<Event>, after: multiset<Event>) {
    after == before
    || exists e :: after == before + multiset{e} && !e.Took? && !e.Discarded?
  }

  /** `t` comes after `s` in a call: closer to its end, and with nothing consumed. */
  ghost predicate Goes(s: Machine, t: Machine) {
    TicksLeft(t.pc) < TicksLeft(s.pc) && !t.pc.NotifyEnter? && LogsLittle(s.log, t.log)
  }

  lemma RegisterGoes(s: Machine, a: Id, w: Waker)
    ensures s.pc == RegisterEnter(a, w) ==> Goes(s, TickRegisterEnter(s, a, w))
    ensures s.pc == RegisterFields(a, w) ==> Goes(s, TickRegisterFields(s, a, w))
    ensures s.pc == RegisterTail(a, w) ==> Goes(s, TickRegisterTail(s, a, w))
    ensures s.pc == RegisterPublish(a, w) ==> Goes(s, TickRegisterPublish(s, a))
  {
  }

  lemma LinkGoes(s: Machine, a: Id, w: Waker)
    requires s.pc == RegisterLink(a, w)
    ensures Goes(s, TickRegisterLink(s, a, w))
  {
  }

  lemma EntersGo(s: Machine, fromTail: bool)
    ensures s.pc.UnregisterEnter? ==> Goes(s, TickUnregisterEnter(s, s.pc.a))
    ensures s.pc.NotifyEnter? ==> Goes(s, TickNotifyEnter(s, s.pc.priorOnly, fromTail))
  {
  }

  lemma SplicePrevGoes(s: Machine, p: Id, notify: bool, before: Option<Id>, after: Option<Id>)
    requires s.pc == SplicePrev(p, notify, before, after)
    ensures Goes(s, TickSplicePrev(s, p, notify, before, after))
  {
  }

  lemma SpliceNextGoes(s: Machine, p: Id, notify: bool, before: Option<Id>, after: Option<Id>)
    requires s.pc == SpliceNext(p, notify, before, after)
    ensures Goes(s, TickSpliceNext(s, p, notify, before, after))
  {
  }

  lemma DeparturesGo(s: Machine, p: Id, notify: bool, taken: Option<Waker>)
    ensures s.pc == SpliceRead(p, notify) ==> Goes(s, TickSpliceRead(s, p, notify))
    ensures s.pc == TakeWaker(p, notify) ==> Goes(s, TickTakeWaker(s, p, notify))
    ensures s.pc == Publish(p, notify, taken) ==> Goes(s, TickPublish(s, p, notify, taken))
    ensures s.pc == Return(p, taken) ==> Goes(s, TickReturn(s, p, taken))
  {
  }

  /** Every step of the holder of the lock brings its call closer to the end, and none
      consumes a notification. */
  lemma {:induction false} TickGoes(s: Machine, fromTail: bool)
    requires !s.pc.Unlocked?
    ensures Goes(s, TickOnce(s, fromTail))
  {
    match s.pc
    case RegisterEnter(a, w) => RegisterGoes(s, a, w);
    case RegisterFields(a, w) => RegisterGoes(s, a, w);
    case RegisterLink(a, w) => LinkGoes(s, a, w);
    case RegisterTail(a, w) => RegisterGoes(s, a, w);
    case RegisterPublish(a, w) => RegisterGoes(s, a, w);
    case UnregisterEnter(_) => EntersGo(s, fromTail);
    case NotifyEnter(_) => EntersGo(s, fromTail);
    case SpliceRead(p, notify) => DeparturesGo(s, p, notify, None);
    case SplicePrev(p, notify, before, after) => SplicePrevGoes(s, p, notify, before, after);
    case SpliceNext(p, notify, before, after) => SpliceNextGoes(s, p, notify, before, after);
    case TakeWaker(p, notify) => DeparturesGo(s, p, notify, None);
    case Publish(p, notify, taken) => DeparturesGo(s, p, notify, taken);
    case Return(p, taken) => DeparturesGo(s, p, true, taken);
    case Advancing =>
  }

  // ----- what owners get -----

  /** Taking succeeds exactly on a notified awaiter and leaves it idle; freeing ends the
      awaiter and discards a notification; a new awaiter is idle. Nothing else changes. */
  lemma OwnersActExactly(actions: seq<Action>, a: Id)
    requires Schedule(Start(), actions)
    ensures var s := Execute(Start(), actions);
            Enabled(s, OwnerTakes(a)) ==>
              Act(s, OwnerTakes(a))
              == if InPhase(s.mem, a, Notified)
                 then s.(mem := s.mem[a := At(s.mem, a).(phase := Idle)], log := s.log + multiset{Took(a)})
                 else s
    ensures var s := Execute(Start(), actions);
            Enabled(s, OwnerFrees(a)) ==>
              Act(s, OwnerFrees(a))
              == s.(mem := s.mem[a := Freed],
                    log := if InPhase(s.mem, a, Notified) then s.log + multiset{Discarded(a)} else s.log)
    ensures var s := Execute(Start(), actions);
            Enabled(s, Allocates(a)) ==>
              Act(s, Allocates(a)) == s.(mem := s.mem[a := Live(Idle, None, None, None, 0)])
  {
    var s := Execute(Start(), actions);
    assert s.log + multiset{} == s.log;
  }

  /** Which actions are considered: with the lock free any call that its contract allows, on an
      awaiter that is alive; and in every state an owner that is not itself inside a call with it. */
  lemma CallsAreAllowedExactlyWhen(s: Machine, a: Id, w: Waker, priorOnly: bool)
    requires s.pc.Unlocked?
    ensures Enabled(s, LockToRegister(a, w)) <==> InPhase(s.mem, a, Idle) || InPhase(s.mem, a, Waiting)
    ensures Enabled(s, LockToUnregister(a)) <==> InPhase(s.mem, a, Waiting) || InPhase(s.mem, a, Notified)
    ensures Enabled(s, LockToNotify(priorOnly)) && Enabled(s, LockToAdvance)
    ensures Enabled(s, OwnerTakes(a)) <==> At(s.mem, a).Live?
    ensures Enabled(s, OwnerFrees(a)) <==> InPhase(s.mem, a, Idle) || InPhase(s.mem, a, Notified)
    ensures Enabled(s, Allocates(a)) <==> At(s.mem, a).Freed?
  {
  }

  /** Neither the owner of `a` takes, nor does it free. */
  predicate LeavesAlone(action: Action, a: Id) {
    action != OwnerTakes(a) && action != OwnerFrees(a)
  }

  /** Only owners consume notifications, and none is ever taken back. */
  lemma {:induction false} StepLogs(s: Machine, action: Action, a: Id)
    requires Enabled(s, action) && LeavesAlone(action, a)
    ensures var t := Act(s, action);
            && t.log[Took(a)] == s.log[Took(a)] && t.log[Discarded(a)] == s.log[Discarded(a)]
            && s.log[Notification(a)] <= t.log[Notification(a)]
  {
    if action.Tick? {
      TickGoes(s, action.fromTail);
    }
  }

  lemma StepKeepsNotification(s: Machine, action: Action, a: Id)
    requires Inv(s) && InPhase(s.mem, a, Notified)
    requires Enabled(s, action) && LeavesAlone(action, a)
    ensures InPhase(Act(s, action).mem, a, Notified)
  {
    StepLogs(s, action, a);
    StepKeepsInv(s, action);
    assert Balanced(s, a) && Balanced(Act(s, action), a);
  }

  /** No notification is lost: whatever the set and other owners do, it stays until its owner
      takes it or frees the awaiter. */
  lemma {:induction false} NotificationsStay(before: seq<Action>, actions: seq<Action>, a: Id)
    requires Schedule(Start(), before) && InPhase(Execute(Start(), before).mem, a, Notified)
    requires Schedule(Execute(Start(), before), actions)
    requires forall i :: 0 <= i < |actions| ==> LeavesAlone(actions[i], a)
    ensures InPhase(Execute(Execute(Start(), before), actions).mem, a, Notified)
  {
    StartHolds();
    RunKeepsInv(Start(), before);
    RunKeepsNotification(Execute(Start(), before), actions, a);
  }

  lemma {:induction false} RunKeepsNotification(s: Machine, actions: seq<Action>, a: Id)
    requires Inv(s) && InPhase(s.mem, a, Notified) && Schedule(s, actions)
    requires forall i :: 0 <= i < |actions| ==> LeavesAlone(actions[i], a)
    ensures InPhase(Execute(s, actions).mem, a, Notified)
    decreases |actions|
  {
    if actions != [] {
      StepKeepsNotification(s, actions[0], a);
      StepKeepsInv(s, actions[0]);
      RunKeepsNotification(Act(s, actions[0]), actions[1..], a);
    }
  }

  // ----- every call returns -----

  function Ticks(actions: seq<Action>): nat {
    if actions == [] then 0 else (if actions[0].Tick? then 1 else 0) + Ticks(actions[1..])
  }

  predicate IsCall(action: Action) {
    action.LockToRegister? || action.LockToUnregister? || action.LockToNotify? || action.LockToAdvance?
  }

  /** What a call asks for; which end `notify_one` picks is settled on the way. */
  predicate AsksFor(call: Action, op: Op<Id>) {
    match call
    case LockToRegister(a, w) => op == Register(a, w)
    case LockToUnregister(a) => op == Unregister(a)
    case LockToNotify(priorOnly) => if priorOnly then op.NotifyOnePriorGeneration? else op.NotifyOne?
    case LockToAdvance => op.AdvanceGeneration?
    case _ => false
  }

  /** The holder of the lock is busy with a call. */
  ghost predicate BusyWith(r: Recorded, call: Action) {
    !r.m.pc.Unlocked? && AsksFor(call, r.asked)
    && (r.m.pc.NotifyEnter? ==> call == LockToNotify(r.m.pc.priorOnly))
  }

  /** `t` is what `r` becomes when the call is done, and nothing else. */
  ghost predicate Completed(r: Recorded, call: Action, t: Recorded) {
    t.m.pc.Unlocked? && |t.done| == |r.done| + 1 && t.done[..|r.done|] == r.done && AsksFor(call, t.done[|r.done|])
  }

  lemma BusyStep(r: Recorded, call: Action, action: Action)
    requires BusyWith(r, call) && Enabled(r.m, action)
    ensures var t := StepRecorded(r, action);
            && (Completed(r, call, t) || (BusyWith(t, call) && t.done == r.done))
            && TicksLeft(t.m.pc) + (if action.Tick? then 1 else 0) <= TicksLeft(r.m.pc)
  {
    if action.Tick? {
      TickGoes(r.m, action.fromTail);
      var asked := AskedAt(r, action.fromTail);
      assert (r.done + [asked])[..|r.done|] == r.done;
    }
  }

  lemma {:induction false} BusyReturns(r: Recorded, call: Action, rest: seq<Action>) returns (n: nat)
    requires BusyWith(r, call) && Schedule(r.m, rest) && TicksLeft(r.m.pc) <= Ticks(rest)
    ensures n <= |rest| && Schedule(r.m, rest[..n]) && Completed(r, call, RunRecorded(r, rest[..n]))
    decreases |rest|
  {
    BusyStep(r, call, rest[0]);
    var t := StepRecorded(r, rest[0]);
    if Completed(r, call, t) {
      n := 1;
      assert rest[..1][1..] == [];
    } else {
      var k := BusyReturns(t, call, rest[1..]);
      n := k + 1;
      assert rest[..n][1..] == rest[1..][..k];
    }
  }

  const NEW := Recorded(Start(), AdvanceGeneration, [], [])

  /** `t` follows `r` by one whole operation of the plain queue. */
  ghost predicate Performed(r: Recorded, call: Action, t: Recorded) {
    && Completed(r, call, t)
    && (Contents(t.m), t.returned)
       == (Effect(Contents(r.m), t.done[|r.done|]).0, r.returned + [Effect(Contents(r.m), t.done[|r.done|]).1])
  }

  lemma {:induction false} CompletedIsPerformed(r: Recorded, call: Action, t: Recorded)
    requires Linear(r) && r.m.pc.Unlocked? && Linear(t) && Completed(r, call, t)
    ensures Performed(r, call, t)
  {
    assert t.done == r.done + [t.done[|r.done|]];
    ReplayGrows(r.done, t.done[|r.done|]);
  }

  /** Every call returns: whenever the lock is free, whichever call takes it and whatever owners
      do meanwhile, seven steps of its holder are enough, and then it has done exactly its one
      operation. */
  lemma {:induction false} EveryCallReturns(before: seq<Action>, call: Action, rest: seq<Action>) returns (n: nat)
    requires Schedule(Start(), before) && Execute(Start(), before).pc.Unlocked?
    requires IsCall(call) && Enabled(Execute(Start(), before), call)
    requires Schedule(Act(Execute(Start(), before), call), rest) && 7 <= Ticks(rest)
    ensures n <= |rest| && RunRecorded(NEW, before).m == Execute(Start(), before)
    ensures Schedule(Execute(Start(), before), [call] + rest[..n])
    ensures Performed(RunRecorded(NEW, before), call, RunRecorded(RunRecorded(NEW, before), [call] + rest[..n]))
  {
    StartHolds();
    RunStaysLinear(NEW, before);
    RunKeepsInv(Start(), before);
    var r := RunRecorded(NEW, before);
    var busy := StepRecorded(r, call);
    StepKeepsInv(r.m, call);
    StepStaysLinear(r, call);
    n := BusyReturns(busy, call, rest);
    RunStaysLinear(busy, rest[..n]);
    assert ([call] + rest[..n])[1..] == rest[..n];
    CompletedIsPerformed(r, call, RunRecorded(busy, rest[..n]));
  }
}
