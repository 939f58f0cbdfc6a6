/** What holds in every interleaving of module NotificationProtocol. */
module NotificationSafety {
  import opened MachineIntegers
  import opened AwaiterQueue
  import opened NotificationProtocol
  import opened NotificationInvariant
  import opened NotificationRegistration
  import opened NotificationRemoval

  // ----- the owners -----

  /** An owner writes to its own awaiter only while it is off the chain in both directions. */
  lemma OwnerIsOffChain(s: Machine, a: Id)
    requires Inv(s) && !InPhase(s.mem, a, Waiting) && OwnerElsewhere(s.pc, a)
    ensures a !in Names(s.entries) && a !in s.backward
  {
    NotOnChain(s, a);
    if s.pc.SpliceNext? && a in s.backward {
      RemovalKeepsOthers(s.backward, IndexIn(s.backward, s.pc.p));
    }
  }

  lemma OwnerKeepsChains(s: Machine, a: Id, cell: Cell)
    requires ChainsHold(s) && a !in Names(s.entries) && a !in s.backward
    ensures ChainsHold(Put(s, a, cell))
  {
    ForwardKept(s.mem, a, cell, Names(s.entries));
    BackwardKept(s.mem, a, cell, s.backward);
    DescribedKept(s.mem, a, cell, s.entries, s.latest);
  }

  lemma KeepsOwnerWrite(s: Machine, a: Id, cell: Cell)
    requires Inv(s) && !InPhase(s.mem, a, Waiting) && OwnerElsewhere(s.pc, a)
    requires cell.Live? ==> cell.phase != Waiting
    ensures ChainsHold(Put(s, a, cell)) && PhasesHold(Put(s, a, cell)) && SubjectKnown(Put(s, a, cell))
  {
    OwnerIsOffChain(s, a);
    OwnerKeepsChains(s, a, cell);
    PhasesKept(s.mem, a, cell, s.pc, s.pc, Names(s.entries));
    OwnerIsNotSubject(s, a, cell);
  }

  lemma OwnerIsNotSubject(s: Machine, a: Id, cell: Cell)
    requires SubjectKnown(s) && a !in s.backward
    requires !InPhase(s.mem, a, Waiting) && OwnerElsewhere(s.pc, a)
    ensures SubjectKnown(Put(s, a, cell))
  {
  }

  lemma OwnerBooks(s: Machine, t: Machine, a: Id)
    requires BooksHold(s) && t.pc == s.pc && t.mem == s.mem[a := At(t.mem, a)]
    requires !InPhase(s.mem, a, Waiting) && !InPhase(t.mem, a, Waiting) && !InPhase(t.mem, a, Notified)
    requires if InPhase(s.mem, a, Notified) then t.log == s.log + multiset{Took(a)}
             || t.log == s.log + multiset{Discarded(a)}
             else t.log == s.log
    ensures BooksHold(t)
  {
    forall b ensures Balanced(t, b) {
      assert Balanced(s, b);
    }
  }

  lemma KeepsOwnerTake(s: Machine, a: Id)
    requires Inv(s) && At(s.mem, a).Live? && OwnerElsewhere(s.pc, a)
    ensures Inv(OwnerTake(s, a))
  {
    if InPhase(s.mem, a, Notified) {
      KeepsOwnerWrite(s, a, At(s.mem, a).(phase := Idle));
      OwnerBooks(s, OwnerTake(s, a), a);
    }
  }

  lemma KeepsOwnerFree(s: Machine, a: Id)
    requires Inv(s) && At(s.mem, a).Live? && !InPhase(s.mem, a, Waiting) && OwnerElsewhere(s.pc, a)
    ensures Inv(OwnerFree(s, a))
  {
    KeepsOwnerWrite(s, a, Freed);
    OwnerBooks(s, OwnerFree(s, a), a);
  }

  lemma KeepsAllocate(s: Machine, a: Id)
    requires Inv(s) && At(s.mem, a).Freed?
    ensures Inv(Put(s, a, Live(Idle, None, None, None, 0)))
  {
    var cell := Live(Idle, None, None, None, 0);
    assert OwnerElsewhere(s.pc, a);
    KeepsOwnerWrite(s, a, cell);
    OwnerBooks(s, Put(s, a, cell), a);
  }

  // ----- every run -----

  lemma StartHolds()
    ensures Inv(Start())
  {
  }

  lemma RegisterTickKeepsInv(s: Machine, fromTail: bool)
    requires Inv(s)
    requires s.pc.RegisterEnter? || s.pc.RegisterFields? || s.pc.RegisterLink? || s.pc.RegisterTail?
             || s.pc.RegisterPublish?
    ensures Inv(TickOnce(s, fromTail))
  {
    match s.pc
    case RegisterEnter(a, w) => KeepsRegisterEnter(s, a, w);
    case RegisterFields(a, w) => KeepsRegisterFields(s, a, w);
    case RegisterLink(a, w) => KeepsRegisterLink(s, a, w);
    case RegisterTail(a, w) => KeepsRegisterTail(s, a, w);
    case RegisterPublish(a, w) => KeepsRegisterPublish(s, a, w);
  }

  lemma RemovalTickKeepsInv(s: Machine, fromTail: bool)
    requires Inv(s)
    requires s.pc.SpliceRead? || s.pc.SplicePrev? || s.pc.SpliceNext? || s.pc.TakeWaker? || s.pc.Publish?
    ensures Inv(TickOnce(s, fromTail))
  {
    match s.pc
    case SpliceRead(p, notify) => KeepsSpliceRead(s, p, notify);
    case SplicePrev(p, notify, before, after) => KeepsSplicePrev(s, p, notify, before, after);
    case SpliceNext(p, notify, before, after) => KeepsSpliceNext(s, p, notify, before, after);
    case TakeWaker(p, notify) => KeepsTakeWaker(s, p, notify);
    case Publish(p, notify, taken) => KeepsPublish(s, p, notify, taken);
  }

  lemma BorderTickKeepsInv(s: Machine, fromTail: bool)
    requires Inv(s)
    requires s.pc.UnregisterEnter? || s.pc.NotifyEnter? || s.pc.Return? || s.pc.Advancing?
    ensures Inv(TickOnce(s, fromTail))
  {
    match s.pc
    case UnregisterEnter(a) => KeepsUnregisterEnter(s, a);
    case NotifyEnter(priorOnly) => KeepsNotifyEnter(s, priorOnly, fromTail);
    case Return(p, taken) => KeepsReturn(s, p, taken);
    case Advancing =>
      PcMoves(s, Unlocked);
      KeepsAdvance(s);
  }

  lemma TickKeepsInv(s: Machine, fromTail: bool)
    requires Inv(s) && !s.pc.Unlocked?
    ensures Inv(TickOnce(s, fromTail))
  {
    if s.pc.RegisterEnter? || s.pc.RegisterFields? || s.pc.RegisterLink? || s.pc.RegisterTail?
        || s.pc.RegisterPublish? {
      RegisterTickKeepsInv(s, fromTail);
    } else if s.pc.UnregisterEnter? || s.pc.NotifyEnter? || s.pc.Return? || s.pc.Advancing? {
      BorderTickKeepsInv(s, fromTail);
    } else {
      RemovalTickKeepsInv(s, fromTail);
    }
  }

  lemma KeepsAdvance(s: Machine)
    requires Inv(s) && s.pc.Advancing?
    requires var t := s.(pc := Unlocked); ChainsHold(t) && PhasesHold(t) && BooksHold(t)
    ensures Inv(TickOnce(s, false)) && TickOnce(s, true) == TickOnce(s, false)
  {
    var t := TickOnce(s, false);
    forall b ensures Balanced(t, b) {
      assert Balanced(s, b);
    }
  }

  lemma StepKeepsInv(s: Machine, action: Action)
    requires Inv(s) && Enabled(s, action)
    ensures Inv(Act(s, action))
  {
    match action
    case LockToRegister(a, w) => PcMoves(s, RegisterEnter(a, w));
    case LockToUnregister(a) => PcMoves(s, UnregisterEnter(a));
    case LockToNotify(priorOnly) => PcMoves(s, NotifyEnter(priorOnly));
    case LockToAdvance => PcMoves(s, Advancing);
    case Tick(fromTail) => TickKeepsInv(s, fromTail);
    case OwnerTakes(a) => KeepsOwnerTake(s, a);
    case OwnerFrees(a) => KeepsOwnerFree(s, a);
    case Allocates(a) => KeepsAllocate(s, a);
  }

  lemma {:induction false} RunKeepsInv(s: Machine, actions: seq<Action>)
    requires Inv(s) && Schedule(s, actions)
    ensures Inv(Execute(s, actions))
    decreases |actions|
  {
    if actions != [] {
      StepKeepsInv(s, actions[0]);
      RunKeepsInv(Act(s, actions[0]), actions[1..]);
    }
  }

  /** In no interleaving does the set touch a freed awaiter or miss a waker: every memory
      access and the `expect` would raise the fault flag, which never falls again. */
  lemma NoUseAfterFree(actions: seq<Action>)
    requires Schedule(Start(), actions)
    ensures !Execute(Start(), actions).fault
  {
    StartHolds();
    RunKeepsInv(Start(), actions);
  }

  /** The books of every address, across every incarnation of an awaiter there: each
      registration ends in one unregistration or one notification, or still waits; each
      notification is consumed by one successful take, or discarded with its awaiter, or
      still pending; and each notification hands out one waker. */
  lemma EveryRegistrationIsAccountedFor(actions: seq<Action>, a: Id)
    requires Schedule(Start(), actions)
    ensures var s := Execute(Start(), actions);
            && s.log[Registered(a)] == s.log[Unregistered(a)] + s.log[Notification(a)]
                                       + (if InPhase(s.mem, a, Waiting) then 1 else 0)
            && s.log[Notification(a)] == s.log[Took(a)] + s.log[Discarded(a)]
                                         + (if InPhase(s.mem, a, Notified) then 1 else 0)
            && (s.pc.Unlocked? ==> s.log[Woken(a)] == s.log[Notification(a)])
  {
    StartHolds();
    RunKeepsInv(Start(), actions);
    assert Balanced(Execute(Start(), actions), a);
  }

  /** While the lock is free the two chains are one, and its nodes are exactly the awaiters
      published as waiting; every chain pointer leads to live memory. */
  lemma ChainIsExactlyTheWaiting(actions: seq<Action>)
    requires Schedule(Start(), actions)
    ensures var s := Execute(Start(), actions);
            s.pc.Unlocked? ==>
              && s.head == First(s.backward) && s.tail == Last(s.backward) && AllDistinct(s.backward)
              && Forward(s.mem, s.backward) && Backward(s.mem, s.backward)
              && forall a {:trigger a in s.backward} :: a in s.backward <==> InPhase(s.mem, a, Waiting)
  {
    StartHolds();
    RunKeepsInv(Start(), actions);
    var s := Execute(Start(), actions);
    if s.pc.Unlocked? {
      forall a ensures a in s.backward <==> InPhase(s.mem, a, Waiting) {
        assert s.backward == Names(s.entries);
      }
    }
  }
}
