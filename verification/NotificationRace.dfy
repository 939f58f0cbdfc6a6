/** A schedule of NotificationProtocol in which everything happens at the worst moment.

    An awaiter is allocated, registered and notified. While the call that notifies it still holds
    the lock and has yet to return the waker, its owner takes the notification and frees it, and
    the address is allocated again. The schedule is put together from short ones: `Leads` says
    that a piece is a schedule from one state to another, `LeadsOn` joins two pieces, and
    `WalkLeads` makes one of steps of the holder of the lock, from the list of the machines that
    it passes. */
module NotificationRace {
  import opened MachineIntegers
  import opened AwaiterQueue
  import opened NotificationProtocol

  /** An owner that takes its notification, frees its awaiter and sees the address reused, all
      before the call that notified it has returned. */
  function Race(a: Id, w: Waker): seq<Action> {
    [Allocates(a), LockToRegister(a, w)] + Steps(5) + [LockToNotify(false)]
    + (Steps(6) + [OwnerTakes(a), OwnerFrees(a), Allocates(a)] + Steps(1))
  }

  function Steps(n: nat): seq<Action> {
    if n == 0 then [] else [Tick(false)] + Steps(n - 1)
  }

  /** From `s`, the actions are a schedule that ends in `t`. */
  ghost predicate Leads(s: Machine, actions: seq<Action>, t: Machine) {
    Schedule(s, actions) && Execute(s, actions) == t
  }

  lemma {:induction false} LeadsOn(s: Machine, a: seq<Action>, t: Machine, b: seq<Action>, u: Machine)
    requires Leads(s, a, t) && Leads(t, b, u)
    ensures Leads(s, a + b, u)
    decreases |a|
  {
    if a == [] {
      assert a + b == b;
    } else {
      assert (a + b)[1..] == a[1..] + b;
      LeadsOn(Act(s, a[0]), a[1..], t, b, u);
    }
  }

  lemma {:induction false} OneLeads(s: Machine, action: Action)
    requires Enabled(s, action)
    ensures Leads(s, [action], Act(s, action))
  {
    assert [action][1..] == [];
  }

  /** Each of the machines is the one before it after a step of the holder of the lock. */
  ghost predicate IsWalk(machines: seq<Machine>) {
    forall k :: 0 <= k < |machines| - 1 ==> WalksOn(machines[k], machines[k + 1])
  }

  ghost predicate WalksOn(s: Machine, t: Machine) {
    !s.pc.Unlocked? && TickOnce(s, false) == t
  }

  lemma {:induction false} WalkLeads(machines: seq<Machine>)
    requires machines != [] && IsWalk(machines)
    ensures Leads(machines[0], Steps(|machines| - 1), machines[|machines| - 1])
    decreases |machines|
  {
    if |machines| > 1 {
      var rest := machines[1..];
      assert forall k :: 0 <= k < |rest| ==> rest[k] == machines[k + 1];
      WalkLeads(rest);
      assert WalksOn(machines[0], machines[1]);
      assert Steps(|machines| - 1)[0] == Tick(false) && Steps(|machines| - 1)[1..] == Steps(|rest| - 1);
    }
  }

  /** A machine around the one awaiter of the race, which nobody has registered yet. */
  function Before(a: Id, pc: Pc): Machine {
    Machine(map[a := Live(Idle, None, None, None, 0)], None, None, 1, pc, false, [], [], map[], multiset{})
  }

  /** The machine after `k` steps of the registration. */
  function Registering(a: Id, w: Waker, k: nat): Machine {
    var filled := Before(a, RegisterLink(a, w)).(mem := map[a := Live(Idle, Some(w), None, None, 1)]);
    var linked := filled.(head := Some(a), entries := [Entry(a, w, 1)], latest := map[a := w],
                          pc := RegisterTail(a, w));
    var chained := linked.(tail := Some(a), backward := [a], pc := RegisterPublish(a, w));
    match k
    case 0 => Before(a, RegisterEnter(a, w))
    case 1 => Before(a, RegisterFields(a, w))
    case 2 => filled
    case 3 => linked
    case 4 => chained
    case _ => chained.(mem := map[a := Live(Waiting, Some(w), None, None, 1)], pc := Unlocked,
                       log := multiset{Registered(a)})
  }

  lemma {:induction false} FillTick(a: Id, w: Waker, k: nat)
    requires k < 2
    ensures WalksOn(Registering(a, w, k), Registering(a, w, k + 1))
  {
  }

  lemma {:induction false} LinkTick(a: Id, w: Waker)
    ensures WalksOn(Registering(a, w, 2), Registering(a, w, 3))
  {
    assert Enlist(Queue([], 1), a, w).entries == [Entry(a, w, 1)];
  }

  lemma {:induction false} ChainTick(a: Id, w: Waker, k: nat)
    requires 3 <= k < 5
    ensures WalksOn(Registering(a, w, k), Registering(a, w, k + 1))
  {
  }

  lemma {:induction false} RegisterLeads(a: Id, w: Waker)
    ensures Leads(Registering(a, w, 0), Steps(5), Registering(a, w, 5))
  {
    var machines := seq(6, k requires 0 <= k < 6 => Registering(a, w, k));
    forall k | 0 <= k < 5 ensures WalksOn(machines[k], machines[k + 1]) {
      if k < 2 { FillTick(a, w, k); } else if k == 2 { LinkTick(a, w); } else { ChainTick(a, w, k); }
    }
    WalkLeads(machines);
  }

  /** The machine after `k` steps of the notification. */
  function Notifying(a: Id, w: Waker, k: nat): Machine {
    var waiting := Registering(a, w, 5);
    var headless := waiting.(head := None, entries := [], pc := SpliceNext(a, true, None, None));
    var unchained := headless.(tail := None, backward := [], pc := TakeWaker(a, true));
    match k
    case 0 => waiting.(pc := NotifyEnter(false))
    case 1 => waiting.(pc := SpliceRead(a, true))
    case 2 => waiting.(pc := SplicePrev(a, true, None, None))
    case 3 => headless
    case 4 => unchained
    case 5 => unchained.(mem := map[a := Live(Waiting, None, None, None, 1)], pc := Publish(a, true, Some(w)))
    case _ => unchained.(mem := map[a := Live(Notified, None, None, None, 1)], pc := Return(a, Some(w)),
                         log := multiset{Registered(a), Notification(a)})
  }

  lemma {:induction false} PickTick(a: Id, w: Waker, k: nat)
    requires k < 2
    ensures WalksOn(Notifying(a, w, k), Notifying(a, w, k + 1))
  {
  }

  lemma {:induction false} SpliceTick(a: Id, w: Waker, k: nat)
    requires 2 <= k < 4
    ensures WalksOn(Notifying(a, w, k), Notifying(a, w, k + 1))
  {
  }

  lemma {:induction false} DepartTick(a: Id, w: Waker, k: nat)
    requires 4 <= k < 6
    ensures WalksOn(Notifying(a, w, k), Notifying(a, w, k + 1))
  {
  }

  lemma {:induction false} NotifyLeads(a: Id, w: Waker)
    ensures Leads(Notifying(a, w, 0), Steps(6), Notifying(a, w, 6))
  {
    var machines := seq(7, k requires 0 <= k < 7 => Notifying(a, w, k));
    forall k | 0 <= k < 6 ensures WalksOn(machines[k], machines[k + 1]) {
      if k < 2 { PickTick(a, w, k); } else if k < 4 { SpliceTick(a, w, k); } else { DepartTick(a, w, k); }
    }
    WalkLeads(machines);
  }

  /** The machine after `k` actions of the notified owner and its successor. */
  function Reusing(a: Id, w: Waker, k: nat): Machine {
    var notified := Notifying(a, w, 6);
    var taken := notified.log + multiset{Took(a)};
    match k
    case 0 => notified
    case 1 => notified.(mem := map[a := Live(Idle, None, None, None, 1)], log := taken)
    case 2 => notified.(mem := map[a := Freed], log := taken)
    case _ => notified.(mem := map[a := Live(Idle, None, None, None, 0)], log := taken)
  }

  lemma {:induction false} TakeStep(a: Id, w: Waker)
    ensures At(Reusing(a, w, 0).mem, a).Live? && OwnerTake(Reusing(a, w, 0), a) == Reusing(a, w, 1)
  {
  }

  lemma {:induction false} FreeStep(a: Id, w: Waker)
    ensures OwnerFree(Reusing(a, w, 1), a) == Reusing(a, w, 2)
  {
    assert Reusing(a, w, 1).log + multiset{} == Reusing(a, w, 1).log;
  }

  lemma {:induction false} AllocateStep(a: Id, w: Waker)
    ensures Put(Reusing(a, w, 2), a, Live(Idle, None, None, None, 0)) == Reusing(a, w, 3)
  {
  }

  lemma {:induction false} TakeLeads(a: Id, w: Waker)
    ensures Leads(Reusing(a, w, 0), [OwnerTakes(a)], Reusing(a, w, 1))
  {
    TakeStep(a, w);
    OneLeads(Reusing(a, w, 0), OwnerTakes(a));
  }

  lemma {:induction false} FreeLeads(a: Id, w: Waker)
    ensures Leads(Reusing(a, w, 1), [OwnerFrees(a)], Reusing(a, w, 2))
  {
    FreeStep(a, w);
    OneLeads(Reusing(a, w, 1), OwnerFrees(a));
  }

  lemma {:induction false} AllocateLeads(a: Id, w: Waker)
    ensures Leads(Reusing(a, w, 2), [Allocates(a)], Reusing(a, w, 3))
  {
    AllocateStep(a, w);
    OneLeads(Reusing(a, w, 2), Allocates(a));
  }

  /** The owner is done with its awaiter before the call that notified it returns. */
  lemma {:induction false} OwnerLeads(a: Id, w: Waker)
    ensures Leads(Notifying(a, w, 6), [OwnerTakes(a), OwnerFrees(a), Allocates(a)], Reusing(a, w, 3))
  {
    TakeLeads(a, w);
    FreeLeads(a, w);
    AllocateLeads(a, w);
    LeadsOn(Reusing(a, w, 0), [OwnerTakes(a)], Reusing(a, w, 1), [OwnerFrees(a)], Reusing(a, w, 2));
    assert [OwnerTakes(a)] + [OwnerFrees(a)] == [OwnerTakes(a), OwnerFrees(a)];
    LeadsOn(Reusing(a, w, 0), [OwnerTakes(a), OwnerFrees(a)], Reusing(a, w, 2), [Allocates(a)], Reusing(a, w, 3));
    assert [OwnerTakes(a), OwnerFrees(a)] + [Allocates(a)] == [OwnerTakes(a), OwnerFrees(a), Allocates(a)];
  }

  /** The machine when the race is over. */
  function Raced(a: Id, w: Waker): Machine {
    Before(a, Unlocked).(latest := map[a := w],
                         log := multiset{Registered(a), Notification(a)} + multiset{Took(a)} + multiset{Woken(a)})
  }

  lemma {:induction false} ReturnLeads(a: Id, w: Waker)
    ensures Leads(Reusing(a, w, 3), Steps(1), Raced(a, w))
  {
    assert TickReturn(Reusing(a, w, 3), a, Some(w)) == Raced(a, w);
    WalkLeads([Reusing(a, w, 3), Raced(a, w)]);
  }

  lemma {:induction false} FirstLeads(a: Id, w: Waker)
    ensures Leads(Start(), [Allocates(a), LockToRegister(a, w)], Registering(a, w, 0))
  {
    OneLeads(Start(), Allocates(a));
    assert Act(Start(), Allocates(a)) == Before(a, Unlocked);
    OneLeads(Before(a, Unlocked), LockToRegister(a, w));
    LeadsOn(Start(), [Allocates(a)], Before(a, Unlocked), [LockToRegister(a, w)], Registering(a, w, 0));
    assert [Allocates(a)] + [LockToRegister(a, w)] == [Allocates(a), LockToRegister(a, w)];
  }

  lemma {:induction false} AskLeads(a: Id, w: Waker)
    ensures Leads(Registering(a, w, 5), [LockToNotify(false)], Notifying(a, w, 0))
  {
    OneLeads(Registering(a, w, 5), LockToNotify(false));
  }

  /** Three legs one after the other. */
  lemma {:induction false} ThreeLead(
      s: Machine, a: seq<Action>, t: Machine, b: seq<Action>, u: Machine, c: seq<Action>, v: Machine)
    requires Leads(s, a, t) && Leads(t, b, u) && Leads(u, c, v)
    ensures Leads(s, a + b + c, v)
  {
    LeadsOn(s, a, t, b, u);
    LeadsOn(s, a + b, u, c, v);
  }

  /** Such a race is a schedule. The owner's take succeeds, the waker is handed out although the
      awaiter is gone, and the new awaiter at the address is untouched. */
  lemma {:induction false} RaceEnds(a: Id, w: Waker)
    ensures Leads(Start(), Race(a, w), Raced(a, w))
  {
    FirstLeads(a, w);
    RegisterLeads(a, w);
    AskLeads(a, w);
    ThreeLead(Start(), [Allocates(a), LockToRegister(a, w)], Registering(a, w, 0), Steps(5), Registering(a, w, 5),
              [LockToNotify(false)], Notifying(a, w, 0));
    NotifyLeads(a, w);
    OwnerLeads(a, w);
    ReturnLeads(a, w);
    ThreeLead(Notifying(a, w, 0), Steps(6), Notifying(a, w, 6), [OwnerTakes(a), OwnerFrees(a), Allocates(a)],
              Reusing(a, w, 3), Steps(1), Raced(a, w));
    LeadsOn(Start(), [Allocates(a), LockToRegister(a, w)] + Steps(5) + [LockToNotify(false)], Notifying(a, w, 0),
            Steps(6) + [OwnerTakes(a), OwnerFrees(a), Allocates(a)] + Steps(1), Raced(a, w));
  }
}
