/** The notification path raced against the owners of the awaiters.

    The set's operations run under a lock, one group of accesses at a time that no owner can
    observe apart. Owners act without the lock at any point in between: they consume a
    notification by compare-exchange, they free an awaiter that they see not to be waiting,
    and its address may then be reused. */
module NotificationProtocol {
  import opened MachineIntegers
  import opened AwaiterQueue

  type Id = nat

  /** What an address holds. */
  datatype Cell =
    | Freed
    | Live(phase: Phase, waker: Option<Waker>, next: Option<Id>, prev: Option<Id>, generation: nat)

  type Memory = map<Id, Cell>

  function At(mem: Memory, a: Id): Cell {
    if a in mem then mem[a] else Freed
  }

  /** Where the holder of the lock stands. `notify` tells a removal that ends in NOTIFIED
      from one that ends in IDLE. */
  datatype Pc =
    | Unlocked
    | RegisterEnter(a: Id, w: Waker)
    | RegisterFields(a: Id, w: Waker)
    | RegisterLink(a: Id, w: Waker)
    | RegisterTail(a: Id, w: Waker)
    | RegisterPublish(a: Id, w: Waker)
    | UnregisterEnter(a: Id)
    | NotifyEnter(priorOnly: bool)
    | SpliceRead(p: Id, notify: bool)
    | SplicePrev(p: Id, notify: bool, before: Option<Id>, after: Option<Id>)
    | SpliceNext(p: Id, notify: bool, before: Option<Id>, after: Option<Id>)
    | TakeWaker(p: Id, notify: bool)
    | Publish(p: Id, notify: bool, taken: Option<Waker>)
    | Return(p: Id, taken: Option<Waker>)
    | Advancing

  datatype Event =
    | Registered(a: Id)
    | Unregistered(a: Id)
    | Notification(a: Id)
    | Woken(a: Id)
    | Took(a: Id)
    | Discarded(a: Id)

  /** The machine, followed by history that no step reads: the plain queue at each
      linearization point, the backward chain, the latest wakers and the events so far. */
  datatype Machine = Machine(
    mem: Memory, head: Option<Id>, tail: Option<Id>, generation: nat, pc: Pc, fault: bool,
    entries: seq<Entry<Id>>, backward: seq<Id>, latest: map<Id, Waker>, log: multiset<Event>)

  datatype Action =
    | LockToRegister(a: Id, w: Waker)
    | LockToUnregister(a: Id)
    | LockToNotify(priorOnly: bool)
    | LockToAdvance
    | Tick(fromTail: bool)
    | OwnerTakes(a: Id)
    | OwnerFrees(a: Id)
    | Allocates(a: Id)

  function Start(): Machine {
    Machine(map[], None, None, 1, Unlocked, false, [], [], map[], multiset{})
  }

  /** The owner of `a` is not itself inside the set with it. */
  predicate OwnerElsewhere(pc: Pc, a: Id) {
    match pc
    case RegisterEnter(b, _) => a != b
    case RegisterFields(b, _) => a != b
    case RegisterLink(b, _) => a != b
    case RegisterTail(b, _) => a != b
    case RegisterPublish(b, _) => a != b
    case UnregisterEnter(b) => a != b
    case SpliceRead(b, notify) => notify || a != b
    case SplicePrev(b, notify, _, _) => notify || a != b
    case SpliceNext(b, notify, _, _) => notify || a != b
    case TakeWaker(b, notify) => notify || a != b
    case Publish(b, notify, _) => notify || a != b
    case _ => true
  }

  predicate InPhase(mem: Memory, a: Id, phase: Phase) {
    At(mem, a).Live? && At(mem, a).phase == phase
  }

  /** What the callers' contracts allow. Freeing is allowed as soon as the awaiter is seen
      not to be waiting, notified or not. */
  predicate Enabled(s: Machine, action: Action) {
    match action
    case LockToRegister(a, _) => s.pc.Unlocked? && At(s.mem, a).Live? && !InPhase(s.mem, a, Notified)
    case LockToUnregister(a) => s.pc.Unlocked? && At(s.mem, a).Live? && !InPhase(s.mem, a, Idle)
    case LockToNotify(_) => s.pc.Unlocked?
    case LockToAdvance => s.pc.Unlocked?
    case Tick(_) => !s.pc.Unlocked?
    case OwnerTakes(a) => At(s.mem, a).Live? && OwnerElsewhere(s.pc, a)
    case OwnerFrees(a) => At(s.mem, a).Live? && !InPhase(s.mem, a, Waiting) && OwnerElsewhere(s.pc, a)
    case Allocates(a) => At(s.mem, a).Freed?
  }

  // ----- steps -----

  /** A use of freed memory, or a missing waker. */
  function Fault(s: Machine): Machine {
    s.(fault := true, pc := Unlocked)
  }

  function Put(s: Machine, a: Id, cell: Cell): Machine {
    s.(mem := s.mem[a := cell])
  }

  function TickRegisterEnter(s: Machine, a: Id, w: Waker): Machine {
    var cell := At(s.mem, a);
    if cell.Freed? then Fault(s)
    else if cell.phase == Waiting then
      Put(s, a, cell.(waker := Some(w))).(
        pc := Unlocked, latest := s.latest[a := w],
        entries := Enlist(Queue(s.entries, s.generation), a, w).entries)
    else s.(pc := RegisterFields(a, w))
  }

  function TickRegisterFields(s: Machine, a: Id, w: Waker): Machine {
    var cell := At(s.mem, a);
    if cell.Freed? then Fault(s)
    else
      Put(s, a, Live(cell.phase, Some(w), None, s.tail, s.generation)).(pc := RegisterLink(a, w))
  }

  function TickRegisterLink(s: Machine, a: Id, w: Waker): Machine {
    var linked := s.(
      pc := RegisterTail(a, w), latest := s.latest[a := w],
      entries := Enlist(Queue(s.entries, s.generation), a, w).entries);
    if s.tail.None? then linked.(head := Some(a))
    else
      var last := At(s.mem, s.tail.value);
      if last.Freed? then Fault(s) else Put(linked, s.tail.value, last.(next := Some(a)))
  }

  function TickRegisterTail(s: Machine, a: Id, w: Waker): Machine {
    s.(tail := Some(a), backward := s.backward + [a], pc := RegisterPublish(a, w))
  }

  function TickRegisterPublish(s: Machine, a: Id): Machine {
    var cell := At(s.mem, a);
    if cell.Freed? then Fault(s)
    else Put(s, a, cell.(phase := Waiting)).(pc := Unlocked, log := s.log + multiset{Registered(a)})
  }

  function TickUnregisterEnter(s: Machine, a: Id): Machine {
    var cell := At(s.mem, a);
    if cell.Freed? then Fault(s)
    else if cell.phase != Waiting then s.(pc := Unlocked)
    else s.(pc := SpliceRead(a, false))
  }

  function TickNotifyEnter(s: Machine, priorOnly: bool, fromTail: bool): Machine {
    if s.head.None? then s.(pc := Unlocked)
    else if priorOnly then
      var cell := At(s.mem, s.head.value);
      if cell.Freed? then Fault(s)
      else if cell.generation >= s.generation then s.(pc := Unlocked)
      else s.(pc := SpliceRead(s.head.value, true))
    else if fromTail then
      if s.tail.None? then Fault(s) else s.(pc := SpliceRead(s.tail.value, true))
    else s.(pc := SpliceRead(s.head.value, true))
  }

  function TickSpliceRead(s: Machine, p: Id, notify: bool): Machine {
    var cell := At(s.mem, p);
    if cell.Freed? then Fault(s) else s.(pc := SplicePrev(p, notify, cell.prev, cell.next))
  }

  function TickSplicePrev(s: Machine, p: Id, notify: bool, before: Option<Id>, after: Option<Id>): Machine {
    var i := Position(s.entries, p);
    var spliced := s.(
      pc := SpliceNext(p, notify, before, after),
      entries := if i < |s.entries| then RemoveAt(s.entries, i) else s.entries);
    if before.None? then spliced.(head := after)
    else
      var cell := At(s.mem, before.value);
      if cell.Freed? then Fault(s) else Put(spliced, before.value, cell.(next := after))
  }

  function IndexIn(names: seq<Id>, p: Id): (i: nat)
    ensures i <= |names|
    ensures forall k :: 0 <= k < i ==> names[k] != p
    ensures i < |names| ==> names[i] == p
  {
    if names == [] || names[0] == p then 0 else 1 + IndexIn(names[1..], p)
  }

  function TickSpliceNext(s: Machine, p: Id, notify: bool, before: Option<Id>, after: Option<Id>): Machine {
    var i := IndexIn(s.backward, p);
    var spliced := s.(
      pc := TakeWaker(p, notify),
      backward := if i < |s.backward| then RemoveAt(s.backward, i) else s.backward);
    if after.None? then spliced.(tail := before)
    else
      var cell := At(s.mem, after.value);
      if cell.Freed? then Fault(s) else Put(spliced, after.value, cell.(prev := before))
  }

  function TickTakeWaker(s: Machine, p: Id, notify: bool): Machine {
    var cell := At(s.mem, p);
    if cell.Freed? then Fault(s)
    else Put(s, p, cell.(waker := None)).(pc := Publish(p, notify, cell.waker))
  }

  function TickPublish(s: Machine, p: Id, notify: bool, taken: Option<Waker>): Machine {
    var cell := At(s.mem, p);
    if cell.Freed? then Fault(s)
    else if notify then
      Put(s, p, cell.(phase := Notified)).(pc := Return(p, taken), log := s.log + multiset{Notification(p)})
    else
      Put(s, p, cell.(phase := Idle)).(pc := Unlocked, log := s.log + multiset{Unregistered(p)})
  }

  function TickReturn(s: Machine, p: Id, taken: Option<Waker>): Machine {
    if taken.None? then Fault(s) else s.(pc := Unlocked, log := s.log + multiset{Woken(p)})
  }

  function TickOnce(s: Machine, fromTail: bool): Machine {
    match s.pc
    case Unlocked => s
    case RegisterEnter(a, w) => TickRegisterEnter(s, a, w)
    case RegisterFields(a, w) => TickRegisterFields(s, a, w)
    case RegisterLink(a, w) => TickRegisterLink(s, a, w)
    case RegisterTail(a, w) => TickRegisterTail(s, a, w)
    case RegisterPublish(a, _) => TickRegisterPublish(s, a)
    case UnregisterEnter(a) => TickUnregisterEnter(s, a)
    case NotifyEnter(priorOnly) => TickNotifyEnter(s, priorOnly, fromTail)
    case SpliceRead(p, notify) => TickSpliceRead(s, p, notify)
    case SplicePrev(p, notify, before, after) => TickSplicePrev(s, p, notify, before, after)
    case SpliceNext(p, notify, before, after) => TickSpliceNext(s, p, notify, before, after)
    case TakeWaker(p, notify) => TickTakeWaker(s, p, notify)
    case Publish(p, notify, taken) => TickPublish(s, p, notify, taken)
    case Return(p, taken) => TickReturn(s, p, taken)
    case Advancing => s.(generation := WrapU64(s.generation + 1), pc := Unlocked)
  }

  function OwnerTake(s: Machine, a: Id): Machine
    requires At(s.mem, a).Live?
  {
    var cell := At(s.mem, a);
    if cell.phase == Notified then
      Put(s, a, cell.(phase := Idle)).(log := s.log + multiset{Took(a)})
    else s
  }

  function OwnerFree(s: Machine, a: Id): Machine {
    Put(s, a, Freed).(log := s.log + if InPhase(s.mem, a, Notified) then multiset{Discarded(a)} else multiset{})
  }

  function Act(s: Machine, action: Action): Machine
    requires Enabled(s, action)
  {
    match action
    case LockToRegister(a, w) => s.(pc := RegisterEnter(a, w))
    case LockToUnregister(a) => s.(pc := UnregisterEnter(a))
    case LockToNotify(priorOnly) => s.(pc := NotifyEnter(priorOnly))
    case LockToAdvance => s.(pc := Advancing)
    case Tick(fromTail) => TickOnce(s, fromTail)
    case OwnerTakes(a) => OwnerTake(s, a)
    case OwnerFrees(a) => OwnerFree(s, a)
    case Allocates(a) => Put(s, a, Live(Idle, None, None, None, 0))
  }

  predicate Schedule(s: Machine, actions: seq<Action>)
    decreases |actions|
  {
    actions == [] || (Enabled(s, actions[0]) && Schedule(Act(s, actions[0]), actions[1..]))
  }

  function Execute(s: Machine, actions: seq<Action>): Machine
    requires Schedule(s, actions)
    decreases |actions|
  {
    if actions == [] then s else Execute(Act(s, actions[0]), actions[1..])
  }
}
