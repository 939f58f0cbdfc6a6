/** What holds between any two steps of the notification path.

    The invariant relates the linked awaiters to the plain queue in both directions, says which
    phases are published, what the holder of the lock knows about the awaiter it works on, and
    that the books of every address balance.

    The lemmas say what writing one cell, or one link, keeps of each part. */
module NotificationInvariant {
  import opened MachineIntegers
  import opened AwaiterQueue
  import opened NotificationProtocol

  // ----- the invariant -----

  ghost predicate AllDistinct(names: seq<Id>) {
    forall i, j :: 0 <= i < j < |names| ==> names[i] != names[j]
  }

  function First(names: seq<Id>): Option<Id> {
    if names == [] then None else Some(names[0])
  }

  function Last(names: seq<Id>): Option<Id> {
    if names == [] then None else Some(names[|names| - 1])
  }

  function After(names: seq<Id>, i: nat): Option<Id> {
    if i + 1 < |names| then Some(names[i + 1]) else None
  }

  function Before(names: seq<Id>, i: nat): Option<Id>
    requires i < |names|
  {
    if i > 0 then Some(names[i - 1]) else None
  }

  /** From the head along `next`, in live memory only. */
  ghost predicate Forward(mem: Memory, names: seq<Id>) {
    forall i {:trigger names[i]} :: 0 <= i < |names|
        ==> At(mem, names[i]).Live? && At(mem, names[i]).next == After(names, i)
  }

  /** From the tail along `prev`, in live memory only. */
  ghost predicate Backward(mem: Memory, names: seq<Id>) {
    forall i {:trigger names[i]} :: 0 <= i < |names|
        ==> At(mem, names[i]).Live? && At(mem, names[i]).prev == Before(names, i)
  }

  ghost predicate Described(mem: Memory, entries: seq<Entry<Id>>, latest: map<Id, Waker>) {
    forall i {:trigger entries[i]} :: 0 <= i < |entries| ==>
      var e := entries[i];
      && At(mem, e.who).Live? && At(mem, e.who).waker == Some(e.waker) && At(mem, e.who).generation == e.generation
      && e.who in latest && latest[e.who] == e.waker
  }

  /** On the forward chain already, not yet published as waiting. */
  predicate Arriving(pc: Pc, a: Id) {
    (pc.RegisterTail? || pc.RegisterPublish?) && pc.a == a
  }

  /** Off the forward chain already, still published as waiting. */
  predicate Leaving(pc: Pc, a: Id) {
    (pc.SpliceNext? || pc.TakeWaker? || pc.Publish?) && pc.p == a
  }

  /** Everybody on the forward chain is published as waiting, except one still arriving. */
  ghost predicate ChainWaits(mem: Memory, pc: Pc, names: seq<Id>) {
    forall i {:trigger names[i]} :: 0 <= i < |names| ==> Arriving(pc, names[i]) || InPhase(mem, names[i], Waiting)
  }

  /** Nobody else is, except one already leaving. */
  ghost predicate OnlyChainWaits(mem: Memory, pc: Pc, names: seq<Id>) {
    forall a {:trigger a in names} {:trigger At(mem, a)} ::
      InPhase(mem, a, Waiting) ==> Leaving(pc, a) || (a in names && !Arriving(pc, a))
  }

  /** Where the two directions disagree while the lock is held. */
  ghost predicate ChainsMatch(pc: Pc, names: seq<Id>, backward: seq<Id>) {
    match pc
    case RegisterTail(a, _) => names == backward + [a] && a !in backward
    case SpliceNext(p, _, before, after) =>
      var i := IndexIn(backward, p);
      && i < |backward| && names == RemoveAt(backward, i)
      && before == Before(backward, i) && after == After(backward, i)
    case _ => names == backward
  }

  ghost predicate Held(s: Machine, p: Id) {
    InPhase(s.mem, p, Waiting) && p in s.latest && At(s.mem, p).waker == Some(s.latest[p])
  }

  /** What the lock holder knows about its subject at each point. */
  ghost predicate SubjectKnown(s: Machine) {
    match s.pc
    case Unlocked => true
    case RegisterEnter(a, _) => At(s.mem, a).Live? && !InPhase(s.mem, a, Notified)
    case RegisterFields(a, _) => InPhase(s.mem, a, Idle)
    case RegisterLink(a, w) => At(s.mem, a) == Live(Idle, Some(w), None, s.tail, s.generation)
    case RegisterTail(a, _) => InPhase(s.mem, a, Idle) && At(s.mem, a).prev == s.tail
    case RegisterPublish(a, _) => InPhase(s.mem, a, Idle) && a in s.backward
    case UnregisterEnter(a) => At(s.mem, a).Live? && !InPhase(s.mem, a, Idle)
    case NotifyEnter(_) => true
    case SpliceRead(p, _) => p in s.backward
    case SplicePrev(p, _, before, after) =>
      p in s.backward && At(s.mem, p).Live? && At(s.mem, p).prev == before && At(s.mem, p).next == after
    case SpliceNext(p, _, _, _) => Held(s, p)
    case TakeWaker(p, _) => p !in s.backward && Held(s, p)
    case Publish(p, _, taken) =>
      p !in s.backward && InPhase(s.mem, p, Waiting) && p in s.latest && taken == Some(s.latest[p])
    case Return(p, taken) => p in s.latest && taken == Some(s.latest[p])
    case Advancing => true
  }

  /** The books of one awaiter. */
  ghost predicate Balanced(s: Machine, a: Id) {
    && s.log[Registered(a)] == s.log[Unregistered(a)] + s.log[Notification(a)]
       + (if InPhase(s.mem, a, Waiting) then 1 else 0)
    && s.log[Notification(a)] == s.log[Took(a)] + s.log[Discarded(a)] + (if InPhase(s.mem, a, Notified) then 1 else 0)
    && s.log[Notification(a)] == s.log[Woken(a)] + (if s.pc.Return? && s.pc.p == a then 1 else 0)
  }

  ghost predicate ChainsHold(s: Machine) {
    var names := Names(s.entries);
    && Distinct(s.entries) && AllDistinct(s.backward)
    && s.head == First(names) && s.tail == Last(s.backward)
    && Forward(s.mem, names) && Backward(s.mem, s.backward)
    && Described(s.mem, s.entries, s.latest)
    && ChainsMatch(s.pc, names, s.backward)
  }

  ghost predicate PhasesHold(s: Machine) {
    ChainWaits(s.mem, s.pc, Names(s.entries)) && OnlyChainWaits(s.mem, s.pc, Names(s.entries))
  }

  ghost predicate BooksHold(s: Machine) {
    forall a :: Balanced(s, a)
  }

  ghost predicate Inv(s: Machine) {
    !s.fault && ChainsHold(s) && PhasesHold(s) && SubjectKnown(s) && BooksHold(s)
  }

  function WithNext(mem: Memory, at: Option<Id>, next: Option<Id>): Memory {
    if at.Some? && At(mem, at.value).Live? then mem[at.value := At(mem, at.value).(next := next)] else mem
  }

  function WithPrev(mem: Memory, at: Option<Id>, prev: Option<Id>): Memory {
    if at.Some? && At(mem, at.value).Live? then mem[at.value := At(mem, at.value).(prev := prev)] else mem
  }

  // ----- writing one cell -----

  lemma ForwardKept(mem: Memory, a: Id, cell: Cell, names: seq<Id>)
    requires Forward(mem, names)
    requires a in names ==> cell.Live? && At(mem, a).Live? && cell.next == At(mem, a).next
    ensures Forward(mem[a := cell], names)
  {
  }

  lemma BackwardKept(mem: Memory, a: Id, cell: Cell, names: seq<Id>)
    requires Backward(mem, names)
    requires a in names ==> cell.Live? && At(mem, a).Live? && cell.prev == At(mem, a).prev
    ensures Backward(mem[a := cell], names)
  {
  }

  lemma DescribedKept(mem: Memory, a: Id, cell: Cell, entries: seq<Entry<Id>>, latest: map<Id, Waker>)
    requires Described(mem, entries, latest)
    requires a in Names(entries) ==>
               cell.Live? && At(mem, a).Live? && cell.waker == At(mem, a).waker
                 && cell.generation == At(mem, a).generation
    ensures Described(mem[a := cell], entries, latest)
  {
    forall i | 0 <= i < |entries| ensures At(mem[a := cell], entries[i].who).Live? {
      assert Names(entries)[i] == entries[i].who;
    }
  }

  /** Two program points agree on who is arriving and who is leaving. */
  ghost predicate SameTransit(pc: Pc, pc': Pc) {
    forall a {:trigger Arriving(pc', a)} {:trigger Leaving(pc', a)} ::
      Arriving(pc, a) == Arriving(pc', a) && Leaving(pc, a) == Leaving(pc', a)
  }

  lemma PhasesKept(mem: Memory, a: Id, cell: Cell, pc: Pc, pc': Pc, names: seq<Id>)
    requires ChainWaits(mem, pc, names) && OnlyChainWaits(mem, pc, names) && SameTransit(pc, pc')
    requires InPhase(mem, a, Waiting) <==> cell.Live? && cell.phase == Waiting
    ensures ChainWaits(mem[a := cell], pc', names) && OnlyChainWaits(mem[a := cell], pc', names)
  {
    forall b | InPhase(mem[a := cell], b, Waiting)
      ensures Leaving(pc', b) || (b in names && !Arriving(pc', b))
    {
      assert InPhase(mem, b, Waiting);
    }
  }

  lemma PhasesCarried(mem: Memory, pc: Pc, pc': Pc, names: seq<Id>)
    requires ChainWaits(mem, pc, names) && OnlyChainWaits(mem, pc, names) && SameTransit(pc, pc')
    ensures ChainWaits(mem, pc', names) && OnlyChainWaits(mem, pc', names)
  {
  }

  lemma BooksKept(s: Machine, t: Machine, a: Id)
    requires BooksHold(s) && t.log == s.log && t.mem == s.mem[a := At(t.mem, a)]
    requires forall phase :: InPhase(t.mem, a, phase) == InPhase(s.mem, a, phase)
    requires !s.pc.Return? && !t.pc.Return?
    ensures BooksHold(t)
  {
    forall b ensures Balanced(t, b) {
      assert Balanced(s, b);
    }
  }

  lemma BooksUntouched(s: Machine, t: Machine)
    requires BooksHold(s) && t.log == s.log && t.mem == s.mem && !s.pc.Return? && !t.pc.Return?
    ensures BooksHold(t)
  {
    forall b ensures Balanced(t, b) {
      assert Balanced(s, b);
    }
  }

  lemma BooksRelinked(s: Machine, t: Machine, at: Option<Id>, link: Option<Id>)
    requires BooksHold(s) && t.log == s.log && !s.pc.Return? && !t.pc.Return?
    requires t.mem == WithNext(s.mem, at, link) || t.mem == WithPrev(s.mem, at, link)
    ensures BooksHold(t)
  {
    if at.Some? && At(s.mem, at.value).Live? {
      BooksKept(s, t, at.value);
    } else {
      BooksUntouched(s, t);
    }
  }

  lemma PhasesRelinked(mem: Memory, at: Option<Id>, link: Option<Id>, pc: Pc, pc': Pc, names: seq<Id>)
    requires ChainWaits(mem, pc, names) && OnlyChainWaits(mem, pc, names) && SameTransit(pc, pc')
    ensures ChainWaits(WithNext(mem, at, link), pc', names) && OnlyChainWaits(WithNext(mem, at, link), pc', names)
    ensures ChainWaits(WithPrev(mem, at, link), pc', names) && OnlyChainWaits(WithPrev(mem, at, link), pc', names)
  {
    if at.Some? && At(mem, at.value).Live? {
      PhasesKept(mem, at.value, At(mem, at.value).(next := link), pc, pc', names);
      PhasesKept(mem, at.value, At(mem, at.value).(prev := link), pc, pc', names);
    } else {
      PhasesCarried(mem, pc, pc', names);
    }
  }

  lemma RelinkedElsewhere(mem: Memory, at: Option<Id>, link: Option<Id>, p: Id)
    requires at != Some(p)
    ensures At(WithNext(mem, at, link), p) == At(mem, p)
    ensures At(WithPrev(mem, at, link), p) == At(mem, p)
  {
  }

  /** Somebody idle or notified is not on the chain, unless just arriving. */
  lemma NotOnChain(s: Machine, a: Id)
    requires PhasesHold(s) && !InPhase(s.mem, a, Waiting) && !Arriving(s.pc, a)
    ensures a !in Names(s.entries)
  {
  }

  lemma DescribedRewaked(mem: Memory, cell: Cell, entries: seq<Entry<Id>>, latest: map<Id, Waker>, i: nat, w: Waker)
    requires Described(mem, entries, latest) && Distinct(entries) && i < |entries|
    requires var was := At(mem, entries[i].who); was.Live? && cell == was.(waker := Some(w))
    ensures Described(mem[entries[i].who := cell], entries[i := entries[i].(waker := w)], latest[entries[i].who := w])
    ensures Names(entries[i := entries[i].(waker := w)]) == Names(entries)
    ensures Distinct(entries[i := entries[i].(waker := w)])
  {
  }

  /** A step that only moves the program counter between points where the chains agree. */
  lemma PcMoves(s: Machine, pc': Pc)
    requires Inv(s) && SameTransit(s.pc, pc')
    requires !s.pc.RegisterTail? && !s.pc.SpliceNext? && !s.pc.Return?
    requires !pc'.RegisterTail? && !pc'.SpliceNext? && !pc'.Return?
    ensures var t := s.(pc := pc'); ChainsHold(t) && PhasesHold(t) && BooksHold(t)
    ensures Names(s.entries) == s.backward
  {
    PhasesCarried(s.mem, s.pc, pc', Names(s.entries));
    BooksUntouched(s, s.(pc := pc'));
  }

  /** A change of phase together with the event that accounts for it. */
  lemma PublishBooks(s: Machine, t: Machine, a: Id, event: Event)
    requires BooksHold(s) && t.log == s.log + multiset{event} && event.a == a
    requires t.mem == s.mem[a := At(t.mem, a)] && At(s.mem, a).Live? && At(t.mem, a).Live?
    requires !s.pc.Return? && (t.pc.Return? <==> event.Notification?) && (t.pc.Return? ==> t.pc.p == a)
    requires match event
             case Registered(_) => At(s.mem, a).phase == Idle && At(t.mem, a).phase == Waiting
             case Unregistered(_) => At(s.mem, a).phase == Waiting && At(t.mem, a).phase == Idle
             case Notification(_) => At(s.mem, a).phase == Waiting && At(t.mem, a).phase == Notified
             case _ => false
    ensures BooksHold(t)
  {
    forall b ensures Balanced(t, b) {
      assert Balanced(s, b);
    }
  }
}
