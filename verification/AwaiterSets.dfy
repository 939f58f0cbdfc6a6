/** The intrusive awaiter set: a doubly linked list threaded through the awaiters.

    Each method is proved against the plain queue of module AwaiterQueue. */
module AwaiterSets {
  import opened MachineIntegers
  import opened AwaiterQueue

  /** One waiting future. The link fields, the generation and the owner are meaningful only
      while it waits; they are left stale afterwards. */
  class Awaiter {
    const address: nat
    var lifecycle: Phase
    var waker: Option<Waker>
    var next: Awaiter?
    var prev: Awaiter?
    var generation: U64
    var owningSetId: nat

    constructor (address: nat)
      ensures lifecycle == Idle && this.address == address
    {
      this.address := address;
      lifecycle, waker, next, prev, generation, owningSetId := Idle, None, null, null, 0, 0;
    }

    predicate IsRegistered()
      reads this
    {
      lifecycle != Idle
    }

    predicate IsNotified()
      reads this
    {
      lifecycle == Notified
    }

    /** The compare-exchange of NOTIFIED to IDLE. */
    method TakeNotification() returns (taken: bool)
      modifies this`lifecycle
      ensures taken == old(IsNotified())
      ensures lifecycle == if taken then Idle else old(lifecycle)
    {
      taken := lifecycle == Notified;
      if taken {
        lifecycle := Idle;
      }
    }
  }

  class AwaiterSet {
    /** Whether debug assertions are compiled in: they decide which end `PickOne` prefers
        and whether the owner is recorded. */
    const debugAssertions: bool
    const setId: nat
    var head: Awaiter?
    var tail: Awaiter?
    var generation: U64

    /** The waiting awaiters from head to tail, and what each of them was registered with. */
    ghost var members: seq<Awaiter>
    ghost var entries: seq<Entry<Awaiter>>

    ghost function Contents(): Queue<Awaiter>
      reads this
    {
      Queue(entries, generation)
    }

    /** The chain reads the same from the head along `next` and from the tail along `prev`. */
    ghost predicate Linked()
      reads this`head, this`tail, this`members, members`next, members`prev
    {
      && (forall i, j :: 0 <= i < j < |members| ==> members[i] != members[j])
      && head == (if members == [] then null else members[0])
      && tail == (if members == [] then null else members[|members| - 1])
      && (forall i {:trigger members[i].next} :: 0 <= i < |members| ==>
            members[i].next == if i + 1 < |members| then members[i + 1] else null)
      && (forall i {:trigger members[i].prev} :: 0 <= i < |members| ==>
            members[i].prev == if i > 0 then members[i - 1] else null)
    }

    /** Every node on the chain waits in this set, with the waker and stamp of its entry. */
    ghost predicate Described()
      reads this`members, this`entries, members`waker, members`generation, members`lifecycle, members`owningSetId
    {
      && |entries| == |members|
      && (forall i {:trigger entries[i]} :: 0 <= i < |members| ==>
            && entries[i].who == members[i]
            && members[i].waker == Some(entries[i].waker)
            && members[i].generation == entries[i].generation)
      && (forall i {:trigger members[i].lifecycle} :: 0 <= i < |members| ==> members[i].lifecycle == Waiting)
      && (debugAssertions ==>
            forall i {:trigger members[i].owningSetId} :: 0 <= i < |members| ==> members[i].owningSetId == setId)
    }

    ghost predicate Valid()
      reads this, members
    {
      Linked() && Described()
    }

    constructor (debugAssertions: bool, setId: nat)
      ensures Valid() && Contents() == Queue([], 1)
      ensures this.debugAssertions == debugAssertions && this.setId == setId
    {
      this.debugAssertions, this.setId := debugAssertions, setId;
      head, tail, generation := null, null, 1;
      members, entries := [], [];
    }

    predicate IsEmpty()
      requires Valid()
      reads this, members
      ensures IsEmpty() <==> Contents().entries == []
    {
      head == null
    }

    /** Inserts an idle awaiter at the tail, or replaces the waker of a waiting one. */
    method Register(awaiter: Awaiter, waker: Waker)
      requires Valid()
      requires awaiter.lifecycle != Notified
      requires awaiter.lifecycle == Waiting ==> awaiter in members
      modifies this`head, this`tail, this`members, this`entries, members, awaiter
      ensures Valid() && Contents() == Enlist(old(Contents()), awaiter, waker)
      ensures members == if awaiter in old(members) then old(members) else old(members) + [awaiter]
      ensures forall a :: a in members ==> a.lifecycle == Waiting
      ensures awaiter in members && forall a :: a in old(members) ==> a in members
    {
      MembersArePositions();
      if awaiter.lifecycle == Waiting {
        ReplaceWaker(awaiter, waker);
      } else {
        Insert(awaiter, waker);
      }
    }

    /** An awaiter that already waits keeps its place and its stamp. */
    method ReplaceWaker(awaiter: Awaiter, waker: Waker)
      requires Valid() && awaiter in members && IsWaiting(entries, awaiter)
      modifies this`entries, awaiter`waker
      ensures Valid() && Contents() == Enlist(old(Contents()), awaiter, waker)
    {
      awaiter.waker := Some(waker);
      ghost var at := Position(entries, awaiter);
      entries := entries[at := entries[at].(waker := waker)];
    }

    /** A new registration goes to the tail, stamped with the current generation. */
    method Insert(awaiter: Awaiter, waker: Waker)
      requires Valid() && awaiter !in members && !IsWaiting(entries, awaiter)
      modifies this`head, this`tail, this`members, this`entries, members`next, awaiter
      ensures Valid() && Contents() == Enlist(old(Contents()), awaiter, waker)
      ensures members == old(members) + [awaiter]
    {
      Stamp(awaiter, waker);
      LinkAtTail(awaiter);
      awaiter.lifecycle := Waiting;
      entries := entries + [Entry(awaiter, waker, generation)];
      LastIsDescribed();
    }

    /** Fills in the fields of an awaiter that is not yet on the chain. */
    method Stamp(awaiter: Awaiter, waker: Waker)
      requires Valid() && awaiter !in members
      modifies awaiter`waker, awaiter`generation, awaiter`owningSetId
      ensures Valid()
      ensures awaiter.waker == Some(waker) && awaiter.generation == generation
              && (debugAssertions ==> awaiter.owningSetId == setId)
    {
      awaiter.waker := Some(waker);
      awaiter.generation := generation;
      if debugAssertions {
        awaiter.owningSetId := setId;
      }
    }

    /** Member `i` is as its entry says. */
    ghost predicate DescribedAt(i: nat)
      requires i < |members| && i < |entries|
      reads this`members, this`entries, members`waker, members`generation, members`lifecycle, members`owningSetId
    {
      && entries[i].who == members[i] && members[i].waker == Some(entries[i].waker)
      && members[i].generation == entries[i].generation && members[i].lifecycle == Waiting
      && (debugAssertions ==> members[i].owningSetId == setId)
    }

    /** One more entry at the end, described like all before it. */
    lemma LastIsDescribed()
      requires |entries| == |members| && forall i :: 0 <= i < |members| ==> DescribedAt(i)
      ensures Described()
    {
      assert forall i {:trigger entries[i]} :: 0 <= i < |members| ==> DescribedAt(i);
      assert forall i {:trigger members[i].lifecycle} :: 0 <= i < |members| ==> DescribedAt(i);
      assert forall i {:trigger members[i].owningSetId} :: 0 <= i < |members| ==> DescribedAt(i);
    }

    /** Appends `awaiter` to the chain. */
    method LinkAtTail(awaiter: Awaiter)
      requires Linked() && awaiter !in members
      modifies this`head, this`tail, this`members, members`next, awaiter`next, awaiter`prev
      ensures Linked() && members == old(members) + [awaiter]
    {
      awaiter.next := null;
      awaiter.prev := tail;
      if tail == null {
        head := awaiter;
      } else {
        tail.next := awaiter;
      }
      tail := awaiter;
      members := members + [awaiter];
    }

    /** Removes a waiting awaiter and returns it to the idle state; a notified one has
        already left the set and is not touched. */
    method Unregister(awaiter: Awaiter)
      requires Valid()
      requires awaiter in members || awaiter.lifecycle == Notified
      modifies this`head, this`tail, this`members, this`entries, members, awaiter
      ensures Valid()
      ensures awaiter !in old(members) ==>
                unchanged(this) && unchanged(awaiter) && unchanged(old(members))
      ensures awaiter in old(members) ==>
                && IsWaiting(old(entries), awaiter)
                && Contents() == Withdraw(old(Contents()), awaiter)
                && members == RemoveAt(old(members), Position(old(entries), awaiter))
                && awaiter.lifecycle == Idle && awaiter.waker == None
                && forall a :: a in old(members) ==> a == awaiter || a in members
    {
      MembersArePositions();
      if awaiter.lifecycle != Waiting {
        return;
      }
      var dropped := Detach(awaiter, Idle, Position(entries, awaiter));
    }

    /** Takes member `i` off the chain, takes its waker and stores its next phase. */
    method Detach(awaiter: Awaiter, phase: Phase, ghost i: nat) returns (taken: Option<Waker>)
      requires Valid() && i < |members| && awaiter == members[i]
      modifies this`head, this`tail, this`members, this`entries, members`next, members`prev, awaiter
      ensures Valid()
      ensures entries == RemoveAt(old(entries), i) && members == RemoveAt(old(members), i)
      ensures taken == Some(old(entries)[i].waker)
      ensures awaiter.lifecycle == phase && awaiter.waker == None
      ensures forall a :: a in old(members) ==> a == awaiter || a in members
    {
      assert entries[i].who == awaiter;
      Unlink(awaiter.prev, awaiter.next, i);
      taken := awaiter.waker;
      awaiter.waker := None;
      if debugAssertions {
        awaiter.owningSetId := 0;
      }
      awaiter.lifecycle := phase;
      entries := RemoveAt(entries, i);
      assert forall k :: 0 <= k < |members| ==> members[k] != awaiter;
      RemovalKeepsOthers(old(members), i);
    }

    /** Splices out the member whose links were `prev` and `next`. */
    method Unlink(prev: Awaiter?, next: Awaiter?, ghost i: nat)
      requires Linked() && i < |members| && prev == members[i].prev && next == members[i].next
      modifies this`head, this`tail, this`members, members`next, members`prev
      ensures Linked() && members == RemoveAt(old(members), i)
    {
      if prev == null {
        head := next;
      } else {
        prev.next := next;
      }
      if next == null {
        tail := prev;
      } else {
        next.prev := prev;
      }
      members := RemoveAt(members, i);
    }

    /** Publishes the notification of member `i` and returns its waker. */
    method Remove(awaiter: Awaiter, ghost i: nat) returns (waker: Waker)
      requires Valid() && i < |members| && awaiter == members[i]
      modifies this`head, this`tail, this`members, this`entries, members
      ensures Valid()
      ensures entries == RemoveAt(old(entries), i) && members == RemoveAt(old(members), i)
      ensures waker == old(entries)[i].waker
      ensures awaiter.lifecycle == Notified && awaiter.waker == None
      ensures forall a :: a in old(members) ==> a == awaiter || a in members
    {
      var taken := Detach(awaiter, Notified, i);
      // The waker is always present, because the awaiter was waiting.
      waker := taken.value;
    }

    /** Release builds pick the head; debug builds pick the end with the higher address. */
    method PickOne() returns (awaiter: Awaiter)
      requires Valid() && members != []
      ensures awaiter == members[PickedIndex()]
    {
      if debugAssertions && head != tail && head.address <= tail.address {
        awaiter := tail;
      } else {
        awaiter := head;
      }
    }

    ghost function PickedIndex(): (i: nat)
      requires Valid() && members != []
      reads this, members
      ensures i == 0 || (debugAssertions && i == |members| - 1)
      ensures i < |members|
      ensures debugAssertions ==> members[i].address >= members[0].address
                                  && members[i].address >= members[|members| - 1].address
    {
      if debugAssertions && head != tail && head.address <= tail.address then |members| - 1 else 0
    }

    /** Removes one awaiter and returns its waker, or `None` when nobody waits. */
    method NotifyOne() returns (waker: Option<Waker>)
      requires Valid()
      modifies this`head, this`tail, this`members, this`entries, members
      ensures Valid()
      ensures old(members) == [] ==> waker == None && unchanged(this)
      ensures old(members) != [] ==>
                var i := old(PickedIndex());
                && waker == Some(old(entries)[i].waker)
                && entries == RemoveAt(old(entries), i) && members == RemoveAt(old(members), i)
                && old(members)[i].lifecycle == Notified
                && forall a :: a in old(members) ==> a == old(members)[i] || a in members
    {
      if IsEmpty() {
        return None;
      }
      var picked := PickOne();
      var taken := Remove(picked, PickedIndex());
      waker := Some(taken);
    }

    method AdvanceGeneration()
      modifies this`generation
      ensures Contents() == Advance(old(Contents()))
    {
      generation := WrapU64(generation + 1);
    }

    /** Notifies the head if it was registered in an earlier generation. */
    method NotifyOnePriorGeneration() returns (waker: Option<Waker>)
      requires Valid()
      modifies this`head, this`tail, this`members, this`entries, members
      ensures Valid()
      ensures !HeadIsPrior(old(Contents())) ==> waker == None && unchanged(this) && unchanged(old(members))
      ensures HeadIsPrior(old(Contents())) ==>
                && waker == Some(old(entries)[0].waker)
                && entries == RemoveAt(old(entries), 0) && members == RemoveAt(old(members), 0)
                && old(members)[0].lifecycle == Notified
                && forall a :: a in old(members) ==> a == old(members)[0] || a in members
    {
      if IsEmpty() {
        return None;
      }
      if head.generation >= generation {
        return None;
      }
      var taken := Remove(head, 0);
      waker := Some(taken);
    }

    lemma MembersArePositions()
      requires Valid()
      ensures Distinct(entries)
      ensures forall a :: a in members <==> IsWaiting(entries, a)
      ensures forall i :: 0 <= i < |members| ==> Position(entries, members[i]) == i
    {
      assert Distinct(entries);
      forall i | 0 <= i < |members| ensures Position(entries, members[i]) == i {
        assert entries[i].who == members[i];
        PositionIsUnique(entries, i);
      }
    }
  }
}
