/** Draining one generation while wakers call back into the set. Between two requests a woken
    task may do anything but advance the generation again. */
module Drain {
  import opened MachineIntegers
  import opened AwaiterQueue

  // ----- the awaiters that a drain owes a notification, in queue order -----

  function PriorNames<A>(entries: seq<Entry<A>>, generation: nat): (names: seq<A>)
    ensures |names| <= |entries|
  {
    if entries == [] then []
    else
      var rest := PriorNames(entries[1..], generation);
      if entries[0].generation < generation then [entries[0].who] + rest else rest
  }

  function Prior<A>(q: Queue<A>): seq<A> {
    PriorNames(q.entries, q.generation)
  }

  /** `names` without the ones in `gone`, in the same order. */
  function Without<A(==)>(names: seq<A>, gone: set<A>): seq<A> {
    if names == [] then []
    else
      var rest := Without(names[1..], gone);
      if names[0] in gone then rest else [names[0]] + rest
  }

  // ----- observations of a run -----

  /** The awaiters picked by the drain itself, in order. */
  function Drained<A(==)>(s: State<A>, ops: seq<Op<A>>): seq<A>
    requires LegalRun(s, ops)
    decreases |ops|
  {
    if ops == [] then []
    else
      var (next, output) := Step(s, ops[0]);
      var rest := Drained(next, ops[1..]);
      if ops[0].NotifyOnePriorGeneration? && output.Woke? then [output.who] + rest else rest
  }

  /** The awaiters that one operation other than the drain takes out of the prior generation. */
  function TakenOut<A(==)>(s: State<A>, op: Op<A>): set<A>
    requires Legal(s, op)
  {
    match op
    case Unregister(who) => if who in Prior(s.queue) then {who} else {}
    case NotifyOne(_) =>
      var output := Step(s, op).1;
      if output.Woke? && output.who in Prior(s.queue) then {output.who} else {}
    case _ => {}
  }

  /** The awaiters of the prior generation that somebody else removed during the run. */
  function RemovedByOthers<A(==)>(s: State<A>, ops: seq<Op<A>>): set<A>
    requires LegalRun(s, ops)
    decreases |ops|
  {
    if ops == [] then {} else TakenOut(s, ops[0]) + RemovedByOthers(Step(s, ops[0]).0, ops[1..])
  }

  // ----- the theorem -----

  /** What the drain notified, followed by what it still owes, is the prior generation at the
      start minus what others removed, in the original order. */
  ghost predicate DrainIsExact<A>(s: State<A>, ops: seq<Op<A>>)
    requires LegalRun(s, ops)
  {
    && Drained(s, ops) + Prior(Run(s, ops).0.queue) == Without(Prior(s.queue), RemovedByOthers(s, ops))
    && RemovedByOthers(s, ops) <= set who | who in Prior(s.queue)
  }

  /** Nobody is notified twice, nobody registered later is notified, nobody is forgotten. */
  lemma {:induction false} DrainNotifiesExactlyThePriorGeneration<A>(s: State<A>, ops: seq<Op<A>>)
    requires Consistent(s) && Ordered(s.queue) && LegalRun(s, ops) && Advances(ops) == 0
    ensures DrainIsExact(s, ops)
    decreases |ops|
  {
    if ops == [] {
      WithoutNothing(Prior(s.queue));
    } else {
      var (next, output) := Step(s, ops[0]);
      StepKeepsConsistent(s, ops[0]);
      StepKeepsOrdered(s, ops[0]);
      DrainNotifiesExactlyThePriorGeneration(next, ops[1..]);
      if ops[0].NotifyOnePriorGeneration? && output.Woke? {
        ExactAfterNotifying(s, ops);
      } else {
        ExactAfterOther(s, ops);
      }
    }
  }

  lemma {:induction false} ExactAfterNotifying<A>(s: State<A>, ops: seq<Op<A>>)
    requires Consistent(s) && LegalRun(s, ops) && ops != []
    requires ops[0].NotifyOnePriorGeneration? && HeadIsPrior(s.queue)
    requires DrainIsExact(Step(s, ops[0]).0, ops[1..])
    ensures DrainIsExact(s, ops)
  {
    var (next, output) := Step(s, ops[0]);
    var later := RemovedByOthers(next, ops[1..]);
    DrainStep(s);
    NotifiedFirst(output.who, Prior(next.queue), Drained(next, ops[1..]), Prior(Run(next, ops[1..]).0.queue), later);
    assert RemovedByOthers(s, ops) == later;
  }

  lemma {:induction false} ExactAfterOther<A>(s: State<A>, ops: seq<Op<A>>)
    requires Consistent(s) && Ordered(s.queue) && LegalRun(s, ops) && ops != [] && !ops[0].AdvanceGeneration?
    requires !(ops[0].NotifyOnePriorGeneration? && Step(s, ops[0]).1.Woke?)
    requires DrainIsExact(Step(s, ops[0]).0, ops[1..])
    ensures DrainIsExact(s, ops)
  {
    OtherStep(s, ops[0]);
    RemovedFirst(Prior(s.queue), TakenOut(s, ops[0]), RemovedByOthers(Step(s, ops[0]).0, ops[1..]));
  }

  lemma {:induction false} NotifiedFirst<A>(who: A, owed: seq<A>, drained: seq<A>, left: seq<A>, later: set<A>)
    requires drained + left == Without(owed, later) && who !in owed && later <= set name | name in owed
    ensures [who] + drained + left == Without([who] + owed, later)
  {
    WithoutHead(who, owed, later);
    assert [who] + drained + left == [who] + (drained + left);
  }

  lemma {:induction false} RemovedFirst<A>(owed: seq<A>, taken: set<A>, later: set<A>)
    requires later <= set name | name in Without(owed, taken)
    requires taken <= set name | name in owed
    ensures Without(Without(owed, taken), later) == Without(owed, taken + later)
    ensures taken + later <= set name | name in owed
  {
    WithoutTwice(owed, taken, later);
    WithoutMembers(owed, taken);
  }

  /** What the advance that opens a drain does: everybody waiting is now owed. */
  lemma AdvanceOwesEverybody<A>(q: Queue<A>)
    requires Ordered(q) && q.generation < U64_MAX
    ensures Prior(Advance(q)) == Names(q.entries)
  {
    AllPrior(q.entries, q.generation + 1);
  }

  lemma {:induction false} AllPrior<A>(entries: seq<Entry<A>>, generation: nat)
    requires forall i :: 0 <= i < |entries| ==> entries[i].generation < generation
    ensures PriorNames(entries, generation) == Names(entries)
    decreases |entries|
  {
    if entries != [] {
      AllPrior(entries[1..], generation);
      assert Names(entries) == [entries[0].who] + Names(entries[1..]);
    }
  }

  /** A drain that reached `None` has notified everybody it owed, and it always gets there:
      at most one request per prior awaiter succeeds. */
  lemma DrainTerminatesComplete<A>(s: State<A>, ops: seq<Op<A>>)
    requires Consistent(s) && Ordered(s.queue) && LegalRun(s, ops) && Advances(ops) == 0
    ensures |Drained(s, ops)| + |Prior(Run(s, ops).0.queue)| <= |Prior(s.queue)|
    ensures Step(Run(s, ops).0, NotifyOnePriorGeneration).1 == NoneWaiting
            <==> Drained(s, ops) == Without(Prior(s.queue), RemovedByOthers(s, ops))
    ensures |Drained(s, ops)| == |Prior(s.queue)| ==> Step(Run(s, ops).0, NotifyOnePriorGeneration).1 == NoneWaiting
  {
    DrainNotifiesExactlyThePriorGeneration(s, ops);
    WithoutIsShorter(Prior(s.queue), RemovedByOthers(s, ops));
    NoAdvanceKeepsOrder(s, ops);
    var q := Run(s, ops).0.queue;
    PriorIsEmptyExactlyWhen(q);
    assert Drained(s, ops) + [] == Drained(s, ops);
    if Drained(s, ops) == Without(Prior(s.queue), RemovedByOthers(s, ops)) {
      assert |Drained(s, ops) + Prior(q)| == |Drained(s, ops)|;
    }
  }

  lemma {:induction false} NoAdvanceKeepsOrder<A>(s: State<A>, ops: seq<Op<A>>)
    requires Consistent(s) && Ordered(s.queue) && LegalRun(s, ops) && Advances(ops) == 0
    ensures Ordered(Run(s, ops).0.queue)
    decreases |ops|
  {
    if ops != [] {
      StepKeepsConsistent(s, ops[0]);
      StepKeepsOrdered(s, ops[0]);
      NoAdvanceKeepsOrder(Step(s, ops[0]).0, ops[1..]);
    }
  }

  // ----- single steps -----

  lemma {:induction false} DrainStep<A>(s: State<A>)
    requires Consistent(s) && HeadIsPrior(s.queue)
    ensures var who := s.queue.entries[0].who;
            var rest := Prior(Deliver(s, 0).0.queue);
            Prior(s.queue) == [who] + rest && who !in rest
  {
    assert RemoveAt(s.queue.entries, 0) == s.queue.entries[1..];
    NamesAreDistinct(s.queue.entries, s.queue.generation);
  }

  /** An operation other than a successful drain request removes exactly `TakenOut`. */
  lemma {:induction false} OtherStep<A>(s: State<A>, op: Op<A>)
    requires Consistent(s) && Ordered(s.queue) && Legal(s, op) && !op.AdvanceGeneration?
    requires !(op.NotifyOnePriorGeneration? && Step(s, op).1.Woke?)
    ensures Prior(Step(s, op).0.queue) == Without(Prior(s.queue), TakenOut(s, op))
    ensures TakenOut(s, op) <= set who | who in Prior(s.queue)
  {
    var q := s.queue;
    WithoutNothing(Prior(q));
    match op
    case Register(who, waker) =>
      var i := Position(q.entries, who);
      if i < |q.entries| {
        RewakeKeepsNames(q.entries, i, waker, q.generation);
      } else {
        AppendCurrent(q.entries, Entry(who, waker, q.generation), q.generation);
      }
    case Unregister(who) =>
      if IsWaiting(q.entries, who) {
        RemovalRemovesName(q.entries, Position(q.entries, who), q.generation);
      } else {
        NamesWait(q.entries, q.generation);
      }
    case NotifyOne(fromTail) =>
      if q.entries != [] {
        RemovalRemovesName(q.entries, if fromTail then |q.entries| - 1 else 0, q.generation);
      }
    case NotifyOnePriorGeneration =>
    case TakeNotification(_) =>
  }

  lemma PriorIsEmptyExactlyWhen<A>(q: Queue<A>)
    requires Ordered(q)
    ensures Prior(q) == [] <==> !HeadIsPrior(q)
  {
    if !HeadIsPrior(q) { NoNames(q.entries, q.generation); }
  }

  lemma NoNames<A>(entries: seq<Entry<A>>, generation: nat)
    requires forall i :: 0 <= i < |entries| ==> entries[i].generation >= generation
    ensures PriorNames(entries, generation) == []
  {
  }

  lemma NamesWait<A>(entries: seq<Entry<A>>, generation: nat)
    ensures forall who :: who in PriorNames(entries, generation)
              ==> exists i :: 0 <= i < |entries| && entries[i].who == who
  {
    if entries != [] {
      NamesWait(entries[1..], generation);
      forall who | who in PriorNames(entries, generation)
        ensures exists i :: 0 <= i < |entries| && entries[i].who == who
      {
        if who != entries[0].who {
          assert who in PriorNames(entries[1..], generation);
          var i :| 0 <= i < |entries[1..]| && entries[1..][i].who == who;
          assert entries[i + 1].who == who;
        }
      }
    }
  }

  lemma NamesAreDistinct<A>(entries: seq<Entry<A>>, generation: nat)
    requires Distinct(entries)
    ensures entries != [] ==> entries[0].who !in PriorNames(entries[1..], generation)
  {
    if entries != [] { NamesWait(entries[1..], generation); }
  }

  lemma {:induction false} RewakeKeepsNames<A>(entries: seq<Entry<A>>, i: nat, waker: Waker, generation: nat)
    requires i < |entries|
    ensures PriorNames(entries[i := entries[i].(waker := waker)], generation) == PriorNames(entries, generation)
    decreases i
  {
    var updated := entries[i := entries[i].(waker := waker)];
    if i == 0 {
      assert updated[1..] == entries[1..];
    } else {
      assert updated[1..] == entries[1..][i - 1 := entries[i].(waker := waker)];
      RewakeKeepsNames(entries[1..], i - 1, waker, generation);
    }
  }

  lemma {:induction false} AppendCurrent<A>(entries: seq<Entry<A>>, e: Entry<A>, generation: nat)
    requires e.generation >= generation
    ensures PriorNames(entries + [e], generation) == PriorNames(entries, generation)
    decreases |entries|
  {
    if entries == [] {
      assert [e][1..] == [];
    } else {
      assert (entries + [e])[1..] == entries[1..] + [e];
      AppendCurrent(entries[1..], e, generation);
    }
  }

  lemma {:induction false} RemovalRemovesName<A>(entries: seq<Entry<A>>, i: nat, generation: nat)
    requires Distinct(entries) && i < |entries|
    ensures var names := PriorNames(entries, generation);
            var who := entries[i].who;
            PriorNames(RemoveAt(entries, i), generation) == Without(names, if who in names then {who} else {})
    decreases i
  {
    var names := PriorNames(entries, generation);
    var rest := entries[1..];
    NamesAreDistinct(entries, generation);
    WithoutNothing(PriorNames(rest, generation));
    if i == 0 {
      assert RemoveAt(entries, 0) == rest;
      WithoutStranger(PriorNames(rest, generation), entries[0].who);
      WithoutNothing(names);
    } else {
      assert RemoveAt(entries, i)[1..] == RemoveAt(rest, i - 1);
      assert Distinct(rest);
      RemovalRemovesName(rest, i - 1, generation);
      WithoutNothing(names);
      var gone := if entries[i].who in names then {entries[i].who} else {};
      assert entries[0].who != entries[i].who;
      WithoutHead(entries[0].who, PriorNames(rest, generation), gone);
      assert PriorNames(RemoveAt(entries, i), generation)
          == (var others := Without(PriorNames(rest, generation), gone);
              if entries[0].generation < generation then [entries[0].who] + others else others);
    }
  }

  // ----- filtering names -----

  lemma WithoutNothing<A>(names: seq<A>)
    ensures Without(names, {}) == names
  {
  }

  lemma WithoutHead<A>(head: A, tail: seq<A>, gone: set<A>)
    ensures Without([head] + tail, gone) == (if head in gone then Without(tail, gone) else [head] + Without(tail, gone))
  {
    assert ([head] + tail)[1..] == tail;
  }

  lemma WithoutStranger<A>(names: seq<A>, who: A)
    requires who !in names
    ensures Without(names, {who}) == names
  {
  }

  lemma {:induction false} WithoutTwice<A>(names: seq<A>, first: set<A>, second: set<A>)
    ensures Without(Without(names, first), second) == Without(names, first + second)
    decreases |names|
  {
    if names != [] {
      WithoutTwice(names[1..], first, second);
      if names[0] !in first { WithoutHead(names[0], Without(names[1..], first), second); }
    }
  }

  lemma WithoutMembers<A>(names: seq<A>, gone: set<A>)
    ensures forall who :: who in Without(names, gone) ==> who in names
  {
  }

  lemma WithoutIsShorter<A>(names: seq<A>, gone: set<A>)
    ensures |Without(names, gone)| <= |names|
  {
  }
}
