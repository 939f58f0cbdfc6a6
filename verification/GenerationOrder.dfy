/** When looking at the head alone is enough.

    The reference set below never wraps its counter and searches the whole queue for an
    awaiter that predates the last advance. The real set wraps at 64 bits and looks at the
    head only. */
module GenerationOrder {
  import opened MachineIntegers
  import opened AwaiterQueue

  /** Index of the first entry stamped before the current generation, or the length. */
  function FirstPrior<A>(entries: seq<Entry<A>>, generation: nat): (i: nat)
    ensures i <= |entries|
    ensures forall k :: 0 <= k < i ==> entries[k].generation >= generation
    ensures i < |entries| ==> entries[i].generation < generation
  {
    if entries == [] || entries[0].generation < generation then 0
    else 1 + FirstPrior(entries[1..], generation)
  }

  /** The same operations with an unbounded counter and a full search. */
  function ReferenceStep<A(==)>(s: State<A>, op: Op<A>): (State<A>, Output<A>)
    requires Legal(s, op)
  {
    match op
    case AdvanceGeneration => (s.(queue := s.queue.(generation := s.queue.generation + 1)), Done)
    case NotifyOnePriorGeneration =>
      var i := FirstPrior(s.queue.entries, s.queue.generation);
      if i < |s.queue.entries| then Deliver(s, i) else (s, NoneWaiting)
    case _ => Step(s, op)
  }

  predicate ReferenceLegalRun<A(==)>(s: State<A>, ops: seq<Op<A>>)
    decreases |ops|
  {
    ops == [] || (Legal(s, ops[0]) && ReferenceLegalRun(ReferenceStep(s, ops[0]).0, ops[1..]))
  }

  function ReferenceRun<A(==)>(s: State<A>, ops: seq<Op<A>>): (State<A>, seq<Output<A>>)
    requires ReferenceLegalRun(s, ops)
    decreases |ops|
  {
    if ops == [] then (s, [])
    else
      var (next, output) := ReferenceStep(s, ops[0]);
      var (final, outputs) := ReferenceRun(next, ops[1..]);
      (final, [output] + outputs)
  }

  /** In every run that advances fewer than 2^64 - 1 times, the head test gives exactly the
      answers of the full search. */
  lemma {:induction false} HeadTestIsExact<A>(s: State<A>, ops: seq<Op<A>>)
    requires Consistent(s) && Ordered(s.queue) && LegalRun(s, ops)
    requires s.queue.generation + Advances(ops) <= U64_MAX
    ensures ReferenceLegalRun(s, ops) && Run(s, ops) == ReferenceRun(s, ops)
    decreases |ops|
  {
    if ops != [] {
      StepKeepsConsistent(s, ops[0]);
      StepKeepsOrdered(s, ops[0]);
      HeadTestIsExact(Step(s, ops[0]).0, ops[1..]);
    }
  }

  /** The form in which callers see it: from a new set, after any such run, the answer is
      `None` if and only if no waiting awaiter predates the last advance. */
  lemma NoneMeansNobodyIsPrior<A>(ops: seq<Op<A>>)
    requires LegalRun(Initial<A>(), ops) && Advances(ops) < U64_MODULUS - 1
    ensures var s := Run(Initial<A>(), ops).0;
            && (Step(s, NotifyOnePriorGeneration).1 == NoneWaiting
                <==> forall e :: e in s.queue.entries ==> e.generation >= s.queue.generation)
            && s.queue.generation == 1 + Advances(ops)
  {
    RunKeepsOrder(Initial<A>(), ops);
  }

  // ----- what happens once the counter wraps -----

  function WrapStamp<A>(e: Entry<A>): Entry<A> {
    e.(generation := WrapU64(e.generation))
  }

  function WrapStamps<A>(entries: seq<Entry<A>>): (r: seq<Entry<A>>)
    ensures |r| == |entries|
    ensures forall i :: 0 <= i < |entries| ==> r[i] == WrapStamp(entries[i])
  {
    if entries == [] then [] else [WrapStamp(entries[0])] + WrapStamps(entries[1..])
  }

  /** The set as 64-bit fields hold it. */
  function Wrapped<A>(s: State<A>): State<A> {
    State(Queue(WrapStamps(s.queue.entries), WrapU64(s.queue.generation)), s.notified)
  }

  /** What a wrapped head test needs: nobody waits, the head belongs to the current
      generation, or the wrapped stamps still compare the right way. */
  predicate ComparesRight<A>(q: Queue<A>) {
    q.entries == []
    || q.entries[0].generation == q.generation
    || WrapU64(q.entries[0].generation) < WrapU64(q.generation)
  }

  lemma WrappedPosition<A>(entries: seq<Entry<A>>, who: A)
    ensures Position(WrapStamps(entries), who) == Position(entries, who)
  {
    if entries != [] && entries[0].who != who {
      assert WrapStamps(entries)[1..] == WrapStamps(entries[1..]);
      WrappedPosition(entries[1..], who);
    }
  }

  lemma WrappedDelivery<A>(s: State<A>, i: nat)
    requires i < |s.queue.entries|
    ensures Deliver(Wrapped(s), i) == (Wrapped(Deliver(s, i).0), Deliver(s, i).1)
  {
    var entries := s.queue.entries;
    assert RemoveAt(WrapStamps(entries), i) == WrapStamps(RemoveAt(entries, i));
  }

  lemma WrappedEnlist<A>(q: Queue<A>, who: A, waker: Waker)
    ensures Enlist(Queue(WrapStamps(q.entries), WrapU64(q.generation)), who, waker)
            == Queue(WrapStamps(Enlist(q, who, waker).entries), WrapU64(q.generation))
  {
    WrappedPosition(q.entries, who);
    var got := Enlist(Queue(WrapStamps(q.entries), WrapU64(q.generation)), who, waker).entries;
    assert got == WrapStamps(Enlist(q, who, waker).entries);
  }

  lemma WrappedWithdraw<A>(q: Queue<A>, who: A)
    requires IsWaiting(q.entries, who)
    ensures IsWaiting(WrapStamps(q.entries), who)
    ensures Withdraw(Queue(WrapStamps(q.entries), WrapU64(q.generation)), who)
            == Queue(WrapStamps(Withdraw(q, who).entries), WrapU64(q.generation))
  {
    WrappedPosition(q.entries, who);
    var i := Position(q.entries, who);
    assert RemoveAt(WrapStamps(q.entries), i) == WrapStamps(RemoveAt(q.entries, i));
  }

  /** Every operation other than the head test commutes with wrapping, at any count. */
  lemma WrappedStepAgrees<A>(s: State<A>, op: Op<A>)
    requires Legal(s, op) && !op.NotifyOnePriorGeneration?
    ensures Legal(Wrapped(s), op)
    ensures Step(Wrapped(s), op) == (Wrapped(ReferenceStep(s, op).0), ReferenceStep(s, op).1)
  {
    match op
    case Register(who, waker) => WrappedEnlist(s.queue, who, waker);
    case Unregister(who) =>
      WrappedPosition(s.queue.entries, who);
      if IsWaiting(s.queue.entries, who) { WrappedWithdraw(s.queue, who); }
    case NotifyOne(fromTail) =>
      if s.queue.entries != [] { WrappedDelivery(s, if fromTail then |s.queue.entries| - 1 else 0); }
    case AdvanceGeneration => WrapU64Absorbs(s.queue.generation, 1);
    case TakeNotification(_) =>
  }

  /** However many advances there were: the head test of the 64-bit set agrees with the
      full search if and only if the wrapped stamps compare right. */
  lemma WrappedHeadTestAgreesExactlyWhen<A>(s: State<A>)
    requires Consistent(s) && Ordered(s.queue)
    ensures var (next, output) := ReferenceStep(s, NotifyOnePriorGeneration);
            Step(Wrapped(s), NotifyOnePriorGeneration) == (Wrapped(next), output) <==> ComparesRight(s.queue)
  {
    if s.queue.entries != [] { WrappedDelivery(s, 0); }
  }

  /** A comparison that goes wrong misses an awaiter; it never wakes a wrong one. */
  lemma WrongComparisonMisses<A>(s: State<A>)
    requires Consistent(s) && Ordered(s.queue) && !ComparesRight(s.queue)
    ensures Step(Wrapped(s), NotifyOnePriorGeneration).1 == NoneWaiting
    ensures ReferenceStep(s, NotifyOnePriorGeneration).1.Woke?
  {
  }

  lemma ReferenceStepKeepsOrder<A>(s: State<A>, op: Op<A>)
    requires Consistent(s) && Ordered(s.queue) && Legal(s, op)
    ensures Consistent(ReferenceStep(s, op).0) && Ordered(ReferenceStep(s, op).0.queue)
  {
    if op.NotifyOnePriorGeneration? {
      var i := FirstPrior(s.queue.entries, s.queue.generation);
      if i < |s.queue.entries| {
        RemovalKeepsOrder(s.queue, i);
        RemovalKeepsOthers(s.queue.entries, i);
      }
    } else if !op.AdvanceGeneration? {
      StepKeepsConsistent(s, op);
      StepKeepsOrdered(s, op);
    }
  }

  /** The wrapped stamps compare right at every head test of the reference run. */
  predicate HeadTestsCompare<A(==)>(s: State<A>, ops: seq<Op<A>>)
    requires ReferenceLegalRun(s, ops)
    decreases |ops|
  {
    ops == []
    || ((ops[0].NotifyOnePriorGeneration? ==> ComparesRight(s.queue))
       && HeadTestsCompare(ReferenceStep(s, ops[0]).0, ops[1..]))
  }

  /** However many advances a run has: the 64-bit set gives all the answers of the reference
      if and only if the wrapped stamps compare right at every head test, and then it also
      ends in the same state. */
  lemma {:induction false} WrappedRunAgreesExactlyWhen<A>(s: State<A>, ops: seq<Op<A>>)
    requires Consistent(s) && Ordered(s.queue) && ReferenceLegalRun(s, ops)
    ensures LegalRun(Wrapped(s), ops) && Run(Wrapped(s), ops).1 == ReferenceRun(s, ops).1 <==> HeadTestsCompare(s, ops)
    ensures HeadTestsCompare(s, ops)
            ==> LegalRun(Wrapped(s), ops) && Run(Wrapped(s), ops).0 == Wrapped(ReferenceRun(s, ops).0)
    decreases |ops|
  {
    if ops != [] {
      var next := ReferenceStep(s, ops[0]).0;
      ReferenceStepKeepsOrder(s, ops[0]);
      WrappedRunAgreesExactlyWhen(next, ops[1..]);
      if !ops[0].NotifyOnePriorGeneration? {
        WrappedStepAgrees(s, ops[0]);
        OneAnswerMore(s, ops);
      } else if ComparesRight(s.queue) {
        WrappedHeadTestAgreesExactlyWhen(s);
        OneAnswerMore(s, ops);
      } else {
        WrongComparisonMisses(s);
        FirstAnswers(s, ops);
      }
    }
  }

  lemma {:induction false} OneAnswerMore<A>(s: State<A>, ops: seq<Op<A>>)
    requires ReferenceLegalRun(s, ops) && ops != [] && Legal(Wrapped(s), ops[0])
    requires Step(Wrapped(s), ops[0]) == (Wrapped(ReferenceStep(s, ops[0]).0), ReferenceStep(s, ops[0]).1)
    ensures var next := ReferenceStep(s, ops[0]).0;
            && (LegalRun(Wrapped(s), ops) <==> LegalRun(Wrapped(next), ops[1..]))
            && (LegalRun(Wrapped(s), ops) ==>
                  && Run(Wrapped(s), ops).0 == Run(Wrapped(next), ops[1..]).0
                  && (Run(Wrapped(s), ops).1 == ReferenceRun(s, ops).1
                      <==> Run(Wrapped(next), ops[1..]).1 == ReferenceRun(next, ops[1..]).1))
            && ReferenceRun(s, ops).0 == ReferenceRun(next, ops[1..]).0
  {
    var next := ReferenceStep(s, ops[0]).0;
    var output := ReferenceStep(s, ops[0]).1;
    assert ReferenceRun(s, ops).1 == [output] + ReferenceRun(next, ops[1..]).1;
    assert ([output] + ReferenceRun(next, ops[1..]).1)[1..] == ReferenceRun(next, ops[1..]).1;
    if LegalRun(Wrapped(s), ops) {
      var rest := Run(Wrapped(next), ops[1..]).1;
      assert Run(Wrapped(s), ops).1 == [output] + rest && ([output] + rest)[1..] == rest;
    }
  }

  lemma {:induction false} FirstAnswers<A>(s: State<A>, ops: seq<Op<A>>)
    requires ReferenceLegalRun(s, ops) && ops != []
    ensures ReferenceRun(s, ops).1 != [] && ReferenceRun(s, ops).1[0] == ReferenceStep(s, ops[0]).1
    ensures LegalRun(Wrapped(s), ops) ==>
              Run(Wrapped(s), ops).1 != [] && Run(Wrapped(s), ops).1[0] == Step(Wrapped(s), ops[0]).1
  {
  }

  function ManyAdvances<A>(n: nat): seq<Op<A>> {
    if n == 0 then [] else [AdvanceGeneration] + ManyAdvances(n - 1)
  }

  lemma {:induction false} RunManyAdvances<A>(s: State<A>, n: nat)
    ensures LegalRun(s, ManyAdvances<A>(n))
    ensures n > 0 ==>
              Run(s, ManyAdvances<A>(n)).0 == s.(queue := s.queue.(generation := WrapU64(s.queue.generation + n)))
    ensures Advances(ManyAdvances<A>(n)) == n
    decreases n
  {
    if n > 0 {
      var next := Step(s, AdvanceGeneration).0;
      assert ManyAdvances<A>(n)[1..] == ManyAdvances(n - 1);
      RunManyAdvances(next, n - 1);
      WrapU64Absorbs(s.queue.generation + 1, n - 1);
    }
  }

  /** The bound is tight: an awaiter registered in a new set and followed by exactly
      2^64 - 1 advances predates the last of them and is not found. */
  lemma OneAdvanceTooMany<A>(who: A, waker: Waker)
    ensures var registered := Step(Initial<A>(), Register(who, waker)).0;
            var advances := ManyAdvances<A>(U64_MODULUS - 1);
            && Advances(advances) == U64_MODULUS - 1
            && LegalRun(registered, advances)
            && var s := Run(registered, advances).0;
               s.queue.entries == [Entry(who, waker, 1)] && Step(s, NotifyOnePriorGeneration).1 == NoneWaiting
  {
    RunManyAdvances(Step(Initial<A>(), Register(who, waker)).0, U64_MODULUS - 1);
  }
}
