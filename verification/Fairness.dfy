/** First in, first out: what release builds promise to a waiting awaiter, and what callers that
    rely on it lose in debug builds, which may pick the tail. */
module Fairness {
  import opened AwaiterQueue

  /** The awaiters notified in a run, in order. */
  function Wakes<A(==)>(s: State<A>, ops: seq<Op<A>>): seq<A>
    requires LegalRun(s, ops)
    decreases |ops|
  {
    if ops == [] then []
    else
      var (next, output) := Step(s, ops[0]);
      var rest := Wakes(next, ops[1..]);
      if output.Woke? then [output.who] + rest else rest
  }

  function NotifyOnes<A>(ops: seq<Op<A>>): nat {
    if ops == [] then 0 else (if ops[0].NotifyOne? then 1 else 0) + NotifyOnes(ops[1..])
  }

  /** A release-build run in which nobody gives up on behalf of `who`. */
  ghost predicate ReleaseRunKeeping<A>(ops: seq<Op<A>>, who: A) {
    forall i :: 0 <= i < |ops| ==> ops[i] != NotifyOne(true) && ops[i] != Unregister(who)
  }

  lemma PositionAfterRemoval<A>(entries: seq<Entry<A>>, i: nat, who: A)
    requires Distinct(entries) && i < |entries| && entries[i].who != who
    ensures var p := Position(entries, who);
            Position(RemoveAt(entries, i), who) == if i < p then p - 1 else p
  {
    var p := Position(entries, who);
    var rest := RemoveAt(entries, i);
    var at := if i < p then p - 1 else p;
    assert forall k :: 0 <= k < |rest| && k < at ==> rest[k].who != who;
    assert at < |rest| ==> rest[at].who == who;
    FirstPosition(rest, at, who);
  }

  lemma PositionAfterEnlist<A>(q: Queue<A>, newcomer: A, waker: Waker, who: A)
    ensures var before, after := Position(q.entries, who), Position(Enlist(q, newcomer, waker).entries, who);
            && (before < |q.entries| ==> after == before)
            && (before == |q.entries| ==> after >= before)
  {
    var entries := Enlist(q, newcomer, waker).entries;
    var before := Position(q.entries, who);
    if before < |q.entries| { FirstPosition(entries, before, who); }
  }

  /** One release step: a waiting awaiter is woken, or it keeps its place, or it moves up;
      and a `notify_one` that does not wake it moves it up. */
  lemma StepMovesUp<A>(s: State<A>, op: Op<A>, who: A)
    requires Consistent(s) && Legal(s, op) && op != NotifyOne(true) && op != Unregister(who)
    requires IsWaiting(s.queue.entries, who)
    ensures var (next, output) := Step(s, op);
            var before, after := Position(s.queue.entries, who), Position(next.queue.entries, who);
            || (output.Woke? && output.who == who)
            || (IsWaiting(next.queue.entries, who) && after <= before && (op.NotifyOne? ==> after < before))
  {
    match op
    case Register(newcomer, waker) => PositionAfterEnlist(s.queue, newcomer, waker, who);
    case Unregister(other) =>
      if IsWaiting(s.queue.entries, other) {
        PositionAfterRemoval(s.queue.entries, Position(s.queue.entries, other), who);
      }
    case NotifyOne(_) =>
      if s.queue.entries[0].who != who { PositionAfterRemoval(s.queue.entries, 0, who); }
    case NotifyOnePriorGeneration =>
      if HeadIsPrior(s.queue) && s.queue.entries[0].who != who { PositionAfterRemoval(s.queue.entries, 0, who); }
    case AdvanceGeneration =>
    case TakeNotification(_) =>
  }

  /** With k awaiters ahead, k + 1 calls of `notify_one` reach an awaiter that does not give
      up, whatever else happens in between. */
  lemma {:induction false} BoundedWaiting<A>(s: State<A>, ops: seq<Op<A>>, who: A)
    requires Consistent(s) && LegalRun(s, ops) && ReleaseRunKeeping(ops, who)
    requires IsWaiting(s.queue.entries, who)
    requires NotifyOnes(ops) > Position(s.queue.entries, who)
    ensures who in Wakes(s, ops)
    decreases |ops|
  {
    var (next, output) := Step(s, ops[0]);
    StepMovesUp(s, ops[0], who);
    StepKeepsConsistent(s, ops[0]);
    if !(output.Woke? && output.who == who) {
      BoundedWaiting(next, ops[1..], who);
    }
  }

  function Calls<A>(n: nat): (ops: seq<Op<A>>)
    ensures |ops| == n
  {
    if n == 0 then [] else [NotifyOne(false)] + Calls(n - 1)
  }

  /** The bound is exact: with no other traffic, n calls wake exactly the first n waiting
      awaiters, in their order. */
  lemma {:induction false} NotifyOneIsFifo<A>(s: State<A>, n: nat)
    requires Consistent(s) && n <= |s.queue.entries|
    ensures LegalRun(s, Calls<A>(n)) && Wakes(s, Calls<A>(n)) == Names(s.queue.entries)[..n]
    decreases n
  {
    if n > 0 {
      var next := Step(s, NotifyOne(false)).0;
      StepKeepsConsistent(s, NotifyOne(false));
      NotifyOneIsFifo(next, n - 1);
      assert Calls<A>(n)[1..] == Calls(n - 1);
      FirstAndRest(s.queue.entries, n);
    }
  }

  lemma {:induction false} FirstAndRest<A>(entries: seq<Entry<A>>, n: nat)
    requires 0 < n <= |entries|
    ensures Names(entries)[..n] == [entries[0].who] + Names(RemoveAt(entries, 0))[..n - 1]
  {
  }

  /** Nobody is overtaken: if `late` stands behind `early`, or does not wait at all, every
      run in which it is woken has woken `early` too. Applied to every prefix of a run this
      says that `early` is woken first. */
  lemma {:induction false} NoOvertaking<A>(s: State<A>, ops: seq<Op<A>>, early: A, late: A)
    requires Consistent(s) && LegalRun(s, ops) && ReleaseRunKeeping(ops, early)
    requires IsWaiting(s.queue.entries, early) && early != late
    requires Position(s.queue.entries, early) < Position(s.queue.entries, late)
    requires late in Wakes(s, ops)
    ensures early in Wakes(s, ops)
    decreases |ops|
  {
    var (next, output) := Step(s, ops[0]);
    StepKeepsConsistent(s, ops[0]);
    if !(output.Woke? && output.who == early) {
      StaysAhead(s, ops[0], early, late);
      NoOvertaking(next, ops[1..], early, late);
    }
  }

  lemma StaysAhead<A>(s: State<A>, op: Op<A>, early: A, late: A)
    requires Consistent(s) && Legal(s, op) && op != NotifyOne(true) && op != Unregister(early)
    requires IsWaiting(s.queue.entries, early) && early != late
    requires Position(s.queue.entries, early) < Position(s.queue.entries, late)
    requires var output := Step(s, op).1; !(output.Woke? && output.who == early)
    ensures var (next, output) := Step(s, op);
            && !(output.Woke? && output.who == late)
            && IsWaiting(next.queue.entries, early)
            && Position(next.queue.entries, early) < Position(next.queue.entries, late)
  {
    var entries := s.queue.entries;
    match op
    case Register(newcomer, waker) =>
      PositionAfterEnlist(s.queue, newcomer, waker, early);
      PositionAfterEnlist(s.queue, newcomer, waker, late);
    case Unregister(other) =>
      if IsWaiting(entries, other) {
        var i := Position(entries, other);
        PositionAfterRemoval(entries, i, early);
        if other != late {
          PositionAfterRemoval(entries, i, late);
        } else {
          FirstPosition(RemoveAt(entries, i), |entries| - 1, late);
        }
      }
    case NotifyOne(_) =>
      PositionAfterRemoval(entries, 0, early);
      PositionAfterRemoval(entries, 0, late);
    case NotifyOnePriorGeneration =>
      if HeadIsPrior(s.queue) {
        PositionAfterRemoval(entries, 0, early);
        PositionAfterRemoval(entries, 0, late);
      }
    case AdvanceGeneration =>
    case TakeNotification(_) =>
  }

  // ----- debug builds -----

  /** `n` rounds in which a rival registers, is picked from the tail, and looks. */
  function RivalRounds<A>(n: nat, rival: A, waker: Waker): seq<Op<A>> {
    if n == 0 then []
    else [Register(rival, waker), NotifyOne(true), TakeNotification(rival)] + RivalRounds(n - 1, rival, waker)
  }

  /** When the tail may be picked there is no bound: `who` heads the queue through any
      number of successful `notify_one` calls and is never woken. */
  lemma {:induction false} TailPickingStarves<A>(n: nat, who: A, first: Waker, rival: A, waker: Waker)
    requires who != rival
    ensures var s := State(Queue([Entry(who, first, 1)], 1), {});
            var ops := RivalRounds(n, rival, waker);
            LegalRun(s, ops) && NotifyOnes(ops) == |Wakes(s, ops)| == n && who !in Wakes(s, ops)
    decreases n
  {
    if n > 0 {
      var s := State(Queue([Entry(who, first, 1)], 1), {});
      TailPickingStarves(n - 1, who, first, rival, waker);
      var round: seq<Op<A>> := [Register(rival, waker), NotifyOne(true), TakeNotification(rival)];
      var rest := RivalRounds(n - 1, rival, waker);
      var s1 := Step(s, round[0]).0;
      assert Position([Entry(who, first, 1)], rival) == 1;
      assert s1.queue.entries == [Entry(who, first, 1), Entry(rival, waker, 1)];
      var (s2, woke) := Step(s1, round[1]);
      assert s2.queue.entries == s.queue.entries && woke == Woke(rival, waker);
      var s3 := Step(s2, round[2]).0;
      assert s3 == s;
      var ops := round + rest;
      assert ops[1..][1..][1..] == rest;
      assert ops[0] == round[0] && ops[1..][0] == round[1] && ops[1..][1..][0] == round[2];
      assert Wakes(s, ops) == Wakes(s1, ops[1..]);
      assert Wakes(s1, ops[1..]) == [rival] + Wakes(s2, ops[1..][1..]);
      assert Wakes(s2, ops[1..][1..]) == Wakes(s, rest);
      assert NotifyOnes(ops) == NotifyOnes(ops[1..]) == 1 + NotifyOnes(ops[1..][1..]);
    }
  }
}
