/** Whole runs on the linked set agree with whole runs on the plain queue.

    `universe` holds the awaiters that this set's callers use, waiting or not; `others` are
    further sets, whose awaiters lie outside of it. */
module AwaiterSetRuns {
  import opened MachineIntegers
  import opened AwaiterQueue
  import opened AwaiterSets
  import Fairness

  /** The plain state that the heap represents. */
  ghost function StateOf(target: AwaiterSet, universe: set<Awaiter>): State<Awaiter>
    reads target, universe
  {
    State(target.Contents(), set a | a in universe && a.IsNotified())
  }

  /** The waiting awaiters of the universe are exactly the nodes of the chain. */
  ghost predicate Exact(target: AwaiterSet, universe: set<Awaiter>)
    reads target, target.members, universe
  {
    && target.Valid()
    && (forall a :: a in target.members ==> a in universe)
    && forall a :: a in universe && a.lifecycle == Waiting ==> a in target.members
  }

  /** What an owner can see of its awaiter without the lock is its place in the plain state. */
  lemma OwnersSeeTheState(target: AwaiterSet, universe: set<Awaiter>, a: Awaiter)
    requires Exact(target, universe) && a in universe
    ensures var s := StateOf(target, universe);
            && (a.IsRegistered() <==> IsWaiting(s.queue.entries, a) || a in s.notified)
            && (a.IsNotified() <==> a in s.notified)
            && !(IsWaiting(s.queue.entries, a) && a in s.notified)
  {
    target.MembersArePositions();
    if a in target.members {
      var i :| 0 <= i < |target.members| && target.members[i] == a;
      assert target.members[i].lifecycle == Waiting;
    }
  }

  /** Sets other than `target`, whose awaiters are all in `elsewhere`. */
  ghost predicate Apart(target: AwaiterSet, universe: set<Awaiter>, others: set<AwaiterSet>, elsewhere: set<Awaiter>)
    reads others, elsewhere
  {
    && universe !! elsewhere
    && forall other :: other in others ==>
         other != target && (forall a :: a in other.members ==> a in elsewhere) && other.Valid()
  }

  /** Which end the build at hand picks, by address. */
  predicate PicksTail(debugAssertions: bool, entries: seq<Entry<Awaiter>>) {
    && debugAssertions && |entries| > 1
    && entries[0].who.address <= entries[|entries| - 1].who.address
  }

  /** The same call with the end to pick filled in. */
  function Resolve(debugAssertions: bool, s: State<Awaiter>, op: Op<Awaiter>): Op<Awaiter> {
    if op.NotifyOne? then NotifyOne(PicksTail(debugAssertions, s.queue.entries)) else op
  }

  predicate Mentions(universe: set<Awaiter>, op: Op<Awaiter>) {
    op.Register? || op.Unregister? || op.TakeNotification? ==> op.who in universe
  }

  predicate LegalCalls(debugAssertions: bool, universe: set<Awaiter>, s: State<Awaiter>, ops: seq<Op<Awaiter>>)
    decreases |ops|
  {
    ops == [] ||
    var op := Resolve(debugAssertions, s, ops[0]);
    Mentions(universe, op) && Legal(s, op) && LegalCalls(debugAssertions, universe, Step(s, op).0, ops[1..])
  }

  function Resolved(debugAssertions: bool, universe: set<Awaiter>, s: State<Awaiter>, ops: seq<Op<Awaiter>>)
    : (r: seq<Op<Awaiter>>)
    requires LegalCalls(debugAssertions, universe, s, ops)
    ensures LegalRun(s, r)
    ensures |r| == |ops|
    ensures forall i :: 0 <= i < |ops| ==> if ops[i].NotifyOne? then r[i].NotifyOne? else r[i] == ops[i]
    ensures !debugAssertions ==> forall i :: 0 <= i < |r| ==> r[i] != NotifyOne(true)
    decreases |ops|
  {
    if ops == [] then []
    else
      var op := Resolve(debugAssertions, s, ops[0]);
      [op] + Resolved(debugAssertions, universe, Step(s, op).0, ops[1..])
  }

  /** What a caller sees of an output: the waker, or whether a notification was there. */
  datatype Seen = Nothing | Returned(waker: Option<Waker>) | Took(wasNotified: bool)

  function View(output: Output<Awaiter>): Seen {
    match output
    case Done => Nothing
    case NoneWaiting => Returned(None)
    case Woke(_, waker) => Returned(Some(waker))
    case Taken(wasNotified) => Took(wasNotified)
  }

  function Views(outputs: seq<Output<Awaiter>>): seq<Seen> {
    if outputs == [] then [] else [View(outputs[0])] + Views(outputs[1..])
  }

  /** Which awaiter `notify_one` wakes: in release builds the head, and with debug assertions the
      end with the higher address. */
  lemma EndIsPickedByAddress(debugAssertions: bool, s: State<Awaiter>, any: bool)
    requires s.queue.entries != []
    ensures var n := |s.queue.entries|;
            var first, last := s.queue.entries[0], s.queue.entries[n - 1];
            var output := Step(s, Resolve(debugAssertions, s, NotifyOne(any))).1;
            && (!debugAssertions || n == 1 ==> output == Woke(first.who, first.waker))
            && (debugAssertions && first.who.address > last.who.address ==> output == Woke(first.who, first.waker))
            && (debugAssertions && first.who.address < last.who.address ==> output == Woke(last.who, last.waker))
  {
  }

  /** A debug build makes the starving run of Fairness real whenever the rival's address is the
      higher one: then it is the rival that every call picks. */
  lemma {:induction false} DebugBuildsStarve(n: nat, who: Awaiter, first: Waker, rival: Awaiter, waker: Waker)
    requires who != rival && who.address <= rival.address
    ensures var s := State(Queue([Entry(who, first, 1)], 1), {});
            var ops := Fairness.RivalRounds(n, rival, waker);
            && LegalCalls(true, {who, rival}, s, ops) && Resolved(true, {who, rival}, s, ops) == ops
            && LegalRun(s, ops) && Fairness.NotifyOnes(ops) == n && who !in Fairness.Wakes(s, ops)
  {
    Fairness.TailPickingStarves(n, who, first, rival, waker);
    RivalIsPicked(n, who, first, rival, waker);
  }

  lemma {:induction false} RivalIsPicked(n: nat, who: Awaiter, first: Waker, rival: Awaiter, waker: Waker)
    requires who != rival && who.address <= rival.address
    ensures var s := State(Queue([Entry(who, first, 1)], 1), {});
            var ops := Fairness.RivalRounds(n, rival, waker);
            LegalCalls(true, {who, rival}, s, ops) && Resolved(true, {who, rival}, s, ops) == ops
    decreases n
  {
    if n > 0 {
      var universe := {who, rival};
      var s := State(Queue([Entry(who, first, 1)], 1), {});
      var round: seq<Op<Awaiter>> := [Register(rival, waker), NotifyOne(true), TakeNotification(rival)];
      var rest := Fairness.RivalRounds(n - 1, rival, waker);
      var ops := round + rest;
      assert Position([Entry(who, first, 1)], rival) == 1;
      var s1 := Step(s, round[0]).0;
      assert s1.queue.entries == [Entry(who, first, 1), Entry(rival, waker, 1)];
      var s2 := Step(s1, round[1]).0;
      assert s2.queue.entries == s.queue.entries;
      assert Step(s2, round[2]).0 == s;
      assert ops[1..][1..][1..] == rest;
      assert ops[1..] == [round[1], round[2]] + rest && ops[1..][1..] == [round[2]] + rest;
      RivalIsPicked(n - 1, who, first, rival, waker);
      assert LegalCalls(true, universe, s2, ops[1..][1..]);
      assert LegalCalls(true, universe, s1, ops[1..]);
      assert Resolved(true, universe, s2, ops[1..][1..]) == [round[2]] + rest;
      assert Resolved(true, universe, s1, ops[1..]) == [round[1]] + ([round[2]] + rest);
      assert Resolved(true, universe, s, ops) == [round[0]] + ops[1..];
    }
  }

  lemma ChangesBy<A>(before: set<A>, after: set<A>, who: A)
    requires forall a :: a != who ==> (a in before <==> a in after)
    ensures after == if who in after then before + {who} else before - {who}
  {
  }

  method PerformRegister(target: AwaiterSet, who: Awaiter, waker: Waker, ghost universe: set<Awaiter>)
    requires Exact(target, universe) && who in universe && who.lifecycle != Notified
    modifies target, universe
    ensures Exact(target, universe)
    ensures StateOf(target, universe) == Step(old(StateOf(target, universe)), Register(who, waker)).0
  {
    target.Register(who, waker);
    ChangesBy(old(StateOf(target, universe)).notified, StateOf(target, universe).notified, who);
  }

  method PerformUnregister(target: AwaiterSet, who: Awaiter, ghost universe: set<Awaiter>)
    requires Exact(target, universe) && who in universe && who.lifecycle != Idle
    modifies target, universe
    ensures Exact(target, universe)
    ensures var s := old(StateOf(target, universe));
            Legal(s, Unregister(who)) && StateOf(target, universe) == Step(s, Unregister(who)).0
  {
    target.MembersArePositions();
    if who.lifecycle == Waiting {
      UnregisterWaiting(target, who, universe);
    } else {
      target.Unregister(who);
    }
  }

  method UnregisterWaiting(target: AwaiterSet, who: Awaiter, ghost universe: set<Awaiter>)
    requires Exact(target, universe) && who in universe && who in target.members
    modifies target, universe
    ensures Exact(target, universe)
    ensures var s := old(StateOf(target, universe));
            IsWaiting(s.queue.entries, who) && StateOf(target, universe) == s.(queue := Withdraw(s.queue, who))
  {
    target.Unregister(who);
    ChangesBy(old(StateOf(target, universe)).notified, StateOf(target, universe).notified, who);
  }

  method PerformNotifyOne(target: AwaiterSet, ghost universe: set<Awaiter>) returns (waker: Option<Waker>)
    requires Exact(target, universe)
    modifies target, universe
    ensures Exact(target, universe)
    ensures var s := old(StateOf(target, universe));
            var (next, output) := Step(s, NotifyOne(PicksTail(target.debugAssertions, s.queue.entries)));
            StateOf(target, universe) == next && Returned(waker) == View(output)
  {
    if target.head == null {
      waker := target.NotifyOne();
    } else {
      ghost var i := target.PickedIndex();
      ghost var who := target.members[i];
      assert target.entries[i].who == who && target.entries[0].who == target.head;
      assert target.entries[|target.entries| - 1].who == target.tail;
      waker := target.NotifyOne();
      ChangesBy(old(StateOf(target, universe)).notified, StateOf(target, universe).notified, who);
    }
  }

  method PerformNotifyPrior(target: AwaiterSet, ghost universe: set<Awaiter>) returns (waker: Option<Waker>)
    requires Exact(target, universe)
    modifies target, universe
    ensures Exact(target, universe)
    ensures var s := old(StateOf(target, universe));
            var (next, output) := Step(s, NotifyOnePriorGeneration);
            StateOf(target, universe) == next && Returned(waker) == View(output)
  {
    ghost var q := target.Contents();
    assert target.members != [] ==> target.entries[0].who == target.members[0];
    waker := target.NotifyOnePriorGeneration();
    if HeadIsPrior(q) {
      ChangesBy(old(StateOf(target, universe)).notified, StateOf(target, universe).notified, q.entries[0].who);
    }
  }

  /** One call on the heap is one step of the plain state, and other sets do not notice. */
  method Perform(target: AwaiterSet, op: Op<Awaiter>, ghost universe: set<Awaiter>,
                 ghost others: set<AwaiterSet>, ghost elsewhere: set<Awaiter>)
    returns (seen: Seen)
    requires Exact(target, universe) && Apart(target, universe, others, elsewhere)
    requires Mentions(universe, op)
    requires Legal(StateOf(target, universe), Resolve(target.debugAssertions, StateOf(target, universe), op))
    modifies target, universe
    ensures Exact(target, universe) && Apart(target, universe, others, elsewhere)
    ensures var s := old(StateOf(target, universe));
            var (next, output) := Step(s, Resolve(target.debugAssertions, s, op));
            StateOf(target, universe) == next && seen == View(output)
    ensures forall other :: other in others ==> other.Contents() == old(other.Contents())
  {
    match op
    case Register(who, waker) =>
      PerformRegister(target, who, waker, universe);
      seen := Nothing;
    case Unregister(who) =>
      target.MembersArePositions();
      PerformUnregister(target, who, universe);
      seen := Nothing;
    case NotifyOne(_) =>
      var waker := PerformNotifyOne(target, universe);
      seen := Returned(waker);
    case AdvanceGeneration =>
      target.AdvanceGeneration();
      seen := Nothing;
    case NotifyOnePriorGeneration =>
      var waker := PerformNotifyPrior(target, universe);
      seen := Returned(waker);
    case TakeNotification(who) =>
      var taken := who.TakeNotification();
      seen := Took(taken);
      ChangesBy(old(StateOf(target, universe)).notified, StateOf(target, universe).notified, who);
  }

  /** Every run: the final state, everything the callers saw, and the other sets. */
  method PerformAll(target: AwaiterSet, ops: seq<Op<Awaiter>>, ghost universe: set<Awaiter>,
                    ghost others: set<AwaiterSet>, ghost elsewhere: set<Awaiter>)
    returns (seen: seq<Seen>)
    requires Exact(target, universe) && Apart(target, universe, others, elsewhere)
    requires LegalCalls(target.debugAssertions, universe, StateOf(target, universe), ops)
    modifies target, universe
    ensures Exact(target, universe) && Apart(target, universe, others, elsewhere)
    ensures var s := old(StateOf(target, universe));
            var (final, outputs) := Run(s, Resolved(target.debugAssertions, universe, s, ops));
            StateOf(target, universe) == final && seen == Views(outputs)
    ensures forall other :: other in others ==> other.Contents() == old(other.Contents())
    decreases |ops|
  {
    if ops == [] {
      return [];
    }
    var first := Perform(target, ops[0], universe, others, elsewhere);
    var rest := PerformAll(target, ops[1..], universe, others, elsewhere);
    seen := [first] + rest;
  }
}
