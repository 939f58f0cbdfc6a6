/** What an awaiter set means: a plain sequence of waiting entries.

    The linked structure of the set refines these functions (module AwaiterSets); the
    theorems about whole runs are proved here and in the modules beside this one. */
module AwaiterQueue {
  import opened MachineIntegers

  /** Idle, waiting in a set, or removed from it with a notification not yet consumed. */
  datatype Phase = Idle | Waiting | Notified

  /** Identifies the task that a wake-up reaches. */
  datatype Waker = Waker(task: nat)

  /** One registered awaiter: its waker and the generation it was stamped with. */
  datatype Entry<A> = Entry(who: A, waker: Waker, generation: nat)

  datatype Queue<A> = Queue(entries: seq<Entry<A>>, generation: nat)

  /** A set together with the awaiters that it notified and that have not yet noticed. */
  datatype State<A> = State(queue: Queue<A>, notified: set<A>)

  datatype Op<A> =
    | Register(who: A, waker: Waker)
    | Unregister(who: A)
    | NotifyOne(fromTail: bool)
    | AdvanceGeneration
    | NotifyOnePriorGeneration
    | TakeNotification(who: A)

  datatype Output<A> =
    | Done
    | NoneWaiting
    | Woke(who: A, waker: Waker)
    | Taken(wasNotified: bool)

  // ----- entries -----

  /** Index of `who`, or the length when it does not wait. */
  function Position<A(==)>(entries: seq<Entry<A>>, who: A): (i: nat)
    ensures i <= |entries|
    ensures forall k :: 0 <= k < i ==> entries[k].who != who
    ensures i < |entries| ==> entries[i].who == who
  {
    if entries == [] || entries[0].who == who then 0 else 1 + Position(entries[1..], who)
  }

  function Names<A>(entries: seq<Entry<A>>): (names: seq<A>)
    ensures |names| == |entries|
    ensures forall i :: 0 <= i < |entries| ==> names[i] == entries[i].who
  {
    seq(|entries|, i requires 0 <= i < |entries| => entries[i].who)
  }

  predicate IsWaiting<A(==)>(entries: seq<Entry<A>>, who: A) {
    Position(entries, who) < |entries|
  }

  ghost predicate Distinct<A>(entries: seq<Entry<A>>) {
    forall i, j :: 0 <= i < j < |entries| ==> entries[i].who != entries[j].who
  }

  function RemoveAt<T>(entries: seq<T>, i: nat): (rest: seq<T>)
    requires i < |entries|
    ensures |rest| == |entries| - 1
    ensures forall k :: 0 <= k < i ==> rest[k] == entries[k]
    ensures forall k :: i <= k < |rest| ==> rest[k] == entries[k + 1]
  {
    entries[..i] + entries[i + 1..]
  }

  lemma RemovalKeepsOthers<T>(entries: seq<T>, i: nat)
    requires i < |entries|
    ensures forall e :: e in entries ==> e == entries[i] || e in RemoveAt(entries, i)
  {
    var rest := RemoveAt(entries, i);
    forall k | 0 <= k < |entries| && k != i ensures entries[k] in rest {
      assert rest[if k < i then k else k - 1] == entries[k];
    }
  }

  lemma {:induction false} FirstPosition<A>(entries: seq<Entry<A>>, at: nat, who: A)
    requires at <= |entries| && forall k :: 0 <= k < at ==> entries[k].who != who
    requires at < |entries| ==> entries[at].who == who
    ensures Position(entries, who) == at
  {
    if at > 0 { FirstPosition(entries[1..], at - 1, who); }
  }

  lemma PositionIsUnique<A>(entries: seq<Entry<A>>, i: nat)
    requires Distinct(entries) && i < |entries|
    ensures Position(entries, entries[i].who) == i
  {
    FirstPosition(entries, i, entries[i].who);
  }

  // ----- operations -----

  /** A waiting awaiter keeps its place and its stamp; any other goes to the end. */
  function Enlist<A(==)>(q: Queue<A>, who: A, waker: Waker): Queue<A> {
    var i := Position(q.entries, who);
    if i < |q.entries| then
      q.(entries := q.entries[i := q.entries[i].(waker := waker)])
    else
      q.(entries := q.entries + [Entry(who, waker, q.generation)])
  }

  function Withdraw<A(==)>(q: Queue<A>, who: A): Queue<A>
    requires IsWaiting(q.entries, who)
  {
    q.(entries := RemoveAt(q.entries, Position(q.entries, who)))
  }

  function Advance<A>(q: Queue<A>): Queue<A> {
    q.(generation := WrapU64(q.generation + 1))
  }

  /** The head-only eligibility test. */
  predicate HeadIsPrior<A>(q: Queue<A>) {
    q.entries != [] && q.entries[0].generation < q.generation
  }

  /** Hands the notification to entry `i`. */
  function Deliver<A>(s: State<A>, i: nat): (State<A>, Output<A>)
    requires i < |s.queue.entries|
  {
    var e := s.queue.entries[i];
    (State(s.queue.(entries := RemoveAt(s.queue.entries, i)), s.notified + {e.who}), Woke(e.who, e.waker))
  }

  /** The callers' side of the contract: a pending notification is consumed before
      registering again, and only a registered or notified awaiter is unregistered. */
  predicate Legal<A(==)>(s: State<A>, op: Op<A>) {
    match op
    case Register(who, _) => who !in s.notified
    case Unregister(who) => IsWaiting(s.queue.entries, who) || who in s.notified
    case _ => true
  }

  function Step<A(==)>(s: State<A>, op: Op<A>): (State<A>, Output<A>)
    requires Legal(s, op)
  {
    match op
    case Register(who, waker) => (s.(queue := Enlist(s.queue, who, waker)), Done)
    case Unregister(who) =>
      (if IsWaiting(s.queue.entries, who) then s.(queue := Withdraw(s.queue, who)) else s, Done)
    case NotifyOne(fromTail) =>
      if s.queue.entries == [] then (s, NoneWaiting)
      else Deliver(s, if fromTail then |s.queue.entries| - 1 else 0)
    case AdvanceGeneration => (s.(queue := Advance(s.queue)), Done)
    case NotifyOnePriorGeneration =>
      if HeadIsPrior(s.queue) then Deliver(s, 0) else (s, NoneWaiting)
    case TakeNotification(who) => (s.(notified := s.notified - {who}), Taken(who in s.notified))
  }

  predicate LegalRun<A(==)>(s: State<A>, ops: seq<Op<A>>)
    decreases |ops|
  {
    ops == [] || (Legal(s, ops[0]) && LegalRun(Step(s, ops[0]).0, ops[1..]))
  }

  function Run<A(==)>(s: State<A>, ops: seq<Op<A>>): (r: (State<A>, seq<Output<A>>))
    requires LegalRun(s, ops)
    ensures |r.1| == |ops|
    decreases |ops|
  {
    if ops == [] then (s, [])
    else
      var (next, output) := Step(s, ops[0]);
      var (final, outputs) := Run(next, ops[1..]);
      (final, [output] + outputs)
  }

  function Initial<A>(): State<A> {
    State(Queue([], 1), {})
  }

  // ----- invariants -----

  /** No awaiter waits twice, and none waits while it still owes a look at a notification. */
  ghost predicate Consistent<A>(s: State<A>) {
    && Distinct(s.queue.entries)
    && forall i :: 0 <= i < |s.queue.entries| ==> s.queue.entries[i].who !in s.notified
  }

  /** Stamps never decrease from head to tail and never exceed the set's generation. */
  ghost predicate Ordered<A>(q: Queue<A>) {
    && (forall i, j :: 0 <= i < j < |q.entries| ==> q.entries[i].generation <= q.entries[j].generation)
    && forall i :: 0 <= i < |q.entries| ==> q.entries[i].generation <= q.generation
  }

  function Advances<A>(ops: seq<Op<A>>): nat {
    if ops == [] then 0 else (if ops[0].AdvanceGeneration? then 1 else 0) + Advances(ops[1..])
  }

  lemma StepKeepsConsistent<A>(s: State<A>, op: Op<A>)
    requires Consistent(s) && Legal(s, op)
    ensures Consistent(Step(s, op).0)
  {
  }

  lemma RemovalKeepsOrder<A>(q: Queue<A>, i: nat)
    requires Ordered(q) && i < |q.entries|
    ensures Ordered(q.(entries := RemoveAt(q.entries, i)))
  {
  }

  lemma EnlistKeepsOrder<A>(q: Queue<A>, who: A, waker: Waker)
    requires Ordered(q)
    ensures Ordered(Enlist(q, who, waker))
  {
  }

  lemma StepKeepsOrdered<A>(s: State<A>, op: Op<A>)
    requires Ordered(s.queue) && Legal(s, op)
    requires op.AdvanceGeneration? ==> s.queue.generation < U64_MAX
    ensures Ordered(Step(s, op).0.queue)
  {
    var entries := s.queue.entries;
    match op
    case Register(who, waker) => EnlistKeepsOrder(s.queue, who, waker);
    case Unregister(who) =>
      if IsWaiting(entries, who) { RemovalKeepsOrder(s.queue, Position(entries, who)); }
    case NotifyOne(fromTail) =>
      if entries != [] { RemovalKeepsOrder(s.queue, if fromTail then |entries| - 1 else 0); }
    case NotifyOnePriorGeneration =>
      if HeadIsPrior(s.queue) { RemovalKeepsOrder(s.queue, 0); }
    case AdvanceGeneration =>
    case TakeNotification(_) =>
  }

  /** Head or tail removal, re-registration in place, reentrancy: in every reachable state
      the stamps are ordered, as long as the counter has not wrapped. */
  lemma {:induction false} RunKeepsOrder<A>(s: State<A>, ops: seq<Op<A>>)
    requires Consistent(s) && Ordered(s.queue) && LegalRun(s, ops)
    requires s.queue.generation + Advances(ops) <= U64_MAX
    ensures Consistent(Run(s, ops).0) && Ordered(Run(s, ops).0.queue)
    ensures Run(s, ops).0.queue.generation == s.queue.generation + Advances(ops)
    decreases |ops|
  {
    if ops != [] {
      StepKeepsConsistent(s, ops[0]);
      StepKeepsOrdered(s, ops[0]);
      RunKeepsOrder(Step(s, ops[0]).0, ops[1..]);
    }
  }

  lemma {:induction false} RunKeepsConsistent<A>(s: State<A>, ops: seq<Op<A>>)
    requires Consistent(s) && LegalRun(s, ops)
    ensures Consistent(Run(s, ops).0)
    decreases |ops|
  {
    if ops != [] {
      StepKeepsConsistent(s, ops[0]);
      RunKeepsConsistent(Step(s, ops[0]).0, ops[1..]);
    }
  }

  // ----- one step, seen from every awaiter -----

  /** The entries of everybody but `who`, in order. */
  function Others<A(==)>(entries: seq<Entry<A>>, who: A): seq<Entry<A>> {
    if entries == [] then []
    else if entries[0].who == who then Others(entries[1..], who)
    else [entries[0]] + Others(entries[1..], who)
  }

  lemma {:induction false} OthersOfParts<A>(a: seq<Entry<A>>, b: seq<Entry<A>>, who: A)
    ensures Others(a + b, who) == Others(a, who) + Others(b, who)
    decreases |a|
  {
    if a == [] {
      assert a + b == b;
    } else {
      assert (a + b)[1..] == a[1..] + b;
      OthersOfParts(a[1..], b, who);
    }
  }

  /** Replacing or removing the entry of `who` changes nothing for the others. */
  lemma {:induction false} OthersStay<A>(entries: seq<Entry<A>>, i: nat, e: Entry<A>)
    requires i < |entries| && entries[i].who == e.who
    ensures Others(entries[i := e], e.who) == Others(entries, e.who) == Others(RemoveAt(entries, i), e.who)
  {
    var a, b := entries[..i], entries[i + 1..];
    OthersOfParts(a, b, e.who);
    OthersOfParts(a, [e] + b, e.who);
    OthersOfParts(a, [entries[i]] + b, e.who);
    assert entries[i := e] == a + ([e] + b) && entries == a + ([entries[i]] + b);
    assert ([e] + b)[1..] == b && ([entries[i]] + b)[1..] == b;
  }

  /** Whom a step is about, if anybody. */
  function Subject<A>(op: Op<A>, output: Output<A>): Option<A> {
    match op
    case Register(who, _) => Some(who)
    case Unregister(who) => Some(who)
    case TakeNotification(who) => Some(who)
    case _ => if output.Woke? then Some(output.who) else None
  }

  /** Each step is about one awaiter, and leaves everybody else's entry, place among the others
      and notification alone. Afterwards that awaiter waits with the waker it gave, or is off the
      queue; it is notified exactly if it was woken, or unregistered too late; and a take tells
      whether it was. */
  lemma {:induction false} StepMovesOneAwaiter<A>(s: State<A>, op: Op<A>)
    requires Consistent(s) && Legal(s, op)
    ensures var (t, output) := Step(s, op);
            match Subject(op, output) {
              case None => t.queue.entries == s.queue.entries && t.notified == s.notified
              case Some(who) =>
                && Others(t.queue.entries, who) == Others(s.queue.entries, who)
                && (forall a :: a != who ==> (a in t.notified <==> a in s.notified))
                && (IsWaiting(t.queue.entries, who)
                    <==> op.Register? || (op.TakeNotification? && IsWaiting(s.queue.entries, who)))
                && (who in t.notified <==> output.Woke? || (op.Unregister? && who in s.notified))
                && (op.Register? ==> t.queue.entries[Position(t.queue.entries, who)].waker == op.waker)
                && (op.TakeNotification? ==> output == Taken(who in s.notified))
            }
    ensures Step(s, op).0.queue.generation
            == if op.AdvanceGeneration? then WrapU64(s.queue.generation + 1) else s.queue.generation
  {
    var entries := s.queue.entries;
    match op
    case Register(who, waker) => RegisterMovesOne(s, who, waker);
    case Unregister(who) =>
      if IsWaiting(entries, who) {
        RemovalMovesOne(entries, Position(entries, who));
      } else {
        assert s == Step(s, op).0;
      }
    case NotifyOne(fromTail) =>
      if entries != [] { RemovalMovesOne(entries, if fromTail then |entries| - 1 else 0); }
    case NotifyOnePriorGeneration =>
      if HeadIsPrior(s.queue) { RemovalMovesOne(entries, 0); }
    case _ =>
  }

  lemma {:induction false} RegisterMovesOne<A>(s: State<A>, who: A, waker: Waker)
    requires Consistent(s)
    ensures var after := Enlist(s.queue, who, waker).entries;
            && Others(after, who) == Others(s.queue.entries, who) && IsWaiting(after, who)
            && after[Position(after, who)].waker == waker
  {
    var entries := s.queue.entries;
    var i := Position(entries, who);
    if i < |entries| {
      var e := entries[i].(waker := waker);
      OthersStay(entries, i, e);
      FirstPosition(entries[i := e], i, who);
    } else {
      var e := Entry(who, waker, s.queue.generation);
      OthersOfParts(entries, [e], who);
      assert [e][1..] == [];
      FirstPosition(entries + [e], i, who);
    }
  }

  lemma {:induction false} RemovalMovesOne<A>(entries: seq<Entry<A>>, i: nat)
    requires Distinct(entries) && i < |entries|
    ensures var who, after := entries[i].who, RemoveAt(entries, i);
            Others(after, who) == Others(entries, who) && !IsWaiting(after, who)
  {
    OthersStay(entries, i, entries[i]);
    var after := RemoveAt(entries, i);
    FirstPosition(after, |after|, entries[i].who);
  }

  // ----- the waker handed out is the latest one registered -----

  /** The waker of the most recent registration of each awaiter. */
  function Latest<A>(before: map<A, Waker>, ops: seq<Op<A>>): map<A, Waker>
    decreases |ops|
  {
    if ops == [] then before
    else Latest(if ops[0].Register? then before[ops[0].who := ops[0].waker] else before, ops[1..])
  }

  ghost predicate HoldsLatest<A>(entries: seq<Entry<A>>, latest: map<A, Waker>) {
    forall i :: 0 <= i < |entries| ==> entries[i].who in latest && latest[entries[i].who] == entries[i].waker
  }

  /** Whenever a notification picks an awaiter, the waker returned is the one given by the
      last registration of that awaiter, however often it was replaced in place. */
  lemma {:induction false} WokenByLatestWaker<A>(s: State<A>, latest: map<A, Waker>, ops: seq<Op<A>>, i: nat)
    requires Consistent(s) && LegalRun(s, ops) && HoldsLatest(s.queue.entries, latest)
    requires i < |ops| && Run(s, ops).1[i].Woke?
    ensures var woke := Run(s, ops).1[i];
            var known := Latest(latest, ops[..i]);
            woke.who in known && known[woke.who] == woke.waker
    decreases |ops|
  {
    if i > 0 {
      var op := ops[0];
      var latest' := if op.Register? then latest[op.who := op.waker] else latest;
      StepKeepsConsistent(s, op);
      StepKeepsLatest(s, op, latest);
      WokenByLatestWaker(Step(s, op).0, latest', ops[1..], i - 1);
      assert ops[..i][0] == op && ops[..i][1..] == ops[1..][..i - 1];
    }
  }

  lemma StepKeepsLatest<A>(s: State<A>, op: Op<A>, latest: map<A, Waker>)
    requires Consistent(s) && Legal(s, op) && HoldsLatest(s.queue.entries, latest)
    ensures HoldsLatest(Step(s, op).0.queue.entries, if op.Register? then latest[op.who := op.waker] else latest)
  {
  }
}
