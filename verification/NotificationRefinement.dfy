/** Linearizability: the operations under the lock, taken one memory access at a time and
    raced against the owners, have the effect and the results of the plain queue. */
module NotificationRefinement {
  import opened MachineIntegers
  import opened AwaiterQueue
  import opened NotificationProtocol
  import opened NotificationInvariant
  import opened NotificationRegistration
  import opened NotificationRemoval
  import opened NotificationSafety

  /** The plain effect of one operation, and the waker that it returns. */
  function Effect(q: Queue<Id>, op: Op<Id>): (Queue<Id>, Option<Waker>) {
    match op
    case Register(who, waker) => (Enlist(q, who, waker), None)
    case Unregister(who) => (if IsWaiting(q.entries, who) then Withdraw(q, who) else q, None)
    case TakeNotification(_) => (q, None)
    case _ =>
      var (next, output) := AwaiterQueue.Step(State(q, {}), op);
      (next.queue, if output.Woke? then Some(output.waker) else None)
  }

  /** The operations completed so far, replayed one after the other on an empty queue. */
  function Replay(done: seq<Op<Id>>): (Queue<Id>, seq<Option<Waker>>) {
    if done == [] then (Queue([], 1), [])
    else
      var n := |done| - 1;
      var (q, wakers) := Replay(done[..n]);
      var (next, waker) := Effect(q, done[n]);
      (next, wakers + [waker])
  }

  /** The machine with a record of what was asked and returned. */
  datatype Recorded = Recorded(m: Machine, asked: Op<Id>, done: seq<Op<Id>>, returned: seq<Option<Waker>>)

  function Contents(m: Machine): Queue<Id> {
    Queue(m.entries, m.generation)
  }

  /** What the step that gives up the lock hands back. */
  function HandsBack(m: Machine): Option<Waker> {
    if m.pc.Return? then m.pc.taken else None
  }

  function StepRecorded(r: Recorded, action: Action): Recorded
    requires Enabled(r.m, action)
  {
    var m' := Act(r.m, action);
    match action
    case LockToRegister(a, w) => r.(m := m', asked := Register(a, w))
    case LockToUnregister(a) => r.(m := m', asked := Unregister(a))
    case LockToNotify(priorOnly) =>
      r.(m := m', asked := if priorOnly then NotifyOnePriorGeneration else NotifyOne(false))
    case LockToAdvance => r.(m := m', asked := AdvanceGeneration)
    case Tick(fromTail) =>
      var asked := if r.m.pc == NotifyEnter(false) then NotifyOne(fromTail) else r.asked;
      if m'.pc.Unlocked? then
        Recorded(m', asked, r.done + [asked], r.returned + [HandsBack(r.m)])
      else r.(m := m', asked := asked)
    case _ => r.(m := m')
  }

  function RunRecorded(r: Recorded, actions: seq<Action>): Recorded
    requires Schedule(r.m, actions)
    decreases |actions|
  {
    if actions == [] then r else RunRecorded(StepRecorded(r, actions[0]), actions[1..])
  }

  /** The awaiter that an operation takes off the queue. */
  predicate Picks(q: Queue<Id>, op: Op<Id>, p: Id, notify: bool) {
    && IsWaiting(q.entries, p)
    && if !notify then op == Unregister(p)
       else if op.NotifyOne? then p == q.entries[if op.fromTail then |q.entries| - 1 else 0].who
       else op.NotifyOnePriorGeneration? && HeadIsPrior(q) && p == q.entries[0].who
  }

  /** How far the operation asked for has changed the queue `q` it started from. */
  ghost predicate Progress(m: Machine, op: Op<Id>, q: Queue<Id>) {
    match m.pc
    case Unlocked => Contents(m) == q
    case RegisterEnter(a, w) => op == Register(a, w) && Contents(m) == q
    case RegisterFields(a, w) => op == Register(a, w) && Contents(m) == q
    case RegisterLink(a, w) => op == Register(a, w) && Contents(m) == q
    case RegisterTail(a, w) => op == Register(a, w) && Contents(m) == Enlist(q, a, w)
    case RegisterPublish(a, w) => op == Register(a, w) && Contents(m) == Enlist(q, a, w)
    case UnregisterEnter(a) => op == Unregister(a) && Contents(m) == q
    case NotifyEnter(priorOnly) =>
      (if priorOnly then op.NotifyOnePriorGeneration? else op.NotifyOne?) && Contents(m) == q
    case SpliceRead(p, notify) => Picks(q, op, p, notify) && Contents(m) == q
    case SplicePrev(p, notify, _, _) => Picks(q, op, p, notify) && Contents(m) == q
    case SpliceNext(p, notify, _, _) => Removed(m, op, q, p, notify)
    case TakeWaker(p, notify) => Removed(m, op, q, p, notify)
    case Publish(p, notify, _) => Removed(m, op, q, p, notify)
    case Return(p, _) => Removed(m, op, q, p, true)
    case Advancing => op.AdvanceGeneration? && Contents(m) == q
  }

  ghost predicate Removed(m: Machine, op: Op<Id>, q: Queue<Id>, p: Id, notify: bool) {
    && Picks(q, op, p, notify) && Contents(m) == Withdraw(q, p)
    && p in m.latest && m.latest[p] == q.entries[Position(q.entries, p)].waker
    && Distinct(q.entries)
  }

  /** Everything done so far agrees with the replay, and the rest is in progress. */
  ghost predicate Linear(r: Recorded) {
    && r.returned == Replay(r.done).1
    && Progress(r.m, r.asked, Replay(r.done).0)
  }

  // ----- one step of the lock holder -----

  /** The step either finishes the operation with its plain effect, or goes on. */
  ghost predicate GoesOn(m: Machine, op: Op<Id>, q: Queue<Id>, fromTail: bool) {
    var m' := TickOnce(m, fromTail);
    if m'.pc.Unlocked? then (Contents(m'), HandsBack(m)) == Effect(q, op) else Progress(m', op, q)
  }

  lemma {:induction false} RegisterAdvances(m: Machine, op: Op<Id>, q: Queue<Id>, fromTail: bool)
    requires Inv(m) && Progress(m, op, q)
    requires m.pc.RegisterEnter? || m.pc.RegisterFields? || m.pc.RegisterTail? || m.pc.RegisterPublish?
    ensures GoesOn(m, op, q, fromTail)
  {
    assert At(m.mem, m.pc.a).Live?;
  }

  lemma {:induction false} RegisterLinkAdvances(m: Machine, op: Op<Id>, q: Queue<Id>, fromTail: bool)
    requires Inv(m) && Progress(m, op, q) && m.pc.RegisterLink?
    ensures GoesOn(m, op, q, fromTail)
  {
    var a, w := m.pc.a, m.pc.w;
    NotOnChain(m, a);
    RegisterLinkResult(m, a, w);
    NamesGrow(m.entries, Entry(a, w, m.generation));
  }

  lemma {:induction false} SpliceReadAdvances(m: Machine, op: Op<Id>, q: Queue<Id>, fromTail: bool)
    requires Progress(m, op, q) && m.pc.SpliceRead? && At(m.mem, m.pc.p).Live?
    ensures GoesOn(m, op, q, fromTail)
  {
  }

  lemma {:induction false} SpliceNextAdvances(m: Machine, op: Op<Id>, q: Queue<Id>, fromTail: bool)
    requires Inv(m) && Progress(m, op, q) && m.pc.SpliceNext?
    ensures GoesOn(m, op, q, fromTail)
  {
    SpliceNextResult(m, m.pc.p, m.pc.notify, m.pc.before, m.pc.after, IndexIn(m.backward, m.pc.p));
  }

  lemma {:induction false} FinishAdvances(m: Machine, op: Op<Id>, q: Queue<Id>, fromTail: bool)
    requires Inv(m) && Progress(m, op, q)
    requires m.pc.TakeWaker? || m.pc.Publish? || m.pc.Return?
    ensures GoesOn(m, op, q, fromTail)
  {
    match m.pc
    case TakeWaker(p, notify) =>
    case Publish(p, notify, taken) => PublishFinishes(m, op, q, p, notify, taken);
    case Return(p, taken) => RemovalIsTheEffect(q, op, p, true);
  }

  lemma {:induction false} UnregisterAdvances(m: Machine, op: Op<Id>, q: Queue<Id>, fromTail: bool)
    requires Progress(m, op, q) && m.pc.UnregisterEnter?
    requires TickOnce(m, fromTail)
             == m.(pc := if IsWaiting(m.entries, m.pc.a) then SpliceRead(m.pc.a, false) else Unlocked)
    ensures GoesOn(m, op, q, fromTail)
  {
  }

  lemma {:induction false} NotifyAdvances(m: Machine, op: Op<Id>, q: Queue<Id>, fromTail: bool)
    requires EndsMatch(m) && Progress(m, op, q) && m.pc.NotifyEnter?
    requires m.pc == NotifyEnter(false) ==> op == NotifyOne(fromTail)
    ensures GoesOn(m, op, q, fromTail)
  {
    NotifyDecides(m, m.pc.priorOnly, fromTail);
  }

  lemma {:induction false} TickAdvances(m: Machine, op: Op<Id>, q: Queue<Id>, fromTail: bool)
    requires Inv(m) && !m.pc.Unlocked? && Progress(m, op, q)
    requires m.pc == NotifyEnter(false) ==> op == NotifyOne(fromTail)
    ensures GoesOn(m, op, q, fromTail)
  {
    if m.pc.RegisterLink? {
      RegisterLinkAdvances(m, op, q, fromTail);
    } else if m.pc.RegisterEnter? || m.pc.RegisterFields? || m.pc.RegisterTail? || m.pc.RegisterPublish? {
      RegisterAdvances(m, op, q, fromTail);
    } else if m.pc.UnregisterEnter? {
      UnregisterDecides(m, m.pc.a);
      UnregisterAdvances(m, op, q, fromTail);
    } else if m.pc.NotifyEnter? {
      EndsAgree(m);
      NotifyAdvances(m, op, q, fromTail);
    } else if m.pc.SpliceRead? {
      ChainIsLive(m, m.pc.p);
      SpliceReadAdvances(m, op, q, fromTail);
    } else if m.pc.SplicePrev? {
      SplicePrevProgresses(m, op, q, fromTail);
    } else if m.pc.SpliceNext? {
      SpliceNextAdvances(m, op, q, fromTail);
    } else if !m.pc.Advancing? {
      FinishAdvances(m, op, q, fromTail);
    }
  }

  lemma {:induction false} ChainIsLive(m: Machine, p: Id)
    requires ChainsHold(m) && p in m.backward
    ensures At(m.mem, p).Live?
  {
    var i := IndexIn(m.backward, p);
    assert At(m.mem, m.backward[i]).Live?;
  }

  lemma {:induction false} WaitingIsOnTheQueue(m: Machine, a: Id)
    requires Inv(m) && !Arriving(m.pc, a) && !Leaving(m.pc, a)
    ensures InPhase(m.mem, a, Waiting) <==> IsWaiting(m.entries, a)
  {
    var names := Names(m.entries);
    if InPhase(m.mem, a, Waiting) {
      assert a in names;
      var i := IndexIn(names, a);
      assert m.entries[i].who == a;
      PositionIsUnique(m.entries, i);
    }
    if IsWaiting(m.entries, a) {
      assert names[Position(m.entries, a)] == a;
    }
  }

  lemma {:induction false} UnregisterDecides(m: Machine, a: Id)
    requires Inv(m) && m.pc == UnregisterEnter(a)
    ensures TickOnce(m, false) == m.(pc := if IsWaiting(m.entries, a) then SpliceRead(a, false) else Unlocked)
  {
    WaitingIsOnTheQueue(m, a);
  }

  /** Head, tail and the head's stamp are those of the plain queue. */
  ghost predicate EndsMatch(m: Machine) {
    if m.entries == [] then m.head == None
    else
      var first, last := m.entries[0], m.entries[|m.entries| - 1];
      && m.head == Some(first.who) && m.tail == Some(last.who)
      && At(m.mem, first.who).Live? && At(m.mem, first.who).generation == first.generation
      && IsWaiting(m.entries, first.who) && IsWaiting(m.entries, last.who)
  }

  lemma {:induction false} EndsAgree(m: Machine)
    requires ChainsHold(m) && m.pc.NotifyEnter?
    ensures EndsMatch(m)
  {
    if m.entries != [] {
      PositionIsUnique(m.entries, 0);
      PositionIsUnique(m.entries, |m.entries| - 1);
    }
  }

  /** The choice made by looking at `head`, `tail` and one stamp is the choice of the plain queue. */
  lemma {:induction false} NotifyDecides(m: Machine, priorOnly: bool, fromTail: bool)
    requires m.pc == NotifyEnter(priorOnly) && EndsMatch(m)
    ensures var q := Contents(m);
            var stops := q.entries == [] || (priorOnly && !HeadIsPrior(q));
            TickOnce(m, fromTail) == m.(pc :=
              if stops then Unlocked
              else SpliceRead(q.entries[if !priorOnly && fromTail then |q.entries| - 1 else 0].who, true))
  {
  }

  lemma {:induction false} SplicePrevProgresses(m: Machine, op: Op<Id>, q: Queue<Id>, fromTail: bool)
    requires ChainsHold(m) && SubjectKnown(m) && m.pc.SplicePrev? && Progress(m, op, q)
    ensures GoesOn(m, op, q, fromTail)
  {
    var p := m.pc.p;
    var i := IndexIn(m.backward, p);
    SplicePrevResult(m, p, m.pc.notify, m.pc.before, m.pc.after, i);
    PositionIsUnique(m.entries, i);
    assert LatestOf(m, m.entries[i]);
    RemovalIsRecorded(m, TickSplicePrev(m, p, m.pc.notify, m.pc.before, m.pc.after), op, q, i);
  }

  ghost predicate LatestOf(m: Machine, e: Entry<Id>) {
    e.who in m.latest && m.latest[e.who] == e.waker
  }

  lemma {:induction false} RemovalIsRecorded(m: Machine, m': Machine, op: Op<Id>, q: Queue<Id>, i: nat)
    requires m.pc.SplicePrev? && Picks(q, op, m.pc.p, m.pc.notify) && Contents(m) == q && Distinct(q.entries)
    requires i < |q.entries| && Position(q.entries, m.pc.p) == i && LatestOf(m, q.entries[i])
    requires m'.entries == RemoveAt(m.entries, i) && m'.generation == m.generation && m'.latest == m.latest
    ensures Removed(m', op, q, m.pc.p, m.pc.notify)
  {
  }

  lemma {:induction false} PublishFinishes(
      m: Machine, op: Op<Id>, q: Queue<Id>, p: Id, notify: bool, taken: Option<Waker>)
    requires Inv(m) && m.pc == Publish(p, notify, taken) && Progress(m, op, q)
    ensures var m' := TickOnce(m, true);
            && TickOnce(m, false) == m'
            && if notify then Progress(m', op, q) && m'.pc.Return?
               else m'.pc.Unlocked? && (Contents(m'), None) == Effect(q, op)
  {
    if !notify { RemovalIsTheEffect(q, op, p, notify); }
  }

  lemma {:induction false} RemovalIsTheEffect(q: Queue<Id>, op: Op<Id>, p: Id, notify: bool)
    requires Picks(q, op, p, notify) && Distinct(q.entries)
    ensures Effect(q, op) == (Withdraw(q, p), if notify then Some(q.entries[Position(q.entries, p)].waker) else None)
  {
    PositionIsUnique(q.entries, 0);
    PositionIsUnique(q.entries, |q.entries| - 1);
  }

  // ----- every run -----

  /** What the holder of the lock was asked to do, once it is known which end it picks from. */
  function AskedAt(r: Recorded, fromTail: bool): Op<Id> {
    if r.m.pc == NotifyEnter(false) then NotifyOne(fromTail) else r.asked
  }

  lemma {:induction false} ReplayGrows(done: seq<Op<Id>>, op: Op<Id>)
    ensures var (q, returned) := Replay(done);
            var (q', waker) := Effect(q, op);
            Replay(done + [op]) == (q', returned + [waker])
  {
    assert (done + [op])[..|done|] == done;
  }

  /** The step that gives up the lock completes the operation. */
  lemma {:induction false} LastTickStaysLinear(r: Recorded, fromTail: bool)
    requires Linear(r) && Enabled(r.m, Tick(fromTail)) && Act(r.m, Tick(fromTail)).pc.Unlocked?
    requires Act(r.m, Tick(fromTail)) == TickOnce(r.m, fromTail)
    requires GoesOn(r.m, AskedAt(r, fromTail), Replay(r.done).0, fromTail)
    ensures Linear(StepRecorded(r, Tick(fromTail)))
  {
    ReplayGrows(r.done, AskedAt(r, fromTail));
  }

  /** Any other step of the holder leaves what is done alone. */
  lemma {:induction false} TickStaysLinear(r: Recorded, fromTail: bool)
    requires Linear(r) && Enabled(r.m, Tick(fromTail)) && !Act(r.m, Tick(fromTail)).pc.Unlocked?
    requires Act(r.m, Tick(fromTail)) == TickOnce(r.m, fromTail)
    requires GoesOn(r.m, AskedAt(r, fromTail), Replay(r.done).0, fromTail)
    ensures Linear(StepRecorded(r, Tick(fromTail)))
  {
  }

  /** Locking changes no contents, and owners do not reach them. */
  lemma {:induction false} OtherStepStaysLinear(r: Recorded, action: Action)
    requires Inv(r.m) && Linear(r) && Enabled(r.m, action) && !action.Tick?
    ensures Linear(StepRecorded(r, action))
  {
  }

  lemma {:induction false} StepStaysLinear(r: Recorded, action: Action)
    requires Inv(r.m) && Linear(r) && Enabled(r.m, action)
    ensures Linear(StepRecorded(r, action))
    ensures StepRecorded(r, action).m == Act(r.m, action)
  {
    if action.Tick? {
      TickAdvances(r.m, AskedAt(r, action.fromTail), Replay(r.done).0, action.fromTail);
      if Act(r.m, action).pc.Unlocked? {
        LastTickStaysLinear(r, action.fromTail);
      } else {
        TickStaysLinear(r, action.fromTail);
      }
    } else {
      OtherStepStaysLinear(r, action);
    }
  }

  lemma {:induction false} RunStaysLinear(r: Recorded, actions: seq<Action>)
    requires Inv(r.m) && Linear(r) && Schedule(r.m, actions)
    ensures Linear(RunRecorded(r, actions)) && RunRecorded(r, actions).m == Execute(r.m, actions)
    decreases |actions|
  {
    if actions != [] {
      StepKeepsInv(r.m, actions[0]);
      StepStaysLinear(r, actions[0]);
      RunStaysLinear(StepRecorded(r, actions[0]), actions[1..]);
    }
  }

  /** Whenever the lock is free, the set holds what the completed operations would have left
      in a plain queue one after the other, and their callers got the wakers of that replay. */
  lemma {:induction false} Linearizable(actions: seq<Action>)
    requires Schedule(Start(), actions)
    ensures var r := RunRecorded(Recorded(Start(), AdvanceGeneration, [], []), actions);
            && r.m == Execute(Start(), actions)
            && r.returned == Replay(r.done).1
            && (r.m.pc.Unlocked? ==> Contents(r.m) == Replay(r.done).0)
  {
    StartHolds();
    RunStaysLinear(Recorded(Start(), AdvanceGeneration, [], []), actions);
  }
}
