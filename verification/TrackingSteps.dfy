/** What single steps of module TrackingProcess do, and that every creation of counters ends. */
module TrackingSteps {
  import opened MachineIntegers
  import opened AllocationCounters
  import opened AllocationTracking
  import opened TrackingProcess
  import opened TrackingRuns

  // ----- what enters a creation -----

  /** The steps that need the counters of thread `t`: opening a span, and a request that
      succeeds and is no free. */
  predicate NeedsCounters(action: Action, t: nat) {
    match action
    case OpenSpan(u) => u == t
    case Alloc(u, _, succeeds) => u == t && succeeds
    case Realloc(u, _, _, succeeds) => u == t && succeeds
    case _ => false
  }

  /** The request that a step makes, if it succeeds. */
  function RequestOf(p: Process, action: Action): Option<Request>
    requires Enabled(p, action)
  {
    match action
    case Alloc(_, size, succeeds) => if succeeds then Some(Allocate(size)) else None
    case Dealloc(_, block) => Some(Deallocate(p.heap[block]))
    case Realloc(_, block, newSize, succeeds) => if succeeds then Some(Reallocate(p.heap[block], newSize)) else None
    case _ => None
  }

  /** A thread enters a creation exactly on a step that needs its counters, while it has none
      and is not inside a creation already. */
  lemma EntersCreationExactlyWhen(p: Process, action: Action, t: nat)
    requires Inv(p) && Enabled(p, action) && t < |p.threads|
    ensures var l, l' := p.threads[t], Step(p, action).threads[t];
            && (|l.creations| < |l'.creations| <==> NeedsCounters(action, t) && l.counters.None? && !l.guard)
            && (|l.creations| < |l'.creations| ==> l'.creations == [Creation(Boxing, RequestOf(p, action))])
  {
    assert LocalHolds(p.threads[t]);
    if action.Create? {
      CreateEntersNothing(p, action.thread, t);
    }
  }

  lemma CreateEntersNothing(p: Process, u: nat, t: nat)
    requires Enabled(p, Create(u)) && t < |p.threads|
    ensures |CreateStep(p, u).threads[t].creations| <= |p.threads[t].creations|
  {
  }

  /** A free creates no counters, enters nothing and takes no lock. It is counted on the thread
      that frees if that has counters, and otherwise on nobody. */
  lemma FreesCreateNothing(p: Process, t: nat, block: nat)
    requires Enabled(p, Dealloc(t, block))
    ensures var q := Step(p, Dealloc(t, block));
            && q.threads == p.threads && q.lock == p.lock && q.heap == p.heap[block := 0]
            && |q.registry| == |p.registry|
            && forall b :: 0 <= b < |p.registry| ==>
                 q.registry[b].c == if p.threads[t].counters == Some(b)
                                    then After(p.registry[b].c, Deallocate(p.heap[block])) else p.registry[b].c
  {
    assert p.threads[t := p.threads[t]] == p.threads;
  }

  // ----- what reaches the cells -----

  /** A new thread starts with nothing, threads never go, and no step touches the local state of
      another thread. */
  lemma ThreadsFollow(p: Process, action: Action)
    requires Enabled(p, action)
    ensures var q := Step(p, action);
            if action.Spawn? then q == p.(threads := p.threads + [Local(None, false, [], 0, 0)])
            else && |q.threads| == |p.threads|
                 && forall t :: 0 <= t < |p.threads| && t != action.thread ==> q.threads[t] == p.threads[t]
  {
  }

  /** The live blocks after a step: requests that fail leave them alone, and so does all else. */
  lemma HeapFollows(p: Process, action: Action)
    requires Enabled(p, action)
    ensures Step(p, action).heap
            == match RequestOf(p, action) {
                 case None => p.heap
                 case Some(Allocate(size)) => p.heap + [size]
                 case Some(Deallocate(_)) => p.heap[action.block := 0]
                 case Some(Reallocate(_, newSize)) => p.heap[action.block := newSize]
               }
  {
  }

  lemma TrackReaches(p: Process, t: nat, request: Request, b: nat)
    requires t < |p.threads| && b < |p.registry|
    ensures var q := Track(p, t, request);
            && |q.registry| == |p.registry|
            && q.registry[b].c == if p.threads[t].counters == Some(b)
                                  then After(p.registry[b].c, request) else p.registry[b].c
  {
  }

  /** A request of a thread with counters reaches the cells of that thread and of no other. */
  lemma RequestsReachTheirCells(p: Process, action: Action, b: nat)
    requires Enabled(p, action) && RequestOf(p, action).Some? && b < |p.registry|
    ensures var q := Step(p, action);
            && |q.registry| == |p.registry|
            && q.registry[b].c == if p.threads[action.thread].counters == Some(b)
                                  then After(p.registry[b].c, RequestOf(p, action).value) else p.registry[b].c
  {
    match action
    case Alloc(t, size, _) => TrackReaches(p.(heap := p.heap + [size]), t, Allocate(size), b);
    case Dealloc(t, block) => TrackReaches(p.(heap := p.heap[block := 0]), t, Deallocate(p.heap[block]), b);
    case Realloc(t, block, newSize, _) =>
      TrackReaches(p.(heap := p.heap[block := newSize]), t, Reallocate(p.heap[block], newSize), b);
  }

  /** What no counter sees: requests of a thread that is creating its counters, and frees of a
      thread that has none and is not creating them. */
  lemma SkipsAreRecorded(p: Process, action: Action)
    requires Enabled(p, action)
    ensures var q, request := Step(p, action), RequestOf(p, action);
            var unseen := request.Some? && p.threads[action.thread].counters.None?;
            var inside := unseen && p.threads[action.thread].guard;
            && q.skippedInCreation == p.skippedInCreation + (if inside then Net(request.value) else 0)
            && q.skippedFrees
               == p.skippedFrees + if unseen && !inside && action.Dealloc? then p.heap[action.block] else 0
  {
  }

  /** What the steps of a creation write into the registry: one block of zeros, pushed under the
      lock, and at the end the request that triggered it, on that block. */
  lemma CreationsReachTheirCells(p: Process, t: nat)
    requires Inv(p) && Enabled(p, Create(t))
    ensures var q, c := Step(p, Create(t)), Innermost(p.threads[t]);
            && (c.phase.Pushing? ==> p.lock == Some(t) && q.registry == p.registry + [Block(ZERO, t, 0, 0)])
            && (c.phase.Publishing? ==>
                  && q.threads[t].counters == Some(c.phase.block) && c.phase.block < |p.registry|
                  && q.registry == if c.pending.None? then p.registry
                                   else Counted(p.registry, c.phase.block, c.pending.value))
            && (!c.phase.Pushing? && !c.phase.Publishing? ==> q.registry == p.registry)
  {
    assert LocalHolds(p.threads[t]) && BlockHolds(p.threads, p.registry, t);
  }

  // ----- every creation ends -----

  /** How many steps the creation of a thread's counters has left. */
  function StepsLeft(l: Local): nat {
    if l.creations == [] then 0
    else
      match Innermost(l).phase
      case Boxing => 4
      case Locking => 3
      case Pushing => 2
      case Publishing(_) => 1
  }

  function Creates(actions: seq<Action>, t: nat): nat {
    if actions == [] then 0 else (if actions[0] == Create(t) then 1 else 0) + Creates(actions[1..], t)
  }

  /** The thread has counters, or gets them with `n` more steps of its creation. */
  predicate Gets(l: Local, n: nat) {
    l.counters.Some? || (l.creations != [] && StepsLeft(l) <= n)
  }

  predicate GetsIn(p: Process, t: nat, n: nat) {
    t < |p.threads| && Gets(p.threads[t], n)
  }

  lemma CreateGetsOn(p: Process, t: nat, n: nat)
    requires Inv(p) && Enabled(p, Create(t)) && 0 < n && Gets(p.threads[t], n)
    ensures Gets(CreateStep(p, t).threads[t], n - 1)
  {
    assert LocalHolds(p.threads[t]);
  }

  lemma TrackGetsOn(p: Process, u: nat, request: Request, t: nat, n: nat)
    requires (forall v :: 0 <= v < |p.threads| ==> LocalHolds(p.threads[v])) && u < |p.threads| && t < |p.threads|
    requires Gets(p.threads[t], n)
    ensures Gets(Track(p, u, request).threads[t], n)
  {
    assert LocalHolds(p.threads[t]);
  }

  lemma StepGetsOn(p: Process, action: Action, t: nat, n: nat)
    requires Inv(p) && Enabled(p, action) && GetsIn(p, t, n)
    requires action == Create(t) ==> 0 < n
    ensures GetsIn(Step(p, action), t, if action == Create(t) then n - 1 else n)
  {
    match action
    case Alloc(u, size, _) => TrackGetsOn(p.(heap := p.heap + [size]), u, Allocate(size), t, n);
    case Dealloc(u, block) => FreesCreateNothing(p, u, block);
    case Realloc(u, block, newSize, _) =>
      TrackGetsOn(p.(heap := p.heap[block := newSize]), u, Reallocate(p.heap[block], newSize), t, n);
    case Create(u) => if u == t { CreateGetsOn(p, t, n); }
    case _ =>
  }

  /** Whatever is nested inside and whatever other threads do: with four steps of its own
      creation a thread has its counters, and it keeps them. */
  lemma {:induction false} CreationsEnd(before: seq<Action>, actions: seq<Action>, t: nat)
    requires Schedule(Start(), before) && t < |Run(Start(), before).threads|
    requires Run(Start(), before).threads[t].creations != []
    requires Schedule(Run(Start(), before), actions) && 4 <= Creates(actions, t)
    ensures var final := Run(Run(Start(), before), actions);
            t < |final.threads| && final.threads[t].counters.Some?
  {
    RunKeepsInv(Start(), before);
    RunGetsOn(Run(Start(), before), actions, t);
  }

  lemma {:induction false} FirstGetsOn(p: Process, actions: seq<Action>, t: nat)
    requires Inv(p) && actions != [] && Enabled(p, actions[0]) && GetsIn(p, t, Creates(actions, t))
    ensures GetsIn(Step(p, actions[0]), t, Creates(actions[1..], t))
  {
    StepGetsOn(p, actions[0], t, Creates(actions, t));
  }

  lemma {:induction false} RunGetsOn(p: Process, actions: seq<Action>, t: nat)
    requires Inv(p) && Schedule(p, actions) && GetsIn(p, t, Creates(actions, t))
    ensures GetsIn(Run(p, actions), t, 0)
    decreases |actions|
  {
    if actions != [] {
      StepKeepsInv(p, actions[0]);
      FirstGetsOn(p, actions, t);
      RunGetsOn(Step(p, actions[0]), actions[1..], t);
    }
  }
}
