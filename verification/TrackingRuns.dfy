/** What every run of module TrackingProcess conserves. */
module TrackingRuns {
  import opened MachineIntegers
  import opened AllocationCounters
  import opened AllocationTracking
  import opened TrackingProcess

  // ----- the invariant -----

  /** The block registered for a thread, published or about to be. */
  function Registered(l: Local): Option<nat> {
    if l.counters.Some? then l.counters
    else if l.creations != [] && Innermost(l).phase.Publishing? then Some(Innermost(l).phase.block)
    else None
  }

  function HasPending(l: Local): nat {
    if l.creations != [] && Innermost(l).pending.Some? then 1 else 0
  }

  /** Creation does not recurse; the guard marks it; published counters exclude it. */
  ghost predicate LocalHolds(l: Local) {
    && |l.creations| <= 1
    && (l.guard <==> l.creations != [])
    && (l.counters.Some? ==> l.creations == [])
    && (l.creations != [] && Innermost(l).pending.Some? ==> !Innermost(l).pending.value.Deallocate?)
  }

  /** Every counted request of a thread is on its one block. */
  ghost predicate BlockHolds(threads: seq<Local>, registry: seq<Block>, t: nat)
    requires t < |threads|
  {
    var l := threads[t];
    && (Registered(l).Some? ==> Registered(l).value < |registry| && registry[Registered(l).value].owner == t)
    && l.requests == l.skipped + HasPending(l)
       + (if Registered(l).Some? then registry[Registered(l).value].count else 0)
  }

  ghost predicate AllBlocksHold(threads: seq<Local>, registry: seq<Block>) {
    forall t :: 0 <= t < |threads| ==> BlockHolds(threads, registry, t)
  }

  /** The lock is held exactly while its holder pushes. */
  ghost predicate LockHolds(p: Process) {
    && !p.lockedTwice
    && (p.lock.Some? ==> p.lock.value < |p.threads|)
    && forall t :: 0 <= t < |p.threads| ==>
         (p.lock == Some(t) <==> p.threads[t].creations != [] && Innermost(p.threads[t]).phase.Pushing?)
  }

  /** Every block belongs to the thread that has it, and its cells hold its true figures. */
  ghost predicate RegistryHolds(threads: seq<Local>, registry: seq<Block>) {
    forall b :: 0 <= b < |registry| ==>
      var block := registry[b];
      && block.owner < |threads| && Registered(threads[block.owner]) == Some(b)
      && block.c.outstanding == WrapI64(block.net) && block.c.count == WrapU64(block.count)
  }

  ghost predicate Conserved(p: Process) {
    CountedBytes(p.registry) + PendingBytes(p.threads) == LiveBytes(p.heap) - p.skippedInCreation + p.skippedFrees
  }

  ghost predicate Shaped(p: Process) {
    && (forall t :: 0 <= t < |p.threads| ==> LocalHolds(p.threads[t]))
    && AllBlocksHold(p.threads, p.registry)
    && LockHolds(p)
    && RegistryHolds(p.threads, p.registry)
  }

  ghost predicate Inv(p: Process) {
    Shaped(p) && Conserved(p)
  }

  // ----- every step keeps it -----

  lemma CountFollows(c: Counters, net: int, count: nat, request: Request)
    requires c.outstanding == WrapI64(net) && c.count == WrapU64(count)
    ensures After(c, request).outstanding == WrapI64(net + Net(request))
    ensures After(c, request).count == WrapU64(count + if request.Deallocate? then 0 else 1)
  {
    WrapI64Absorbs(net, Net(request));
    WrapU64Absorbs(count, 1);
  }

  lemma CountingKeepsRegistry(threads: seq<Local>, registry: seq<Block>, t: nat, l: Local, b: nat, request: Request)
    requires RegistryHolds(threads, registry) && t < |threads| && b < |registry|
    requires Registered(threads[t]) == Registered(l)
    ensures RegistryHolds(threads[t := l], Counted(registry, b, request))
  {
    CountFollows(registry[b].c, registry[b].net, registry[b].count, request);
  }

  /** Each thread has its own block, so nobody else's count changes. */
  lemma CountingKeepsBlocks(threads: seq<Local>, registry: seq<Block>, t: nat, l: Local, b: nat, request: Request)
    requires AllBlocksHold(threads, registry)
    requires t < |threads| && Registered(threads[t]) == Some(b) == Registered(l)
    requires l.requests - l.skipped - HasPending(l)
             == threads[t].requests - threads[t].skipped - HasPending(threads[t]) + if request.Deallocate? then 0 else 1
    ensures AllBlocksHold(threads[t := l], Counted(registry, b, request))
  {
    assert BlockHolds(threads, registry, t);
    var threads', registry' := threads[t := l], Counted(registry, b, request);
    forall u | 0 <= u < |threads'| ensures BlockHolds(threads', registry', u) {
      assert BlockHolds(threads, registry, u);
      if u != t && Registered(threads[u]).Some? {
        assert Registered(threads[u]).value != b;
      }
    }
  }

  /** Counting a request of thread `t` on its block, with `t`'s local state changing to `l`. */
  lemma CountingKeepsShape(p: Process, t: nat, l: Local, b: nat, request: Request)
    requires Shaped(p) && t < |p.threads| && Registered(p.threads[t]) == Some(b)
    requires LocalHolds(l) && Registered(l) == Some(b)
    requires l.requests - l.skipped - HasPending(l)
             == p.threads[t].requests - p.threads[t].skipped - HasPending(p.threads[t])
               + if request.Deallocate? then 0 else 1
    requires !(p.threads[t].creations != [] && Innermost(p.threads[t]).phase.Pushing?)
    requires !(l.creations != [] && Innermost(l).phase.Pushing?)
    ensures Shaped(WithLocal(p, t, l).(registry := Counted(p.registry, b, request)))
  {
    assert BlockHolds(p.threads, p.registry, t);
    CountingKeepsRegistry(p.threads, p.registry, t, l, b, request);
    CountingKeepsBlocks(p.threads, p.registry, t, l, b, request);
  }

  /** A change of `t`'s local state that leaves its block alone. */
  lemma LocalChangeKeepsShape(p: Process, t: nat, l: Local)
    requires Shaped(p) && t < |p.threads| && LocalHolds(l) && Registered(l) == Registered(p.threads[t])
    requires l.requests - l.skipped - HasPending(l)
             == p.threads[t].requests - p.threads[t].skipped - HasPending(p.threads[t])
    requires (l.creations != [] && Innermost(l).phase.Pushing?)
             <==> (p.threads[t].creations != [] && Innermost(p.threads[t]).phase.Pushing?)
    ensures Shaped(WithLocal(p, t, l))
  {
    var q := WithLocal(p, t, l);
    forall u | 0 <= u < |q.threads| ensures BlockHolds(q.threads, q.registry, u) {
      assert BlockHolds(p.threads, p.registry, u);
    }
  }

  /** The books before a request is tracked: the heap already changed, the counters did not. */
  ghost predicate Owing(p: Process, amount: int) {
    CountedBytes(p.registry) + PendingBytes(p.threads) + amount
      == LiveBytes(p.heap) - p.skippedInCreation + p.skippedFrees
  }

  /** A thread's local state once it reported a request, and nothing else happened yet. */
  function Requested(l: Local, request: Request): Local {
    if request.Deallocate? then l else l.(requests := l.requests + 1)
  }

  lemma CountedKeepsShape(p: Process, t: nat, request: Request)
    requires Shaped(p) && t < |p.threads| && p.threads[t].counters.Some?
    ensures var b := p.threads[t].counters.value;
            && b < |p.registry|
            && Shaped(WithLocal(p, t, Requested(p.threads[t], request)).(registry := Counted(p.registry, b, request)))
  {
    assert LocalHolds(p.threads[t]) && BlockHolds(p.threads, p.registry, t);
    CountingKeepsShape(p, t, Requested(p.threads[t], request), p.threads[t].counters.value, request);
  }

  lemma CountedKeepsBooks(p: Process, t: nat, b: nat, request: Request)
    requires t < |p.threads| && b < |p.registry| && Owing(p, Net(request))
    ensures Owing(WithLocal(p, t, Requested(p.threads[t], request)).(registry := Counted(p.registry, b, request)), 0)
  {
    RegistryCounts(p.registry, b, request);
    ThreadsUpdate(p.threads, t, Requested(p.threads[t], request));
  }

  lemma CountedKeepsInv(p: Process, t: nat, request: Request)
    requires Shaped(p) && t < |p.threads| && Owing(p, Net(request)) && p.threads[t].counters.Some?
    ensures Inv(Track(p, t, request))
  {
    CountedKeepsShape(p, t, request);
    CountedKeepsBooks(p, t, p.threads[t].counters.value, request);
    CountedResult(p, t, request);
  }

  lemma CountedResult(p: Process, t: nat, request: Request)
    requires t < |p.threads| && p.threads[t].counters.Some?
    ensures Track(p, t, request)
            == WithLocal(p, t, Requested(p.threads[t], request))
               .(registry := Counted(p.registry, p.threads[t].counters.value, request))
  {
  }

  lemma SkippedFreeKeepsInv(p: Process, t: nat, size: Size)
    requires Shaped(p) && t < |p.threads| && Owing(p, 0 - size) && p.threads[t].counters.None?
    ensures Inv(Track(p, t, Deallocate(size)))
  {
    assert WithLocal(p, t, p.threads[t]) == p;
  }

  lemma SkippedKeepsInv(p: Process, t: nat, request: Request)
    requires Shaped(p) && t < |p.threads| && Owing(p, Net(request))
    requires p.threads[t].counters.None? && p.threads[t].guard && !request.Deallocate?
    ensures Inv(Track(p, t, request))
  {
    var l0 := p.threads[t];
    var l := l0.(requests := l0.requests + 1, skipped := l0.skipped + 1);
    assert LocalHolds(l0);
    LocalChangeKeepsShape(p, t, l);
    ThreadsUpdate(p.threads, t, l);
    assert Track(p, t, request) == WithLocal(p, t, l).(skippedInCreation := p.skippedInCreation + Net(request));
  }

  lemma EnteringKeepsInv(p: Process, t: nat, request: Request)
    requires Shaped(p) && t < |p.threads| && Owing(p, Net(request))
    requires p.threads[t].counters.None? && !p.threads[t].guard && !request.Deallocate?
    ensures Inv(Track(p, t, request))
  {
    var l0 := p.threads[t];
    var l := Entered(l0.(requests := l0.requests + 1), Some(request));
    assert LocalHolds(l0);
    LocalChangeKeepsShape(p, t, l);
    ThreadsUpdate(p.threads, t, l);
    assert Track(p, t, request) == WithLocal(p, t, l);
  }

  lemma TrackKeepsInv(p: Process, t: nat, request: Request)
    requires Shaped(p) && t < |p.threads| && Owing(p, Net(request))
    ensures Inv(Track(p, t, request))
  {
    if p.threads[t].counters.Some? {
      CountedKeepsInv(p, t, request);
    } else if request.Deallocate? {
      SkippedFreeKeepsInv(p, t, request.size);
    } else if p.threads[t].guard {
      SkippedKeepsInv(p, t, request);
    } else {
      EnteringKeepsInv(p, t, request);
    }
  }

  lemma PushKeepsBlocks(threads: seq<Local>, registry: seq<Block>, t: nat, l: Local)
    requires AllBlocksHold(threads, registry)
    requires RegistryHolds(threads, registry)
    requires t < |threads| && Registered(threads[t]) == None && Registered(l) == Some(|registry|)
    requires l.requests == threads[t].requests && l.skipped == threads[t].skipped
             && HasPending(l) == HasPending(threads[t])
    ensures var registry' := registry + [Block(ZERO, t, 0, 0)];
            && AllBlocksHold(threads[t := l], registry')
            && RegistryHolds(threads[t := l], registry')
  {
    var registry' := registry + [Block(ZERO, t, 0, 0)];
    assert BlockHolds(threads, registry, t);
    var threads' := threads[t := l];
    forall u | 0 <= u < |threads'| ensures BlockHolds(threads', registry', u) {
      assert BlockHolds(threads, registry, u);
    }
  }

  lemma PushKeepsInv(p: Process, t: nat)
    requires Inv(p) && Enabled(p, Create(t)) && Innermost(p.threads[t]).phase.Pushing?
    ensures Inv(CreateStep(p, t))
  {
    var l := Moved(p.threads[t], Publishing(|p.registry|));
    assert LocalHolds(p.threads[t]);
    PushKeepsBlocks(p.threads, p.registry, t, l);
    RegistryAppends(p.registry, Block(ZERO, t, 0, 0));
    ThreadsUpdate(p.threads, t, l);
  }

  lemma LockingKeepsBlocks(threads: seq<Local>, registry: seq<Block>, t: nat, l: Local)
    requires AllBlocksHold(threads, registry) && RegistryHolds(threads, registry)
    requires t < |threads| && Registered(l) == Registered(threads[t])
    requires l.requests == threads[t].requests && l.skipped == threads[t].skipped
             && HasPending(l) == HasPending(threads[t])
    ensures AllBlocksHold(threads[t := l], registry) && RegistryHolds(threads[t := l], registry)
  {
    var threads' := threads[t := l];
    forall u | 0 <= u < |threads'| ensures BlockHolds(threads', registry, u) {
      assert BlockHolds(threads, registry, u);
    }
  }

  lemma LockingKeepsInv(p: Process, t: nat)
    requires Inv(p) && Enabled(p, Create(t)) && Innermost(p.threads[t]).phase.Locking?
    ensures Inv(CreateStep(p, t))
  {
    var l := Moved(p.threads[t], Pushing);
    assert LocalHolds(p.threads[t]);
    LockingKeepsBlocks(p.threads, p.registry, t, l);
    ThreadsUpdate(p.threads, t, l);
  }

  lemma PublishKeepsInv(p: Process, t: nat, b: nat)
    requires Inv(p) && Enabled(p, Create(t)) && Innermost(p.threads[t]).phase == Publishing(b)
    ensures Inv(CreateStep(p, t))
  {
    var l0 := p.threads[t];
    var pending := Innermost(l0).pending;
    var l := l0.(counters := Some(b), guard := false, creations := []);
    var q := CreateStep(p, t);
    assert LocalHolds(l0) && BlockHolds(p.threads, p.registry, t);
    assert l0.creations[..|l0.creations| - 1] == [];
    ThreadsUpdate(p.threads, t, l);
    if pending.None? {
      LocalChangeKeepsShape(p, t, l);
    } else {
      CountingKeepsShape(p, t, l, b, pending.value);
      RegistryCounts(p.registry, b, pending.value);
    }
  }

  lemma CreateKeepsInv(p: Process, t: nat)
    requires Inv(p) && Enabled(p, Create(t))
    ensures Inv(CreateStep(p, t))
  {
    match Innermost(p.threads[t]).phase
    case Boxing =>
      var l := Moved(p.threads[t], Locking);
      assert LocalHolds(p.threads[t]);
      LocalChangeKeepsShape(p, t, l);
      ThreadsUpdate(p.threads, t, l);
    case Locking => LockingKeepsInv(p, t);
    case Pushing => PushKeepsInv(p, t);
    case Publishing(b) => PublishKeepsInv(p, t, b);
  }

  lemma SpawnKeepsInv(p: Process)
    requires Inv(p)
    ensures Inv(Step(p, Spawn))
  {
    var q := Step(p, Spawn);
    ThreadsAppend(p.threads, Local(None, false, [], 0, 0));
    forall u | 0 <= u < |q.threads| ensures BlockHolds(q.threads, q.registry, u) {
      assert u < |p.threads| ==> BlockHolds(p.threads, p.registry, u);
    }
  }

  lemma StepKeepsInv(p: Process, action: Action)
    requires Inv(p) && Enabled(p, action)
    ensures Inv(Step(p, action))
  {
    match action
    case Spawn => SpawnKeepsInv(p);
    case Alloc(t, size, succeeds) =>
      if succeeds {
        HeapAppends(p.heap, size);
        TrackKeepsInv(p.(heap := p.heap + [size]), t, Allocate(size));
      }
    case Dealloc(t, block) =>
      HeapUpdates(p.heap, block, 0);
      TrackKeepsInv(p.(heap := p.heap[block := 0]), t, Deallocate(p.heap[block]));
    case Realloc(t, block, newSize, succeeds) =>
      if succeeds {
        HeapUpdates(p.heap, block, newSize);
        TrackKeepsInv(p.(heap := p.heap[block := newSize]), t, Reallocate(p.heap[block], newSize));
      }
    case OpenSpan(t) =>
      assert LocalHolds(p.threads[t]);
      if p.threads[t].counters.None? {
        LocalChangeKeepsShape(p, t, Entered(p.threads[t], None));
        ThreadsUpdate(p.threads, t, Entered(p.threads[t], None));
      }
    case Create(t) => CreateKeepsInv(p, t);
  }

  lemma {:induction false} RunKeepsInv(p: Process, actions: seq<Action>)
    requires Inv(p) && Schedule(p, actions)
    ensures Inv(Run(p, actions))
    decreases |actions|
  {
    if actions != [] {
      StepKeepsInv(p, actions[0]);
      RunKeepsInv(Step(p, actions[0]), actions[1..]);
    }
  }

  // ----- the theorems -----

  /** In every run, whichever thread frees or resizes a block and whatever fails: the true net
      bytes of all registered threads are the live bytes, less the net bytes skipped while
      counters were created, plus the frees skipped on threads without counters, less what
      is still waiting for its counters. Each cell holds its thread's net bytes, wrapped. */
  lemma {:induction false} BytesAreConserved(actions: seq<Action>)
    requires Schedule(Start(), actions)
    ensures var p := Run(Start(), actions);
            && CountedBytes(p.registry) == LiveBytes(p.heap) - p.skippedInCreation
               + p.skippedFrees - PendingBytes(p.threads)
            && forall b :: 0 <= b < |p.registry| ==> p.registry[b].c.outstanding == WrapI64(p.registry[b].net)
  {
    RunKeepsInv(Start(), actions);
  }

  function OutstandingBytes(registry: seq<Block>): int {
    Sum(seq(|registry|, i requires 0 <= i < |registry| => registry[i].c.outstanding))
  }

  /** In every run, as long as no thread's level is beyond 64 bits, the sum that can be read
      from the cells is exact: only what waits for its counters is not in it yet. */
  lemma {:induction false} OutstandingIsConserved(actions: seq<Action>)
    requires Schedule(Start(), actions)
    requires forall b :: 0 <= b < |Run(Start(), actions).registry| ==> FitsI64(Run(Start(), actions).registry[b].net)
    ensures var p := Run(Start(), actions);
            OutstandingBytes(p.registry) == LiveBytes(p.heap) - p.skippedInCreation
              + p.skippedFrees - PendingBytes(p.threads)
  {
    var p := Run(Start(), actions);
    BytesAreConserved(actions);
    var n := |p.registry|;
    assert seq(n, i requires 0 <= i < n => p.registry[i].c.outstanding as int)
           == seq(n, i requires 0 <= i < n => p.registry[i].net);
  }

  /** With nobody inside a creation, what is live, skipped and freed tells it all. */
  lemma {:induction false} OutstandingAtRest(actions: seq<Action>)
    requires Schedule(Start(), actions)
    requires forall b :: 0 <= b < |Run(Start(), actions).registry| ==> FitsI64(Run(Start(), actions).registry[b].net)
    requires forall t :: 0 <= t < |Run(Start(), actions).threads| ==> Run(Start(), actions).threads[t].creations == []
    ensures var p := Run(Start(), actions);
            OutstandingBytes(p.registry) == LiveBytes(p.heap) - p.skippedInCreation + p.skippedFrees
  {
    OutstandingIsConserved(actions);
    NothingPending(Run(Start(), actions).threads);
  }

  lemma {:induction false} NothingPending(threads: seq<Local>)
    requires forall t :: 0 <= t < |threads| ==> threads[t].creations == []
    ensures PendingBytes(threads) == 0
    decreases |threads|
  {
    if threads != [] {
      var n := |threads| - 1;
      NothingPending(threads[..n]);
      ThreadsAppend(threads[..n], threads[n]);
      assert threads == threads[..n] + [threads[n]];
    }
  }

  /** Whatever the levels, the sum of the cells is exact modulo 2^64. */
  lemma {:induction false} OutstandingIsConservedModulo(actions: seq<Action>) returns (laps: int)
    requires Schedule(Start(), actions)
    ensures var p := Run(Start(), actions);
            OutstandingBytes(p.registry) + laps * U64_MODULUS
            == LiveBytes(p.heap) - p.skippedInCreation + p.skippedFrees - PendingBytes(p.threads)
  {
    BytesAreConserved(actions);
    laps := CellsAreOffByLaps(Run(Start(), actions).registry);
  }

  lemma {:induction false} CellsAreOffByLaps(registry: seq<Block>) returns (laps: int)
    requires forall b :: 0 <= b < |registry| ==> registry[b].c.outstanding == WrapI64(registry[b].net)
    ensures OutstandingBytes(registry) + laps * U64_MODULUS == CountedBytes(registry)
    decreases |registry|
  {
    if registry == [] {
      laps := 0;
    } else {
      var n := |registry| - 1;
      var last := registry[n];
      var before := CellsAreOffByLaps(registry[..n]);
      assert registry == registry[..n] + [last];
      RegistryAppends(registry[..n], last);
      OutstandingAppends(registry[..n], last);
      laps := before + (last.net - I64_MIN) / U64_MODULUS;
      assert WrapI64(last.net) + (last.net - I64_MIN) / U64_MODULUS * U64_MODULUS == last.net;
    }
  }

  lemma OutstandingAppends(registry: seq<Block>, block: Block)
    ensures OutstandingBytes(registry + [block]) == OutstandingBytes(registry) + block.c.outstanding
  {
    var xs := seq(|registry|, i requires 0 <= i < |registry| => registry[i].c.outstanding as int);
    assert seq(|registry| + 1, i requires 0 <= i < |registry| + 1 => (registry + [block])[i].c.outstanding as int)
           == xs + [block.c.outstanding];
    SumAppends(xs, block.c.outstanding);
  }

  /** In every run, whatever allocator events are nested inside the creation of counters:
      creation never recurses, no thread locks the registry while holding it, each thread
      has at most one block, and one if its counters are published. */
  lemma {:induction false} CreationIsSafe(actions: seq<Action>)
    requires Schedule(Start(), actions)
    ensures var p := Run(Start(), actions);
            && !p.lockedTwice
            && (forall t :: 0 <= t < |p.threads| ==> |p.threads[t].creations| <= 1)
            && (forall a, b :: 0 <= a < b < |p.registry| ==> p.registry[a].owner != p.registry[b].owner)
            && forall t :: 0 <= t < |p.threads| && p.threads[t].counters.Some? ==>
                 var b := p.threads[t].counters.value; b < |p.registry| && p.registry[b].owner == t
  {
    RunKeepsInv(Start(), actions);
    var p := Run(Start(), actions);
    forall t | 0 <= t < |p.threads| && p.threads[t].counters.Some?
      ensures var b := p.threads[t].counters.value; b < |p.registry| && p.registry[b].owner == t
    {
      assert BlockHolds(p.threads, p.registry, t);
    }
    assert forall t :: 0 <= t < |p.threads| ==> LocalHolds(p.threads[t]);
  }

  /** A thread's count is all its requests except the skipped ones. */
  ghost predicate CountsAllButSkipped(l: Local, registry: seq<Block>) {
    && l.skipped <= l.requests
    && (l.counters.None? ==> l.requests == l.skipped)
    && (l.counters.Some? ==>
          && l.counters.value < |registry|
          && registry[l.counters.value].c.count == WrapU64(l.requests - l.skipped))
  }

  lemma InvCountsAllButSkipped(p: Process, t: nat)
    requires Inv(p) && t < |p.threads| && p.threads[t].creations == []
    ensures CountsAllButSkipped(p.threads[t], p.registry)
  {
    assert BlockHolds(p.threads, p.registry, t);
  }

  /** The event that triggers a creation is counted, and only the events nested inside are
      not: outside of creations, a thread's count is all its requests less those. */
  lemma {:induction false} TriggerIsCounted(actions: seq<Action>, t: nat)
    requires Schedule(Start(), actions)
    requires t < |Run(Start(), actions).threads| && Run(Start(), actions).threads[t].creations == []
    ensures CountsAllButSkipped(Run(Start(), actions).threads[t], Run(Start(), actions).registry)
  {
    RunKeepsInv(Start(), actions);
    InvCountsAllButSkipped(Run(Start(), actions), t);
  }

  /** What reporting a request adds to what a thread skipped. */
  lemma TrackSkips(p: Process, u: nat, request: Request, t: nat)
    requires u < |p.threads| && t < |p.threads|
    ensures var skipped := u == t && p.threads[u].counters.None? && p.threads[u].guard && !request.Deallocate?;
            Track(p, u, request).threads[t].skipped == p.threads[t].skipped + if skipped then 1 else 0
  {
  }

  lemma CreateSkipsNothing(p: Process, u: nat, t: nat)
    requires Enabled(p, Create(u)) && t < |p.threads|
    ensures CreateStep(p, u).threads[t].skipped == p.threads[t].skipped
  {
  }

  /** A request is skipped only inside a creation. */
  lemma OnlyNestedRequestsAreSkipped(p: Process, action: Action, t: nat)
    requires Inv(p) && Enabled(p, action) && t < |p.threads|
    requires Step(p, action).threads[t].skipped != p.threads[t].skipped
    ensures p.threads[t].creations != [] && (action.Alloc? || action.Realloc?) && action.thread == t
    ensures Step(p, action).threads[t].skipped == p.threads[t].skipped + 1
  {
    assert LocalHolds(p.threads[t]);
    match action
    case Alloc(u, size, _) => TrackSkips(p.(heap := p.heap + [size]), u, Allocate(size), t);
    case Dealloc(u, block) => TrackSkips(p.(heap := p.heap[block := 0]), u, Deallocate(p.heap[block]), t);
    case Realloc(u, block, newSize, _) =>
      TrackSkips(p.(heap := p.heap[block := newSize]), u, Reallocate(p.heap[block], newSize), t);
    case Create(u) => CreateSkipsNothing(p, u, t);
    case _ =>
  }
}
