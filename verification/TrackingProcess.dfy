/** Any number of threads allocating, freeing each other's blocks and creating their counters,
    one step at a time.

    A thread creates its counters in four steps, and between any two of them it may enter the
    allocator again while other threads go on. The fields of a `Process` and of its threads that
    no step reads are history: what was really allocated, and what no counter has seen. The
    sums over them at the end are what module TrackingRuns relates. */
module TrackingProcess {
  import opened MachineIntegers
  import opened AllocationCounters
  import opened AllocationTracking

  // ----- the system -----

  /** How far the creation of a thread's counters has come. */
  datatype Phase = Boxing | Locking | Pushing | Publishing(block: nat)

  /** One creation, and the event that triggered it unless a span did. */
  datatype Creation = Creation(phase: Phase, pending: Option<Request>)

  /** A thread's slots, and the creations it is inside of, outermost first. The last two
      fields are history that no step reads: allocator requests that succeeded, without the
      frees, and those among them that were skipped. */
  datatype Local = Local(counters: Option<nat>, guard: bool, creations: seq<Creation>, requests: nat, skipped: nat)

  /** A registered counter block, and as history its owner, its true net bytes and count. */
  datatype Block = Block(c: Counters, owner: nat, net: int, count: nat)

  /** The process. The last three fields are history: the net bytes skipped while counters
      were created, the bytes of frees skipped on threads without counters, and whether a
      thread ever locked the registry while holding it. */
  datatype Process = Process(
    heap: Heap, threads: seq<Local>, registry: seq<Block>, lock: Option<nat>,
    skippedInCreation: int, skippedFrees: nat, lockedTwice: bool)

  datatype Action =
    | Spawn
    | Alloc(thread: nat, size: Size, succeeds: bool)
    | Dealloc(thread: nat, block: nat)
    | Realloc(thread: nat, block: nat, newSize: Size, succeeds: bool)
    | OpenSpan(thread: nat)
    | Create(thread: nat)

  function Start(): Process {
    Process([], [], [], None, 0, 0, false)
  }

  function Innermost(l: Local): Creation
    requires l.creations != []
  {
    l.creations[|l.creations| - 1]
  }

  /** Live blocks can be freed or resized by any thread; the registry's lock makes others
      wait; spans are opened by ordinary code, not by the creation of counters. */
  predicate Enabled(p: Process, action: Action) {
    match action
    case Spawn => true
    case Alloc(t, size, _) => t < |p.threads| && 0 < size
    case Dealloc(t, block) => t < |p.threads| && block < |p.heap| && 0 < p.heap[block]
    case Realloc(t, block, newSize, _) => t < |p.threads| && block < |p.heap| && 0 < p.heap[block] && 0 < newSize
    case OpenSpan(t) => t < |p.threads| && p.threads[t].creations == []
    case Create(t) =>
      && t < |p.threads| && p.threads[t].creations != []
      && (Innermost(p.threads[t]).phase.Locking? ==> p.lock == None || p.lock == Some(t))
  }

  function Net(request: Request): int {
    match request
    case Allocate(size) => size
    case Deallocate(size) => 0 - size
    case Reallocate(oldSize, newSize) => newSize - oldSize
  }

  /** One request on one registered block. */
  function Counted(registry: seq<Block>, b: nat, request: Request): seq<Block> {
    if b < |registry| then
      var block := registry[b];
      registry[b := Block(After(block.c, request), block.owner, block.net + Net(request),
                          block.count + if request.Deallocate? then 0 else 1)]
    else registry
  }

  function WithLocal(p: Process, t: nat, l: Local): Process
    requires t < |p.threads|
  {
    p.(threads := p.threads[t := l])
  }

  /** Enters the creation of a thread's counters. */
  function Entered(l: Local, pending: Option<Request>): Local {
    l.(guard := true, creations := l.creations + [Creation(Boxing, pending)])
  }

  /** What the allocator reports about a successful request of thread `t`. */
  function Track(p: Process, t: nat, request: Request): Process
    requires t < |p.threads|
  {
    var l := if request.Deallocate? then p.threads[t] else p.threads[t].(requests := p.threads[t].requests + 1);
    var q := WithLocal(p, t, l);
    if l.counters.Some? then q.(registry := Counted(p.registry, l.counters.value, request))
    else if request.Deallocate? then
      if l.guard then q.(skippedInCreation := p.skippedInCreation + Net(request))
      else q.(skippedFrees := p.skippedFrees + request.size)
    else if l.guard then
      WithLocal(q, t, l.(skipped := l.skipped + 1)).(skippedInCreation := p.skippedInCreation + Net(request))
    else WithLocal(q, t, Entered(l, Some(request)))
  }

  function Moved(l: Local, phase: Phase): Local
    requires l.creations != []
  {
    l.(creations := l.creations[|l.creations| - 1 := Innermost(l).(phase := phase)])
  }

  /** Publishes the block, clears the guard and counts the event that triggered the creation.
      Setting a slot that is already set has no effect. */
  function Published(p: Process, t: nat, b: nat): Process
    requires t < |p.threads| && p.threads[t].creations != []
  {
    var l := p.threads[t];
    var c := Innermost(l);
    var counters := if l.counters.None? then Some(b) else l.counters;
    var q := WithLocal(p, t, l.(counters := counters, guard := false, creations := l.creations[..|l.creations| - 1]));
    if c.pending.None? then q else q.(registry := Counted(p.registry, counters.value, c.pending.value))
  }

  function CreateStep(p: Process, t: nat): Process
    requires Enabled(p, Create(t))
  {
    var l := p.threads[t];
    match Innermost(l).phase
    case Boxing => WithLocal(p, t, Moved(l, Locking))
    case Locking =>
      WithLocal(p, t, Moved(l, Pushing)).(lock := Some(t), lockedTwice := p.lockedTwice || p.lock == Some(t))
    case Pushing =>
      WithLocal(p, t, Moved(l, Publishing(|p.registry|)))
      .(lock := None, registry := p.registry + [Block(ZERO, t, 0, 0)])
    case Publishing(b) => Published(p, t, b)
  }

  function Step(p: Process, action: Action): Process
    requires Enabled(p, action)
  {
    match action
    case Spawn => p.(threads := p.threads + [Local(None, false, [], 0, 0)])
    case Alloc(t, size, succeeds) =>
      if !succeeds then p else Track(p.(heap := p.heap + [size]), t, Allocate(size))
    case Dealloc(t, block) => Track(p.(heap := p.heap[block := 0]), t, Deallocate(p.heap[block]))
    case Realloc(t, block, newSize, succeeds) =>
      if !succeeds then p
      else Track(p.(heap := p.heap[block := newSize]), t, Reallocate(p.heap[block], newSize))
    case OpenSpan(t) =>
      if p.threads[t].counters.Some? then p else WithLocal(p, t, Entered(p.threads[t], None))
    case Create(t) => CreateStep(p, t)
  }

  predicate Schedule(p: Process, actions: seq<Action>)
    decreases |actions|
  {
    actions == [] || (Enabled(p, actions[0]) && Schedule(Step(p, actions[0]), actions[1..]))
  }

  function Run(p: Process, actions: seq<Action>): Process
    requires Schedule(p, actions)
    decreases |actions|
  {
    if actions == [] then p else Run(Step(p, actions[0]), actions[1..])
  }

  // ----- sums -----

  function Sum(xs: seq<int>): int {
    if xs == [] then 0 else xs[0] + Sum(xs[1..])
  }

  lemma {:induction false} SumAppends(xs: seq<int>, x: int)
    ensures Sum(xs + [x]) == Sum(xs) + x
    decreases |xs|
  {
    if xs != [] {
      assert (xs + [x])[1..] == xs[1..] + [x];
      SumAppends(xs[1..], x);
    }
  }

  lemma {:induction false} SumUpdates(xs: seq<int>, i: nat, x: int)
    requires i < |xs|
    ensures Sum(xs[i := x]) == Sum(xs) - xs[i] + x
    decreases |xs|
  {
    if i == 0 {
      assert xs[0 := x][1..] == xs[1..];
    } else {
      assert xs[i := x][1..] == xs[1..][i - 1 := x];
      SumUpdates(xs[1..], i - 1, x);
    }
  }

  /** Bytes of the live blocks. */
  function LiveBytes(heap: Heap): int {
    Sum(seq(|heap|, i requires 0 <= i < |heap| => heap[i]))
  }

  /** True net bytes of all registered blocks. */
  function CountedBytes(registry: seq<Block>): int {
    Sum(seq(|registry|, i requires 0 <= i < |registry| => registry[i].net))
  }

  /** Net bytes of a thread's event that is counted only once its counters exist. */
  function PendingNet(l: Local): int {
    if l.creations != [] && Innermost(l).pending.Some? then Net(Innermost(l).pending.value) else 0
  }

  function PendingBytes(threads: seq<Local>): int {
    Sum(seq(|threads|, i requires 0 <= i < |threads| => PendingNet(threads[i])))
  }

  lemma HeapAppends(heap: Heap, size: Size)
    ensures LiveBytes(heap + [size]) == LiveBytes(heap) + size
  {
    var xs := seq(|heap|, i requires 0 <= i < |heap| => heap[i] as int);
    var ys := seq(|heap| + 1, i requires 0 <= i < |heap| + 1 => (heap + [size])[i] as int);
    assert ys == xs + [size];
    SumAppends(xs, size);
  }

  lemma HeapUpdates(heap: Heap, i: nat, size: Size)
    requires i < |heap|
    ensures LiveBytes(heap[i := size]) == LiveBytes(heap) - heap[i] + size
  {
    var xs := seq(|heap|, j requires 0 <= j < |heap| => heap[j] as int);
    assert seq(|heap|, j requires 0 <= j < |heap| => heap[i := size][j] as int) == xs[i := size];
    SumUpdates(xs, i, size);
  }

  lemma RegistryAppends(registry: seq<Block>, block: Block)
    ensures CountedBytes(registry + [block]) == CountedBytes(registry) + block.net
  {
    var xs := seq(|registry|, i requires 0 <= i < |registry| => registry[i].net);
    assert seq(|registry| + 1, i requires 0 <= i < |registry| + 1 => (registry + [block])[i].net) == xs + [block.net];
    SumAppends(xs, block.net);
  }

  lemma RegistryCounts(registry: seq<Block>, b: nat, request: Request)
    requires b < |registry|
    ensures CountedBytes(Counted(registry, b, request)) == CountedBytes(registry) + Net(request)
  {
    var xs := seq(|registry|, i requires 0 <= i < |registry| => registry[i].net);
    var after := Counted(registry, b, request);
    assert seq(|after|, i requires 0 <= i < |after| => after[i].net) == xs[b := xs[b] + Net(request)];
    SumUpdates(xs, b, xs[b] + Net(request));
  }

  lemma ThreadsUpdate(threads: seq<Local>, t: nat, l: Local)
    requires t < |threads|
    ensures PendingBytes(threads[t := l]) == PendingBytes(threads) - PendingNet(threads[t]) + PendingNet(l)
  {
    var xs := seq(|threads|, i requires 0 <= i < |threads| => PendingNet(threads[i]));
    assert seq(|threads|, i requires 0 <= i < |threads| => PendingNet(threads[t := l][i])) == xs[t := PendingNet(l)];
    SumUpdates(xs, t, PendingNet(l));
  }

  lemma ThreadsAppend(threads: seq<Local>, l: Local)
    ensures PendingBytes(threads + [l]) == PendingBytes(threads) + PendingNet(l)
  {
    var xs := seq(|threads|, i requires 0 <= i < |threads| => PendingNet(threads[i]));
    assert seq(|threads| + 1, i requires 0 <= i < |threads| + 1 => PendingNet((threads + [l])[i]))
           == xs + [PendingNet(l)];
    SumAppends(xs, PendingNet(l));
  }
}
