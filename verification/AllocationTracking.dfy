/** From allocator calls to counters, including the window in which a thread's counters are
    being created and the allocator is entered again. */
module AllocationTracking {
  import opened MachineIntegers
  import opened AllocationCounters
  import opened ProcessSpans

  /** A thread's local slots. */
  class TrackedThread {
    var counters: PerThreadCounters?
    var initGuard: bool

    constructor ()
      ensures counters == null && !initGuard
    {
      counters, initGuard := null, false;
    }

    /** Creates and registers the thread's counters if they do not exist. `nested` are the
        allocator events caused by the creation itself; none of them is tracked. */
    method GetOrInit(registry: Registry, nested: seq<Request>) returns (block: PerThreadCounters)
      requires !initGuard
      modifies this, registry
      ensures counters == block && !initGuard
      ensures old(counters) != null ==> block == old(counters) && registry.blocks == old(registry.blocks)
      ensures old(counters) == null ==>
                fresh(block) && block.View() == ZERO && registry.blocks == old(registry.blocks) + [block]
      decreases 1, 0
    {
      if counters != null {
        return counters;
      }
      initGuard := true;
      block := new PerThreadCounters();
      var i := 0;
      while i < |nested|
        invariant initGuard && counters == null && registry.blocks == old(registry.blocks)
        invariant block.View() == ZERO
      {
        Track(registry, nested[i], []);
        i := i + 1;
      }
      registry.Push(block);
      counters := block;
      initGuard := false;
    }

    /** One tracked event. A free never creates the counters; while they are being created
        nothing is tracked; the event that triggers the creation is tracked after it. */
    method Track(registry: Registry, request: Request, nested: seq<Request>)
      requires counters != null ==> !initGuard
      modifies this, registry, counters
      ensures initGuard == old(initGuard)
      ensures old(counters) != null ==>
                counters == old(counters) && registry.blocks == old(registry.blocks)
                && counters.View() == After(old(counters.View()), request)
      ensures old(counters) == null && (initGuard || request.Deallocate?) ==>
                counters == null && registry.blocks == old(registry.blocks)
      ensures old(counters) == null && !initGuard && !request.Deallocate? ==>
                && counters != null && fresh(counters) && registry.blocks == old(registry.blocks) + [counters]
                && counters.View() == After(ZERO, request)
      decreases if initGuard then 0 else 1, 1
    {
      if counters != null {
        Register(counters, request);
      } else if request.Deallocate? || initGuard {
        return;
      } else {
        var block := GetOrInit(registry, nested);
        Register(block, request);
      }
    }
  }

  method Register(block: PerThreadCounters, request: Request)
    modifies block
    ensures block.View() == After(old(block.View()), request)
  {
    match request
    case Allocate(size) => block.RegisterAllocation(size);
    case Deallocate(size) => block.RegisterDeallocation(size);
    case Reallocate(oldSize, newSize) => block.RegisterReallocation(oldSize, newSize);
  }

  /** Sizes of the blocks handed out, zero once freed. A live block has a non-zero size. */
  type Heap = seq<Size>

  /** The wrapper around an inner allocator, which succeeds or fails as it likes. Failed
      requests reach no counter and change no block. */
  class TrackingAllocator {
    var heap: Heap

    constructor ()
      ensures heap == []
    {
      heap := [];
    }

    method Alloc(size: Size, succeeds: bool, thread: TrackedThread, registry: Registry, nested: seq<Request>)
      returns (block: Option<nat>)
      requires 0 < size && (thread.counters != null ==> !thread.initGuard)
      modifies this, thread, registry, thread.counters
      ensures !succeeds ==> block == None && unchanged(this) && unchanged(thread) && unchanged(registry)
                            && (thread.counters != null ==> unchanged(thread.counters))
      ensures succeeds ==> block == Some(|old(heap)|) && heap == old(heap) + [size]
      ensures succeeds && old(thread.counters) != null ==>
                thread.counters == old(thread.counters)
                && thread.counters.View() == After(old(thread.counters.View()), Allocate(size))
      ensures succeeds && old(thread.counters) == null && !old(thread.initGuard) ==>
                && thread.counters != null && thread.counters.View() == After(ZERO, Allocate(size))
                && registry.blocks == old(registry.blocks) + [thread.counters]
      ensures succeeds && old(thread.counters) == null && old(thread.initGuard) ==> thread.counters == null
      ensures old(thread.counters) != null || old(thread.initGuard) ==> registry.blocks == old(registry.blocks)
    {
      if !succeeds {
        return None;
      }
      block := Some(|heap|);
      heap := heap + [size];
      thread.Track(registry, Allocate(size), nested);
    }

    method Dealloc(block: nat, thread: TrackedThread, registry: Registry)
      requires block < |heap| && 0 < heap[block] && (thread.counters != null ==> !thread.initGuard)
      modifies this, thread, registry, thread.counters
      ensures heap == old(heap)[block := 0] && thread.counters == old(thread.counters)
      ensures registry.blocks == old(registry.blocks)
      ensures thread.counters != null ==>
                thread.counters.View() == After(old(thread.counters.View()), Deallocate(old(heap)[block]))
    {
      var size := heap[block];
      heap := heap[block := 0];
      thread.Track(registry, Deallocate(size), []);
    }

    method Realloc(
        block: nat, newSize: Size, succeeds: bool, thread: TrackedThread, registry: Registry, nested: seq<Request>)
      requires block < |heap| && 0 < heap[block] && 0 < newSize && (thread.counters != null ==> !thread.initGuard)
      modifies this, thread, registry, thread.counters
      ensures !succeeds ==> unchanged(this) && unchanged(thread) && unchanged(registry)
                            && (thread.counters != null ==> unchanged(thread.counters))
      ensures succeeds ==> heap == old(heap)[block := newSize]
      ensures succeeds && old(thread.counters) != null ==>
                thread.counters == old(thread.counters)
                && thread.counters.View() == After(old(thread.counters.View()), Reallocate(old(heap)[block], newSize))
      ensures succeeds && old(thread.counters) == null && !old(thread.initGuard) ==>
                && thread.counters != null
                && thread.counters.View() == After(ZERO, Reallocate(old(heap)[block], newSize))
                && registry.blocks == old(registry.blocks) + [thread.counters]
      ensures succeeds && old(thread.counters) == null && old(thread.initGuard) ==> thread.counters == null
      ensures old(thread.counters) != null || old(thread.initGuard) ==> registry.blocks == old(registry.blocks)
    {
      if !succeeds {
        return;
      }
      var oldSize := heap[block];
      heap := heap[block := newSize];
      thread.Track(registry, Reallocate(oldSize, newSize), nested);
    }
  }
}
