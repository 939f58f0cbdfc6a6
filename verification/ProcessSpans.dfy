/** The registry of all threads' counters, its totals, and spans over them. */
module ProcessSpans {
  import opened MachineIntegers
  import opened AllocationCounters
  import opened MetricsAlgebra
  import opened OperationMetrics
  import opened ThreadSpans

  datatype AllocationTotals = AllocationTotals(bytes: U64, count: U64)

  function SumBytes(blocks: seq<Counters>): nat {
    if blocks == [] then 0 else SumBytes(blocks[..|blocks| - 1]) + blocks[|blocks| - 1].bytes
  }

  function SumCount(blocks: seq<Counters>): nat {
    if blocks == [] then 0 else SumCount(blocks[..|blocks| - 1]) + blocks[|blocks| - 1].count
  }

  /** What a request adds to the byte total of its thread. */
  function BytesAdded(request: Request): Size {
    match request
    case Allocate(size) => size
    case Deallocate(_) => 0
    case Reallocate(_, newSize) => newSize
  }

  lemma {:induction false} SumsUpdate(blocks: seq<Counters>, i: nat, c: Counters)
    requires i < |blocks|
    ensures SumBytes(blocks[i := c]) == SumBytes(blocks) - blocks[i].bytes + c.bytes
    ensures SumCount(blocks[i := c]) == SumCount(blocks) - blocks[i].count + c.count
    decreases |blocks|
  {
    var n := |blocks| - 1;
    if i == n {
      assert blocks[i := c][..n] == blocks[..n];
    } else {
      SumsUpdate(blocks[..n], i, c);
      assert blocks[i := c][..n] == blocks[..n][i := c];
    }
  }

  /** The totals of a registry without traffic are zero, and a new block leaves totals alone. */
  lemma {:induction false} ZeroBlocksAddNothing(blocks: seq<Counters>)
    ensures SumBytes(blocks + [ZERO]) == SumBytes(blocks) && SumCount(blocks + [ZERO]) == SumCount(blocks)
    ensures (forall i :: 0 <= i < |blocks| ==> blocks[i] == ZERO) ==> SumBytes(blocks) == SumCount(blocks) == 0
    decreases |blocks|
  {
    assert (blocks + [ZERO])[..|blocks|] == blocks;
    if blocks != [] {
      ZeroBlocksAddNothing(blocks[..|blocks| - 1]);
    }
  }

  /** What a request does to the cells of its thread. */
  lemma CellsMove(c: Counters, request: Request)
    ensures var c' := AllocationCounters.After(c, request);
            && c'.bytes == WrapU64(c.bytes + BytesAdded(request))
            && c'.count == WrapU64(c.count + if request.Deallocate? then 0 else 1)
  {
  }

  /** A request of any thread moves the totals of the process by its size and by one; a free
      moves neither. */
  lemma {:induction false} RequestsMoveTheTotals(blocks: seq<Counters>, i: nat, request: Request)
    requires i < |blocks|
    ensures var after := blocks[i := AllocationCounters.After(blocks[i], request)];
            && WrapU64(SumBytes(after)) == WrapU64(SumBytes(blocks) + BytesAdded(request))
            && WrapU64(SumCount(after)) == WrapU64(SumCount(blocks) + if request.Deallocate? then 0 else 1)
  {
    var c := blocks[i];
    var one := if request.Deallocate? then 0 else 1;
    CellsMove(c, request);
    SumsUpdate(blocks, i, AllocationCounters.After(c, request));
    WrapsTheRest(c.bytes, SumBytes(blocks) - c.bytes, BytesAdded(request));
    WrapsTheRest(c.count, SumCount(blocks) - c.count, one);
  }

  lemma WrapsTheRest(x: int, rest: int, delta: int)
    ensures WrapU64(rest + WrapU64(x + delta)) == WrapU64(x + rest + delta)
  {
    WrapU64Absorbs(x + delta, rest);
    assert WrapU64(x + delta) + rest == rest + WrapU64(x + delta) && x + delta + rest == x + rest + delta;
  }

  /** The deltas of a span, or `None` where the original panics because a total went down. */
  function ProcessDeltas(startBytes: U64, startCount: U64, now: AllocationTotals): Option<(U64, U64)> {
    if now.bytes < startBytes || now.count < startCount then None
    else Some((now.bytes - startBytes, now.count - startCount))
  }

  /** Every thread's counters, in order of registration. Nothing is ever removed. */
  class Registry {
    var blocks: seq<PerThreadCounters>

    function Views(): seq<Counters>
      reads this, blocks
    {
      seq(|blocks|, i requires 0 <= i < |blocks| reads this, blocks => blocks[i].View())
    }

    constructor ()
      ensures blocks == []
    {
      blocks := [];
    }

    method Push(block: PerThreadCounters)
      modifies this
      ensures blocks == old(blocks) + [block]
    {
      blocks := blocks + [block];
    }

    /** Sums the counters with wrapping additions. */
    method Totals() returns (totals: AllocationTotals)
      ensures totals == AllocationTotals(WrapU64(SumBytes(Views())), WrapU64(SumCount(Views())))
    {
      var bytes: U64, count: U64 := 0, 0;
      var i := 0;
      while i < |blocks|
        invariant 0 <= i <= |blocks|
        invariant bytes == WrapU64(SumBytes(Views()[..i])) && count == WrapU64(SumCount(Views()[..i]))
      {
        ghost var views := Views();
        assert views[..i + 1][..i] == views[..i] && views[..i + 1][i] == blocks[i].View();
        WrapU64Absorbs(SumBytes(views[..i]), blocks[i].bytes);
        WrapU64Absorbs(SumCount(views[..i]), blocks[i].count);
        bytes := WrapU64(bytes + blocks[i].bytes);
        count := WrapU64(count + blocks[i].count);
        i := i + 1;
      }
      assert Views()[..i] == Views();
      totals := AllocationTotals(bytes, count);
    }
  }

  /** A span over the whole process. It never reports a peak. */
  class ProcessSpan {
    const metrics: Metrics
    const startBytes: U64
    const startCount: U64
    var iterations: Option<U64>

    constructor (registry: Registry, metrics: Metrics)
      ensures this.metrics == metrics && iterations == None
      ensures startBytes == WrapU64(SumBytes(registry.Views())) && startCount == WrapU64(SumCount(registry.Views()))
    {
      var totals := registry.Totals();
      this.metrics, startBytes, startCount, iterations := metrics, totals.bytes, totals.count, None;
    }

    method Iterations(n: U64)
      modifies this
      ensures iterations == Some(n)
    {
      iterations := Some(n);
    }

    method Close(registry: Registry, panicking: bool) returns (closing: Closing, recorded: bool)
      requires metrics.Sound()
      modifies metrics
      ensures metrics.Sound()
      ensures panicking ==> closing == Unwinding
      ensures !panicking && iterations == None ==> closing == MissingCount
      ensures !panicking && iterations.Some? ==>
                var views := old(registry.Views());
                var now := AllocationTotals(WrapU64(SumBytes(views)), WrapU64(SumCount(views)));
                var deltas := ProcessDeltas(startBytes, startCount, now);
                closing == if deltas.None? then Decreased
                           else Measured(SpanMeasurement(iterations.value, deltas.value.0, deltas.value.1, None))
      ensures !closing.Measured? ==>
              !recorded && metrics.View() == old(metrics.View()) && metrics.poisoned == old(metrics.poisoned)
      ensures closing.Measured? ==>
                && metrics.poisoned == !recorded
                && (recorded <==> !old(metrics.poisoned) && Fits(Plus(old(metrics.View()), Single(closing.span))))
      ensures recorded ==> metrics.View() == Plus(old(metrics.View()), Single(closing.span))
                           && metrics.peak == Unavailable
    {
      recorded := false;
      if panicking {
        return Unwinding, false;
      }
      if iterations == None {
        return MissingCount, false;
      }
      var now := registry.Totals();
      var deltas := ProcessDeltas(startBytes, startCount, now);
      if deltas == None {
        return Decreased, false;
      }
      var span := SpanMeasurement(iterations.value, deltas.value.0, deltas.value.1, None);
      closing := Measured(span);
      recorded := metrics.Record(span);
    }
  }

  /** Prepares a process span as its owner does, and drops it. */
  method Drop(span: ProcessSpan, registry: Registry, panicking: bool, iterations: Option<U64>)
    returns (closing: Closing, recorded: bool)
    requires span.metrics.Sound() && span.iterations == None
    modifies span, span.metrics
    ensures span.metrics.Sound() && (recorded ==> closing.Measured? && span.metrics.peak == Unavailable)
    ensures panicking ==> closing == Unwinding
    ensures !panicking && iterations == None ==> closing == MissingCount
    ensures !panicking && iterations.Some? ==>
              var views := old(registry.Views());
              var now := AllocationTotals(WrapU64(SumBytes(views)), WrapU64(SumCount(views)));
              var deltas := ProcessDeltas(span.startBytes, span.startCount, now);
              closing == if deltas.None? then Decreased
                         else Measured(SpanMeasurement(iterations.value, deltas.value.0, deltas.value.1, None))
  {
    if iterations.Some? {
      span.Iterations(iterations.value);
    }
    closing, recorded := span.Close(registry, panicking);
  }
}
