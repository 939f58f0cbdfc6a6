/** Spans over one thread's counters, sharing a single watermark.

    A span lowers the watermark to its entry level and keeps the displaced value; when it
    closes it hands the watermark back and reads off how far the level rose meanwhile. */
module ThreadSpans {
  import opened MachineIntegers
  import opened AllocationCounters
  import opened MetricsAlgebra
  import opened OperationMetrics

  /** What an open span remembers. */
  datatype Frame = Frame(startBytes: U64, startCount: U64, startOutstanding: I64, enclosingWatermark: I64)

  /** How a span ends: with its thread unwinding, without an iteration count, with a total
      that went down, or with a measurement. Only the last is recorded. */
  datatype Closing = Unwinding | MissingCount | Decreased | Measured(span: SpanMeasurement)

  function Opened(c: Counters): (Counters, Frame) {
    (c.(watermark := c.outstanding), Frame(c.bytes, c.count, c.outstanding, c.watermark))
  }

  function Restored(c: Counters, f: Frame): Counters {
    c.(watermark := Max(f.enclosingWatermark, c.watermark))
  }

  function SaturatingSub(x: I64, y: I64): I64 {
    if x - y > I64_MAX then I64_MAX else if x - y < I64_MIN then I64_MIN else x - y
  }

  /** The span's own peak, clamped to be non-negative. */
  function PeakOf(c: Counters, f: Frame): U64 {
    Max(SaturatingSub(c.watermark, f.startOutstanding), 0)
  }

  function Closed(c: Counters, f: Frame, panicking: bool, iterations: Option<U64>, recordPeak: bool): Closing {
    if panicking then Unwinding
    else if iterations.None? then MissingCount
    else if c.bytes < f.startBytes || c.count < f.startCount then Decreased
    else
      Measured(SpanMeasurement(iterations.value, c.bytes - f.startBytes, c.count - f.startCount,
                               if recordPeak then Some(PeakOf(c, f)) else None))
  }

  class ThreadSpan {
    const counters: PerThreadCounters
    const metrics: Metrics
    const startBytes: U64
    const startCount: U64
    const startOutstanding: I64
    const enclosingWatermark: I64
    var iterations: Option<U64>
    var recordPeak: bool

    function Memory(): Frame {
      Frame(startBytes, startCount, startOutstanding, enclosingWatermark)
    }

    constructor (counters: PerThreadCounters, metrics: Metrics)
      modifies counters`watermark
      ensures this.counters == counters && this.metrics == metrics
      ensures (counters.View(), Memory()) == Opened(old(counters.View()))
      ensures iterations == None && recordPeak
    {
      this.counters, this.metrics := counters, metrics;
      startOutstanding := counters.outstanding;
      enclosingWatermark := counters.watermark;
      startBytes, startCount := counters.bytes, counters.count;
      iterations, recordPeak := None, true;
      new;
      counters.SetWatermark(startOutstanding);
    }

    method Iterations(n: U64)
      modifies this
      ensures iterations == Some(n) && recordPeak == old(recordPeak)
    {
      iterations := Some(n);
    }

    method NoPeak()
      modifies this
      ensures iterations == old(iterations) && !recordPeak
    {
      recordPeak := false;
    }

    /** Runs as the span is dropped. The watermark goes back before every early exit; only a
        measurement reaches the operation. */
    method Close(panicking: bool) returns (closing: Closing, recorded: bool)
      requires metrics.Sound()
      modifies counters`watermark, metrics
      ensures metrics.Sound()
      ensures counters.View() == Restored(old(counters.View()), Memory())
      ensures closing == Closed(old(counters.View()), Memory(), panicking, iterations, recordPeak)
      ensures !closing.Measured? ==>
              !recorded && metrics.View() == old(metrics.View()) && metrics.poisoned == old(metrics.poisoned)
      ensures closing.Measured? ==>
                && metrics.poisoned == !recorded
                && (recorded <==> !old(metrics.poisoned) && Fits(Plus(old(metrics.View()), Single(closing.span))))
      ensures recorded ==> metrics.View() == Plus(old(metrics.View()), Single(closing.span))
    {
      recorded := false;
      var peak := RestoreWatermark();
      if panicking {
        return Unwinding, false;
      }
      if iterations == None {
        return MissingCount, false;
      }
      if counters.bytes < startBytes || counters.count < startCount {
        return Decreased, false;
      }
      var span := SpanMeasurement(iterations.value, counters.bytes - startBytes, counters.count - startCount,
                                  if recordPeak then Some(peak) else None);
      closing := Measured(span);
      recorded := metrics.Record(span);
    }

    method RestoreWatermark() returns (peak: U64)
      modifies counters`watermark
      ensures counters.View() == Restored(old(counters.View()), Memory())
      ensures peak == PeakOf(old(counters.View()), Memory())
    {
      var reached := counters.watermark;
      counters.SetWatermark(Max(enclosingWatermark, reached));
      peak := Max(SaturatingSub(reached, startOutstanding), 0);
    }
  }
}
