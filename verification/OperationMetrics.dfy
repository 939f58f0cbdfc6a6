/** Recording spans into one operation, and merging operations, with every overflow check. */
module OperationMetrics {
  import opened MachineIntegers
  import opened MetricsAlgebra

  // ----- the pieces; each answers false where the original panics -----

  function AddSample(a: SpanAccumulator, sample: Sample): (SpanAccumulator, bool) {
    if a.spans + 1 > U64_MAX then (a, false)
    else if sample.iterations != 0 && a.informative + 1 > U64_MAX then (a.(spans := a.spans + 1), false)
    else (PlusAccumulator(a, One(sample)), true)
  }

  function MergeAccumulators(a: SpanAccumulator, b: SpanAccumulator): (SpanAccumulator, bool) {
    if a.spans + b.spans > U64_MAX then (a, false)
    else if a.informative + b.informative > U64_MAX then (a.(spans := a.spans + b.spans), false)
    else (PlusAccumulator(a, b), true)
  }

  function RecordPeak(p: PeakEstimate, iterations: U64, peak: Option<U64>): (PeakEstimate, bool) {
    if p.Unavailable? then (p, true)
    else if peak.None? then (Unavailable, true)
    else
      var (peaks, ok) := AddSample(p.peaks, Level(iterations, peak.value));
      (Available(peaks), ok)
  }

  function MergePeaks(p: PeakEstimate, q: PeakEstimate): (PeakEstimate, bool) {
    if p.Unavailable? then (p, true)
    else if q.Unavailable? then (Unavailable, true)
    else
      var (peaks, ok) := MergeAccumulators(p.peaks, q.peaks);
      (Available(peaks), ok)
  }

  /** Metrics of one operation, updated in place, and the state of the lock around them. A
      method answers false where the original panics. A panic under the lock poisons it, and
      whoever locks it later panics, too. */
  class Metrics {
    var poisoned: bool
    var iterations: nat
    var totalBytes: nat
    var totalCount: nat
    var bytes: SpanAccumulator
    var allocations: SpanAccumulator
    var peak: PeakEstimate

    function View(): Totals
      reads this
    {
      Totals(iterations, totalBytes, totalCount, bytes, allocations, peak)
    }

    /** Nobody has panicked under the lock, or else nobody gets to see the figures. */
    ghost predicate Sound()
      reads this
    {
      poisoned || (Fits(View()) && Coherent(View()))
    }

    constructor ()
      ensures View() == EMPTY && !poisoned
    {
      poisoned := false;
      iterations, totalBytes, totalCount := 0, 0, 0;
      bytes, allocations, peak := NO_SPANS, NO_SPANS, Available(NO_SPANS);
    }

    /** A copy of another operation's figures. */
    constructor Clone(t: Totals)
      ensures View() == t && !poisoned
    {
      poisoned := false;
      iterations, totalBytes, totalCount := t.iterations, t.totalBytes, t.totalCount;
      bytes, allocations, peak := t.bytes, t.allocations, t.peak;
    }

    /** Locks the metrics and adds a span. */
    method Record(span: SpanMeasurement) returns (ok: bool)
      requires Sound()
      modifies this
      ensures Sound() && poisoned == !ok
      ensures ok <==> !old(poisoned) && Fits(Plus(old(View()), Single(span)))
      ensures ok ==> View() == Plus(old(View()), Single(span))
      ensures old(poisoned) ==> View() == old(View())
    {
      if poisoned {
        return false;
      }
      ok := AddSpan(span);
      poisoned := !ok;
    }

    /** Succeeds if and only if the sums fit, and then adds exactly the one span. */
    method AddSpan(span: SpanMeasurement) returns (ok: bool)
      requires Fits(View()) && Coherent(View())
      modifies this
      ensures ok <==> Fits(Plus(old(View()), Single(span)))
      ensures ok ==> View() == Plus(old(View()), Single(span)) && Coherent(View())
      ensures ok ==>
                && iterations == old(iterations) + span.iterations
                && totalBytes == old(totalBytes) + span.bytes
                && totalCount == old(totalCount) + span.count
      ensures poisoned == old(poisoned)
    {
      if iterations + span.iterations > U64_MAX {
        return false;
      }
      iterations := iterations + span.iterations;
      if totalBytes + span.bytes > U64_MAX {
        return false;
      }
      totalBytes := totalBytes + span.bytes;
      if totalCount + span.count > U64_MAX {
        return false;
      }
      totalCount := totalCount + span.count;
      ok := AddToEstimates(span, Single(span));
    }

    /** The peak first, then the two totals. */
    method AddToEstimates(span: SpanMeasurement, ghost single: Totals) returns (ok: bool)
      requires single == Single(span) && Coherent(View())
      modifies this`bytes, this`allocations, this`peak
      ensures ok <==> && AccumulatorFits(PlusAccumulator(old(bytes), single.bytes))
                      && AccumulatorFits(PlusAccumulator(old(allocations), single.allocations))
                      && (PlusPeak(old(peak), single.peak).Available?
                         ==> AccumulatorFits(PlusPeak(old(peak), single.peak).peaks))
      ensures ok ==> && bytes == PlusAccumulator(old(bytes), single.bytes)
                     && allocations == PlusAccumulator(old(allocations), single.allocations)
                     && peak == PlusPeak(old(peak), single.peak)
    {
      var recorded := RecordPeak(peak, span.iterations, span.peak);
      peak, ok := recorded.0, recorded.1;
      if !ok {
        return;
      }
      var added := AddSample(bytes, Total(span.iterations, span.bytes));
      bytes, ok := added.0, added.1;
      if !ok {
        return;
      }
      added := AddSample(allocations, Total(span.iterations, span.count));
      allocations, ok := added.0, added.1;
    }

    /** Succeeds if and only if the sums fit, and then adds exactly the other operation. */
    method Merge(other: Metrics) returns (ok: bool)
      requires this != other
      requires Fits(View()) && Coherent(View()) && Fits(other.View()) && Coherent(other.View())
      modifies this
      ensures ok <==> Fits(Plus(old(View()), other.View()))
      ensures ok ==> View() == Plus(old(View()), other.View()) && Coherent(View())
    {
      if iterations + other.iterations > U64_MAX {
        return false;
      }
      iterations := iterations + other.iterations;
      if totalBytes + other.totalBytes > U64_MAX {
        return false;
      }
      totalBytes := totalBytes + other.totalBytes;
      if totalCount + other.totalCount > U64_MAX {
        return false;
      }
      totalCount := totalCount + other.totalCount;
      var merged := MergeAccumulators(bytes, other.bytes);
      bytes, ok := merged.0, merged.1;
      if !ok {
        return;
      }
      merged := MergeAccumulators(allocations, other.allocations);
      allocations, ok := merged.0, merged.1;
      if !ok {
        return;
      }
      var peaks := MergePeaks(peak, other.peak);
      peak, ok := peaks.0, peaks.1;
    }
  }
}
