/** The figures kept for one operation, as a commutative monoid. The estimator's five
    floating-point sums are represented by the samples they are sums of, so that what is proved
    holds of every such sum. Counters are unbounded: `Fits` says when 64 bits hold them. */
module MetricsAlgebra {
  import opened MachineIntegers
  import opened Permutations

  /** What a closing span hands to its operation. */
  datatype SpanMeasurement = SpanMeasurement(iterations: U64, bytes: U64, count: U64, peak: Option<U64>)

  /** What one span contributes: a whole-span total, or a level that does not grow with the
      span and is therefore scaled by its iterations. */
  datatype Sample = Total(iterations: U64, total: U64) | Level(iterations: U64, level: U64)

  /** The additive statistics behind a slope and its interval. */
  datatype SpanAccumulator = SpanAccumulator(spans: nat, informative: nat, samples: multiset<Sample>)

  /** A single span that saw no peak makes the operation's peak unavailable. */
  datatype PeakEstimate = Available(peaks: SpanAccumulator) | Unavailable

  datatype Totals = Totals(
    iterations: nat, totalBytes: nat, totalCount: nat,
    bytes: SpanAccumulator, allocations: SpanAccumulator, peak: PeakEstimate)

  const NO_SPANS: SpanAccumulator := SpanAccumulator(0, 0, multiset{})
  const EMPTY: Totals := Totals(0, 0, 0, NO_SPANS, NO_SPANS, Available(NO_SPANS))

  // ----- addition -----

  function PlusAccumulator(a: SpanAccumulator, b: SpanAccumulator): SpanAccumulator {
    SpanAccumulator(a.spans + b.spans, a.informative + b.informative, a.samples + b.samples)
  }

  function PlusPeak(p: PeakEstimate, q: PeakEstimate): PeakEstimate {
    if p.Available? && q.Available? then Available(PlusAccumulator(p.peaks, q.peaks)) else Unavailable
  }

  function Plus(a: Totals, b: Totals): Totals {
    Totals(a.iterations + b.iterations, a.totalBytes + b.totalBytes, a.totalCount + b.totalCount,
           PlusAccumulator(a.bytes, b.bytes), PlusAccumulator(a.allocations, b.allocations), PlusPeak(a.peak, b.peak))
  }

  /** One span in an accumulator; a span of no iterations says nothing about dispersion. */
  function One(sample: Sample): SpanAccumulator {
    SpanAccumulator(1, if sample.iterations != 0 then 1 else 0, multiset{sample})
  }

  /** One span alone. */
  function Single(s: SpanMeasurement): Totals {
    Totals(s.iterations, s.bytes, s.count,
           One(Total(s.iterations, s.bytes)), One(Total(s.iterations, s.count)),
           if s.peak.Some? then Available(One(Level(s.iterations, s.peak.value))) else Unavailable)
  }

  /** All the spans of a list, folded into one. */
  function Fold(spans: seq<SpanMeasurement>): Totals {
    if spans == [] then EMPTY else Plus(Single(spans[0]), Fold(spans[1..]))
  }

  predicate AccumulatorFits(a: SpanAccumulator) {
    a.spans <= U64_MAX && a.informative <= U64_MAX
  }

  predicate Fits(t: Totals) {
    && t.iterations <= U64_MAX && t.totalBytes <= U64_MAX && t.totalCount <= U64_MAX
    && AccumulatorFits(t.bytes) && AccumulatorFits(t.allocations)
    && (t.peak.Available? ==> AccumulatorFits(t.peak.peaks))
  }

  // ----- laws -----

  lemma PlusCommutes(a: Totals, b: Totals)
    ensures Plus(a, b) == Plus(b, a)
  {
    AccumulatorsCommute(a.bytes, b.bytes);
    AccumulatorsCommute(a.allocations, b.allocations);
    if a.peak.Available? && b.peak.Available? { AccumulatorsCommute(a.peak.peaks, b.peak.peaks); }
  }

  lemma AccumulatorsCommute(a: SpanAccumulator, b: SpanAccumulator)
    ensures PlusAccumulator(a, b) == PlusAccumulator(b, a)
  {
    assert a.samples + b.samples == b.samples + a.samples;
  }

  lemma PlusAssociates(a: Totals, b: Totals, c: Totals)
    ensures Plus(Plus(a, b), c) == Plus(a, Plus(b, c))
  {
    AccumulatorsAssociate(a.bytes, b.bytes, c.bytes);
    AccumulatorsAssociate(a.allocations, b.allocations, c.allocations);
    if a.peak.Available? && b.peak.Available? && c.peak.Available? {
      AccumulatorsAssociate(a.peak.peaks, b.peak.peaks, c.peak.peaks);
    }
  }

  lemma AccumulatorsAssociate(a: SpanAccumulator, b: SpanAccumulator, c: SpanAccumulator)
    ensures PlusAccumulator(PlusAccumulator(a, b), c) == PlusAccumulator(a, PlusAccumulator(b, c))
  {
    assert a.samples + b.samples + c.samples == a.samples + (b.samples + c.samples);
  }

  lemma EmptyIsNeutral(a: Totals)
    ensures Plus(a, EMPTY) == a && Plus(EMPTY, a) == a
  {
    NoSpansIsNeutral(a.bytes);
    NoSpansIsNeutral(a.allocations);
    if a.peak.Available? { NoSpansIsNeutral(a.peak.peaks); }
  }

  lemma NoSpansIsNeutral(a: SpanAccumulator)
    ensures PlusAccumulator(a, NO_SPANS) == a && PlusAccumulator(NO_SPANS, a) == a
  {
    assert a.samples + multiset{} == a.samples && multiset{} + a.samples == a.samples;
  }

  lemma {:induction false} FoldAppends(xs: seq<SpanMeasurement>, ys: seq<SpanMeasurement>)
    ensures Fold(xs + ys) == Plus(Fold(xs), Fold(ys))
    decreases |xs|
  {
    if xs == [] {
      assert [] + ys == ys;
      EmptyIsNeutral(Fold(ys));
    } else {
      assert (xs + ys)[1..] == xs[1..] + ys;
      FoldAppends(xs[1..], ys);
      PlusAssociates(Single(xs[0]), Fold(xs[1..]), Fold(ys));
    }
  }

  /** The order in which spans arrive does not matter. */
  lemma {:induction false} FoldIgnoresOrder(xs: seq<SpanMeasurement>, ys: seq<SpanMeasurement>)
    requires multiset(xs) == multiset(ys)
    ensures Fold(xs) == Fold(ys)
    decreases |xs|
  {
    if xs == [] {
      NothingIsNothing(xs, ys);
    } else {
      var i := MatchHead(xs, ys);
      FoldIgnoresOrder(xs[1..], Without(ys, i));
      TakeOut(ys, i);
      FoldMovesUp(xs[0], ys[..i], ys[i + 1..]);
    }
  }

  lemma {:induction false} FoldMovesUp(x: SpanMeasurement, before: seq<SpanMeasurement>, after: seq<SpanMeasurement>)
    ensures Fold(before + ([x] + after)) == Plus(Single(x), Fold(before + after))
  {
    FoldAppends(before, after);
    FoldAppends(before, [x] + after);
    FoldsHead(x, after);
    SwapHeads(Single(x), Fold(before), Fold(after));
  }

  lemma {:induction false} FoldsHead(x: SpanMeasurement, after: seq<SpanMeasurement>)
    ensures Fold([x] + after) == Plus(Single(x), Fold(after))
  {
    assert ([x] + after)[1..] == after;
  }

  lemma SwapHeads(x: Totals, a: Totals, b: Totals)
    ensures Plus(a, Plus(x, b)) == Plus(x, Plus(a, b))
  {
    PlusAssociates(a, x, b);
    PlusAssociates(x, a, b);
    PlusCommutes(a, x);
  }

  // ----- what the figures are of the spans -----

  function Sum(xs: seq<nat>): nat {
    if xs == [] then 0 else xs[0] + Sum(xs[1..])
  }

  /** An estimator that holds exactly these samples. */
  function Gathered(samples: seq<Sample>): SpanAccumulator {
    SpanAccumulator(|samples|, Sum(Informing(samples)), multiset(samples))
  }

  /** A one for every sample that covers an iteration. */
  function Informing(samples: seq<Sample>): seq<nat> {
    seq(|samples|, i requires 0 <= i < |samples| => if samples[i].iterations == 0 then 0 else 1)
  }

  function IterationsOf(spans: seq<SpanMeasurement>): seq<nat> {
    seq(|spans|, i requires 0 <= i < |spans| => spans[i].iterations)
  }

  function BytesOf(spans: seq<SpanMeasurement>): seq<nat> {
    seq(|spans|, i requires 0 <= i < |spans| => spans[i].bytes)
  }

  function CountsOf(spans: seq<SpanMeasurement>): seq<nat> {
    seq(|spans|, i requires 0 <= i < |spans| => spans[i].count)
  }

  function ByteSamples(spans: seq<SpanMeasurement>): seq<Sample> {
    seq(|spans|, i requires 0 <= i < |spans| => Total(spans[i].iterations, spans[i].bytes))
  }

  function CountSamples(spans: seq<SpanMeasurement>): seq<Sample> {
    seq(|spans|, i requires 0 <= i < |spans| => Total(spans[i].iterations, spans[i].count))
  }

  function PeakSamples(spans: seq<SpanMeasurement>): seq<Sample>
    requires forall s :: s in spans ==> s.peak.Some?
  {
    seq(|spans|, i requires 0 <= i < |spans| => Level(spans[i].iterations, spans[i].peak.value))
  }

  /** Operation metrics that are exactly those of the spans: the totals are the sums, and each
      estimator has one sample a span, of its own figure. */
  ghost predicate AreFiguresOf(t: Totals, spans: seq<SpanMeasurement>) {
    && t.iterations == Sum(IterationsOf(spans))
    && t.totalBytes == Sum(BytesOf(spans))
    && t.totalCount == Sum(CountsOf(spans))
    && t.bytes == Gathered(ByteSamples(spans))
    && t.allocations == Gathered(CountSamples(spans))
    && t.peak == if forall s :: s in spans ==> s.peak.Some? then Available(Gathered(PeakSamples(spans)))
                 else Unavailable
  }

  lemma {:induction false} GatheredGrows(sample: Sample, rest: seq<Sample>)
    ensures Gathered([sample] + rest) == PlusAccumulator(One(sample), Gathered(rest))
  {
    assert Informing([sample] + rest)[1..] == Informing(rest);
    assert multiset([sample] + rest) == multiset{sample} + multiset(rest);
  }

  lemma {:induction false} SumsGrow(x: SpanMeasurement, rest: seq<SpanMeasurement>)
    ensures Sum(IterationsOf([x] + rest)) == x.iterations + Sum(IterationsOf(rest))
    ensures Sum(BytesOf([x] + rest)) == x.bytes + Sum(BytesOf(rest))
    ensures Sum(CountsOf([x] + rest)) == x.count + Sum(CountsOf(rest))
  {
    assert IterationsOf([x] + rest)[1..] == IterationsOf(rest);
    assert BytesOf([x] + rest)[1..] == BytesOf(rest);
    assert CountsOf([x] + rest)[1..] == CountsOf(rest);
  }

  lemma {:induction false} EstimatesGrow(x: SpanMeasurement, rest: seq<SpanMeasurement>)
    ensures Gathered(ByteSamples([x] + rest))
            == PlusAccumulator(One(Total(x.iterations, x.bytes)), Gathered(ByteSamples(rest)))
    ensures Gathered(CountSamples([x] + rest))
            == PlusAccumulator(One(Total(x.iterations, x.count)), Gathered(CountSamples(rest)))
  {
    assert ByteSamples([x] + rest) == [Total(x.iterations, x.bytes)] + ByteSamples(rest);
    assert CountSamples([x] + rest) == [Total(x.iterations, x.count)] + CountSamples(rest);
    GatheredGrows(Total(x.iterations, x.bytes), ByteSamples(rest));
    GatheredGrows(Total(x.iterations, x.count), CountSamples(rest));
  }

  lemma {:induction false} PeaksGrow(x: SpanMeasurement, rest: seq<SpanMeasurement>)
    requires forall s :: s in [x] + rest ==> s.peak.Some?
    ensures x.peak.Some? && forall s :: s in rest ==> s.peak.Some?
    ensures Gathered(PeakSamples([x] + rest))
            == PlusAccumulator(One(Level(x.iterations, x.peak.value)), Gathered(PeakSamples(rest)))
  {
    assert x in [x] + rest;
    assert forall s :: s in rest ==> s in [x] + rest;
    assert PeakSamples([x] + rest) == [Level(x.iterations, x.peak.value)] + PeakSamples(rest);
    GatheredGrows(Level(x.iterations, x.peak.value), PeakSamples(rest));
  }

  lemma {:induction false} FiguresGrow(x: SpanMeasurement, rest: seq<SpanMeasurement>, t: Totals)
    requires AreFiguresOf(t, rest)
    ensures AreFiguresOf(Plus(Single(x), t), [x] + rest)
  {
    SumsGrow(x, rest);
    EstimatesGrow(x, rest);
    if forall s :: s in [x] + rest ==> s.peak.Some? {
      PeaksGrow(x, rest);
    } else {
      assert exists s :: s in [x] + rest && s.peak.None?;
    }
  }

  /** What spans fold into are exactly their sums and samples. */
  lemma {:induction false} FoldAddsUp(spans: seq<SpanMeasurement>)
    ensures AreFiguresOf(Fold(spans), spans)
    decreases |spans|
  {
    if spans != [] {
      FoldAddsUp(spans[1..]);
      FiguresGrow(spans[0], spans[1..], Fold(spans[1..]));
      assert spans == [spans[0]] + spans[1..];
    }
  }

  /** A peak is reported if and only if every recorded span had one. */
  lemma {:induction false} PeakNeedsEverySpan(spans: seq<SpanMeasurement>)
    ensures Fold(spans).peak.Available? <==> forall s :: s in spans ==> s.peak.Some?
    decreases |spans|
  {
    if spans != [] {
      PeakNeedsEverySpan(spans[1..]);
      assert forall s :: s in spans <==> s == spans[0] || s in spans[1..];
    }
  }

  /** All three estimators of an operation count the same spans. */
  predicate Coherent(t: Totals) {
    && t.allocations.spans == t.bytes.spans && t.allocations.informative == t.bytes.informative
    && t.bytes.informative <= t.bytes.spans
    && (t.peak.Available? ==> t.peak.peaks.spans == t.bytes.spans && t.peak.peaks.informative == t.bytes.informative)
  }

  lemma PlusIsCoherent(a: Totals, b: Totals)
    requires Coherent(a) && Coherent(b)
    ensures Coherent(Plus(a, b))
  {
  }

  lemma {:induction false} FoldIsCoherent(spans: seq<SpanMeasurement>)
    ensures Coherent(Fold(spans))
    decreases |spans|
  {
    if spans != [] {
      FoldIsCoherent(spans[1..]);
      PlusIsCoherent(Single(spans[0]), Fold(spans[1..]));
    }
  }

  /** Whether there is a peak to report: it is not withheld, and some span covered an
      iteration. */
  predicate ReportsPeak(t: Totals) {
    t.peak.Available? && t.peak.peaks.informative > 0
  }

  lemma {:induction false} InformativeExactlyWhen(spans: seq<SpanMeasurement>)
    ensures Fold(spans).bytes.informative > 0 <==> exists s :: s in spans && s.iterations != 0
    decreases |spans|
  {
    if spans != [] {
      InformativeExactlyWhen(spans[1..]);
      assert forall s :: s in spans <==> s == spans[0] || s in spans[1..];
    }
  }

  /** A peak is reported if and only if every recorded span had one and some span covered an
      iteration. */
  lemma {:induction false} PeakIsReportedExactlyWhen(spans: seq<SpanMeasurement>)
    ensures ReportsPeak(Fold(spans))
            <==> (forall s :: s in spans ==> s.peak.Some?) && exists s :: s in spans && s.iterations != 0
  {
    PeakNeedsEverySpan(spans);
    InformativeExactlyWhen(spans);
    FoldIsCoherent(spans);
  }

  /** A part of what fits, fits. */
  lemma PartsFit(a: Totals, b: Totals)
    requires Coherent(a) && Coherent(b) && Fits(Plus(a, b))
    ensures Fits(a) && Fits(b)
  {
  }
}
