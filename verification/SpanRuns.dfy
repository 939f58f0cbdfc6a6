/** The nest of module SpanPeaks, run with the actual counters, span and metrics objects. */
module SpanRuns {
  import opened MachineIntegers
  import opened AllocationCounters
  import opened MetricsAlgebra
  import opened OperationMetrics
  import opened ThreadSpans
  import opened SpanPeaks

  /** The open spans, innermost last: over the same counters, each for some operation. Spans
      of one operation share its metrics. */
  ghost predicate Live(counters: PerThreadCounters, stack: seq<ThreadSpan>, operations: set<Metrics>)
    reads stack, operations
  {
    && (forall i, j :: 0 <= i < j < |stack| ==> stack[i] != stack[j])
    && (forall i :: 0 <= i < |stack| ==>
          stack[i].counters == counters && stack[i].metrics in operations && stack[i].iterations == None
            && stack[i].recordPeak)
    && forall m :: m in operations ==> m.Sound()
  }

  function Frames(stack: seq<ThreadSpan>): seq<Frame> {
    seq(|stack|, i requires 0 <= i < |stack| => stack[i].Memory())
  }

  function Targets(stack: seq<ThreadSpan>): seq<Metrics> {
    seq(|stack|, i requires 0 <= i < |stack| => stack[i].metrics)
  }

  /** How many spans the events open. */
  function Opens(events: seq<Event>): nat {
    if events == [] then 0 else (if events[0].Open? then 1 else 0) + Opens(events[1..])
  }

  /** The measurements of one operation, in the order in which its spans close. `targets` are
      the operations of the open spans, and `next` those of the spans still to be opened. */
  ghost function MeasurementsOf(
      t: Thread, targets: seq<Metrics>, next: seq<Metrics>, events: seq<Event>, m: Metrics): seq<SpanMeasurement>
    requires Nested(|t.frames|, events) && |targets| == |t.frames| && |next| == Opens(events)
    decreases |events|
  {
    if events == [] then []
    else
      match events[0]
      case Requested(request) => MeasurementsOf(t.(c := After(t.c, request)), targets, next, events[1..], m)
      case Open =>
        var (c, frame) := Opened(t.c);
        MeasurementsOf(Thread(c, t.frames + [frame]), targets + [next[0]], next[1..], events[1..], m)
      case Close(panicking, iterations, recordPeak) =>
        var n := |t.frames| - 1;
        SpanFor(Closed(t.c, t.frames[n], panicking, iterations, recordPeak), targets[n] == m)
        + MeasurementsOf(Thread(Restored(t.c, t.frames[n]), t.frames[..n]), targets[..n], next, events[1..], m)
  }

  function SpanFor(closing: Closing, mine: bool): seq<SpanMeasurement> {
    if closing.Measured? && mine then [closing.span] else []
  }

  // ----- what recording adds up to -----

  /** Metrics that had the figures `before` have recorded these spans; they are poisoned if
      and only if they were before or the spans do not fit. */
  ghost predicate Took(before: Totals, wasPoisoned: bool, after: Totals, poisoned: bool, spans: seq<SpanMeasurement>) {
    && (poisoned <==> wasPoisoned || !Fits(Plus(before, Fold(spans))))
    && (!poisoned ==> after == Plus(before, Fold(spans)))
  }

  lemma {:induction false} TookNothing(before: Totals, poisoned: bool)
    requires poisoned || Fits(before)
    ensures Took(before, poisoned, before, poisoned, [])
  {
    EmptyIsNeutral(before);
  }

  /** One span, and then the others. */
  lemma {:induction false} TookOneMore(
      before: Totals, wasPoisoned: bool, between: Totals, poisonedThen: bool, after: Totals, poisoned: bool,
      span: SpanMeasurement, rest: seq<SpanMeasurement>)
    requires wasPoisoned || Coherent(before)
    requires poisonedThen <==> wasPoisoned || !Fits(Plus(before, Single(span)))
    requires !poisonedThen ==> between == Plus(before, Single(span))
    requires Took(between, poisonedThen, after, poisoned, rest)
    ensures Took(before, wasPoisoned, after, poisoned, [span] + rest)
  {
    assert ([span] + rest)[1..] == rest;
    assert Fold([span] + rest) == Plus(Single(span), Fold(rest));
    PlusAssociates(before, Single(span), Fold(rest));
    if !wasPoisoned && poisonedThen {
      FoldIsCoherent(rest);
      PlusIsCoherent(before, Single(span));
      if Fits(Plus(Plus(before, Single(span)), Fold(rest))) {
        PartsFit(Plus(before, Single(span)), Fold(rest));
      }
    }
  }

  /** What one closing does to metrics: it records one span, if it is theirs. */
  ghost predicate TookOne(
      before: Totals, wasPoisoned: bool, after: Totals, poisoned: bool, closing: Closing, mine: bool) {
    if closing.Measured? && mine then
      && (poisoned <==> wasPoisoned || !Fits(Plus(before, Single(closing.span))))
      && (!poisoned ==> after == Plus(before, Single(closing.span)))
    else after == before && poisoned == wasPoisoned
  }

  /** One closing, and then the others. */
  lemma {:induction false} TookClosing(
      before: Totals, wasPoisoned: bool, between: Totals, poisonedThen: bool, after: Totals, poisoned: bool,
      closing: Closing, mine: bool, rest: seq<SpanMeasurement>)
    requires wasPoisoned || Coherent(before)
    requires TookOne(before, wasPoisoned, between, poisonedThen, closing, mine)
    requires Took(between, poisonedThen, after, poisoned, rest)
    ensures Took(before, wasPoisoned, after, poisoned, SpanFor(closing, mine) + rest)
  {
    if closing.Measured? && mine {
      TookOneMore(before, wasPoisoned, between, poisonedThen, after, poisoned, closing.span, rest);
    } else {
      assert [] + rest == rest;
    }
  }

  /** What a closing leaves to the rest of the events. */
  lemma {:induction false} CloseUnfolds(
      t: Thread, targets: seq<Metrics>, next: seq<Metrics>, events: seq<Event>, m: Metrics)
    requires Nested(|t.frames|, events) && |targets| == |t.frames| && |next| == Opens(events)
    requires events != [] && events[0].Close?
    ensures var n := |t.frames| - 1;
            var closing := Closed(t.c, t.frames[n], events[0].panicking, events[0].iterations, events[0].recordPeak);
            MeasurementsOf(t, targets, next, events, m)
            == SpanFor(closing, targets[n] == m)
               + MeasurementsOf(Thread(Restored(t.c, t.frames[n]), t.frames[..n]), targets[..n], next, events[1..], m)
  {
  }

  // ----- the steps -----

  /** One request through the thread's counters. */
  method Register(counters: PerThreadCounters, request: Request)
    modifies counters
    ensures counters.View() == After(old(counters.View()), request)
  {
    match request
    case Allocate(size) => counters.RegisterAllocation(size);
    case Deallocate(size) => counters.RegisterDeallocation(size);
    case Reallocate(oldSize, newSize) => counters.RegisterReallocation(oldSize, newSize);
  }

  /** Prepares a span as its owner does, and drops it. */
  method Drop(counters: PerThreadCounters, span: ThreadSpan, panicking: bool, iterations: Option<U64>, recordPeak: bool)
    returns (closing: Closing)
    requires span.counters == counters && span.metrics.Sound() && span.iterations == None && span.recordPeak
    modifies counters, span, span.metrics
    ensures counters.View() == Restored(old(counters.View()), span.Memory())
    ensures closing == Closed(old(counters.View()), span.Memory(), panicking, iterations, recordPeak)
    ensures span.metrics.Sound()
    ensures TookOne(old(span.metrics.View()), old(span.metrics.poisoned), span.metrics.View(),
            span.metrics.poisoned, closing, true)
  {
    if iterations.Some? {
      span.Iterations(iterations.value);
    }
    if !recordPeak {
      span.NoPeak();
    }
    var recorded;
    closing, recorded := span.Close(panicking);
  }

  /** Drops the innermost span; the others stay open, and only its operation changes. */
  method DropInnermost(counters: PerThreadCounters, stack: seq<ThreadSpan>,
                       panicking: bool, iterations: Option<U64>, recordPeak: bool,
                       ghost operations: set<Metrics>)
    returns (closing: Closing)
    requires Live(counters, stack, operations) && stack != []
    modifies counters, stack, operations
    ensures Live(counters, stack[..|stack| - 1], operations)
    ensures var f := stack[|stack| - 1].Memory();
            && counters.View() == Restored(old(counters.View()), f)
            && closing == Closed(old(counters.View()), f, panicking, iterations, recordPeak)
    ensures forall m :: m in operations ==>
              TookOne(old(m.View()), old(m.poisoned), m.View(), m.poisoned, closing, stack[|stack| - 1].metrics == m)
  {
    closing := Drop(counters, stack[|stack| - 1], panicking, iterations, recordPeak);
  }

  /** Runs the events on the heap and collects how the spans closed. The counters and all
      closings are those of the specification, and each operation has taken exactly the
      measurements of its own spans. */
  method Perform(counters: PerThreadCounters, stack: seq<ThreadSpan>, next: seq<Metrics>, events: seq<Event>,
                 ghost operations: set<Metrics>)
    returns (closings: seq<Closing>)
    requires Live(counters, stack, operations) && Nested(|stack|, events) && |next| == Opens(events)
    requires forall m :: m in next ==> m in operations
    modifies counters, stack, operations
    ensures forall m :: m in operations ==> m.Sound()
    ensures var (final, expected) := Run(Thread(old(counters.View()), Frames(stack)), events);
            counters.View() == final.c && closings == expected
    ensures forall m :: m in operations ==>
              Took(old(m.View()), old(m.poisoned), m.View(), m.poisoned,
                   MeasurementsOf(Thread(old(counters.View()), Frames(stack)), Targets(stack), next, events, m))
    decreases |events|
  {
    if events == [] {
      forall m | m in operations ensures Took(m.View(), m.poisoned, m.View(), m.poisoned, []) {
        TookNothing(m.View(), m.poisoned);
      }
      return [];
    }
    match events[0]
    case Requested(request) =>
      Register(counters, request);
      closings := Perform(counters, stack, next, events[1..], operations);
    case Open =>
      var span := new ThreadSpan(counters, next[0]);
      assert Frames(stack + [span]) == Frames(stack) + [span.Memory()];
      assert Targets(stack + [span]) == Targets(stack) + [next[0]];
      closings := Perform(counters, stack + [span], next[1..], events[1..], operations);
    case Close(panicking, iterations, recordPeak) =>
      closings := PerformClose(counters, stack, next, events, operations);
  }

  method PerformClose(counters: PerThreadCounters, stack: seq<ThreadSpan>, next: seq<Metrics>, events: seq<Event>,
                      ghost operations: set<Metrics>)
    returns (closings: seq<Closing>)
    requires Live(counters, stack, operations) && Nested(|stack|, events) && |next| == Opens(events)
    requires forall m :: m in next ==> m in operations
    requires events != [] && events[0].Close?
    modifies counters, stack, operations
    ensures forall m :: m in operations ==> m.Sound()
    ensures var (final, expected) := Run(Thread(old(counters.View()), Frames(stack)), events);
            counters.View() == final.c && closings == expected
    ensures forall m :: m in operations ==>
              Took(old(m.View()), old(m.poisoned), m.View(), m.poisoned,
                   MeasurementsOf(Thread(old(counters.View()), Frames(stack)), Targets(stack), next, events, m))
    decreases |events|, 0
  {
    var n := |stack| - 1;
    var span := stack[n];
    assert Frames(stack)[..n] == Frames(stack[..n]) && Targets(stack)[..n] == Targets(stack[..n]);
    var closing := DropInnermost(counters, stack, events[0].panicking, events[0].iterations, events[0].recordPeak,
        operations);
    label dropped:
    ghost var t := Thread(counters.View(), Frames(stack[..n]));
    var rest := Perform(counters, stack[..n], next, events[1..], operations);
    closings := [closing] + rest;
    forall m | m in operations
      ensures Took(old(m.View()), old(m.poisoned), m.View(), m.poisoned,
                   MeasurementsOf(Thread(old(counters.View()), Frames(stack)), Targets(stack), next, events, m))
    {
      CloseUnfolds(Thread(old(counters.View()), Frames(stack)), Targets(stack), next, events, m);
      TookClosing(old(m.View()), old(m.poisoned), old@dropped(m.View()), old@dropped(m.poisoned), m.View(), m.poisoned,
                  closing, span.metrics == m, MeasurementsOf(t, Targets(stack[..n]), next, events[1..], m));
    }
  }

  /** On the heap, too, every span measures the truth, and its operation gets it. */
  method MeasureThread(
      counters: PerThreadCounters, next: seq<Metrics>, events: seq<Event>) returns (closings: seq<Closing>)
    requires counters.outstanding <= counters.watermark
    requires Nested(0, events) && Sane(Moments([NowOf(counters.View())], events))
    requires |next| == Opens(events) && forall m :: m in next ==> m.Sound()
    modifies counters, next
    ensures closings == ReferenceRun(History([NowOf(old(counters.View()))], []), events)
    ensures forall m :: m in next ==>
              Took(old(m.View()), old(m.poisoned), m.View(), m.poisoned,
                   MeasurementsOf(Thread(old(counters.View()), []), [], next, events, m))
  {
    OneCellMeasuresEverySpan(counters.View(), events);
    assert Frames([]) == [] && Targets([]) == [];
    closings := Perform(counters, [], next, events, set m | m in next);
  }
}
