/** One watermark cell measures every span of an arbitrarily deep nest.

    The reference keeps the whole history of a thread, with unbounded numbers, and looks up
    the true maximum over each span's lifetime. */
module SpanPeaks {
  import opened MachineIntegers
  import opened AllocationCounters
  import opened MetricsAlgebra
  import opened ThreadSpans

  datatype Event =
    | Requested(request: Request)
    | Open
    | Close(panicking: bool, iterations: Option<U64>, recordPeak: bool)

  // ----- the thread as the code runs it -----

  /** The counters and the spans still open, innermost last. */
  datatype Thread = Thread(c: Counters, frames: seq<Frame>)

  /** Spans close in reverse order of opening, so only the innermost can close. */
  predicate Nested(depth: nat, events: seq<Event>)
    decreases |events|
  {
    events == [] ||
    match events[0]
    case Requested(_) => Nested(depth, events[1..])
    case Open => Nested(depth + 1, events[1..])
    case Close(_, _, _) => depth > 0 && Nested(depth - 1, events[1..])
  }

  function Run(t: Thread, events: seq<Event>): (Thread, seq<Closing>)
    requires Nested(|t.frames|, events)
    decreases |events|
  {
    if events == [] then (t, [])
    else
      match events[0]
      case Requested(request) => Run(t.(c := After(t.c, request)), events[1..])
      case Open =>
        var (c, frame) := Opened(t.c);
        Run(Thread(c, t.frames + [frame]), events[1..])
      case Close(panicking, iterations, recordPeak) =>
        var n := |t.frames| - 1;
        var f := t.frames[n];
        var (final, closings) := Run(Thread(Restored(t.c, f), t.frames[..n]), events[1..]);
        (final, [Closed(t.c, f, panicking, iterations, recordPeak)] + closings)
  }

  // ----- the reference -----

  /** The true figures at one moment. */
  datatype Moment = Moment(bytes: int, count: int, level: int)

  /** All moments so far, and when each open span was opened. */
  datatype History = History(moments: seq<Moment>, opens: seq<nat>)

  function Then(m: Moment, request: Request): Moment {
    match request
    case Allocate(size) => Moment(m.bytes + size, m.count + 1, m.level + size)
    case Deallocate(size) => m.(level := m.level - size)
    case Reallocate(oldSize, newSize) => Moment(m.bytes + newSize, m.count + 1, m.level + newSize - oldSize)
  }

  /** The highest level reached. */
  function Highest(moments: seq<Moment>): (h: int)
    requires moments != []
    ensures forall i :: 0 <= i < |moments| ==> moments[i].level <= h
    ensures exists i :: 0 <= i < |moments| && moments[i].level == h
  {
    var n := |moments| - 1;
    if n == 0 then moments[0].level else Max(Highest(moments[..n]), moments[n].level)
  }

  function Min(x: int, y: int): int {
    if x < y then x else y
  }

  /** What a span that opened at `t` reports, in terms of the true figures: the difference of
      the totals as 64 bits hold them, a panic if one of these went down, and its true peak
      above the level it started from, nested spans included. */
  function TrueClosing(
      moments: seq<Moment>, t: nat, panicking: bool, iterations: Option<U64>, recordPeak: bool): Closing
    requires t < |moments|
  {
    var start, end := moments[t], moments[|moments| - 1];
    if panicking then Unwinding
    else if iterations.None? then MissingCount
    else if WrapU64(end.bytes) < WrapU64(start.bytes) || WrapU64(end.count) < WrapU64(start.count) then Decreased
    else
      assert moments[t..][0] == start;
      var peak := Highest(moments[t..]) - start.level;
      Measured(SpanMeasurement(iterations.value,
                               WrapU64(end.bytes) - WrapU64(start.bytes), WrapU64(end.count) - WrapU64(start.count),
                               if recordPeak then Some(Min(peak, I64_MAX)) else None))
  }

  /** Totals never go down. */
  ghost predicate Rising(moments: seq<Moment>) {
    forall i, j :: 0 <= i <= j < |moments|
        ==> moments[i].bytes <= moments[j].bytes && moments[i].count <= moments[j].count
  }

  /** Both totals have wrapped equally often at the two moments. */
  predicate SameLap(start: Moment, end: Moment) {
    start.bytes / U64_MODULUS == end.bytes / U64_MODULUS && start.count / U64_MODULUS == end.count / U64_MODULUS
  }

  /** A span reports its true traffic exactly if no total wrapped during it: otherwise it
      panics, or reports too little. */
  lemma DeltasAreTrueExactlyWhen(moments: seq<Moment>, t: nat, iterations: U64, recordPeak: bool)
    requires t < |moments| && Rising(moments)
    ensures var start, end := moments[t], moments[|moments| - 1];
            var closing := TrueClosing(moments, t, false, Some(iterations), recordPeak);
            && closing.Measured?
            && closing.span.bytes == end.bytes - start.bytes && closing.span.count == end.count - start.count
            <==> SameLap(start, end)
  {
    var start, end := moments[t], moments[|moments| - 1];
    DeltaIsOffByLaps(start.bytes, end.bytes);
    DeltaIsOffByLaps(start.count, end.count);
  }

  /** The outstanding level stays within its 64 bits. The totals may wrap. */
  predicate SaneMoment(m: Moment) {
    FitsI64(m.level)
  }

  predicate Sane(moments: seq<Moment>) {
    forall i :: 0 <= i < |moments| ==> SaneMoment(moments[i])
  }

  /** All the moments of a run. */
  function Moments(moments: seq<Moment>, events: seq<Event>): (all: seq<Moment>)
    requires moments != []
    ensures all != [] && moments <= all
    decreases |events|
  {
    if events == [] then moments
    else if events[0].Requested? then
      Moments(moments + [Then(moments[|moments| - 1], events[0].request)], events[1..])
    else Moments(moments, events[1..])
  }

  /** Spans were opened at moments of the history. */
  ghost predicate Opening(h: History) {
    h.moments != [] && forall k :: 0 <= k < |h.opens| ==> h.opens[k] < |h.moments|
  }

  function ReferenceRun(h: History, events: seq<Event>): seq<Closing>
    requires Nested(|h.opens|, events) && Opening(h)
    decreases |events|
  {
    if events == [] then []
    else
      var now := |h.moments| - 1;
      match events[0]
      case Requested(request) =>
        ReferenceRun(h.(moments := h.moments + [Then(h.moments[now], request)]), events[1..])
      case Open => ReferenceRun(h.(opens := h.opens + [now]), events[1..])
      case Close(panicking, iterations, recordPeak) =>
        var n := |h.opens| - 1;
        [TrueClosing(h.moments, h.opens[n], panicking, iterations, recordPeak)]
        + ReferenceRun(h.(opens := h.opens[..n]), events[1..])
  }

  /** Requests only add to the totals, so all histories rise. */
  lemma {:induction false} MomentsRise(moments: seq<Moment>, events: seq<Event>)
    requires moments != [] && Rising(moments)
    ensures Rising(Moments(moments, events))
    decreases |events|
  {
    if events != [] {
      var next := if events[0].Requested? then moments + [Then(moments[|moments| - 1], events[0].request)] else moments;
      MomentsRise(next, events[1..]);
    }
  }

  lemma {:induction false} NoDecreaseWithinALap(h: History, events: seq<Event>)
    requires Nested(|h.opens|, events) && Opening(h) && Rising(Moments(h.moments, events))
    requires var all := Moments(h.moments, events); SameLap(all[0], all[|all| - 1])
    ensures Decreased !in ReferenceRun(h, events)
    decreases |events|
  {
    if events != [] {
      var all, n, now := Moments(h.moments, events), |h.opens| - 1, |h.moments| - 1;
      match events[0]
      case Requested(request) =>
        NoDecreaseWithinALap(h.(moments := h.moments + [Then(h.moments[now], request)]), events[1..]);
      case Open => NoDecreaseWithinALap(h.(opens := h.opens + [now]), events[1..]);
      case Close(panicking, iterations, recordPeak) =>
        NoDecreaseWithinALap(h.(opens := h.opens[..n]), events[1..]);
        NoDecreaseAtClose(h.moments, all, h.opens[n], panicking, iterations, recordPeak);
    }
  }

  lemma NoDecreaseAtClose(
      moments: seq<Moment>, all: seq<Moment>, t: nat, panicking: bool, iterations: Option<U64>, recordPeak: bool)
    requires t < |moments| && moments <= all && Rising(all) && SameLap(all[0], all[|all| - 1])
    ensures TrueClosing(moments, t, panicking, iterations, recordPeak) != Decreased
  {
    assert moments[t] == all[t] && moments[|moments| - 1] == all[|moments| - 1];
    LapsAgree(all, t, |moments| - 1);
  }

  /** Between two moments of one lap the wrapped totals rise, too. */
  lemma LapsAgree(all: seq<Moment>, t: nat, now: nat)
    requires t <= now < |all| && Rising(all) && SameLap(all[0], all[|all| - 1])
    ensures WrapU64(all[t].bytes) <= WrapU64(all[now].bytes) && WrapU64(all[t].count) <= WrapU64(all[now].count)
  {
    var first, last := all[0], all[|all| - 1];
    LapsGrow(first.bytes, all[t].bytes);
    LapsGrow(all[t].bytes, all[now].bytes);
    LapsGrow(all[now].bytes, last.bytes);
    LapsGrow(first.count, all[t].count);
    LapsGrow(all[t].count, all[now].count);
    LapsGrow(all[now].count, last.count);
    DeltaIsOffByLaps(all[t].bytes, all[now].bytes);
    DeltaIsOffByLaps(all[t].count, all[now].count);
  }

  // ----- how the one cell and the saved values relate to the history -----

  /** Unwinding the nest from the inside: the cell is the true maximum since the innermost
      span opened, and what that span would hand back is right for the next one out. At the
      bottom is the mark `base` that was there before any of these spans. */
  ghost predicate Agrees(frames: seq<Frame>, opens: seq<nat>, watermark: int, moments: seq<Moment>, base: int)
    requires moments != []
  {
    && |frames| == |opens|
    && if frames == [] then watermark == Max(base, Highest(moments))
       else
         var n := |frames| - 1;
         var f, t := frames[n], opens[n];
         && t < |moments|
         && f.startOutstanding == moments[t].level
         && f.startBytes == WrapU64(moments[t].bytes) && f.startCount == WrapU64(moments[t].count)
         && watermark == Highest(moments[t..])
         && Agrees(frames[..n], opens[..n], Max(f.enclosingWatermark, watermark), moments, base)
  }

  ghost predicate Related(t: Thread, h: History, base: int) {
    && h.moments != []
    && (var now := h.moments[|h.moments| - 1];
        t.c.bytes == WrapU64(now.bytes) && t.c.count == WrapU64(now.count) && t.c.outstanding == now.level)
    && Agrees(t.frames, h.opens, t.c.watermark, h.moments, base)
  }

  lemma HighestGrows(moments: seq<Moment>, m: Moment)
    requires moments != []
    ensures Highest(moments + [m]) == Max(Highest(moments), m.level)
  {
    assert (moments + [m])[..|moments|] == moments;
  }

  /** The cell is never below the current level; frees can therefore leave it alone. */
  lemma {:induction false} WatermarkCoversLevel(
      frames: seq<Frame>, opens: seq<nat>, watermark: int, moments: seq<Moment>, base: int)
    requires moments != [] && Agrees(frames, opens, watermark, moments, base)
    ensures moments[|moments| - 1].level <= watermark
  {
    if frames != [] {
      var t := opens[|frames| - 1];
      assert moments[t..][|moments| - t - 1] == moments[|moments| - 1];
    }
  }

  /** A new level reaches every span of the nest through the one cell. */
  lemma {:induction false} AgreesAfterMoment(
      frames: seq<Frame>, opens: seq<nat>, watermark: int, moments: seq<Moment>, base: int, m: Moment)
    requires moments != [] && Agrees(frames, opens, watermark, moments, base)
    ensures Agrees(frames, opens, Max(watermark, m.level), moments + [m], base)
    decreases |frames|
  {
    if frames == [] {
      HighestGrows(moments, m);
    } else {
      var n := |frames| - 1;
      var t := opens[n];
      assert (moments + [m])[t..] == moments[t..] + [m];
      HighestGrows(moments[t..], m);
      AgreesAfterMoment(frames[..n], opens[..n], Max(frames[n].enclosingWatermark, watermark), moments, base, m);
    }
  }

  lemma AgreesAfterOpen(t: Thread, h: History, base: int)
    requires Related(t, h, base)
    ensures var (c, frame) := Opened(t.c);
            Related(Thread(c, t.frames + [frame]), h.(opens := h.opens + [|h.moments| - 1]), base)
  {
    var (c, frame) := Opened(t.c);
    var now := |h.moments| - 1;
    WatermarkCoversLevel(t.frames, h.opens, t.c.watermark, h.moments, base);
    assert h.moments[now..] == [h.moments[now]];
    assert (t.frames + [frame])[..|t.frames|] == t.frames;
    assert (h.opens + [now])[..|t.frames|] == h.opens;
  }

  /** The counters follow the true figures, the totals modulo 2^64. */
  lemma CountersFollow(c: Counters, now: Moment, request: Request)
    requires c.bytes == WrapU64(now.bytes) && c.count == WrapU64(now.count) && c.outstanding == now.level
    requires SaneMoment(now) && SaneMoment(Then(now, request))
    ensures var next := Then(now, request);
            var c' := After(c, request);
            && c'.bytes == WrapU64(next.bytes) && c'.count == WrapU64(next.count) && c'.outstanding == next.level
            && c'.watermark == if request.Deallocate? then c.watermark else Max(c.watermark, next.level)
  {
    WrapU64Absorbs(now.bytes, Then(now, request).bytes - now.bytes);
    WrapU64Absorbs(now.count, 1);
  }

  lemma RelatedAfterRequest(t: Thread, h: History, base: int, request: Request)
    requires Related(t, h, base)
    requires var now := h.moments[|h.moments| - 1]; SaneMoment(now) && SaneMoment(Then(now, request))
    ensures Related(t.(c := After(t.c, request)),
            h.(moments := h.moments + [Then(h.moments[|h.moments| - 1], request)]), base)
  {
    var now := h.moments[|h.moments| - 1];
    var next := Then(now, request);
    CountersFollow(t.c, now, request);
    WatermarkCoversLevel(t.frames, h.opens, t.c.watermark, h.moments, base);
    AgreesAfterMoment(t.frames, h.opens, t.c.watermark, h.moments, base, next);
    assert After(t.c, request).watermark == Max(t.c.watermark, next.level);
  }

  /** What the innermost span reports is what it truly measured; the clamp never fires. */
  lemma ClosingIsTrue(t: Thread, h: History, base: int, panicking: bool, iterations: Option<U64>, recordPeak: bool)
    requires Related(t, h, base) && Opening(h) && Sane(h.moments) && t.frames != []
    ensures var n := |t.frames| - 1;
            Closed(t.c, t.frames[n], panicking, iterations, recordPeak)
            == TrueClosing(h.moments, h.opens[n], panicking, iterations, recordPeak)
  {
    var start := h.opens[|t.frames| - 1];
    assert h.moments[start..][0] == h.moments[start];
  }

  lemma SanePrefix(moments: seq<Moment>, events: seq<Event>)
    requires moments != [] && Sane(Moments(moments, events))
    ensures Sane(moments)
  {
    var all := Moments(moments, events);
    assert forall i :: 0 <= i < |moments| ==> moments[i] == all[i];
  }

  /** The spans still open after the events. */
  function StillOpen(h: History, events: seq<Event>): seq<nat>
    requires Nested(|h.opens|, events) && h.moments != []
    decreases |events|
  {
    if events == [] then h.opens
    else
      var now := |h.moments| - 1;
      match events[0]
      case Requested(request) => StillOpen(h.(moments := h.moments + [Then(h.moments[now], request)]), events[1..])
      case Open => StillOpen(h.(opens := h.opens + [now]), events[1..])
      case Close(_, _, _) => StillOpen(h.(opens := h.opens[..|h.opens| - 1]), events[1..])
  }

  ghost predicate RunIsTrue(t: Thread, h: History, base: int, events: seq<Event>)
    requires Nested(|t.frames|, events) && |t.frames| == |h.opens| && Opening(h)
  {
    && Run(t, events).1 == ReferenceRun(h, events)
    && Related(Run(t, events).0, History(Moments(h.moments, events), StillOpen(h, events)), base)
  }

  lemma {:induction false} RunAgrees(t: Thread, h: History, base: int, events: seq<Event>)
    requires Related(t, h, base) && Opening(h) && Nested(|t.frames|, events) && Sane(Moments(h.moments, events))
    ensures RunIsTrue(t, h, base, events)
    decreases |events|, 1
  {
    if events != [] {
      SanePrefix(h.moments, events);
      match events[0]
      case Requested(request) => RunAgreesAfterRequest(t, h, base, events, request);
      case Open => RunAgreesAfterOpen(t, h, base, events);
      case Close(panicking, iterations, recordPeak) => RunAgreesAfterClose(t, h, base, events);
    }
  }

  lemma {:induction false} RunAgreesAfterRequest(t: Thread, h: History, base: int, events: seq<Event>, request: Request)
    requires Related(t, h, base) && Opening(h) && Nested(|t.frames|, events) && Sane(Moments(h.moments, events))
    requires events != [] && events[0] == Requested(request) && Sane(h.moments)
    ensures RunIsTrue(t, h, base, events)
    decreases |events|, 0
  {
    var next := Then(h.moments[|h.moments| - 1], request);
    SanePrefix(h.moments + [next], events[1..]);
    assert (h.moments + [next])[|h.moments|] == next;
    RelatedAfterRequest(t, h, base, request);
    RunAgrees(t.(c := After(t.c, request)), h.(moments := h.moments + [next]), base, events[1..]);
  }

  /** What opening a span leaves to the rest of the events. */
  lemma {:induction false} OpenUnfolds(t: Thread, h: History, events: seq<Event>)
    requires Opening(h) && |t.frames| == |h.opens| && Nested(|t.frames|, events) && events != [] && events[0].Open?
    ensures var (c, frame) := Opened(t.c);
            var t', h' := Thread(c, t.frames + [frame]), h.(opens := h.opens + [|h.moments| - 1]);
            && Nested(|t'.frames|, events[1..]) && Opening(h') && Run(t, events) == Run(t', events[1..])
            && ReferenceRun(h, events) == ReferenceRun(h', events[1..])
            && Moments(h.moments, events) == Moments(h'.moments, events[1..])
            && StillOpen(h, events) == StillOpen(h', events[1..])
  {
  }

  lemma {:induction false} RunAgreesAfterOpen(t: Thread, h: History, base: int, events: seq<Event>)
    requires Related(t, h, base) && Opening(h) && Nested(|t.frames|, events) && Sane(Moments(h.moments, events))
    requires events != [] && events[0].Open?
    ensures RunIsTrue(t, h, base, events)
    decreases |events|, 0
  {
    AgreesAfterOpen(t, h, base);
    OpenUnfolds(t, h, events);
    var (c, frame) := Opened(t.c);
    RunAgrees(Thread(c, t.frames + [frame]), h.(opens := h.opens + [|h.moments| - 1]), base, events[1..]);
  }

  lemma {:induction false} RunAgreesAfterClose(t: Thread, h: History, base: int, events: seq<Event>)
    requires Related(t, h, base) && Opening(h) && Nested(|t.frames|, events) && Sane(Moments(h.moments, events))
    requires events != [] && events[0].Close? && Sane(h.moments)
    ensures RunIsTrue(t, h, base, events)
    decreases |events|, 0
  {
    var n := |t.frames| - 1;
    ClosingIsTrue(t, h, base, events[0].panicking, events[0].iterations, events[0].recordPeak);
    RunAgrees(Thread(Restored(t.c, t.frames[n]), t.frames[..n]), h.(opens := h.opens[..n]), base, events[1..]);
  }

  // ----- the theorems -----

  function NowOf(c: Counters): Moment {
    Moment(c.bytes, c.count, c.outstanding)
  }

  /** Every run of requests and properly nested spans whose level stays within 64 bits, from
      any counters whose watermark is not below their level: each closing span reports what
      its true figures say. The peak is its true maximum over its whole lifetime above its
      entry level, however many inner spans rebased the shared cell, and is cut off only at
      2^63 - 1. The totals may wrap; `DeltasAreTrueExactlyWhen` says what is true of
      them then. */
  lemma OneCellMeasuresEverySpan(c: Counters, events: seq<Event>)
    requires c.outstanding <= c.watermark
    requires Nested(0, events) && Sane(Moments([NowOf(c)], events))
    ensures Run(Thread(c, []), events).1 == ReferenceRun(History([NowOf(c)], []), events)
  {
    StartIsRelated(c);
    RunAgrees(Thread(c, []), History([NowOf(c)], []), c.watermark, events);
  }

  lemma StartIsRelated(c: Counters)
    requires c.outstanding <= c.watermark
    ensures Related(Thread(c, []), History([NowOf(c)], []), c.watermark) && Opening(History([NowOf(c)], []))
  {
  }

  /** As long as the whole run adds less than what wraps a total, no closing panics for it. */
  lemma NoTotalSeemsToDecrease(c: Counters, events: seq<Event>)
    requires c.outstanding <= c.watermark
    requires Nested(0, events) && Sane(Moments([NowOf(c)], events))
    requires var all := Moments([NowOf(c)], events); SameLap(all[0], all[|all| - 1])
    ensures Decreased !in Run(Thread(c, []), events).1
  {
    OneCellMeasuresEverySpan(c, events);
    MomentsRise([NowOf(c)], events);
    NoDecreaseWithinALap(History([NowOf(c)], []), events);
  }

  /** The requests alone. */
  function WithoutSpans(events: seq<Event>): (rest: seq<Event>)
    ensures forall depth: nat :: Nested(depth, rest)
    decreases |events|
  {
    if events == [] then []
    else if events[0].Requested? then [events[0]] + WithoutSpans(events[1..])
    else WithoutSpans(events[1..])
  }

  lemma {:induction false} SameMoments(moments: seq<Moment>, events: seq<Event>)
    requires moments != []
    ensures Moments(moments, WithoutSpans(events)) == Moments(moments, events)
    decreases |events|
  {
    if events != [] {
      if events[0].Requested? {
        var rest := WithoutSpans(events);
        assert rest[1..] == WithoutSpans(events[1..]);
        SameMoments(moments + [Then(moments[|moments| - 1], events[0].request)], events[1..]);
      } else {
        SameMoments(moments, events[1..]);
      }
    }
  }

  lemma {:induction false} NoFramesWithoutSpans(c: Counters, events: seq<Event>)
    ensures Run(Thread(c, []), WithoutSpans(events)).0.frames == []
    decreases |events|
  {
    if events != [] {
      if events[0].Requested? {
        assert WithoutSpans(events)[1..] == WithoutSpans(events[1..]);
        NoFramesWithoutSpans(After(c, events[0].request), events[1..]);
      } else {
        NoFramesWithoutSpans(c, events[1..]);
      }
    }
  }

  /** Spans are transparent: once all of them have closed, whichever way each closed, the
      counters are what they would be had none been opened. */
  lemma SpansAreTransparent(c: Counters, events: seq<Event>)
    requires c.outstanding <= c.watermark
    requires Nested(0, events) && Sane(Moments([NowOf(c)], events))
    requires Run(Thread(c, []), events).0.frames == []
    ensures Run(Thread(c, []), events).0 == Run(Thread(c, []), WithoutSpans(events)).0
  {
    var start := [NowOf(c)];
    StartIsRelated(c);
    SameMoments(start, events);
    NoFramesWithoutSpans(c, events);
    RunAgrees(Thread(c, []), History(start, []), c.watermark, events);
    RunAgrees(Thread(c, []), History(start, []), c.watermark, WithoutSpans(events));
  }

  // ----- what the conditions exclude -----

  /** A block that comes and goes. */
  function Passing(size: Size): seq<Event> {
    [Requested(Allocate(size)), Requested(Deallocate(size))]
  }

  lemma {:induction false} PassingRuns(c: Counters, frames: seq<Frame>, size: Size, rest: seq<Event>)
    requires Nested(|frames|, rest)
    ensures Nested(|frames|, Passing(size) + rest)
    ensures var after := After(After(c, Allocate(size)), Deallocate(size));
            Run(Thread(c, frames), Passing(size) + rest) == Run(Thread(after, frames), rest)
  {
    var once := [Requested(Deallocate(size))] + rest;
    var high := After(c, Allocate(size));
    assert (Passing(size) + rest)[1..] == once && once[1..] == rest;
    assert Nested(|frames|, once);
    assert Run(Thread(high, frames), once) == Run(Thread(After(high, Deallocate(size)), frames), rest);
  }

  /** Two large blocks bring the byte total of a new thread up to 2^64 - 2. */
  const FILLED := Counters(2 * I64_MAX, 2, 0, I64_MAX)

  lemma {:induction false} FillingRuns(rest: seq<Event>)
    requires Nested(0, rest)
    ensures var events := Passing(I64_MAX) + (Passing(I64_MAX) + rest);
            Nested(0, events) && Run(Thread(ZERO, []), events) == Run(Thread(FILLED, []), rest)
  {
    var once := Counters(I64_MAX, 1, 0, I64_MAX);
    PassingRuns(once, [], I64_MAX, rest);
    PassingRuns(ZERO, [], I64_MAX, Passing(I64_MAX) + rest);
    assert After(After(ZERO, Allocate(I64_MAX)), Deallocate(I64_MAX)) == once;
    assert After(After(once, Allocate(I64_MAX)), Deallocate(I64_MAX)) == FILLED;
  }

  /** A span in which a block of six bytes comes and goes. */
  function SixBytes(): seq<Event> {
    [Open] + (Passing(6) + [Close(false, Some(1), true)])
  }

  lemma {:induction false} SixBytesWrap()
    ensures Nested(0, SixBytes())
    ensures Run(Thread(FILLED, []), SixBytes()).0.c == Counters(4, 3, 0, I64_MAX)
    ensures Run(Thread(FILLED, []), SixBytes()).1 == [Decreased]
  {
    var close := Close(false, Some(1), true);
    var frame := Frame(2 * I64_MAX, 2, 0, I64_MAX);
    var rebased, after := Counters(2 * I64_MAX, 2, 0, 0), Counters(4, 3, 0, 6);
    LastClosing(after, frame, close);
    PassingRuns(rebased, [frame], 6, [close]);
    assert After(After(rebased, Allocate(6)), Deallocate(6)) == after;
    assert SixBytes()[1..] == Passing(6) + [close] && Opened(FILLED) == (rebased, frame) && [] + [frame] == [frame];
  }

  /** A span in which the byte total wraps panics, and hands the watermark back all the same. */
  lemma {:induction false} WrappedSpanPanics()
    ensures var events := Passing(I64_MAX) + (Passing(I64_MAX) + SixBytes());
            && Nested(0, events)
            && Run(Thread(ZERO, []), events).0.c == Counters(4, 3, 0, I64_MAX)
            && Run(Thread(ZERO, []), events).1 == [Decreased]
  {
    SixBytesWrap();
    FillingRuns(SixBytes());
  }

  lemma {:induction false} LastClosing(c: Counters, frame: Frame, close: Event)
    requires close.Close?
    ensures Nested(1, [close]) && Run(Thread(c, [frame]), [close]).0.c == Restored(c, frame)
    ensures Run(Thread(c, [frame]), [close]).1
            == [Closed(c, frame, close.panicking, close.iterations, close.recordPeak)]
  {
    assert [close][1..] == [];
    assert Nested(1, [close]);
  }

  /** A level more than 2^63 - 1 above the entry level is really cut off: a thread that first
      frees 2^63 - 1 bytes of another thread's memory and then allocates as much twice. */
  lemma FarPeaksSaturate()
    ensures var big: Size := I64_MAX;
            var events := [Requested(Deallocate(big)), Open, Requested(Allocate(big)), Requested(Allocate(big)),
                           Close(false, Some(1), true)];
            && Nested(0, events)
            && Run(Thread(ZERO, []), events).1 == [Measured(SpanMeasurement(1, 2 * I64_MAX, 2, Some(I64_MAX)))]
  {
    var big: Size := I64_MAX;
    var close := Close(false, Some(1), true);
    var e2 := [Requested(Allocate(big)), close];
    var e3 := [Requested(Allocate(big)), Requested(Allocate(big)), close];
    var e4 := [Open, Requested(Allocate(big)), Requested(Allocate(big)), close];
    var events := [Requested(Deallocate(big)), Open, Requested(Allocate(big)), Requested(Allocate(big)), close];
    assert events[1..] == e4 && e4[1..] == e3 && e3[1..] == e2 && e2[1..] == [close] && [close][1..] == [];
    assert Nested(1, [close]) && Nested(1, e2) && Nested(1, e3) && Nested(0, e4) && Nested(0, events);
    var frame := Frame(0, 0, -I64_MAX, 0);
    var low := Counters(0, 0, -I64_MAX, 0);
    var rebased := Counters(0, 0, -I64_MAX, -I64_MAX);
    var level := Counters(I64_MAX, 1, 0, 0);
    var high := Counters(2 * I64_MAX, 2, I64_MAX, I64_MAX);
    assert After(ZERO, Deallocate(big)) == low && Opened(low) == (rebased, frame);
    assert After(rebased, Allocate(big)) == level && After(level, Allocate(big)) == high;
    assert Run(Thread(ZERO, []), events) == Run(Thread(low, []), e4);
    assert Run(Thread(low, []), e4) == Run(Thread(rebased, [] + [frame]), e3);
    assert [] + [frame] == [frame];
    assert Run(Thread(rebased, [frame]), e3) == Run(Thread(level, [frame]), e2);
    assert Run(Thread(level, [frame]), e2) == Run(Thread(high, [frame]), [close]);
  }

  /** Spans have to close in reverse order of opening, as their callers promise. Closing the
      outer of two spans first gives the inner one a peak that it never had. */
  lemma ClosingOrderMatters(c: Counters)
    requires c.outstanding < c.watermark
    ensures var (c1, outer) := Opened(c);
            var (c2, inner) := Opened(c1);
            && PeakOf(c2, inner) == 0
            && PeakOf(Restored(c2, outer), inner) == Min(c.watermark - c.outstanding, I64_MAX)
  {
  }

  /** And it takes away from the outer one what it reached before the inner one opened. */
  lemma ClosingOrderLosesPeaks(size: Size)
    requires 0 < size
    ensures var (c1, outer) := Opened(ZERO);
            var c2 := After(After(c1, Allocate(size)), Deallocate(size));
            var (c3, inner) := Opened(c2);
            PeakOf(c2, outer) == size && PeakOf(c3, outer) == 0
  {
    var outer := Frame(0, 0, 0, 0);
    var high, low := Counters(size, 1, size, size), Counters(size, 1, 0, size);
    assert Opened(ZERO) == (ZERO, outer) && After(ZERO, Allocate(size)) == high && After(high, Deallocate(size)) == low;
    assert PeakOf(low, outer) == size && PeakOf(Opened(low).0, outer) == 0;
  }
}
