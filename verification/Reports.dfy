/** Sessions, their reports, and merging reports in any grouping. */
module Reports {
  import opened MachineIntegers
  import opened Permutations
  import opened MetricsAlgebra
  import opened OperationMetrics

  /** Per operation name, the figures captured. */
  type Report = map<string, Totals>

  /** What a session is told: that an operation exists, or that one of its spans closed. */
  datatype Activity = Declared(name: string) | Recorded(name: string, span: SpanMeasurement)

  ghost predicate AllFit(r: Report) {
    forall name :: name in r ==> Fits(r[name])
  }

  ghost predicate AllCoherent(r: Report) {
    forall name :: name in r ==> Coherent(r[name])
  }

  // ----- what a session records -----

  /** The figures of a name, nothing if it does not occur. */
  function Figures(r: Report, name: string): Totals {
    if name in r then r[name] else EMPTY
  }

  /** One activity; `None` where a total overflows and the original panics. A span's
      operation is declared before the span is recorded. */
  function Note(r: Report, activity: Activity): Option<Report> {
    match activity
    case Declared(name) => Some(if name in r then r else r[name := EMPTY])
    case Recorded(name, span) =>
      var sum := Plus(Figures(r, name), Single(span));
      if Fits(sum) then Some(r[name := sum]) else None
  }

  function NoteAll(r: Report, log: seq<Activity>): Option<Report>
    decreases |log|
  {
    if log == [] then Some(r)
    else
      var next := Note(r, log[0]);
      if next.None? then None else NoteAll(next.value, log[1..])
  }

  /** The report of one session that saw exactly these activities. */
  function SessionReport(log: seq<Activity>): Option<Report> {
    NoteAll(map[], log)
  }

  // ----- merging -----

  /** The figures of a name that at least one of the reports has. */
  function PlusAt(a: Report, b: Report, name: string): Totals
    requires name in a || name in b
  {
    if name !in b then a[name] else if name !in a then b[name] else Plus(a[name], b[name])
  }

  /** The figures of both, added up per name. */
  function PlusReports(a: Report, b: Report): Report {
    map name | name in a.Keys + b.Keys :: PlusAt(a, b, name)
  }

  /** Starts from a copy of `a` and folds every operation of `b` into it. Answers false where
      a total overflows, whatever the order of iteration. */
  method Merge(a: Report, b: Report) returns (merged: Report, ok: bool)
    requires AllFit(a) && AllFit(b) && AllCoherent(a) && AllCoherent(b)
    ensures ok <==> AllFit(PlusReports(a, b))
    ensures ok ==> merged == PlusReports(a, b)
  {
    merged := a;
    var pending := b.Keys;
    while pending != {}
      invariant pending <= b.Keys
      invariant MergedUpTo(a, b, pending, merged)
      decreases |pending|
    {
      var name :| name in pending;
      if name in merged {
        var operation := new Metrics.Clone(merged[name]);
        var other := new Metrics.Clone(b[name]);
        var fine := operation.Merge(other);
        if !fine {
          assert name in PlusReports(a, b);
          return merged, false;
        }
        MergedFurther(a, b, pending, merged, name, operation.View());
        merged := merged[name := operation.View()];
      } else {
        MergedFurther(a, b, pending, merged, name, b[name]);
        merged := merged[name := b[name]];
      }
      pending := pending - {name};
    }
    MergedIsPlus(a, b, merged);
    ok := true;
  }

  /** The names of `b` still pending are as in `a`; all others are added up and fit. */
  ghost predicate MergedUpTo(a: Report, b: Report, pending: set<string>, merged: Report) {
    && merged.Keys == a.Keys + (b.Keys - pending)
    && (forall name :: name in merged && name in pending ==> name in a && merged[name] == a[name])
    && (forall name :: name in merged && name !in pending ==>
          (name in a || name in b) && merged[name] == PlusAt(a, b, name) && Fits(merged[name]))
  }

  lemma MergedIsPlus(a: Report, b: Report, merged: Report)
    requires MergedUpTo(a, b, {}, merged)
    ensures merged == PlusReports(a, b) && AllFit(merged)
  {
    assert merged.Keys == PlusReports(a, b).Keys;
  }

  lemma MergedFurther(a: Report, b: Report, pending: set<string>, merged: Report, name: string, figures: Totals)
    requires MergedUpTo(a, b, pending, merged) && pending <= b.Keys && name in pending
    requires figures == PlusAt(a, b, name) && Fits(figures)
    ensures MergedUpTo(a, b, pending - {name}, merged[name := figures])
  {
  }

  /** Sessions at the leaves, merges above them. */
  datatype Merges = Session(log: seq<Activity>) | Merged(left: Merges, right: Merges)

  function Evaluate(tree: Merges): Option<Report> {
    match tree
    case Session(log) => SessionReport(log)
    case Merged(left, right) =>
      var l, r := Evaluate(left), Evaluate(right);
      if l.None? || r.None? then None
      else
        var sum := PlusReports(l.value, r.value);
        if forall name :: name in sum ==> Fits(sum[name]) then Some(sum) else None
  }

  function Everything(tree: Merges): seq<Activity> {
    match tree
    case Session(log) => log
    case Merged(left, right) => Everything(left) + Everything(right)
  }

  // ----- the reference: all spans of a name, folded -----

  function NamesIn(log: seq<Activity>): set<string> {
    set activity | activity in log :: activity.name
  }

  function SpansOf(log: seq<Activity>, name: string): seq<SpanMeasurement> {
    if log == [] then []
    else
      var rest := SpansOf(log[1..], name);
      if log[0].Recorded? && log[0].name == name then [log[0].span] + rest else rest
  }

  function Whole(log: seq<Activity>): Report {
    map name | name in NamesIn(log) :: Fold(SpansOf(log, name))
  }

  lemma {:induction false} SpansOfAppends(xs: seq<Activity>, ys: seq<Activity>, name: string)
    ensures SpansOf(xs + ys, name) == SpansOf(xs, name) + SpansOf(ys, name)
    decreases |xs|
  {
    if xs == [] {
      assert [] + ys == ys;
    } else {
      assert (xs + ys)[1..] == xs[1..] + ys;
      SpansOfAppends(xs[1..], ys, name);
    }
  }

  lemma {:induction false} NoSpansOfStrangers(log: seq<Activity>, name: string)
    requires name !in NamesIn(log)
    ensures SpansOf(log, name) == []
    decreases |log|
  {
    if log != [] {
      assert log[0] in log;
      assert NamesIn(log[1..]) <= NamesIn(log);
      NoSpansOfStrangers(log[1..], name);
    }
  }

  lemma FiguresAddUp(a: Report, b: Report, name: string)
    ensures Figures(PlusReports(a, b), name) == Plus(Figures(a, name), Figures(b, name))
  {
    if name !in b {
      EmptyIsNeutral(Figures(a, name));
    } else if name !in a {
      EmptyIsNeutral(Figures(b, name));
    }
  }

  lemma SameReport(a: Report, b: Report)
    requires a.Keys == b.Keys && forall name :: name in a ==> Figures(a, name) == Figures(b, name)
    ensures a == b
  {
    forall name | name in a ensures a[name] == b[name] {
      assert Figures(a, name) == Figures(b, name);
    }
  }

  lemma FiguresOfWhole(log: seq<Activity>, name: string)
    ensures Figures(Whole(log), name) == Fold(SpansOf(log, name))
  {
    if name !in NamesIn(log) { NoSpansOfStrangers(log, name); }
  }

  lemma WholeAppends(xs: seq<Activity>, ys: seq<Activity>)
    ensures Whole(xs + ys) == PlusReports(Whole(xs), Whole(ys))
  {
    var left, right := Whole(xs + ys), PlusReports(Whole(xs), Whole(ys));
    assert NamesIn(xs + ys) == NamesIn(xs) + NamesIn(ys);
    forall name ensures Figures(left, name) == Figures(right, name) {
      SpansOfAppends(xs, ys, name);
      FoldAppends(SpansOf(xs, name), SpansOf(ys, name));
      FiguresOfWhole(xs + ys, name);
      FiguresOfWhole(xs, name);
      FiguresOfWhole(ys, name);
      FiguresAddUp(Whole(xs), Whole(ys), name);
    }
    SameReport(left, right);
  }

  lemma WholeIsCoherent(log: seq<Activity>)
    ensures AllCoherent(Whole(log))
  {
    forall name | name in Whole(log) ensures Coherent(Whole(log)[name]) {
      FoldIsCoherent(SpansOf(log, name));
    }
  }

  lemma PartsOfReportsFit(a: Report, b: Report)
    requires AllCoherent(a) && AllCoherent(b) && AllFit(PlusReports(a, b))
    ensures AllFit(a) && AllFit(b)
  {
    var sum := PlusReports(a, b);
    forall name | name in a ensures Fits(a[name]) {
      assert name in sum;
      if name in b { PartsFit(a[name], b[name]); }
    }
    forall name | name in b ensures Fits(b[name]) {
      assert name in sum;
      if name in a { PartsFit(a[name], b[name]); }
    }
  }

  // ----- one session -----

  lemma {:induction false} WholeOfDeclared(name: string)
    ensures Whole([Declared(name)]) == map[name := EMPTY]
  {
    var log := [Declared(name)];
    assert NamesIn(log) == {name} by { assert log[0] in log; }
    assert SpansOf(log, name) == [] by { assert log[1..] == []; }
  }

  lemma {:induction false} WholeOfRecorded(name: string, span: SpanMeasurement)
    ensures Whole([Recorded(name, span)]) == map[name := Single(span)]
  {
    var log := [Recorded(name, span)];
    assert NamesIn(log) == {name} by { assert log[0] in log; }
    assert SpansOf(log, name) == [span] by { assert log[1..] == []; }
    FoldOfOne(span);
  }

  lemma {:induction false} FoldOfOne(span: SpanMeasurement)
    ensures Fold([span]) == Single(span)
  {
    EmptyIsNeutral(Single(span));
    assert [span][1..] == [];
  }

  lemma NoteIsPlus(r: Report, activity: Activity)
    requires AllFit(r)
    ensures var sum := PlusReports(r, Whole([activity]));
            && (Note(r, activity).Some? <==> AllFit(sum))
            && (Note(r, activity).Some? ==> Note(r, activity).value == sum)
  {
    match activity
    case Declared(name) =>
      WholeOfDeclared(name);
      DeclaringIsPlus(r, name);
    case Recorded(name, span) =>
      WholeOfRecorded(name, span);
      RecordingIsPlus(r, name, Single(span));
      UpdateFits(r, name, Plus(Figures(r, name), Single(span)));
  }

  lemma UpdateFits(r: Report, name: string, figures: Totals)
    requires AllFit(r)
    ensures AllFit(r[name := figures]) <==> Fits(figures)
  {
    assert r[name := figures][name] == figures;
  }

  lemma DeclaringIsPlus(r: Report, name: string)
    ensures PlusReports(r, map[name := EMPTY]) == if name in r then r else r[name := EMPTY]
  {
    if name in r { EmptyIsNeutral(r[name]); }
  }

  lemma RecordingIsPlus(r: Report, name: string, addition: Totals)
    ensures PlusReports(r, map[name := addition]) == r[name := Plus(Figures(r, name), addition)]
  {
    EmptyIsNeutral(addition);
  }

  lemma {:induction false} NoteAllIsPlus(r: Report, log: seq<Activity>)
    requires AllFit(r) && AllCoherent(r)
    ensures var sum := PlusReports(r, Whole(log));
            && (NoteAll(r, log).Some? <==> AllFit(sum))
            && (NoteAll(r, log).Some? ==> NoteAll(r, log).value == sum)
    decreases |log|
  {
    if log == [] {
      assert PlusReports(r, Whole(log)) == r;
    } else {
      var one, rest := Whole([log[0]]), Whole(log[1..]);
      NoteIsPlus(r, log[0]);
      WholeUnrolls(r, log);
      WholeIsCoherent([log[0]]);
      WholeIsCoherent(log[1..]);
      PlusReportsIsCoherent(r, one);
      if Note(r, log[0]).Some? {
        NoteAllIsPlus(PlusReports(r, one), log[1..]);
      } else if AllFit(PlusReports(PlusReports(r, one), rest)) {
        PartsOfReportsFit(PlusReports(r, one), rest);
      }
    }
  }

  lemma {:induction false} WholeUnrolls(r: Report, log: seq<Activity>)
    requires log != []
    ensures PlusReports(r, Whole(log)) == PlusReports(PlusReports(r, Whole([log[0]])), Whole(log[1..]))
  {
    assert log == [log[0]] + log[1..];
    WholeAppends([log[0]], log[1..]);
    PlusReportsAssociates(r, Whole([log[0]]), Whole(log[1..]));
  }

  lemma PlusReportsAssociates(a: Report, b: Report, c: Report)
    ensures PlusReports(PlusReports(a, b), c) == PlusReports(a, PlusReports(b, c))
  {
    var left, right := PlusReports(PlusReports(a, b), c), PlusReports(a, PlusReports(b, c));
    assert left.Keys == right.Keys;
    forall name | name in left ensures left[name] == right[name] {
      if name in a && name in b && name in c { PlusAssociates(a[name], b[name], c[name]); }
    }
  }

  lemma PlusReportsCommutes(a: Report, b: Report)
    ensures PlusReports(a, b) == PlusReports(b, a)
  {
    var left, right := PlusReports(a, b), PlusReports(b, a);
    assert left.Keys == right.Keys;
    forall name | name in left ensures left[name] == right[name] {
      if name in a && name in b { PlusCommutes(a[name], b[name]); }
    }
  }

  lemma PlusReportsIsCoherent(a: Report, b: Report)
    requires AllCoherent(a) && AllCoherent(b)
    ensures AllCoherent(PlusReports(a, b))
  {
  }

  /** A session's report is the reference, and recording panics if and only if some name's
      total does not fit. */
  lemma SessionReportIsWhole(log: seq<Activity>)
    ensures SessionReport(log) == if AllFit(Whole(log)) then Some(Whole(log)) else None
  {
    NoteAllIsPlus(map[], log);
    assert PlusReports(map[], Whole(log)) == Whole(log);
  }

  // ----- any grouping, any order -----

  lemma {:induction false} EvaluateIsWhole(tree: Merges)
    ensures var whole := Whole(Everything(tree));
            Evaluate(tree) == if AllFit(whole) then Some(whole) else None
    decreases tree
  {
    match tree
    case Session(log) => SessionReportIsWhole(log);
    case Merged(left, right) =>
      EvaluateIsWhole(left);
      EvaluateIsWhole(right);
      WholeAppends(Everything(left), Everything(right));
      WholeIsCoherent(Everything(left));
      WholeIsCoherent(Everything(right));
      var sum := PlusReports(Whole(Everything(left)), Whole(Everything(right)));
      if AllFit(sum) { PartsOfReportsFit(Whole(Everything(left)), Whole(Everything(right))); }
  }

  lemma {:induction false} SpansOfKeepsMultiset(xs: seq<Activity>, ys: seq<Activity>, name: string)
    requires multiset(xs) == multiset(ys)
    ensures multiset(SpansOf(xs, name)) == multiset(SpansOf(ys, name))
    decreases |xs|
  {
    if xs == [] {
      NothingIsNothing(xs, ys);
    } else {
      var i := MatchHead(xs, ys);
      SpansOfKeepsMultiset(xs[1..], Without(ys, i), name);
      TakeOut(ys, i);
      SpansOfAppends(ys[..i], ys[i + 1..], name);
      SpansOfAppends(ys[..i], [ys[i]] + ys[i + 1..], name);
      assert ([ys[i]] + ys[i + 1..])[1..] == ys[i + 1..];
    }
  }

  lemma WholeIgnoresOrder(xs: seq<Activity>, ys: seq<Activity>)
    requires multiset(xs) == multiset(ys)
    ensures Whole(xs) == Whole(ys)
  {
    assert forall a :: a in xs <==> a in multiset(xs);
    assert forall a :: a in ys <==> a in multiset(ys);
    assert NamesIn(xs) == NamesIn(ys);
    forall name | name in NamesIn(xs) ensures Whole(xs)[name] == Whole(ys)[name] {
      SpansOfKeepsMultiset(xs, ys, name);
      FoldIgnoresOrder(SpansOf(xs, name), SpansOf(ys, name));
    }
  }

  /** Recording any activities in one session gives the same report, or the same panic, as
      spreading them over any sessions in any order and merging in any grouping. */
  lemma GroupingDoesNotMatter(log: seq<Activity>, tree: Merges)
    requires multiset(log) == multiset(Everything(tree))
    ensures Evaluate(tree) == SessionReport(log)
  {
    EvaluateIsWhole(tree);
    SessionReportIsWhole(log);
    WholeIgnoresOrder(log, Everything(tree));
  }

  /** Per name, a merged report does not withhold the peak if and only if every span recorded
      anywhere under that name had one. */
  lemma PeakSurvivesExactlyWhen(tree: Merges, name: string)
    requires Evaluate(tree).Some? && name in Evaluate(tree).value
    ensures Evaluate(tree).value[name].peak.Available?
            <==> forall s :: s in SpansOf(Everything(tree), name) ==> s.peak.Some?
  {
    EvaluateIsWhole(tree);
    PeakNeedsEverySpan(SpansOf(Everything(tree), name));
  }

  /** And it reports one if and only if, besides, some of these spans covered an iteration. */
  lemma PeakIsShownExactlyWhen(tree: Merges, name: string)
    requires Evaluate(tree).Some? && name in Evaluate(tree).value
    ensures var spans := SpansOf(Everything(tree), name);
            ReportsPeak(Evaluate(tree).value[name])
            <==> (forall s :: s in spans ==> s.peak.Some?) && exists s :: s in spans && s.iterations != 0
  {
    EvaluateIsWhole(tree);
    PeakIsReportedExactlyWhen(SpansOf(Everything(tree), name));
  }

  /** The spans of a name are what was recorded under it, each as often as it was. */
  lemma {:induction false} SpansOfAreRecorded(log: seq<Activity>, name: string, span: SpanMeasurement)
    ensures multiset(SpansOf(log, name))[span] == multiset(log)[Recorded(name, span)]
    decreases |log|
  {
    if log != [] {
      SpansOfAreRecorded(log[1..], name, span);
      assert log == [log[0]] + log[1..];
    }
  }

  /** Per name, the figures of a merged report are exactly the sums and samples of the spans
      recorded anywhere under that name; and the names are those declared or recorded. */
  lemma EvaluateAddsUp(tree: Merges, name: string)
    requires Evaluate(tree).Some?
    ensures name in Evaluate(tree).value <==> exists activity :: activity in Everything(tree) && activity.name == name
    ensures name in Evaluate(tree).value ==>
              AreFiguresOf(Evaluate(tree).value[name], SpansOf(Everything(tree), name))
  {
    EvaluateIsWhole(tree);
    FoldAddsUp(SpansOf(Everything(tree), name));
  }
}
