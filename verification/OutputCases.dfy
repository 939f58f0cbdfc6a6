/** The Callgrind and Criterion cases: the scan of one file per case keeps all their files
    apart (packages/cargo-bench-history-faker/src/writers.rs). */
module OutputCases {
  import opened MachineIntegers
  import opened Texts
  import opened FileNames
  import opened OutputPaths
  import opened OutputWrites

  const SUMMARY := "summary.json"
  const BENCHMARK := "benchmark.json"
  const ESTIMATES := "estimates.json"
  const NEW := "new"

  datatype CallgrindCase = CallgrindCase(group: string, content: string)

  datatype CriterionCase =
    CriterionCase(group: string, functionId: string, value: string, benchmark: string, estimates: string)

  function SanitizeAll(parts: seq<string>): (r: Path)
    ensures |r| == |parts| && forall i :: 0 <= i < |r| ==> r[i] == Sanitize(parts[i])
  {
    seq(|parts|, i requires 0 <= i < |parts| => Sanitize(parts[i]))
  }

  function CallgrindDir(root: Path, c: CallgrindCase): Path {
    root + ["gungraun"] + SanitizeAll(Split(c.group, '/'))
  }

  function CriterionDir(root: Path, c: CriterionCase): (dir: Path)
    ensures |root| + 4 <= |dir| <= |root| + 5 && dir[|dir| - 1] == NEW
  {
    root + ["criterion", Sanitize(c.group), Sanitize(c.functionId)]
    + (if c.value == "" then [] else [Sanitize(c.value)]) + [NEW]
  }

  /** Which part of a case names which directory. */
  lemma DirectoriesByPosition(root: Path, callgrind: CallgrindCase, criterion: CriterionCase)
    ensures var dir, parts := CallgrindDir(root, callgrind), Split(callgrind.group, '/');
            && |dir| == |root| + 1 + |parts| && dir[..|root|] == root && dir[|root|] == "gungraun"
            && forall i :: 0 <= i < |parts| ==> dir[|root| + 1 + i] == Sanitize(parts[i])
    ensures var dir := CriterionDir(root, criterion);
            && |dir| == |root| + (if criterion.value == "" then 4 else 5)
            && dir[..|root|] == root && dir[|root|] == "criterion" && dir[|dir| - 1] == "new"
            && dir[|root| + 1] == Sanitize(criterion.group) && dir[|root| + 2] == Sanitize(criterion.functionId)
            && (criterion.value != "" ==> dir[|root| + 3] == Sanitize(criterion.value))
  {
  }

  function FullId(c: CriterionCase): (id: string)
    ensures id == Join([c.group, c.functionId] + if c.value == "" then [] else [c.value], "/")
  {
    assert [c.group, c.functionId] + [] == [c.group, c.functionId];
    assert [c.group, c.functionId] + [c.value] == [c.group, c.functionId, c.value];
    assert [c.group, c.functionId, c.value][1..] == [c.functionId, c.value];
    assert Join([c.functionId, c.value], "/") == c.functionId + "/" + c.value;
    if c.value == "" then c.group + "/" + c.functionId else c.group + "/" + c.functionId + "/" + c.value
  }

  function CallgrindOutputs(root: Path, cases: seq<CallgrindCase>): (r: seq<Output>)
    ensures |r| == |cases|
    ensures forall i :: 0 <= i < |r| ==> r[i] == Output(cases[i].group, CallgrindDir(root, cases[i]) + ["summary.json"])
  {
    seq(|cases|, i requires 0 <= i < |cases| => Output(cases[i].group, CallgrindDir(root, cases[i]) + [SUMMARY]))
  }

  function CriterionOutputs(root: Path, cases: seq<CriterionCase>): (r: seq<Output>)
    ensures |r| == |cases|
    ensures forall i :: 0 <= i < |r| ==>
              r[i] == Output(FullId(cases[i]), CriterionDir(root, cases[i]) + ["benchmark.json"])
  {
    seq(|cases|, i requires 0 <= i < |cases| => Output(FullId(cases[i]), CriterionDir(root, cases[i]) + [BENCHMARK]))
  }

  function CallgrindFiles(root: Path, cases: seq<CallgrindCase>): (r: seq<Case>)
    ensures |r| == |cases|
    ensures forall i :: 0 <= i < |r|
              ==> r[i] == Case(Folded(CallgrindDir(root, cases[i])), [("summary.json", cases[i].content)])
  {
    seq(|cases|, i requires 0 <= i < |cases| =>
      Case(Folded(CallgrindDir(root, cases[i])), [(SUMMARY, cases[i].content)]))
  }

  function CriterionFiles(root: Path, cases: seq<CriterionCase>): (r: seq<Case>)
    ensures |r| == |cases|
    ensures forall i :: 0 <= i < |r| ==>
              r[i] == Case(Folded(CriterionDir(root, cases[i])),
                           [("benchmark.json", cases[i].benchmark), ("estimates.json", cases[i].estimates)])
  {
    seq(|cases|, i requires 0 <= i < |cases| =>
      Case(Folded(CriterionDir(root, cases[i])), [(BENCHMARK, cases[i].benchmark), (ESTIMATES, cases[i].estimates)]))
  }

  // ----- writing -----

  /** Writes one case after the other; the first failure ends it. */
  method WriteAll(t: Tree, cases: seq<Case>) returns (outcome: Outcome)
    ensures outcome == WriteCases(t, cases)
  {
    var tree, replaced := t, false;
    for i := 0 to |cases|
      invariant WriteCases(t, cases)
                == match WriteCases(tree, cases[i..]) {
                     case Failed => Failed
                     case Done(last, others) => Done(last, replaced || others)
                   }
    {
      assert cases[i..][1..] == cases[i + 1..];
      var one := WriteCase(tree, cases[i]);
      if one.Failed? {
        return Failed;
      }
      tree, replaced := one.tree, replaced || one.replaced;
    }
    outcome := Done(tree, replaced);
  }

  /** Rejects colliding cases, else writes them. */
  method WriteCallgrindCases(t: Tree, root: Path, cases: seq<CallgrindCase>) returns (outcome: Option<Outcome>)
    ensures outcome == if PairwiseApart(Keys(CallgrindOutputs(root, cases)))
                       then Some(WriteCases(t, CallgrindFiles(root, cases))) else None
  {
    var conflict := AssertUniqueOutputPaths(CallgrindOutputs(root, cases));
    if conflict.Some? {
      return None;
    }
    var written := WriteAll(t, CallgrindFiles(root, cases));
    outcome := Some(written);
  }

  method WriteCriterionCases(t: Tree, root: Path, cases: seq<CriterionCase>) returns (outcome: Option<Outcome>)
    ensures outcome == if PairwiseApart(Keys(CriterionOutputs(root, cases)))
                       then Some(WriteCases(t, CriterionFiles(root, cases))) else None
  {
    var conflict := AssertUniqueOutputPaths(CriterionOutputs(root, cases));
    if conflict.Some? {
      return None;
    }
    var written := WriteAll(t, CriterionFiles(root, cases));
    outcome := Some(written);
  }

  // ----- one file per case is enough -----

  lemma NamesAreFolded()
    ensures Lower(SUMMARY) == SUMMARY && Lower(BENCHMARK) == BENCHMARK && Lower(NEW) == NEW
    ensures BENCHMARK != ESTIMATES && NEW != BENCHMARK && NEW != ESTIMATES
  {
    assert BENCHMARK[0] == 'b' && ESTIMATES[0] == 'e' && NEW[0] == 'n';
  }

  lemma FoldedFile(dir: Path, name: string)
    requires Lower(name) == name
    ensures Folded(dir + [name]) == Folded(dir) + [name]
  {
  }

  /** Directories that end alike, one level apart at most, hold files that are apart exactly
      if the directories differ. */
  lemma NewDirsApart(c: Path, d: Path, x: string, y: string)
    requires c != [] && d != [] && c[|c| - 1] == NEW == d[|d| - 1] && -1 <= |c| - |d| <= 1
    requires x != NEW && y != NEW
    ensures c != d ==> Apart(c + [x], d + [y])
    ensures c == d ==> (Apart(c + [x], d + [y]) <==> x != y)
  {
    var p, q := c + [x], d + [y];
    assert p[|c|] == x && q[|d|] == y && p[|c| - 1] == NEW && q[|d| - 1] == NEW;
    assert p[..|c|] == c && q[..|d|] == d;
    PrefixAgrees(p, q, |c|);
    PrefixAgrees(q, p, |d|);
    if |c| == |d| {
      assert (IsPrefix(p, q) || IsPrefix(q, p)) ==> p == q;
      assert p == q ==> c == d;
    }
  }

  lemma PrefixAgrees(p: Path, q: Path, k: nat)
    ensures IsPrefix(p, q) && k < |p| ==> p[k] == q[k]
  {
  }

  lemma CriterionPairApart(c: Case, d: Case)
    requires c.dir != [] && d.dir != [] && c.dir[|c.dir| - 1] == NEW == d.dir[|d.dir| - 1]
    requires -1 <= |c.dir| - |d.dir| <= 1
    requires |c.files| == 2 == |d.files| && c.files[0].0 == BENCHMARK == d.files[0].0
    requires c.files[1].0 == ESTIMATES == d.files[1].0
    ensures CrossApart(c, d) <==> Apart(c.dir + [BENCHMARK], d.dir + [BENCHMARK])
  {
    NamesAreFolded();
    forall j, k | 0 <= j < 2 && 0 <= k < 2 ensures c.dir != d.dir ==> Apart(PathOf(c, j), PathOf(d, k)) {
      NewDirsApart(c.dir, d.dir, c.files[j].0, d.files[k].0);
    }
    NewDirsApart(c.dir, d.dir, BENCHMARK, BENCHMARK);
    assert PathOf(c, 0) == c.dir + [BENCHMARK] && PathOf(d, 0) == d.dir + [BENCHMARK];
  }

  /** The scan of the benchmark files accepts exactly the lists whose files, estimates
      included, are all apart. */
  lemma CriterionScanIsExact(root: Path, cases: seq<CriterionCase>)
    ensures PairwiseApart(Keys(CriterionOutputs(root, cases))) <==> CasesApart(CriterionFiles(root, cases))
  {
    var keys, files := Keys(CriterionOutputs(root, cases)), CriterionFiles(root, cases);
    NamesAreFolded();
    forall i | 0 <= i < |cases| ensures keys[i] == files[i].dir + [BENCHMARK] && NamesDiffer(files[i]) {
      FoldedFile(CriterionDir(root, cases[i]), BENCHMARK);
    }
    forall i, j | 0 <= i < j < |cases| ensures CrossApart(files[i], files[j]) <==> Apart(keys[i], keys[j]) {
      CriterionPairApart(files[i], files[j]);
    }
  }

  lemma SingleFilesApart(c: Case, d: Case)
    requires |c.files| == 1 == |d.files|
    ensures CrossApart(c, d) <==> Apart(PathOf(c, 0), PathOf(d, 0))
  {
  }

  lemma CallgrindScanIsExact(root: Path, cases: seq<CallgrindCase>)
    ensures PairwiseApart(Keys(CallgrindOutputs(root, cases))) <==> CasesApart(CallgrindFiles(root, cases))
  {
    var keys, files := Keys(CallgrindOutputs(root, cases)), CallgrindFiles(root, cases);
    NamesAreFolded();
    forall i | 0 <= i < |cases| ensures keys[i] == PathOf(files[i], 0) && NamesDiffer(files[i]) {
      FoldedFile(CallgrindDir(root, cases[i]), SUMMARY);
    }
    forall i, j | 0 <= i < j < |cases| ensures CrossApart(files[i], files[j]) <==> Apart(keys[i], keys[j]) {
      SingleFilesApart(files[i], files[j]);
    }
  }

  /** Where nothing is in the way, Criterion cases that pass the scan can be written in any
      order with the same result, and cases that do not pass would fail or replace a file. */
  lemma {:induction false} CriterionCasesNeverCollide(t: Tree, root: Path, cases: seq<CriterionCase>, order: seq<nat>)
    requires NothingInTheWay(t, CriterionFiles(root, cases)) && IsOrder(order, |cases|)
    ensures var files := CriterionFiles(root, cases);
            && (Clean(WriteCases(t, files)) <==> PairwiseApart(Keys(CriterionOutputs(root, cases))))
            && (PairwiseApart(Keys(CriterionOutputs(root, cases))) ==>
                  && Clean(WriteCases(t, Reordered(files, order)))
                  && WriteCases(t, Reordered(files, order)).tree == WriteCases(t, files).tree
                  && IsUnion(WriteCases(t, files).tree, t, files))
  {
    CriterionScanIsExact(root, cases);
    WritesCasesExactlyWhen(t, CriterionFiles(root, cases));
    if CasesApart(CriterionFiles(root, cases)) {
      AnyOrderWritesTheSame(t, CriterionFiles(root, cases), order);
    }
  }

  lemma {:induction false} CallgrindCasesNeverCollide(t: Tree, root: Path, cases: seq<CallgrindCase>, order: seq<nat>)
    requires NothingInTheWay(t, CallgrindFiles(root, cases)) && IsOrder(order, |cases|)
    ensures var files := CallgrindFiles(root, cases);
            && (Clean(WriteCases(t, files)) <==> PairwiseApart(Keys(CallgrindOutputs(root, cases))))
            && (PairwiseApart(Keys(CallgrindOutputs(root, cases))) ==>
                  && Clean(WriteCases(t, Reordered(files, order)))
                  && WriteCases(t, Reordered(files, order)).tree == WriteCases(t, files).tree
                  && IsUnion(WriteCases(t, files).tree, t, files))
  {
    CallgrindScanIsExact(root, cases);
    WritesCasesExactlyWhen(t, CallgrindFiles(root, cases));
    if CasesApart(CallgrindFiles(root, cases)) {
      AnyOrderWritesTheSame(t, CallgrindFiles(root, cases), order);
    }
  }
}
