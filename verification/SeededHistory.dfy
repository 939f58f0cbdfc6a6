/** What importing the synthetic history builds, and finding its commits again
    (packages/cargo-bench-history-stress/src/repo.rs). */
module SeededHistory {
  import opened MachineIntegers
  import opened Texts
  import opened FastImport
  import opened HistoryStream

  // ----- the repository -----

  function TimeOf(main: seq<Timestamp>, feature: seq<Timestamp>, k: nat): Timestamp
    requires k < |main| + |feature|
  {
    if k < |main| then main[k] else feature[k - |main|]
  }

  /** The commit with a mark: its parent is the one before it, across the branch point. */
  function CommitMarked(main: seq<Timestamp>, feature: seq<Timestamp>, mark: nat): Stored
    requires 1 <= mark <= |main| + |feature|
  {
    Stored(if mark == 1 then None else Some(mark - 1), Seconds(TimeOf(main, feature, mark - 1)),
           "commit " + Decimal(mark - 1) + "\n", map[FILE := "state " + Decimal(mark - 1) + "\n"])
  }

  const MAIN_REF := HEADS + BRANCH_MAIN
  const FEATURE_REF := HEADS + BRANCH_FEATURE

  /** The branches once the first `k` commits are in. */
  function TipsAfter(mainCount: nat, k: nat): map<string, nat> {
    if k == 0 then map[]
    else if k <= mainCount then map[MAIN_REF := k]
    else map[MAIN_REF := mainCount, FEATURE_REF := k]
  }

  /** The first `k` commits, known by the marks from 1 on. */
  function After(main: seq<Timestamp>, feature: seq<Timestamp>, k: nat): Repository
    requires k <= |main| + |feature|
  {
    Repository(map m: nat | 1 <= m <= k :: CommitMarked(main, feature, m), TipsAfter(|main|, k))
  }

  lemma BranchesDiffer()
    ensures MAIN_REF != FEATURE_REF && '\n' !in BRANCH_MAIN && '\n' !in BRANCH_FEATURE
  {
    assert MAIN_REF[|HEADS|] == 'm' && FEATURE_REF[|HEADS|] == 'f';
  }

  // ----- executing the plan -----

  lemma OneChange(tree: map<string, string>, path: string, content: string)
    requires forall p :: p in tree ==> p == path
    ensures Changed(tree, [Change(path, content)]) == map[path := content]
  {
    assert [Change(path, content)][1..] == [];
  }

  /** Without a main commit, the branch point is a mark that nothing has. */
  lemma NoBranchPoint(main: seq<Timestamp>, feature: seq<Timestamp>)
    requires main == [] && feature != []
    ensures Execute(EMPTY, Commanded(Plan(main, feature, 0))) == None
  {
  }

  lemma CommitsGrow(main: seq<Timestamp>, feature: seq<Timestamp>, k: nat)
    requires k < |main| + |feature|
    ensures After(main, feature, k).commits[k + 1 := CommitMarked(main, feature, k + 1)]
            == After(main, feature, k + 1).commits
  {
  }

  lemma TipsGrow(main: seq<Timestamp>, feature: seq<Timestamp>, k: nat)
    requires k < |main| + |feature| && main != []
    ensures var c := Commanded(Plan(main, feature, k));
            && TipsAfter(|main|, k)[c.ref := c.mark] == TipsAfter(|main|, k + 1)
            && (k != |main| ==>
                  && c.from == None
                  && if k == 0 then c.ref !in TipsAfter(|main|, k)
                     else c.ref in TipsAfter(|main|, k) && TipsAfter(|main|, k)[c.ref] == k)
            && (k == |main| ==> c.from == Some(k))
  {
    BranchesDiffer();
  }

  lemma PlanExecutes(main: seq<Timestamp>, feature: seq<Timestamp>, k: nat)
    requires k < |main| + |feature| && main != []
    ensures Execute(After(main, feature, k), Commanded(Plan(main, feature, k))) == Some(After(main, feature, k + 1))
  {
    var r, c := After(main, feature, k), Commanded(Plan(main, feature, k));
    TipsGrow(main, feature, k);
    assert k > 0 ==> r.commits[k] == CommitMarked(main, feature, k);
    var tree := if k > 0 then r.commits[k].tree else map[];
    OneChange(tree, FILE, Content(Plan(main, feature, k)));
    CommitsGrow(main, feature, k);
  }

  // ----- importing the stream -----

  lemma {:induction false} StreamStarts(texts: seq<string>)
    requires forall k :: 0 <= k < |texts| ==> texts[k] != "" && texts[k][0] == 'c'
    ensures Concat(texts) == "" || Concat(texts)[0] == 'c'
  {
  }

  lemma CommitTextStarts(c: Planned)
    ensures CommitText(c, "") != "" && CommitText(c, "")[0] == 'c'
  {
    assert COMMIT[0] == 'c' && RefLine(c)[0] == 'c';
  }

  /** The stream from commit `k` on starts with that commit. */
  lemma {:induction false} StreamUnfolds(main: seq<Timestamp>, feature: seq<Timestamp>, k: nat)
    requires k < |main| + |feature|
    ensures var rest := Concat(CommitTexts(main, feature)[k + 1..]);
            && Concat(CommitTexts(main, feature)[k..]) == CommitText(Plan(main, feature, k), rest)
            && (rest == "" || rest[0] == 'c')
  {
    var texts := CommitTexts(main, feature);
    CommitTextFloats(Plan(main, feature, k), Concat(texts[k + 1..]));
    assert texts[k..][1..] == texts[k + 1..];
    forall i | 0 <= i < |texts| ensures texts[i] != "" && texts[i][0] == 'c' {
      CommitTextStarts(Plan(main, feature, i));
    }
    StreamStarts(texts[k + 1..]);
  }

  lemma PlanIsWritable(main: seq<Timestamp>, feature: seq<Timestamp>, k: nat)
    requires k < |main| + |feature| <= U64_MAX
    ensures Writable(Plan(main, feature, k))
  {
    BranchesDiffer();
  }

  lemma {:induction false} ImportsOne(main: seq<Timestamp>, feature: seq<Timestamp>, k: nat, r: Repository)
    requires k < |main| + |feature| <= U64_MAX
    ensures var next := Execute(r, Commanded(Plan(main, feature, k)));
            Import(r, Concat(CommitTexts(main, feature)[k..]))
            == if next.None? then None else Import(next.value, Concat(CommitTexts(main, feature)[k + 1..]))
  {
    StreamUnfolds(main, feature, k);
    PlanIsWritable(main, feature, k);
    CommitIsRead(Plan(main, feature, k), Concat(CommitTexts(main, feature)[k + 1..]));
  }

  lemma {:induction false} ImportsRest(main: seq<Timestamp>, feature: seq<Timestamp>, k: nat)
    requires k <= |main| + |feature| <= U64_MAX && main != []
    ensures Import(After(main, feature, k), Concat(CommitTexts(main, feature)[k..]))
            == Some(After(main, feature, |main| + |feature|))
    decreases |main| + |feature| - k
  {
    if k < |main| + |feature| {
      ImportsOne(main, feature, k, After(main, feature, k));
      PlanExecutes(main, feature, k);
      ImportsRest(main, feature, k + 1);
    }
  }

  /** The text that `BuildStream` builds. */
  ghost predicate IsStream(stream: string, main: seq<Timestamp>, feature: seq<Timestamp>) {
    Buffer(stream) == Holding(CommitTexts(main, feature), |main| + |feature|)
  }

  lemma {:induction false} HeldIsConcat(stream: string, texts: seq<string>, n: nat)
    requires n == |texts| && Buffer(stream) == Holding(texts, n)
    ensures stream == Concat(texts[0..])
  {
    HoldingAll(texts, n);
  }

  lemma {:induction false} ChainImports(main: seq<Timestamp>, feature: seq<Timestamp>)
    requires |main| + |feature| <= U64_MAX && main != []
    ensures Import(EMPTY, Concat(CommitTexts(main, feature)[0..])) == Some(After(main, feature, |main| + |feature|))
  {
    NothingYet(main, feature);
    ImportsRest(main, feature, 0);
  }

  lemma {:induction false} OrphanIsRefused(main: seq<Timestamp>, feature: seq<Timestamp>)
    requires |main| + |feature| <= U64_MAX && main == [] && feature != []
    ensures Import(EMPTY, Concat(CommitTexts(main, feature)[0..])) == None
  {
    ImportsOne(main, feature, 0, EMPTY);
    NoBranchPoint(main, feature);
  }

  lemma {:induction false} NothingImports()
    ensures Import(EMPTY, Concat(CommitTexts([], [])[0..])) == Some(After([], [], 0))
  {
    NothingYet([], []);
  }

  lemma NothingYet(main: seq<Timestamp>, feature: seq<Timestamp>)
    ensures After(main, feature, 0) == EMPTY
  {
  }

  /** Importing the stream succeeds exactly if there is a main commit or no feature commit;
      then it builds one chain of the main commits with the feature commits on top of it,
      each with its date in whole seconds. */
  lemma {:induction false} StreamImportsExactlyWhen(stream: string, main: seq<Timestamp>, feature: seq<Timestamp>)
    requires IsStream(stream, main, feature) && |main| + |feature| <= U64_MAX
    ensures Import(EMPTY, stream)
            == if main == [] && feature != [] then None else Some(After(main, feature, |main| + |feature|))
  {
    HeldIsConcat(stream, CommitTexts(main, feature), |main| + |feature|);
    if main != [] {
      ChainImports(main, feature);
    } else if feature != [] {
      OrphanIsRefused(main, feature);
    } else {
      NothingImports();
    }
  }
}
