/** Reading back which commit IDs an import assigned
    (packages/cargo-bench-history-stress/src/repo.rs:203-250). */
module ExportedMarks {
  import opened MachineIntegers
  import opened Texts
  import opened FastImport
  import opened HistoryStream
  import opened SeededHistory

  // ----- parsing the marks -----

  function SplitOnce(s: string, separator: char): Option<(string, string)> {
    if s == "" then None
    else if s[0] == separator then Some(("", s[1..]))
    else
      var rest := SplitOnce(s[1..], separator);
      if rest.None? then None else Some(([s[0]] + rest.value.0, rest.value.1))
  }

  /** What a line says, if it is a mark, a space and an ID; the colon is optional. */
  function MarkOf(line: string): Option<(nat, string)> {
    var pieces := SplitOnce(line, ' ');
    if pieces.None? then None
    else
      var digits := StripPrefix(pieces.value.0, ":");
      var mark := ParseUnsigned(if digits.Some? then digits.value else pieces.value.0, U64_MAX);
      if mark.None? then None else Some((mark.value, pieces.value.1))
  }

  /** The IDs that the lines give the marks; the last line about a mark counts. */
  function MarksOf(lines: seq<string>): map<nat, string> {
    if lines == [] then map[]
    else
      var n := |lines| - 1;
      var before := MarksOf(lines[..n]);
      var last := MarkOf(lines[n]);
      if last.None? then before else before[last.value.0 := last.value.1]
  }

  method ParseMarks(text: string) returns (marks: map<nat, string>)
    ensures marks == MarksOf(Lines(text))
  {
    marks := map[];
    var lines := Lines(text);
    for i := 0 to |lines|
      invariant marks == MarksOf(lines[..i])
    {
      assert lines[..i + 1][..i] == lines[..i];
      var mark := MarkOf(lines[i]);
      if mark.Some? {
        marks := marks[mark.value.0 := mark.value.1];
      }
    }
    assert lines[..|lines|] == lines;
  }

  lemma {:induction false} SplitOnceExactlyWhen(s: string, separator: char, a: string, b: string)
    ensures SplitOnce(s, separator) == Some((a, b)) <==> separator !in a && s == a + [separator] + b
    decreases |s|
  {
    if s == "" {
      assert |a + [separator] + b| > 0;
    } else if s[0] == separator {
      if a == "" {
        assert "" + [separator] + b == [separator] + b && s == [s[0]] + s[1..];
        if s == [separator] + b { assert s[1..] == b; }
      } else {
        assert (a + [separator] + b)[0] == a[0] && a[0] in a;
      }
    } else if a == "" {
      assert (a + [separator] + b)[0] == separator;
    } else {
      SplitOnceExactlyWhen(s[1..], separator, a[1..], b);
      assert a == [a[0]] + a[1..];
      assert (a + [separator] + b)[1..] == a[1..] + [separator] + b && (a + [separator] + b)[0] == a[0];
      assert s == [s[0]] + s[1..];
      var rest := SplitOnce(s[1..], separator);
      if rest.Some? { assert ([s[0]] + rest.value.0)[1..] == rest.value.0; }
    }
  }

  lemma SpellingHasNoSpaceOrColon(digits: string, mark: nat)
    requires Spells(digits, mark)
    ensures ' ' !in digits && ':' !in digits
  {
    var zeros: nat :|
        var plain := Zeros(zeros) + Decimal(mark); digits == plain || digits == "+" + plain;
    var plain := Zeros(zeros) + Decimal(mark);
    assert forall c :: c in plain ==> IsDigit(c);
  }

  /** A line says something exactly if it is a spelled mark, with or without a colon in front, a
      space, and whatever follows. */
  lemma {:induction false} MarkOfExactlyWhen(line: string, mark: nat, id: string)
    ensures MarkOf(line) == Some((mark, id))
            <==> mark <= U64_MAX
                 && exists digits ::
                      Spells(digits, mark) && (line == digits + " " + id || line == ":" + digits + " " + id)
  {
    var pieces := SplitOnce(line, ' ');
    if MarkOf(line) == Some((mark, id)) {
      SplitOnceExactlyWhen(line, ' ', pieces.value.0, id);
      var front := pieces.value.0;
      var digits := if StripPrefix(front, ":").Some? then StripPrefix(front, ":").value else front;
      ParseAcceptsExactlySpellings(digits, mark, U64_MAX);
      assert Spells(digits, mark) && (line == digits + " " + id || line == ":" + digits + " " + id);
    }
    if digits :|
        mark <= U64_MAX && Spells(digits, mark) && (line == digits + " " + id || line == ":" + digits + " " + id) {
      SpellingHasNoSpaceOrColon(digits, mark);
      ParseAcceptsExactlySpellings(digits, mark, U64_MAX);
      var front := if line == digits + " " + id then digits else ":" + digits;
      SplitOnceExactlyWhen(line, ' ', front, id);
      if line == digits + " " + id {
        assert digits != "" && digits[0] in digits;
        assert !StartsWith(digits, ":");
      } else {
        assert (":" + digits)[..1] == ":" && (":" + digits)[1..] == digits;
      }
    }
  }

  predicate IsAbout(line: string, mark: nat) {
    MarkOf(line).Some? && MarkOf(line).value.0 == mark
  }

  /** Line `k` says that the mark has the ID, and no later line is about the mark. */
  ghost predicate Decides(lines: seq<string>, mark: nat, id: string, k: nat) {
    && k < |lines| && MarkOf(lines[k]) == Some((mark, id))
    && forall j :: k < j < |lines| ==> !IsAbout(lines[j], mark)
  }

  lemma {:induction false} DecidesWithoutLast(lines: seq<string>, mark: nat, id: string, k: nat)
    requires lines != [] && !IsAbout(lines[|lines| - 1], mark)
    ensures Decides(lines, mark, id, k) <==> Decides(lines[..|lines| - 1], mark, id, k)
  {
    var n := |lines| - 1;
    assert forall j :: 0 <= j < n ==> lines[..n][j] == lines[j];
    if Decides(lines, mark, id, k) {
      assert k < n && forall j :: k < j < n ==> !IsAbout(lines[..n][j], mark);
    }
    if Decides(lines[..n], mark, id, k) {
      assert forall j :: k < j < n ==> !IsAbout(lines[j], mark) by {
        forall j | k < j < n ensures !IsAbout(lines[j], mark) { assert lines[..n][j] == lines[j]; }
      }
    }
  }

  lemma {:induction false} MarksOfByOne(lines: seq<string>, mark: nat)
    requires lines != []
    ensures var n := |lines| - 1;
            if IsAbout(lines[n], mark) then mark in MarksOf(lines) && MarksOf(lines)[mark] == MarkOf(lines[n]).value.1
            else && (mark in MarksOf(lines) <==> mark in MarksOf(lines[..n]))
                 && (mark in MarksOf(lines) ==> MarksOf(lines)[mark] == MarksOf(lines[..n])[mark])
  {
  }

  /** The last line about a mark counts, and no other line matters. */
  lemma {:induction false} LastLineCounts(lines: seq<string>, mark: nat, id: string)
    ensures mark in MarksOf(lines) && MarksOf(lines)[mark] == id <==> exists k: nat :: Decides(lines, mark, id, k)
    decreases |lines|
  {
    if lines != [] {
      var n := |lines| - 1;
      MarksOfByOne(lines, mark);
      if IsAbout(lines[n], mark) {
        assert MarkOf(lines[n]).value.1 == id ==> Decides(lines, mark, id, n);
      } else {
        LastLineCounts(lines[..n], mark, id);
        forall k: nat ensures Decides(lines, mark, id, k) <==> Decides(lines[..n], mark, id, k) {
          DecidesWithoutLast(lines, mark, id, k);
        }
      }
    }
  }

  // ----- resolving the commits -----

  datatype Commit = Commit(commitId: string, time: Timestamp)

  datatype SeededRepo = SeededRepo(main: seq<Commit>, feature: seq<Commit>)

  datatype Result = Resolved(repo: SeededRepo) | Missing(mark: nat) | GitFailed

  ghost predicate AllMarked(marks: map<nat, string>, n: nat) {
    forall m: nat :: 1 <= m <= n ==> m in marks
  }

  /** These are the commits with the marks behind `first`, in order and with their times. */
  ghost predicate Named(commits: seq<Commit>, marks: map<nat, string>, first: nat, times: seq<Timestamp>, n: nat) {
    && |commits| == n <= |times|
    && forall i :: 0 <= i < n ==> first + i + 1 in marks && commits[i] == Commit(marks[first + i + 1], times[i])
  }

  ghost predicate AreResolved(
      repo: SeededRepo, marks: map<nat, string>, main: seq<Timestamp>, feature: seq<Timestamp>) {
    Named(repo.main, marks, 0, main, |main|) && Named(repo.feature, marks, |main|, feature, |feature|)
  }

  /** Every list in its own order, one mark after the other; the first mark without a commit
      is the error. */
  method ResolveCommits(marks: map<nat, string>, main: seq<Timestamp>, feature: seq<Timestamp>) returns (r: Result)
    ensures r.Resolved? <==> AllMarked(marks, |main| + |feature|)
    ensures r.Resolved? ==> AreResolved(r.repo, marks, main, feature)
    ensures !r.Resolved? ==>
        r.Missing? && 1 <= r.mark <= |main| + |feature| && r.mark !in marks && AllMarked(marks, r.mark - 1)
  {
    var commits: seq<Commit> := [];
    for i := 0 to |main|
      invariant AllMarked(marks, i) && Named(commits, marks, 0, main, i)
    {
      if i + 1 !in marks {
        return Missing(i + 1);
      }
      commits := commits + [Commit(marks[i + 1], main[i])];
    }
    var others: seq<Commit> := [];
    for j := 0 to |feature|
      invariant AllMarked(marks, |main| + j) && Named(others, marks, |main|, feature, j)
    {
      if |main| + j + 1 !in marks {
        return Missing(|main| + j + 1);
      }
      others := others + [Commit(marks[|main| + j + 1], feature[j])];
    }
    r := Resolved(SeededRepo(commits, others));
  }

  // ----- any order of export -----

  /** One exported line. */
  function MarkLine(entry: (nat, string)): string {
    ":" + Decimal(entry.0) + " " + entry.1
  }

  function Exported(entries: seq<(nat, string)>): string {
    if entries == [] then "" else MarkLine(entries[0]) + "\n" + Exported(entries[1..])
  }

  function MarkLines(entries: seq<(nat, string)>): (lines: seq<string>)
    ensures |lines| == |entries|
  {
    if entries == [] then [] else [MarkLine(entries[0])] + MarkLines(entries[1..])
  }

  /** An ID that is one line; commit IDs are hexadecimal. */
  predicate IsLine(id: string) {
    '\n' !in id && '\r' !in id
  }

  lemma MarkLineIsRead(entry: (nat, string))
    requires entry.0 <= U64_MAX
    ensures MarkOf(MarkLine(entry)) == Some(entry)
  {
    var front := ":" + Decimal(entry.0);
    assert forall d :: d in Decimal(entry.0) ==> IsDigit(d);
    SplitOnceExactlyWhen(front + " " + entry.1, ' ', front, entry.1);
    assert front[1..] == Decimal(entry.0) && front[..1] == ":";
    ParseUndoesDecimal(entry.0, U64_MAX);
  }

  lemma MarkLineIsLine(entry: (nat, string))
    requires IsLine(entry.1)
    ensures '\n' !in MarkLine(entry) && WithoutCr(MarkLine(entry)) == MarkLine(entry)
  {
    assert forall d :: d in Decimal(entry.0) ==> IsDigit(d);
    assert '\r' !in MarkLine(entry);
  }

  lemma {:induction false} ExportIsRead(entries: seq<(nat, string)>)
    requires forall i :: 0 <= i < |entries| ==> IsLine(entries[i].1)
    ensures Split(Exported(entries), '\n') == MarkLines(entries) + [""]
    ensures Lines(Exported(entries)) == MarkLines(entries)
    decreases |entries|
  {
    if entries != [] {
      var line, rest := MarkLine(entries[0]), Exported(entries[1..]);
      MarkLineIsLine(entries[0]);
      ExportIsRead(entries[1..]);
      SplitWhole(line, '\n');
      SplitAppends(line, '\n', rest);
      assert Split(Exported(entries), '\n') == [line] + Split(rest, '\n');
      assert ([line] + Split(rest, '\n'))[1..] == Split(rest, '\n');
    }
  }

  lemma {:induction false} MarkLinesAt(entries: seq<(nat, string)>)
    ensures forall i :: 0 <= i < |entries| ==> MarkLines(entries)[i] == MarkLine(entries[i])
    decreases |entries|
  {
    if entries != [] {
      MarkLinesAt(entries[1..]);
    }
  }

  /** The list has exactly the IDs of the map, in whatever order. */
  ghost predicate Lists(entries: seq<(nat, string)>, ids: map<nat, string>) {
    && (forall i :: 0 <= i < |entries| ==> entries[i].0 in ids && entries[i].1 == ids[entries[i].0])
    && (forall m :: m in ids ==> exists i :: 0 <= i < |entries| && entries[i].0 == m)
  }

  /** The marks say nothing but what the IDs are, and something about the first `k` entries. */
  ghost predicate Learned(marks: map<nat, string>, entries: seq<(nat, string)>, ids: map<nat, string>, k: nat) {
    && k <= |entries|
    && (forall m :: m in marks ==> m in ids && marks[m] == ids[m])
    && (forall i :: 0 <= i < k ==> entries[i].0 in marks)
  }

  lemma LearnsOne(marks: map<nat, string>, entries: seq<(nat, string)>, ids: map<nat, string>, k: nat)
    requires k < |entries| && Learned(marks, entries, ids, k) && entries[k].0 in ids
             && entries[k].1 == ids[entries[k].0]
    ensures Learned(marks[entries[k].0 := entries[k].1], entries, ids, k + 1)
  {
  }

  lemma {:induction false} MarksGrow(lines: seq<string>, k: nat, entry: (nat, string))
    requires k < |lines| && MarkOf(lines[k]) == Some(entry)
    ensures MarksOf(lines[..k + 1]) == MarksOf(lines[..k])[entry.0 := entry.1]
  {
    assert lines[..k + 1][..k] == lines[..k];
  }

  lemma {:induction false} MarksOfEntries(entries: seq<(nat, string)>, ids: map<nat, string>, k: nat)
    requires k <= |entries|
    requires forall i :: 0 <= i < |entries|
               ==> entries[i].0 <= U64_MAX && entries[i].0 in ids && entries[i].1 == ids[entries[i].0]
    ensures Learned(MarksOf(MarkLines(entries)[..k]), entries, ids, k)
    decreases k
  {
    if k > 0 {
      MarksOfEntries(entries, ids, k - 1);
      MarkLinesAt(entries);
      MarkLineIsRead(entries[k - 1]);
      MarksGrow(MarkLines(entries), k - 1, entries[k - 1]);
      LearnsOne(MarksOf(MarkLines(entries)[..k - 1]), entries, ids, k - 1);
    }
  }

  /** Whatever the order of the export, parsing it gives exactly the IDs. */
  lemma {:induction false} ExportParsesBack(entries: seq<(nat, string)>, ids: map<nat, string>)
    requires Lists(entries, ids)
    requires forall m :: m in ids ==> m <= U64_MAX && IsLine(ids[m])
    ensures MarksOf(Lines(Exported(entries))) == ids
  {
    MarkLinesAt(entries);
    ExportIsRead(entries);
    MarksOfEntries(entries, ids, |entries|);
    assert MarkLines(entries)[..|entries|] == MarkLines(entries);
  }

  // ----- from the dates to the commits and back -----

  /** The commits of a list are those of the repository, with their dates in whole seconds,
      each the child of the one before it. */
  ghost predicate Describes(commits: seq<Commit>, ids: map<nat, string>, r: Repository, first: nat) {
    forall i :: 0 <= i < |commits| ==> DescribesMark(commits[i], ids, r, first + i + 1)
  }

  ghost predicate DescribesMark(commit: Commit, ids: map<nat, string>, r: Repository, mark: nat) {
    && mark in ids && mark in r.commits && commit.commitId == ids[mark]
    && InSecond(r.commits[mark].when, commit.time)
    && r.commits[mark].parent == if mark <= 1 then None else Some(mark - 1)
  }

  lemma MarkedCommits(main: seq<Timestamp>, feature: seq<Timestamp>, mark: nat)
    requires 1 <= mark <= |main| + |feature|
    ensures var commits := After(main, feature, |main| + |feature|).commits;
            && mark in commits
            && InSecond(commits[mark].when, TimeOf(main, feature, mark - 1))
            && commits[mark].parent == if mark == 1 then None else Some(mark - 1)
  {
    var time := TimeOf(main, feature, mark - 1);
    SecondsAreExact(time, Seconds(time));
  }

  lemma NamedAreDescribed(
      commits: seq<Commit>, ids: map<nat, string>, main: seq<Timestamp>, feature: seq<Timestamp>, first: nat,
      times: seq<Timestamp>)
    requires Named(commits, ids, first, times, |times|)
    requires (first == 0 && times == main) || (first == |main| && times == feature)
    ensures Describes(commits, ids, After(main, feature, |main| + |feature|), first)
  {
    var r := After(main, feature, |main| + |feature|);
    forall i | 0 <= i < |commits| ensures DescribesMark(commits[i], ids, r, first + i + 1) {
      MarkedCommits(main, feature, first + i + 1);
      assert TimeOf(main, feature, first + i) == times[i];
    }
  }

  lemma MarksAreAll(main: seq<Timestamp>, feature: seq<Timestamp>, m: nat)
    ensures m in After(main, feature, |main| + |feature|).commits <==> 1 <= m <= |main| + |feature|
  {
  }

  /** The lists are the imported commits of the branches. */
  ghost predicate IsImported(
      repo: SeededRepo, ids: map<nat, string>, r: Repository, mainCount: nat, featureCount: nat) {
    && |repo.main| == mainCount && Describes(repo.main, ids, r, 0)
    && |repo.feature| == featureCount && Describes(repo.feature, ids, r, mainCount)
  }

  /** What Git answers with: an ID for every commit of a repository, each on one line. */
  ghost predicate NamesCommits(ids: map<nat, string>, r: Repository) {
    ids.Keys == r.commits.Keys && forall m :: m in ids ==> IsLine(ids[m])
  }

  /** Whatever the IDs of the commits and the order of the export: every parsed mark resolves,
      and what they resolve to are exactly the commits, branch by branch and in order. */
  lemma {:induction false} SeededCommitsAreTheImportedOnes(
      main: seq<Timestamp>, feature: seq<Timestamp>, ids: map<nat, string>, entries: seq<(nat, string)>,
      repo: SeededRepo)
    requires |main| + |feature| <= U64_MAX
    requires NamesCommits(ids, After(main, feature, |main| + |feature|)) && Lists(entries, ids)
    ensures AllMarked(MarksOf(Lines(Exported(entries))), |main| + |feature|)
    ensures AreResolved(repo, MarksOf(Lines(Exported(entries))), main, feature)
            ==> IsImported(repo, ids, After(main, feature, |main| + |feature|), |main|, |feature|)
  {
    forall m: nat ensures m in ids <==> 1 <= m <= |main| + |feature| {
      MarksAreAll(main, feature, m);
      assert m in ids <==> m in After(main, feature, |main| + |feature|).commits;
    }
    ExportParsesBack(entries, ids);
    if AreResolved(repo, ids, main, feature) {
      NamedAreDescribed(repo.main, ids, main, feature, 0, main);
      NamedAreDescribed(repo.feature, ids, main, feature, |main|, feature);
    }
  }

  /** Importing the history and reading its commits back. Git's choices are parameters: the IDs
      it gives the commits of a repository, and the order in which it exports them. The result
      is exactly the imported commits of each branch, in order, with their dates; without a
      main commit there is none. */
  method BuildRepo(
      main: seq<Timestamp>, feature: seq<Timestamp>,
      ids: Repository -> map<nat, string>, order: Repository -> seq<(nat, string)>)
      returns (result: Result)
    requires |main| + |feature| <= U64_MAX
    requires forall r :: NamesCommits(ids(r), r) && Lists(order(r), ids(r))
    ensures result == GitFailed <==> main == []
    ensures main != [] ==>
        var r := After(main, feature, |main| + |feature|);
        && (exists stream :: IsStream(stream, main, feature) && Import(EMPTY, stream) == Some(r))
        && result.Resolved? && IsImported(result.repo, ids(r), r, |main|, |feature|)
  {
    var buf := BuildStream(main, feature);
    StreamImportsExactlyWhen(buf.bytes, main, feature);
    var imported := Import(EMPTY, buf.bytes);
    if imported.None? || MAIN_REF !in imported.value.tips {
      return GitFailed;
    }
    var r := imported.value;
    assert NamesCommits(ids(r), r);
    var marks := ParseMarks(Exported(order(r)));
    result := ResolveCommits(marks, main, feature);
    SeededCommitsAreTheImportedOnes(main, feature, ids(r), order(r),
                                    if result.Resolved? then result.repo else SeededRepo([], []));
  }
}
