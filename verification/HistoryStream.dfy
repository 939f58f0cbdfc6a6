/** The synthetic history as one stream (packages/cargo-bench-history-stress/src/repo.rs).

    The texts of the commits are written with the text that follows them as an argument, as a
    reader meets them: `CommitText(c, rest)`. Appending them one after the other to a buffer
    comes to the same (`CommitTextFloats`).

    What `AppendCommit` writes is read back by module FastImport piece by piece: the header, the
    message, the parent and the one file change (`CommitIsRead`). */
module HistoryStream {
  import opened MachineIntegers
  import opened Texts
  import opened FastImport

  const BRANCH_MAIN := "main"
  const BRANCH_FEATURE := "feature"
  const FILE := "history/state.txt"

  // The fixed parts of a stream.
  const HEADS := "refs/heads/"
  const NAME := "Stress Bot "
  const EMAIL := "<stress@example.invalid"
  const STATE := "state "

  /** Nanoseconds since the epoch, as far as whole seconds fit 64 bits. */
  type Timestamp = t: int | I64_MIN * 1_000_000_000 <= t <= I64_MAX * 1_000_000_000

  /** Whole seconds: a fraction is cut off towards zero. */
  function Seconds(t: Timestamp): (s: int)
    ensures FitsI64(s)
  {
    if t >= 0 then t / 1_000_000_000 else 0 - (0 - t) / 1_000_000_000
  }

  /** `s` is the second that `t` falls into, counted towards the epoch. */
  predicate InSecond(s: int, t: Timestamp) {
    if t >= 0 then s * 1_000_000_000 <= t < (s + 1) * 1_000_000_000
    else (s - 1) * 1_000_000_000 < t <= s * 1_000_000_000
  }

  lemma SecondsAreExact(t: Timestamp, s: int)
    ensures t >= 0 ==> Seconds(t) * 1_000_000_000 <= t < (Seconds(t) + 1) * 1_000_000_000
    ensures t <= 0 ==> (Seconds(t) - 1) * 1_000_000_000 < t <= Seconds(t) * 1_000_000_000
    ensures InSecond(s, t) <==> s == Seconds(t)
  {
  }

  // ----- one commit -----

  datatype Planned = Planned(branch: string, mark: nat, from: Option<nat>, time: Timestamp, index: nat)

  function Message(c: Planned): string {
    COMMIT + Decimal(c.index) + "\n"
  }

  function Content(c: Planned): string {
    STATE + Decimal(c.index) + "\n"
  }

  function Committer(c: Planned): string {
    NAME + EMAIL + ">" + (" " + (Signed(Seconds(c.time)) + UTC))
  }

  /** The text of one commit, in front of `rest`. */
  function CommitText(c: Planned, rest: string): string {
    RefLine(c) + (MarkLine(c) + (CommitterLine(c) + BodyText(c, rest)))
  }

  function BodyText(c: Planned, rest: string): string {
    DataText(Message(c), ParentText(c.from, MODIFY + FILE + "\n" + DataText(Content(c), "\n" + rest)))
  }

  function DataText(data: string, rest: string): string {
    DATA + Decimal(|data|) + "\n" + (data + rest)
  }

  function ParentText(from: Option<nat>, rest: string): string {
    if from.None? then rest else FROM + Decimal(from.value) + "\n" + rest
  }

  lemma Associates(a: string, b: string, c: string)
    ensures a + b + c == a + (b + c)
  {
  }

  lemma {:induction false} ParentTextFloats(from: Option<nat>, text: string, rest: string)
    ensures ParentText(from, text) + rest == ParentText(from, text + rest)
  {
    if from.Some? {
      Associates(FROM + Decimal(from.value) + "\n", text, rest);
    }
  }

  lemma {:induction false} DataTextAppends(data: string, text: string, rest: string)
    ensures DataText(data, text) + rest == DataText(data, text + rest)
  {
    var line := DATA + Decimal(|data|) + "\n";
    Associates(line, data + text, rest);
    Associates(data, text, rest);
  }

  lemma {:induction false} BodyTextFloats(c: Planned, rest: string)
    ensures BodyText(c, "") + rest == BodyText(c, rest)
  {
    var file, change := MODIFY + FILE + "\n", DataText(Content(c), "\n" + "");
    DataTextAppends(Content(c), "\n" + "", rest);
    assert "\n" + "" + rest == "\n" + rest;
    Associates(file, change, rest);
    ParentTextFloats(c.from, file + change, rest);
    DataTextAppends(Message(c), ParentText(c.from, file + change), rest);
  }

  function RefLine(c: Planned): string {
    COMMIT + (HEADS + c.branch) + "\n"
  }

  function MarkLine(c: Planned): string {
    MARK + Decimal(c.mark) + "\n"
  }

  function CommitterLine(c: Planned): string {
    COMMITTER + Committer(c) + "\n"
  }

  lemma {:induction false} ThreeAppend(a: string, b: string, c: string, d: string, rest: string)
    ensures a + (b + (c + d)) + rest == a + (b + (c + (d + rest)))
  {
    Associates(a, b + (c + d), rest);
    Associates(b, c + d, rest);
    Associates(c, d, rest);
  }

  lemma {:induction false} CommitTextFloats(c: Planned, rest: string)
    ensures CommitText(c, "") + rest == CommitText(c, rest)
  {
    BodyTextFloats(c, rest);
    ThreeAppend(RefLine(c), MarkLine(c), CommitterLine(c), BodyText(c, ""), rest);
  }

  /** Extends the buffer; `rest` is what is still to come. */
  method Push(buf: string, piece: string, ghost rest: string) returns (r: string)
    ensures r == buf + piece && r + rest == buf + (piece + rest)
  {
    r := buf + piece;
  }

  method AppendBody(buf: string, c: Planned) returns (r: string)
    ensures r == buf + BodyText(c, "")
  {
    var message, content := Message(c), Content(c);
    ghost var change := DataText(content, "\n" + "");
    ghost var file := MODIFY + FILE + "\n";
    ghost var parent := ParentText(c.from, file + change);
    r := Push(buf, DATA + Decimal(|message|) + "\n", message + parent);
    r := Push(r, message, parent);
    if c.from.Some? {
      r := Push(r, FROM + Decimal(c.from.value) + "\n", file + change);
    }
    r := Push(r, MODIFY + FILE + "\n", change);
    r := Push(r, DATA + Decimal(|content|) + "\n", content + ("\n" + ""));
    r := Push(r, content, "\n" + "");
    assert "\n" + "" == "\n";
    r := Push(r, "\n", "");
  }

  /** Appends one commit piece by piece. */
  method AppendCommit(buf: string, c: Planned) returns (r: string)
    ensures r == buf + CommitText(c, "")
  {
    ghost var body := BodyText(c, "");
    r := Push(buf, RefLine(c), MarkLine(c) + (CommitterLine(c) + body));
    r := Push(r, MarkLine(c), CommitterLine(c) + body);
    r := Push(r, CommitterLine(c), body);
    r := AppendBody(r, c);
  }

  // ----- the whole history -----

  /** Commit `k` of the history: first the main ones, then the feature ones. */
  function Plan(main: seq<Timestamp>, feature: seq<Timestamp>, k: nat): Planned
    requires k < |main| + |feature|
  {
    if k < |main| then Planned(BRANCH_MAIN, k + 1, None, main[k], k)
    else Planned(BRANCH_FEATURE, k + 1, if k == |main| then Some(|main|) else None, feature[k - |main|], k)
  }

  function Concat(texts: seq<string>): string {
    if texts == [] then "" else texts[0] + Concat(texts[1..])
  }

  lemma {:induction false} ConcatGrows(texts: seq<string>, k: nat)
    requires k < |texts|
    ensures Concat(texts[..k + 1]) == Concat(texts[..k]) + texts[k]
    decreases |texts|
  {
    if k == 0 {
      assert texts[..1][1..] == [] && texts[..0] == [];
    } else {
      var rest := texts[1..];
      ConcatGrows(rest, k - 1);
      assert texts[..k + 1][1..] == rest[..k] && texts[..k][1..] == rest[..k - 1];
      Associates(texts[0], Concat(rest[..k - 1]), rest[k - 1]);
    }
  }

  function CommitTexts(main: seq<Timestamp>, feature: seq<Timestamp>): (texts: seq<string>)
    ensures |texts| == |main| + |feature|
  {
    seq(|main| + |feature|, k requires 0 <= k < |main| + |feature| => CommitText(Plan(main, feature, k), ""))
  }

  /** A byte buffer under construction. */
  datatype Buffer = Buffer(bytes: string)

  /** The buffer that holds the first `k` texts. */
  function Holding(texts: seq<string>, k: nat): Buffer
    requires k <= |texts|
  {
    Buffer(Concat(texts[..k]))
  }

  lemma {:induction false} HoldingAll(texts: seq<string>, n: nat)
    requires n == |texts|
    ensures Holding(texts, n) == Buffer(Concat(texts[0..]))
  {
    assert texts[..n] == texts == texts[0..];
  }

  lemma {:induction false} HoldingMore(texts: seq<string>, k: nat)
    requires k < |texts|
    ensures Holding(texts, k + 1) == Buffer(Holding(texts, k).bytes + texts[k])
  {
    ConcatGrows(texts, k);
  }

  /** Appends commit `k` of the plan to the ones before it. */
  method AppendNext(ghost main: seq<Timestamp>, ghost feature: seq<Timestamp>, ghost k: nat, c: Planned, buf: Buffer)
    returns (r: Buffer)
    requires k < |main| + |feature| && c == Plan(main, feature, k)
    requires buf == Holding(CommitTexts(main, feature), k)
    ensures r == Holding(CommitTexts(main, feature), k + 1)
  {
    HoldingMore(CommitTexts(main, feature), k);
    var bytes := AppendCommit(buf.bytes, c);
    r := Buffer(bytes);
  }

  /** The first feature commit names the last main commit as its parent. */
  method AppendFeatureCommit(main: seq<Timestamp>, feature: seq<Timestamp>, k: nat, buf: Buffer) returns (r: Buffer)
    requires |main| <= k < |main| + |feature| && buf == Holding(CommitTexts(main, feature), k)
    ensures r == Holding(CommitTexts(main, feature), k + 1)
  {
    var from: Option<nat> := if k == |main| then Some(|main|) else None;
    r := AppendNext(main, feature, k, Planned(BRANCH_FEATURE, k + 1, from, feature[k - |main|], k), buf);
  }

  method AppendFeature(main: seq<Timestamp>, feature: seq<Timestamp>, start: Buffer) returns (buf: Buffer)
    requires start == Holding(CommitTexts(main, feature), |main|)
    ensures buf == Holding(CommitTexts(main, feature), |main| + |feature|)
  {
    buf := start;
    for k := |main| to |main| + |feature|
      invariant buf == Holding(CommitTexts(main, feature), k)
    {
      buf := AppendFeatureCommit(main, feature, k, buf);
    }
  }

  method BuildStream(main: seq<Timestamp>, feature: seq<Timestamp>) returns (buf: Buffer)
    ensures buf == Holding(CommitTexts(main, feature), |main| + |feature|)
  {
    buf := Buffer("");
    for i := 0 to |main|
      invariant buf == Holding(CommitTexts(main, feature), i)
    {
      buf := AppendNext(main, feature, i, Planned(BRANCH_MAIN, i + 1, None, main[i], i), buf);
    }
    if |feature| > 0 {
      buf := AppendFeature(main, feature, buf);
    }
  }

  // ----- the text of a commit, written out -----

  lemma {:induction false} HeaderWords(c: Planned)
    ensures RefLine(c) == "commit " + ("refs/heads/" + c.branch) + "\n"
    ensures MarkLine(c) == "mark :" + Decimal(c.mark) + "\n"
    ensures CommitterLine(c)
            == "committer "
               + ("Stress Bot " + "<stress@example.invalid" + ">" + (" " + (Signed(Seconds(c.time)) + " +0000"))) + "\n"
  {
  }

  lemma {:induction false} BodyWords(c: Planned, rest: string)
    ensures var message, content := "commit " + Decimal(c.index) + "\n", "state " + Decimal(c.index) + "\n";
            var change := "M 100644 inline " + "history/state.txt" + "\n"
                          + ("data " + Decimal(|content|) + "\n" + (content + ("\n" + rest)));
            BodyText(c, rest)
            == "data " + Decimal(|message|) + "\n"
               + (message + if c.from.None? then change else "from :" + Decimal(c.from.value) + "\n" + change)
  {
  }

  /** What one commit is in the stream, word by word. */
  lemma {:induction false} CommitWords(c: Planned, rest: string)
    ensures var message, content := "commit " + Decimal(c.index) + "\n", "state " + Decimal(c.index) + "\n";
            var change := "M 100644 inline " + "history/state.txt" + "\n"
                          + ("data " + Decimal(|content|) + "\n" + (content + ("\n" + rest)));
            var committer := "Stress Bot " + "<stress@example.invalid" + ">"
                             + (" " + (Signed(Seconds(c.time)) + " +0000"));
            CommitText(c, rest)
            == "commit " + ("refs/heads/" + c.branch) + "\n"
               + ("mark :" + Decimal(c.mark) + "\n"
                  + ("committer " + committer + "\n"
                     + ("data " + Decimal(|message|) + "\n"
                        + (message
                           + if c.from.None? then change else "from :" + Decimal(c.from.value) + "\n" + change))))
    ensures Signed(Seconds(c.time))
            == if Seconds(c.time) < 0 then "-" + Decimal(0 - Seconds(c.time)) else Decimal(Seconds(c.time))
  {
    HeaderWords(c);
    BodyWords(c, rest);
  }

  // ----- reading a commit back -----

  lemma CommitterIsRead(c: Planned)
    ensures When(Committer(c)) == Some(Seconds(c.time))
    ensures '\n' !in Committer(c)
  {
    SignedIsRead(Seconds(c.time));
    assert '>' !in NAME && '>' !in EMAIL && '\n' !in NAME && '\n' !in EMAIL && '\n' !in UTC;
    WhenIsRead(NAME + EMAIL, Seconds(c.time));
  }

  lemma {:induction false} HeaderIsRead(c: Planned, rest: string)
    requires '\n' !in c.branch && c.mark <= U64_MAX
    ensures ReadHeader(RefLine(c) + (MarkLine(c) + (CommitterLine(c) + rest)))
            == Some((Header(HEADS + c.branch, c.mark, Seconds(c.time)), rest))
  {
    KeywordIsRead(COMMIT, HEADS + c.branch, MarkLine(c) + (CommitterLine(c) + rest));
    assert forall d :: d in Decimal(c.mark) ==> IsDigit(d);
    KeywordIsRead(MARK, Decimal(c.mark), CommitterLine(c) + rest);
    ParseUndoesDecimal(c.mark, U64_MAX);
    CommitterIsRead(c);
    KeywordIsRead(COMMITTER, Committer(c), rest);
  }

  lemma {:induction false} DataIsRead(data: string, rest: string)
    requires |data| <= U64_MAX
    ensures Data(DataText(data, rest)) == Some((data, if StartsWith(rest, "\n") then rest[1..] else rest))
  {
    assert forall d :: d in Decimal(|data|) ==> IsDigit(d);
    KeywordIsRead(DATA, Decimal(|data|), data + rest);
    ParseUndoesDecimal(|data|, U64_MAX);
    assert (data + rest)[..|data|] == data && (data + rest)[|data|..] == rest;
  }

  lemma {:induction false} FromIsRead(from: Option<nat>, rest: string)
    requires from.Some? ==> from.value <= U64_MAX
    requires rest != "" && rest[0] == 'M'
    ensures From(ParentText(from, rest)) == Some((from, rest))
  {
    if from.Some? {
      assert forall d :: d in Decimal(from.value) ==> IsDigit(d);
      KeywordIsRead(FROM, Decimal(from.value), rest);
      ParseUndoesDecimal(from.value, U64_MAX);
    } else {
      NoKeyword(rest, FROM);
    }
  }

  lemma {:induction false} NoMoreChanges(rest: string)
    requires rest == "" || rest[0] == 'c'
    ensures Changes(rest) == Some(([], rest))
  {
    if rest != "" {
      assert MODIFY[0] == 'M';
      NoKeyword(rest, MODIFY);
    }
    var r := Changes(rest);
    assert r.Some? && r.value.0 == [] && r.value.1 == rest;
    assert r.value == ([], rest);
  }

  lemma {:induction false} ChangeIsRead(content: string, rest: string)
    requires |content| <= U64_MAX && (rest == "" || rest[0] == 'c')
    ensures Changes(MODIFY + FILE + "\n" + DataText(content, "\n" + rest)) == Some(([Change(FILE, content)], rest))
  {
    KeywordIsRead(MODIFY, FILE, DataText(content, "\n" + rest));
    DataIsRead(content, "\n" + rest);
    assert ("\n" + rest)[1..] == rest;
    NoMoreChanges(rest);
    var r := Changes(MODIFY + FILE + "\n" + DataText(content, "\n" + rest));
    assert StartsWith("\n" + rest, "\n");
    assert r.Some? && r.value.0 == [Change(FILE, content)] && r.value.1 == rest;
  }

  lemma {:induction false} DecimalIsShort(n: nat)
    ensures |Decimal(n)| <= 1 + n / 10
  {
    if n >= 10 {
      DecimalIsShort(n / 10);
    }
  }

  ghost predicate Writable(c: Planned) {
    '\n' !in c.branch && c.mark <= U64_MAX && c.index <= U64_MAX && (c.from.Some? ==> c.from.value <= U64_MAX)
  }

  function Commanded(c: Planned): Command {
    Command(HEADS + c.branch, c.mark, Seconds(c.time), Message(c), c.from, [Change(FILE, Content(c))])
  }

  lemma {:induction false} TextsAreShort(c: Planned)
    requires c.index <= U64_MAX
    ensures |Message(c)| <= U64_MAX && |Content(c)| <= U64_MAX
  {
    DecimalIsShort(c.index);
  }

  lemma ParentStarts(from: Option<nat>, change: string)
    requires change != "" && change[0] == 'M'
    ensures ParentText(from, change) != "" && ParentText(from, change)[0] != '\n'
  {
    assert FROM[0] == 'f';
  }

  lemma {:induction false} DataIsReadWhole(data: string, rest: string)
    requires |data| <= U64_MAX && rest != "" && rest[0] != '\n'
    ensures Data(DataText(data, rest)) == Some((data, rest))
  {
    DataIsRead(data, rest);
    assert rest[..1][0] == rest[0];
  }

  function ChangeText(c: Planned, rest: string): string {
    MODIFY + FILE + "\n" + DataText(Content(c), "\n" + rest)
  }

  lemma ChangeTextStarts(c: Planned, rest: string)
    ensures ChangeText(c, rest) != "" && ChangeText(c, rest)[0] == 'M'
  {
    assert MODIFY[0] == 'M';
  }

  /** A commit that is written is read back, whatever commits follow. */
  lemma {:induction false} CommitIsRead(c: Planned, rest: string)
    requires Writable(c) && (rest == "" || rest[0] == 'c')
    ensures CommitText(c, rest) != "" && ReadCommit(CommitText(c, rest)) == Some((Commanded(c), rest))
  {
    HeaderIsRead(c, BodyText(c, rest));
    TextsAreShort(c);
    ChangeTextStarts(c, rest);
    ParentStarts(c.from, ChangeText(c, rest));
    DataIsReadWhole(Message(c), ParentText(c.from, ChangeText(c, rest)));
    FromIsRead(c.from, ChangeText(c, rest));
    ChangeIsRead(Content(c), rest);
  }
}
