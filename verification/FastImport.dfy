/** The commands of git-fast-import(1) that a synthetic history is written in.

    `ReadCommit` takes one `commit` command from the front of a stream: branch, mark, date,
    message, an optional parent and the file changes. `Execute` adds it to a repository, where
    commits are known by their marks, and `Import` does so for a whole stream. Anything else in
    a stream is refused. */
module FastImport {
  import opened MachineIntegers
  import opened Texts

  const COMMIT := "commit "
  const MARK := "mark :"
  const COMMITTER := "committer "
  const UTC := " +0000"
  const DATA := "data "
  const FROM := "from :"
  const MODIFY := "M 100644 inline "

  // ----- what a stream builds -----

  /** A commit known by its mark, with the tree it records. */
  datatype Stored = Stored(parent: Option<nat>, when: int, message: string, tree: map<string, string>)

  datatype Repository = Repository(commits: map<nat, Stored>, tips: map<string, nat>)

  const EMPTY := Repository(map[], map[])

  datatype Change = Change(path: string, content: string)

  datatype Command =
    Command(ref: string, mark: nat, when: int, message: string, from: Option<nat>, changes: seq<Change>)

  // ----- reading a stream -----

  /** The first line and what follows it. */
  function Line(s: string): (r: (string, string))
    ensures |r.1| <= |s| && (s != "" ==> |r.1| < |s|)
  {
    if s == "" then ("", "")
    else if s[0] == '\n' then ("", s[1..])
    else var (line, rest) := Line(s[1..]); ([s[0]] + line, rest)
  }

  /** What follows a keyword at the start of the first line. */
  function Keyword(s: string, keyword: string): (r: Option<(string, string)>)
    ensures r.Some? ==> |r.value.1| <= |s| && (s != "" ==> |r.value.1| < |s|)
  {
    var (line, rest) := Line(s);
    var argument := StripPrefix(line, keyword);
    if argument.Some? then Some((argument.value, rest)) else None
  }

  function Signed(n: int): string {
    if n < 0 then "-" + Decimal(-n) else Decimal(n)
  }

  function ParseSigned(s: string): Option<int> {
    if s != "" && s[0] == '-' then
      var n := ParseUnsigned(s[1..], I64_MAX + 1);
      if n.Some? then Some(0 - n.value) else None
    else
      var n := ParseUnsigned(s, I64_MAX);
      if n.Some? then Some(n.value) else None
  }

  /** The seconds of a committer line, behind name and address, at offset zero. */
  function When(committer: string): Option<int> {
    var pieces := Split(committer, '>');
    if |pieces| != 2 then None
    else
      var date := StripPrefix(pieces[1], " ");
      var seconds := if date.Some? then StripSuffix(date.value, UTC) else None;
      if seconds.Some? then ParseSigned(seconds.value) else None
  }

  /** Exactly as many bytes as announced, and a line feed if one follows. */
  function Data(s: string): (r: Option<(string, string)>)
    ensures r.Some? ==> |r.value.1| <= |s|
  {
    var header := Keyword(s, DATA);
    if header.None? then None
    else
      var count := ParseUnsigned(header.value.0, U64_MAX);
      var rest := header.value.1;
      if count.None? || count.value > |rest| then None
      else
        var behind := rest[count.value..];
        Some((rest[..count.value], if StartsWith(behind, "\n") then behind[1..] else behind))
  }

  /** The parent's mark, if a `from` follows. */
  function From(s: string): (r: Option<(Option<nat>, string)>)
    ensures r.Some? ==> |r.value.1| <= |s|
  {
    var line := Keyword(s, FROM);
    if line.None? then Some((None, s))
    else
      var mark := ParseUnsigned(line.value.0, U64_MAX);
      if mark.None? then None else Some((mark, line.value.1))
  }

  /** The file changes that follow. */
  function Changes(s: string): (r: Option<(seq<Change>, string)>)
    ensures r.Some? ==> |r.value.1| <= |s|
    decreases |s|
  {
    var line := if s == "" then None else Keyword(s, MODIFY);
    if line.None? then Some(([], s))
    else
      var data := Data(line.value.1);
      if data.None? then None
      else
        var others := Changes(data.value.1);
        if others.None? then None
        else Some(([Change(line.value.0, data.value.0)] + others.value.0, others.value.1))
  }

  datatype Header = Header(ref: string, mark: nat, when: int)

  function ReadHeader(s: string): (r: Option<(Header, string)>)
    ensures r.Some? && s != "" ==> |r.value.1| < |s|
    ensures r.Some? ==> |r.value.1| <= |s|
  {
    var ref := Keyword(s, COMMIT);
    if ref.None? then None
    else
      var marked := Keyword(ref.value.1, MARK);
      if marked.None? then None
      else
        var mark := ParseUnsigned(marked.value.0, U64_MAX);
        var committer := Keyword(marked.value.1, COMMITTER);
        if mark.None? || committer.None? then None
        else
          var when := When(committer.value.0);
          if when.None? then None else Some((Header(ref.value.0, mark.value, when.value), committer.value.1))
  }

  function ReadCommit(s: string): (r: Option<(Command, string)>)
    requires s != ""
    ensures r.Some? ==> |r.value.1| < |s|
  {
    var header := ReadHeader(s);
    if header.None? then None
    else
      var message := Data(header.value.1);
      if message.None? then None
      else
        var from := From(message.value.1);
        if from.None? then None
        else
          var changes := Changes(from.value.1);
          if changes.None? then None
          else
            var h := header.value.0;
            Some((Command(h.ref, h.mark, h.when, message.value.0, from.value.0, changes.value.0), changes.value.1))
  }

  // ----- executing it -----

  function Changed(tree: map<string, string>, changes: seq<Change>): map<string, string>
    decreases |changes|
  {
    if changes == [] then tree else Changed(tree[changes[0].path := changes[0].content], changes[1..])
  }

  /** Without `from`, a branch continues from its last commit; an unknown mark is refused. */
  function Execute(r: Repository, c: Command): Option<Repository> {
    if c.from.Some? && c.from.value !in r.commits then None
    else
      var parent := if c.from.Some? then c.from
                    else if c.ref in r.tips then Some(r.tips[c.ref]) else None;
      var tree := if parent.Some? && parent.value in r.commits then r.commits[parent.value].tree else map[];
      Some(Repository(r.commits[c.mark := Stored(parent, c.when, c.message, Changed(tree, c.changes))],
        r.tips[c.ref := c.mark]))
  }

  function Import(r: Repository, s: string): Option<Repository>
    decreases |s|
  {
    if s == "" then Some(r)
    else
      var c := ReadCommit(s);
      if c.None? then None
      else
        var next := Execute(r, c.value.0);
        if next.None? then None else Import(next.value, c.value.1)
  }

  // ----- reading what is written -----

  lemma {:induction false} LineIsRead(line: string, rest: string)
    requires '\n' !in line
    ensures Line(line + "\n" + rest) == (line, rest)
  {
    var s := line + "\n" + rest;
    if line == "" {
      assert s[1..] == rest;
    } else {
      assert s[1..] == line[1..] + "\n" + rest;
      assert line == [line[0]] + line[1..] && line[0] in line;
      LineIsRead(line[1..], rest);
    }
  }

  lemma {:induction false} KeywordIsRead(keyword: string, argument: string, rest: string)
    requires '\n' !in keyword && '\n' !in argument
    ensures Keyword(keyword + argument + "\n" + rest, keyword) == Some((argument, rest))
  {
    LineIsRead(keyword + argument, rest);
  }

  lemma SignedIsRead(n: int)
    requires FitsI64(n)
    ensures ParseSigned(Signed(n)) == Some(n)
    ensures '\n' !in Signed(n) && '>' !in Signed(n)
  {
    if n < 0 {
      ParseUndoesDecimal(-n, I64_MAX + 1);
      assert Signed(n)[1..] == Decimal(-n);
      assert forall c :: c in Decimal(-n) ==> IsDigit(c);
    } else {
      ParseUndoesDecimal(n, I64_MAX);
      assert forall c :: c in Decimal(n) ==> IsDigit(c);
    }
  }

  lemma {:induction false} WhenIsRead(front: string, n: int)
    requires '>' !in front && FitsI64(n)
    ensures When(front + ">" + (" " + (Signed(n) + UTC))) == Some(n)
  {
    var back := " " + (Signed(n) + UTC);
    SignedIsRead(n);
    assert '>' !in UTC;
    SplitWhole(front, '>');
    SplitWhole(back, '>');
    SplitAppends(front, '>', back);
    assert back[1..] == Signed(n) + UTC;
  }

  lemma {:induction false} NoKeyword(s: string, keyword: string)
    requires keyword != "" && keyword[0] != '\n' && (s == "" || s[0] != keyword[0])
    ensures Keyword(s, keyword) == None
  {
  }
}
