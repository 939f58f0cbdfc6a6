/** Writing cases that are apart: it never fails, never replaces a file, and its order does not
    matter. */
module OutputWrites {
  import opened MachineIntegers
  import opened OutputPaths

  // ----- the files of a case -----

  function PathOf(c: Case, k: nat): Path
    requires k < |c.files|
  {
    c.dir + [c.files[k].0]
  }

  /** Nothing in the tree is in the way of the case. */
  ghost predicate CaseFree(t: Tree, c: Case) {
    forall k :: 0 <= k < |c.files| ==> Free(t, PathOf(c, k))
  }

  /** The files of one case have different names. */
  ghost predicate NamesDiffer(c: Case) {
    forall j, k :: 0 <= j < k < |c.files| ==> c.files[j].0 != c.files[k].0
  }

  ghost predicate CrossApart(c: Case, d: Case) {
    forall j, k :: 0 <= j < |c.files| && 0 <= k < |d.files| ==> Apart(PathOf(c, j), PathOf(d, k))
  }

  ghost predicate CasesApart(cases: seq<Case>) {
    && (forall i :: 0 <= i < |cases| ==> NamesDiffer(cases[i]))
    && forall i, j :: 0 <= i < j < |cases| ==> CrossApart(cases[i], cases[j])
  }

  // ----- one case -----

  /** The tree has the directory, and nothing else in its place. */
  ghost predicate Ready(t: Tree, dir: Path) {
    Prefixes(dir) <= t.dirs && forall p :: p in t.files ==> !IsPrefix(p, dir)
  }

  function FileMap(dir: Path, files: seq<(string, string)>): map<Path, string>
    decreases |files|
  {
    if files == [] then map[] else map[dir + [files[0].0] := files[0].1] + FileMap(dir, files[1..])
  }

  /** The tree with all files of a case. */
  function Placed(t: Tree, c: Case): Tree {
    Tree(t.files + FileMap(c.dir, c.files), t.dirs + Prefixes(c.dir))
  }

  ghost predicate AllNew(t: Tree, dir: Path, files: seq<(string, string)>) {
    && (forall k :: 0 <= k < |files| ==> Free(t, dir + [files[k].0]))
    && forall j, k :: 0 <= j < k < |files| ==> files[j].0 != files[k].0
  }

  lemma SiblingsApart(dir: Path, a: string, b: string)
    ensures Apart(dir + [a], dir + [b]) <==> a != b
  {
    assert (dir + [a])[|dir|] == a && (dir + [b])[|dir|] == b;
  }

  lemma AllNewByOne(t: Tree, dir: Path, files: seq<(string, string)>)
    requires files != []
    ensures AllNew(t, dir, files)
            <==> Free(t, dir + [files[0].0]) && AllNew(With(t, dir, files[0].0, files[0].1), dir, files[1..])
  {
    var name, content := files[0].0, files[0].1;
    var after := With(t, dir, name, content);
    forall k | 0 < k < |files|
      ensures Free(after, dir + [files[k].0]) <==> Free(t, dir + [files[k].0]) && name != files[k].0
    {
      FreeBesides(t, dir, name, content, dir + [files[k].0]);
      SiblingsApart(dir, name, files[k].0);
    }
    assert forall k :: 0 < k < |files| ==> files[k] == files[1..][k - 1];
  }

  lemma MapsAppend(files: map<Path, string>, path: Path, content: string, rest: map<Path, string>)
    ensures files[path := content] + rest == files + (map[path := content] + rest)
  {
  }

  /** What is left to write once the first file is. */
  lemma {:induction false} WriteFilesByOne(t: Tree, dir: Path, files: seq<(string, string)>)
    requires Ready(t, dir) && files != []
    ensures var path, next := dir + [files[0].0], With(t, dir, files[0].0, files[0].1);
            && (Clean(WriteFiles(t, dir, files)) <==> Free(t, path) && Clean(WriteFiles(next, dir, files[1..])))
            && (Clean(WriteFiles(t, dir, files))
               ==> WriteFiles(t, dir, files).tree == WriteFiles(next, dir, files[1..]).tree)
            && Ready(next, dir) && next == Tree(t.files[path := files[0].1], t.dirs)
  {
    PrefixIsNoMember(t, dir, files[0].0);
    ReadyStays(t, dir, files[0].0, files[0].1);
  }

  /** Files are written into a directory cleanly exactly if all of them are new. */
  lemma {:induction false} WritesFilesExactlyWhen(t: Tree, dir: Path, files: seq<(string, string)>)
    requires Ready(t, dir)
    ensures Clean(WriteFiles(t, dir, files)) <==> AllNew(t, dir, files)
    ensures Clean(WriteFiles(t, dir, files)) ==>
              WriteFiles(t, dir, files).tree == Tree(t.files + FileMap(dir, files), t.dirs)
    decreases |files|
  {
    if files != [] {
      AllNewByOne(t, dir, files);
      WriteFilesByOne(t, dir, files);
      WritesFilesExactlyWhen(With(t, dir, files[0].0, files[0].1), dir, files[1..]);
      MapsAppend(t.files, dir + [files[0].0], files[0].1, FileMap(dir, files[1..]));
    }
  }

  lemma PrefixIsNoMember(t: Tree, dir: Path, name: string)
    requires Ready(t, dir)
    ensures Free(t, dir + [name]) <==> dir + [name] !in t.dirs && dir + [name] !in t.files
    ensures dir in t.dirs
  {
    forall p | p in t.files ensures IsPrefix(p, dir + [name]) <==> p == dir + [name] {
      PrefixOfFile(p, dir, name);
    }
    assert IsPrefix(dir, dir);
  }

  lemma ReadyStays(t: Tree, dir: Path, name: string, content: string)
    requires Ready(t, dir)
    ensures Ready(With(t, dir, name, content), dir)
    ensures With(t, dir, name, content) == Tree(t.files[dir + [name] := content], t.dirs)
  {
  }

  lemma FreeInDirectory(t: Tree, dir: Path, name: string)
    ensures Free(t.(dirs := t.dirs + Prefixes(dir)), dir + [name]) <==> Free(t, dir + [name])
  {
  }

  /** A case is written cleanly exactly if nothing is in its way and its names differ. */
  lemma {:induction false} WritesCaseExactlyWhen(t: Tree, c: Case)
    requires c.files != []
    ensures Clean(WriteCase(t, c)) <==> CaseFree(t, c) && NamesDiffer(c)
    ensures Clean(WriteCase(t, c)) ==> WriteCase(t, c).tree == Placed(t, c)
  {
    var made := CreateDirAll(t, c.dir);
    if made.None? {
      var p :| p in t.files && IsPrefix(p, c.dir);
      PrefixOfFile(p, c.dir, c.files[0].0);
      assert !Free(t, PathOf(c, 0));
    } else {
      WritesFilesExactlyWhen(made.value, c.dir, c.files);
      forall k | 0 <= k < |c.files| ensures Free(made.value, PathOf(c, k)) <==> Free(t, PathOf(c, k)) {
        FreeInDirectory(t, c.dir, c.files[k].0);
      }
      assert AllNew(made.value, c.dir, c.files)
        <==> (forall k :: 0 <= k < |c.files| ==> Free(made.value, PathOf(c, k))) && NamesDiffer(c) by {
        assert forall k :: 0 <= k < |c.files| ==> PathOf(c, k) == c.dir + [c.files[k].0];
      }
    }
  }

  // ----- many cases -----

  lemma {:induction false} FilesAreMapped(dir: Path, files: seq<(string, string)>, p: Path)
    ensures p in FileMap(dir, files) <==> exists k :: 0 <= k < |files| && p == dir + [files[k].0]
    decreases |files|
  {
    if files != [] {
      FilesAreMapped(dir, files[1..], p);
      if p in FileMap(dir, files[1..]) {
        var k :| 0 <= k < |files| - 1 && p == dir + [files[1..][k].0];
        assert files[k + 1] == files[1..][k];
      }
      if k :| 0 <= k < |files| && p == dir + [files[k].0] {
        assert k > 0 ==> files[1..][k - 1] == files[k];
      }
    }
  }

  /** Something is free beside a case exactly if it was free and is apart from its files. */
  lemma FreeBesidesCase(t: Tree, c: Case, q: Path)
    requires c.files != []
    ensures Free(Placed(t, c), q) <==> Free(t, q) && forall k :: 0 <= k < |c.files| ==> Apart(PathOf(c, k), q)
  {
    var after := Placed(t, c);
    forall p ensures p in after.files <==> p in t.files || exists k :: 0 <= k < |c.files| && p == PathOf(c, k) {
      FilesAreMapped(c.dir, c.files, p);
      if k :| 0 <= k < |c.files| && p == c.dir + [c.files[k].0] {
        assert p == PathOf(c, k);
      }
      if k :| 0 <= k < |c.files| && p == PathOf(c, k) {
        assert p == c.dir + [c.files[k].0];
      }
    }
    forall k | 0 <= k < |c.files| ensures IsPrefix(q, PathOf(c, k)) <==> IsPrefix(q, c.dir) || q == PathOf(c, k) {
      PrefixOfFile(q, c.dir, c.files[k].0);
    }
    if Free(after, q) {
      forall k | 0 <= k < |c.files| ensures Apart(PathOf(c, k), q) {
        assert PathOf(c, k) in after.files;
        assert IsPrefix(q, q);
      }
      assert forall p :: p in t.files ==> p in after.files;
    }
    if Free(t, q) && forall k :: 0 <= k < |c.files| ==> Apart(PathOf(c, k), q) {
      assert Apart(PathOf(c, 0), q);
    }
  }

  lemma CaseFreeBesides(t: Tree, c: Case, d: Case)
    requires c.files != []
    ensures CaseFree(Placed(t, c), d) <==> CaseFree(t, d) && CrossApart(c, d)
  {
    forall k | 0 <= k < |d.files|
      ensures Free(Placed(t, c), PathOf(d, k))
              <==> Free(t, PathOf(d, k)) && forall j :: 0 <= j < |c.files| ==> Apart(PathOf(c, j), PathOf(d, k))
    {
      FreeBesidesCase(t, c, PathOf(d, k));
    }
  }

  ghost predicate NothingInTheWay(t: Tree, cases: seq<Case>) {
    forall i :: 0 <= i < |cases| ==> CaseFree(t, cases[i])
  }

  ghost predicate HaveFiles(cases: seq<Case>) {
    forall i :: 0 <= i < |cases| ==> cases[i].files != []
  }

  lemma NothingInTheWayByOne(t: Tree, cases: seq<Case>)
    requires cases != [] && HaveFiles(cases)
    ensures NothingInTheWay(t, cases) && CasesApart(cases)
            <==> CaseFree(t, cases[0]) && NamesDiffer(cases[0])
                 && NothingInTheWay(Placed(t, cases[0]), cases[1..]) && CasesApart(cases[1..])
  {
    var c, rest := cases[0], cases[1..];
    forall i | 0 < i < |cases|
      ensures CaseFree(Placed(t, c), cases[i]) <==> CaseFree(t, cases[i]) && CrossApart(c, cases[i])
    {
      CaseFreeBesides(t, c, cases[i]);
    }
    assert forall i :: 0 < i < |cases| ==> cases[i] == rest[i - 1];
    assert forall i :: 0 <= i < |rest| ==> rest[i] == cases[i + 1];
  }

  function PlacedAll(t: Tree, cases: seq<Case>): Tree
    decreases |cases|
  {
    if cases == [] then t else PlacedAll(Placed(t, cases[0]), cases[1..])
  }

  /** All cases are written without a failure and without replacing a file exactly if nothing
      is in their way and their files are apart. */
  lemma {:induction false} WritesCasesExactlyWhen(t: Tree, cases: seq<Case>)
    requires HaveFiles(cases)
    ensures Clean(WriteCases(t, cases)) <==> NothingInTheWay(t, cases) && CasesApart(cases)
    ensures Clean(WriteCases(t, cases)) ==> WriteCases(t, cases).tree == PlacedAll(t, cases)
    decreases |cases|
  {
    if cases != [] {
      WritesCaseExactlyWhen(t, cases[0]);
      NothingInTheWayByOne(t, cases);
      if Clean(WriteCase(t, cases[0])) {
        WritesCasesExactlyWhen(Placed(t, cases[0]), cases[1..]);
      }
    }
  }

  // ----- any order -----

  /** The tree is the old one with the files of all cases and the directories above them. */
  ghost predicate IsUnion(r: Tree, t: Tree, cases: seq<Case>) {
    && (forall p :: p in r.files <==> p in t.files || HasPath(cases, p))
    && (forall p :: p in t.files && p in r.files && !HasPath(cases, p) ==> r.files[p] == t.files[p])
    && (forall i, p :: 0 <= i < |cases| && p in FileMap(cases[i].dir, cases[i].files) ==>
          p in r.files && r.files[p] == FileMap(cases[i].dir, cases[i].files)[p])
    && (forall d :: d in r.dirs <==> d in t.dirs || HasDir(cases, d))
  }

  ghost predicate HasPath(cases: seq<Case>, p: Path) {
    exists i :: 0 <= i < |cases| && p in FileMap(cases[i].dir, cases[i].files)
  }

  ghost predicate HasDir(cases: seq<Case>, d: Path) {
    exists i :: 0 <= i < |cases| && IsPrefix(d, cases[i].dir)
  }

  ghost predicate IsOrder(order: seq<nat>, n: nat) {
    && |order| == n && (forall i :: 0 <= i < n ==> order[i] < n)
    && (forall i, j :: 0 <= i < j < n ==> order[i] != order[j])
    && forall k: nat :: k < n ==> k in order
  }

  function Reordered(cases: seq<Case>, order: seq<nat>): (r: seq<Case>)
    requires forall i :: 0 <= i < |order| ==> order[i] < |cases|
    ensures |r| == |order| && forall i :: 0 <= i < |order| ==> r[i] == cases[order[i]]
  {
    seq(|order|, i requires 0 <= i < |order| => cases[order[i]])
  }

  lemma CrossApartIsSymmetric(c: Case, d: Case)
    ensures CrossApart(c, d) <==> CrossApart(d, c)
  {
  }

  lemma OrderKeepsApart(t: Tree, cases: seq<Case>, order: seq<nat>)
    requires IsOrder(order, |cases|) && NothingInTheWay(t, cases) && CasesApart(cases)
    ensures NothingInTheWay(t, Reordered(cases, order)) && CasesApart(Reordered(cases, order))
  {
    var r := Reordered(cases, order);
    forall i, j | 0 <= i < j < |r| ensures CrossApart(r[i], r[j]) {
      CrossApartIsSymmetric(cases[order[j]], cases[order[i]]);
    }
  }

  lemma ApartFilesAreDisjoint(c: Case, d: Case, p: Path)
    requires CrossApart(c, d) && p in FileMap(c.dir, c.files)
    ensures p !in FileMap(d.dir, d.files)
  {
    FilesAreMapped(c.dir, c.files, p);
    FilesAreMapped(d.dir, d.files, p);
    var j :| 0 <= j < |c.files| && p == c.dir + [c.files[j].0];
    assert p == PathOf(c, j) && IsPrefix(p, p);
    assert forall k :: 0 <= k < |d.files|
             ==> PathOf(d, k) == d.dir + [d.files[k].0] && Apart(PathOf(c, j), PathOf(d, k));
  }

  lemma PathOfSome(cases: seq<Case>, p: Path)
    requires cases != []
    ensures HasPath(cases, p) <==> p in FileMap(cases[0].dir, cases[0].files) || HasPath(cases[1..], p)
  {
    if i :| 0 <= i < |cases| - 1 && p in FileMap(cases[1..][i].dir, cases[1..][i].files) {
      assert cases[i + 1] == cases[1..][i];
    }
    if i :| 0 <= i < |cases| && p in FileMap(cases[i].dir, cases[i].files) {
      assert i > 0 ==> cases[1..][i - 1] == cases[i];
    }
  }

  lemma DirOfSome(cases: seq<Case>, d: Path)
    requires cases != []
    ensures HasDir(cases, d) <==> IsPrefix(d, cases[0].dir) || HasDir(cases[1..], d)
  {
    if i :| 0 <= i < |cases| - 1 && IsPrefix(d, cases[1..][i].dir) {
      assert cases[i + 1] == cases[1..][i];
    }
    if i :| 0 <= i < |cases| && IsPrefix(d, cases[i].dir) {
      assert i > 0 ==> cases[1..][i - 1] == cases[i];
    }
  }

  lemma UnionByOne(r: Tree, t: Tree, cases: seq<Case>)
    requires cases != [] && CasesApart(cases) && IsUnion(r, Placed(t, cases[0]), cases[1..])
    ensures IsUnion(r, t, cases)
  {
    var c, rest := cases[0], cases[1..];
    forall p ensures HasPath(cases, p) <==> p in FileMap(c.dir, c.files) || HasPath(rest, p) {
      PathOfSome(cases, p);
    }
    forall d ensures HasDir(cases, d) <==> IsPrefix(d, c.dir) || HasDir(rest, d) {
      DirOfSome(cases, d);
    }
    forall i, p | 0 <= i < |cases| && p in FileMap(cases[i].dir, cases[i].files)
      ensures p in r.files && r.files[p] == FileMap(cases[i].dir, cases[i].files)[p]
    {
      if i > 0 {
        assert rest[i - 1] == cases[i];
      } else {
        assert !HasPath(rest, p) by {
          if j :| 0 <= j < |rest| && p in FileMap(rest[j].dir, rest[j].files) {
            assert rest[j] == cases[j + 1];
            ApartFilesAreDisjoint(c, cases[j + 1], p);
          }
        }
      }
    }
  }

  lemma {:induction false} PlacedAllIsUnion(t: Tree, cases: seq<Case>)
    requires CasesApart(cases)
    ensures IsUnion(PlacedAll(t, cases), t, cases)
    decreases |cases|
  {
    if cases != [] {
      assert forall i :: 0 <= i < |cases| - 1 ==> cases[1..][i] == cases[i + 1];
      PlacedAllIsUnion(Placed(t, cases[0]), cases[1..]);
      UnionByOne(PlacedAll(t, cases), t, cases);
    }
  }

  lemma OrderKeepsPaths(cases: seq<Case>, order: seq<nat>)
    requires IsOrder(order, |cases|)
    ensures forall p :: HasPath(Reordered(cases, order), p) <==> HasPath(cases, p)
    ensures forall d :: HasDir(Reordered(cases, order), d) <==> HasDir(cases, d)
  {
    var r := Reordered(cases, order);
    forall k: nat | k < |cases| ensures cases[k] in r {
      assert k in order;
      var i :| 0 <= i < |order| && order[i] == k;
      assert r[i] == cases[k];
    }
    assert forall i :: 0 <= i < |r| ==> r[i] in cases;
    forall p ensures HasPath(r, p) <==> HasPath(cases, p) {
      if k :| 0 <= k < |cases| && p in FileMap(cases[k].dir, cases[k].files) {
        assert cases[k] in r;
      }
    }
    forall d ensures HasDir(r, d) <==> HasDir(cases, d) {
      if k :| 0 <= k < |cases| && IsPrefix(d, cases[k].dir) {
        assert cases[k] in r;
      }
    }
  }

  lemma SameFile(r: Tree, s: Tree, t: Tree, cases: seq<Case>, order: seq<nat>, p: Path)
    requires IsOrder(order, |cases|) && IsUnion(r, t, cases) && IsUnion(s, t, Reordered(cases, order)) && p in r.files
    ensures p in s.files && r.files[p] == s.files[p]
  {
    OrderKeepsPaths(cases, order);
    var ys := Reordered(cases, order);
    if HasPath(ys, p) {
      var i :| 0 <= i < |ys| && p in FileMap(ys[i].dir, ys[i].files);
      assert ys[i] == cases[order[i]];
    }
  }

  lemma SamePaths(r: Tree, s: Tree, t: Tree, cases: seq<Case>, order: seq<nat>, p: Path)
    requires IsOrder(order, |cases|) && IsUnion(r, t, cases) && IsUnion(s, t, Reordered(cases, order))
    ensures (p in r.files <==> p in s.files) && (p in r.dirs <==> p in s.dirs)
  {
    OrderKeepsPaths(cases, order);
  }

  lemma UnionIsUnique(r: Tree, s: Tree, t: Tree, cases: seq<Case>, order: seq<nat>)
    requires IsOrder(order, |cases|) && IsUnion(r, t, cases) && IsUnion(s, t, Reordered(cases, order))
    ensures r == s
  {
    forall p ensures (p in r.files <==> p in s.files) && (p in r.dirs <==> p in s.dirs) {
      SamePaths(r, s, t, cases, order, p);
    }
    forall p | p in r.files ensures r.files[p] == s.files[p] {
      SameFile(r, s, t, cases, order, p);
    }
    TreesAgree(r, s);
  }

  lemma TreesAgree(r: Tree, s: Tree)
    requires forall p :: (p in r.files <==> p in s.files) && (p in r.dirs <==> p in s.dirs)
    requires forall p :: p in r.files ==> r.files[p] == s.files[p]
    ensures r == s
  {
  }

  /** Cases that are apart and have nothing in their way can be written in any order: no
      write fails or replaces a file, and the tree is the same. */
  lemma {:induction false} AnyOrderWritesTheSame(t: Tree, cases: seq<Case>, order: seq<nat>)
    requires HaveFiles(cases) && NothingInTheWay(t, cases) && CasesApart(cases) && IsOrder(order, |cases|)
    ensures Clean(WriteCases(t, cases)) && Clean(WriteCases(t, Reordered(cases, order)))
    ensures WriteCases(t, Reordered(cases, order)).tree == WriteCases(t, cases).tree
    ensures IsUnion(WriteCases(t, cases).tree, t, cases)
  {
    var ys := Reordered(cases, order);
    OrderKeepsApart(t, cases, order);
    WritesCasesExactlyWhen(t, cases);
    WritesCasesExactlyWhen(t, ys);
    PlacedAllIsUnion(t, cases);
    PlacedAllIsUnion(t, ys);
    UnionIsUnique(PlacedAll(t, cases), PlacedAll(t, ys), t, cases, order);
  }

  /** One of the cases writes the file `p`. */
  ghost predicate IsWritten(cases: seq<Case>, p: Path) {
    exists i, k :: 0 <= i < |cases| && 0 <= k < |cases[i].files| && p == PathOf(cases[i], k)
  }

  lemma {:induction false} MappedContent(dir: Path, files: seq<(string, string)>, k: nat)
    requires k < |files| && forall i, j :: 0 <= i < j < |files| ==> files[i].0 != files[j].0
    ensures var m := FileMap(dir, files); dir + [files[k].0] in m && m[dir + [files[k].0]] == files[k].1
    decreases |files|
  {
    if k == 0 {
      var path := dir + [files[0].0];
      FilesAreMapped(dir, files[1..], path);
      forall j | 0 <= j < |files| - 1 ensures path != dir + [files[1..][j].0] {
        assert files[1..][j] == files[j + 1] && path[|dir|] == files[0].0;
        assert (dir + [files[1..][j].0])[|dir|] == files[j + 1].0;
      }
    } else {
      MappedContent(dir, files[1..], k - 1);
    }
  }

  lemma {:induction false} UnionHolds(r: Tree, t: Tree, cases: seq<Case>, i: nat, k: nat)
    requires IsUnion(r, t, cases) && CasesApart(cases) && i < |cases| && k < |cases[i].files|
    ensures PathOf(cases[i], k) in r.files && r.files[PathOf(cases[i], k)] == cases[i].files[k].1
  {
    assert NamesDiffer(cases[i]);
    MappedContent(cases[i].dir, cases[i].files, k);
  }

  lemma {:induction false} MappedIsWritten(cases: seq<Case>, j: nat, p: Path)
    requires j < |cases| && p in FileMap(cases[j].dir, cases[j].files)
    ensures IsWritten(cases, p)
  {
    FilesAreMapped(cases[j].dir, cases[j].files, p);
    var k :| 0 <= k < |cases[j].files| && p == cases[j].dir + [cases[j].files[k].0];
    assert p == PathOf(cases[j], k);
  }

  lemma {:induction false} UnionSpares(r: Tree, t: Tree, cases: seq<Case>, p: Path)
    requires IsUnion(r, t, cases) && !IsWritten(cases, p)
    ensures (p in r.files <==> p in t.files) && (p in r.files ==> r.files[p] == t.files[p])
  {
    if HasPath(cases, p) {
      var j :| 0 <= j < |cases| && p in FileMap(cases[j].dir, cases[j].files);
      MappedIsWritten(cases, j, p);
    }
  }

  /** After clean writing each file of each case is there with its content, and every other file
      is what it was. */
  lemma {:induction false} CleanWritesHold(t: Tree, cases: seq<Case>, i: nat, k: nat, p: Path)
    requires HaveFiles(cases) && Clean(WriteCases(t, cases))
    requires i < |cases| && k < |cases[i].files|
    ensures var files := WriteCases(t, cases).tree.files;
            && PathOf(cases[i], k) in files && files[PathOf(cases[i], k)] == cases[i].files[k].1
            && (!IsWritten(cases, p) ==> (p in files <==> p in t.files) && (p in files ==> files[p] == t.files[p]))
  {
    WritesCasesExactlyWhen(t, cases);
    PlacedAllIsUnion(t, cases);
    UnionHolds(PlacedAll(t, cases), t, cases, i, k);
    if !IsWritten(cases, p) {
      UnionSpares(PlacedAll(t, cases), t, cases, p);
    }
  }
}
