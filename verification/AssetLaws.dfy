/** When a check of the generated assets is clean, when writing them succeeds, and that writing
    makes the check clean. */
module AssetLaws {
  import opened MachineIntegers
  import opened Texts
  import opened FileTrees
  import opened GeneratedAssets

  // ----- paths and their spelling -----

  lemma {:induction false} FilePathIsNames(root: Option<Node>, p: Path)
    requires WellFormedRoot(root) && At(root, p).Some?
    ensures forall i :: 0 <= i < |p| ==> IsName(p[i])
    decreases |p|
  {
    if p != [] {
      if ChildOf(root, p[0]).None? {
        NothingBelow(p[1..]);
      } else {
        FindIsMember(root.value.entries, p[0]);
        ChildIsWellFormed(root.value, p[0]);
        FilePathIsNames(ChildOf(root, p[0]), p[1..]);
        assert forall i :: 1 <= i < |p| ==> p[i] == p[1..][i - 1];
      }
    }
  }

  /** Paths of names and their spellings stand for each other. */
  lemma {:induction false} SpellingIsExact(p: Path, path: string)
    requires p != [] && forall i :: 0 <= i < |p| ==> IsName(p[i])
    ensures path == Relative(p) <==> Location(path) == p
  {
    assert Free(p, '/');
    SplitUndoesJoin(p, '/');
    JoinUndoesSplit(path, '/');
  }

  /** The location of some asset. */
  ghost predicate IsRegistered(assets: seq<Asset>, p: Path) {
    exists a :: a in assets && Location(a.path) == p
  }

  lemma {:induction false} RegisteredExactlyWhen(root: Option<Node>, assets: seq<Asset>, p: Path)
    requires WellFormedRoot(root) && p != [] && At(root, p).Some?
    ensures Relative(p) in Paths(assets) <==> IsRegistered(assets, p)
  {
    FilePathIsNames(root, p);
    forall a | a in assets ensures a.path == Relative(p) <==> Location(a.path) == p {
      SpellingIsExact(p, a.path);
    }
  }

  // ----- a clean check -----

  /** The regular files are exactly the registered ones, with their contents. */
  ghost predicate Matches(root: Option<Node>, assets: seq<Asset>) {
    && (forall a :: a in assets ==> FileAt(root, Location(a.path)) == Some(Text(a.content)))
    && forall p :: FileAt(root, p).Some? ==> IsRegistered(assets, p)
  }

  lemma {:induction false} AssetsCleanExactlyWhen(root: Option<Node>, assets: seq<Asset>)
    ensures AssetProblems(root, assets) == Some([])
            <==> forall a :: a in assets ==> FileAt(root, Location(a.path)) == Some(Text(a.content))
    decreases |assets|
  {
    if assets != [] {
      var n := |assets| - 1;
      assert assets == assets[..n] + [assets[n]];
      AssetsCleanExactlyWhen(root, assets[..n]);
      ReadIsFile(root, Location(assets[n].path), assets[n].content);
    }
  }

  /** Extra files are exactly the regular ones that are not registered. */
  lemma {:induction false} ExtraFilesAreExact(root: Option<Node>, assets: seq<Asset>, p: Path)
    requires WellFormedRoot(root) && ExtraFiles(root, Paths(assets)).Some?
    ensures p in ExtraFiles(root, Paths(assets)).value <==> FileAt(root, p).Some? && !IsRegistered(assets, p)
  {
    match root
    case None => NothingBelow(p);
    case Some(node) =>
      assert node.Dir?;
      assert [] + p == p;
      ExtrasAreExact(node.entries, [], Paths(assets), p);
      if p != [] && FileAt(root, p).Some? {
        RegisteredExactlyWhen(root, assets, p);
      }
  }

  lemma {:induction false} NoExtrasExactlyWhen(root: Option<Node>, assets: seq<Asset>)
    requires WellFormedRoot(root) && ExtraFiles(root, Paths(assets)).Some?
    ensures ExtraFiles(root, Paths(assets)).value == []
            <==> forall p :: FileAt(root, p).Some? ==> IsRegistered(assets, p)
  {
    var extras := ExtraFiles(root, Paths(assets)).value;
    forall p ensures p in extras <==> FileAt(root, p).Some? && !IsRegistered(assets, p) {
      ExtraFilesAreExact(root, assets, p);
    }
    if extras != [] {
      assert extras[0] in extras;
    }
  }

  /** A check finds no problem exactly if the registry is valid, the root is no special file,
      and the regular files below it are the registered ones with equal contents. */
  lemma {:induction false} CheckIsCleanExactlyWhen(root: Option<Node>, assets: seq<Asset>)
    requires WellFormedRoot(root)
    ensures Check(root, assets) == Checked([]) <==> AllPlain(assets) && root != Some(Special) && Matches(root, assets)
  {
    AssetsCleanExactlyWhen(root, assets);
    if root.Some? && root.value.File? {
      assert FileAt(root, []).Some?;
      assert forall a :: a in assets ==> Location(a.path) != [];
      assert !IsRegistered(assets, []);
    }
    if ExtraFiles(root, Paths(assets)).Some? {
      NoExtrasExactlyWhen(root, assets);
    }
  }

  /** What is wrong with a registered asset: its file has other text, or there is none. */
  ghost predicate IsProblem(root: Option<Node>, a: Asset, x: Problem) {
    || (x == Differs(a.path)
        && exists text :: text != a.content && FileAt(root, Location(a.path)) == Some(Text(text)))
    || (x == Missing(a.path) && IsMissing(root, Location(a.path)))
  }

  lemma {:induction false} ProblemsAreThese(root: Option<Node>, a: Asset, x: Problem)
    ensures ProblemOf(root, a) == Some(x) <==> IsProblem(root, a, x)
  {
    var read := ReadToString(root, Location(a.path));
    NotFoundExactlyWhen(root, Location(a.path));
    forall text ensures read == Read(text) <==> FileAt(root, Location(a.path)) == Some(Text(text)) {
      ReadIsFile(root, Location(a.path), text);
    }
    if read.Read? {
      assert FileAt(root, Location(a.path)) == Some(Text(read.text));
    }
  }

  ghost predicate HasProblem(root: Option<Node>, assets: seq<Asset>, x: Problem) {
    exists a :: a in assets && IsProblem(root, a, x)
  }

  ghost predicate IsExtra(root: Option<Node>, assets: seq<Asset>, x: Problem) {
    exists p :: FileAt(root, p).Some? && !IsRegistered(assets, p) && x == Extra(Relative(p))
  }

  lemma HasProblemByOne(root: Option<Node>, before: seq<Asset>, last: Asset, x: Problem)
    ensures HasProblem(root, before + [last], x) <==> HasProblem(root, before, x) || IsProblem(root, last, x)
  {
    assert forall a :: a in before + [last] <==> a in before || a == last;
    assert last in before + [last];
  }

  lemma {:induction false} AssetReportIsExact(root: Option<Node>, assets: seq<Asset>, x: Problem)
    requires AssetProblems(root, assets).Some?
    ensures x in AssetProblems(root, assets).value <==> HasProblem(root, assets, x)
    decreases |assets|
  {
    if assets != [] {
      var n := |assets| - 1;
      assert assets == assets[..n] + [assets[n]];
      AssetReportIsExact(root, assets[..n], x);
      HasProblemByOne(root, assets[..n], assets[n], x);
      ProblemsAreThese(root, assets[n], x);
    }
  }

  /** The file of an asset holds text, or is missing. */
  ghost predicate IsReadable(root: Option<Node>, a: Asset) {
    (exists text :: FileAt(root, Location(a.path)) == Some(Text(text))) || IsMissing(root, Location(a.path))
  }

  lemma {:induction false} ReadableExactlyWhen(root: Option<Node>, a: Asset)
    ensures IsReadable(root, a) <==> !ReadToString(root, Location(a.path)).ReadError?
  {
    var read := ReadToString(root, Location(a.path));
    NotFoundExactlyWhen(root, Location(a.path));
    forall text ensures read == Read(text) <==> FileAt(root, Location(a.path)) == Some(Text(text)) {
      ReadIsFile(root, Location(a.path), text);
    }
    if read.Read? {
      assert FileAt(root, Location(a.path)) == Some(Text(read.text));
    }
  }

  lemma {:induction false} AssetsReadExactlyWhen(root: Option<Node>, assets: seq<Asset>)
    ensures AssetProblems(root, assets).Some? <==> forall a :: a in assets ==> IsReadable(root, a)
    decreases |assets|
  {
    if assets != [] {
      var n := |assets| - 1;
      assert assets == assets[..n] + [assets[n]];
      AssetsReadExactlyWhen(root, assets[..n]);
      ReadableExactlyWhen(root, assets[n]);
    }
  }

  /** The check has an answer exactly if the registered paths are plain, the root is a directory
      or absent, and each registered file holds text or is missing. */
  lemma {:induction false} ChecksExactlyWhen(root: Option<Node>, assets: seq<Asset>)
    ensures Check(root, assets).Checked?
            <==> && AllPlain(assets) && (KindAt(root, []) == Absent || KindAt(root, []) == Directory)
                 && forall a :: a in assets ==> IsReadable(root, a)
  {
    AssetsReadExactlyWhen(root, assets);
  }

  /** What is reported are exactly the assets that differ or are missing and the extra files:
      all of them, not the first one. */
  lemma {:induction false} ReportIsExact(root: Option<Node>, assets: seq<Asset>, x: Problem)
    requires WellFormedRoot(root) && Check(root, assets).Checked?
    ensures x in Check(root, assets).problems <==> HasProblem(root, assets, x) || IsExtra(root, assets, x)
  {
    var extras := ExtraFiles(root, Paths(assets)).value;
    AssetReportIsExact(root, assets, x);
    forall p ensures p in extras <==> FileAt(root, p).Some? && !IsRegistered(assets, p) {
      ExtraFilesAreExact(root, assets, p);
    }
    if p :| p in extras && x == Extra(Relative(p)) {
      var i :| 0 <= i < |extras| && extras[i] == p;
      assert ExtraProblems(extras)[i] == x;
    }
  }

  // ----- writing -----

  datatype Stepped = Stepped(root: Option<Node>) | Refused

  function RemoveAll(root: Option<Node>, paths: seq<Path>): Stepped
    decreases |paths|
  {
    if paths == [] then Stepped(root)
    else
      var next := Remove(root, paths[0]);
      if next.None? then Refused else RemoveAll(next, paths[1..])
  }

  function PutAll(root: Option<Node>, assets: seq<Asset>): Stepped
    decreases |assets|
  {
    if assets == [] then Stepped(root)
    else
      var next := Put(root, Location(assets[0].path), assets[0].content);
      if next.None? then Refused else PutAll(next, assets[1..])
  }

  datatype WriteResult = WriteFailed | Written(root: Option<Node>, count: nat)

  ghost function Write(root: Option<Node>, assets: seq<Asset>): WriteResult {
    var extras := ExtraFiles(root, Paths(assets));
    if !AllPlain(assets) || extras.None? then WriteFailed
    else
      var cleared := RemoveAll(root, extras.value);
      if cleared.Refused? then WriteFailed
      else
        var written := PutAll(cleared.root, assets);
        if written.Refused? then WriteFailed else Written(written.root, |assets|)
  }

  /** Deletes what is not registered, then writes what is. */
  method WriteRegistry(root: Option<Node>, assets: seq<Asset>) returns (r: WriteResult)
    ensures r == Write(root, assets)
  {
    var registered := RegisteredPaths(assets);
    if registered.None? {
      return WriteFailed;
    }
    var extras := ExtraFilesOf(root, registered.value);
    if extras.None? {
      return WriteFailed;
    }
    var tree := root;
    for i := 0 to |extras.value|
      invariant RemoveAll(tree, extras.value[i..]) == RemoveAll(root, extras.value)
    {
      assert extras.value[i..][1..] == extras.value[i + 1..];
      var next := Remove(tree, extras.value[i]);
      if next.None? {
        return WriteFailed;
      }
      tree := next;
    }
    ghost var cleared := tree;
    for i := 0 to |assets|
      invariant PutAll(tree, assets[i..]) == PutAll(cleared, assets)
    {
      assert assets[i..][1..] == assets[i + 1..];
      var next := Put(tree, Location(assets[i].path), assets[i].content);
      if next.None? {
        return WriteFailed;
      }
      tree := next;
    }
    r := Written(tree, |assets|);
  }

  // ----- what writing does -----

  /** Files that are there can all be removed, and nothing else changes. */
  lemma {:induction false} RemovesAll(root: Option<Node>, paths: seq<Path>)
    requires WellFormedRoot(root) && NoDuplicates(paths)
    requires forall p :: p in paths ==> p != [] && FileAt(root, p).Some?
    ensures RemoveAll(root, paths).Stepped? && WellFormedRoot(RemoveAll(root, paths).root)
    ensures forall q :: FileAt(RemoveAll(root, paths).root, q) == if q in paths then None else FileAt(root, q)
    ensures forall q :: KindAt(RemoveAll(root, paths).root, q) == if q in paths then Absent else KindAt(root, q)
    decreases |paths|
  {
    if paths != [] {
      var first, rest := paths[0], paths[1..];
      assert first in paths;
      FileIsRemovable(root, first);
      var next := Remove(root, first);
      RemoveKeepsWellFormed(root, first);
      forall q ensures FileAt(next, q) == if q == first then None else FileAt(root, q) {
        FilesAfterRemove(root, first, q);
      }
      forall q ensures KindAt(next, q) == if q == first then Absent else KindAt(root, q) {
        KindAfterRemove(root, first, q);
      }
      assert forall p :: p in rest ==> p in paths && p != first;
      RemovesAll(next, rest);
      assert forall q :: q in paths <==> q == first || q in rest;
    }
  }

  ghost predicate Unnested(assets: seq<Asset>) {
    forall i, j :: 0 <= i < |assets| && 0 <= j < |assets|
        ==> !ProperPrefix(Location(assets[i].path), Location(assets[j].path))
  }

  ghost predicate AllCanPut(root: Option<Node>, assets: seq<Asset>) {
    forall i :: 0 <= i < |assets| ==> CanPut(root, Location(assets[i].path))
  }

  lemma UnnestedByOne(root: Option<Node>, assets: seq<Asset>)
    requires assets != [] && Put(root, Location(assets[0].path), assets[0].content).Some?
    ensures AllCanPut(root, assets) && Unnested(assets)
            <==> CanPut(root, Location(assets[0].path))
                 && AllCanPut(Put(root, Location(assets[0].path), assets[0].content), assets[1..])
                    && Unnested(assets[1..])
  {
    var first, rest := Location(assets[0].path), assets[1..];
    var next := Put(root, first, assets[0].content);
    forall i | 0 <= i < |rest|
      ensures rest[i] == assets[i + 1]
      ensures CanPut(next, Location(rest[i].path))
              <==> CanPut(root, Location(rest[i].path)) && !ProperPrefix(first, Location(rest[i].path))
                   && !ProperPrefix(Location(rest[i].path), first)
    {
      CanPutBesides(root, first, assets[0].content, Location(rest[i].path));
    }
    assert forall i :: 0 < i < |assets| ==> assets[i] == rest[i - 1];
  }

  /** All assets can be written exactly if each one can and none is inside of another. */
  lemma {:induction false} PutsAllExactlyWhen(root: Option<Node>, assets: seq<Asset>)
    ensures PutAll(root, assets).Stepped? <==> AllCanPut(root, assets) && Unnested(assets)
    decreases |assets|
  {
    if assets != [] {
      var first := Location(assets[0].path);
      PutsExactlyWhen(root, first, assets[0].content);
      if Put(root, first, assets[0].content).Some? {
        UnnestedByOne(root, assets);
        PutsAllExactlyWhen(Put(root, first, assets[0].content), assets[1..]);
      } else {
        assert !AllCanPut(root, assets);
      }
    }
  }

  /** A path belongs to one asset only. */
  ghost predicate UniquePaths(assets: seq<Asset>) {
    forall i, j :: 0 <= i < j < |assets| ==> assets[i].path != assets[j].path
  }

  lemma UniqueLocations(assets: seq<Asset>, i: nat, j: nat)
    requires UniquePaths(assets) && i < j < |assets|
    ensures Location(assets[i].path) != Location(assets[j].path)
  {
    JoinUndoesSplit(assets[i].path, '/');
    JoinUndoesSplit(assets[j].path, '/');
  }

  /** Every asset is written and no other file changes. */
  lemma {:induction false} PutsAll(root: Option<Node>, assets: seq<Asset>)
    requires WellFormedRoot(root) && AllPlain(assets) && UniquePaths(assets) && PutAll(root, assets).Stepped?
    ensures var after := PutAll(root, assets).root;
            && WellFormedRoot(after)
            && (forall a :: a in assets ==> FileAt(after, Location(a.path)) == Some(Text(a.content)))
            && forall q :: !IsRegistered(assets, q) ==> FileAt(after, q) == FileAt(root, q)
    decreases |assets|
  {
    if assets != [] {
      var first, rest := assets[0], assets[1..];
      var next := Put(root, Location(first.path), first.content);
      PlainSegmentsAreNames(first.path);
      PutKeepsWellFormed(root, Location(first.path), first.content);
      assert assets == [first] + rest;
      assert forall i :: 0 <= i < |rest| ==> rest[i] == assets[i + 1];
      PutsAll(next, rest);
      assert !IsRegistered(rest, Location(first.path)) by {
        forall j | 0 <= j < |rest| ensures Location(rest[j].path) != Location(first.path) {
          UniqueLocations(assets, 0, j + 1);
        }
      }
      forall q
        ensures FileAt(next, q) == if q == Location(first.path) then Some(Text(first.content)) else FileAt(root, q)
      {
        FilesAfterPut(root, Location(first.path), first.content, q);
      }
      forall q | !IsRegistered(assets, q) ensures !IsRegistered(rest, q) && q != Location(first.path) {
        assert forall a :: a in rest ==> a in assets;
        assert first in assets;
      }
    }
  }

  /** Clearing the extras never fails; it leaves the registered files and all other nodes. */
  lemma {:induction false} ClearsExtras(root: Option<Node>, assets: seq<Asset>)
    requires WellFormedRoot(root) && ExtraFiles(root, Paths(assets)).Some?
    ensures var cleared := RemoveAll(root, ExtraFiles(root, Paths(assets)).value);
            && cleared.Stepped? && WellFormedRoot(cleared.root)
            && (forall q :: FileAt(cleared.root, q) == if IsRegistered(assets, q) then FileAt(root, q) else None)
            && (forall q :: KindAt(cleared.root, q)
                  == if KindAt(root, q) == Regular && !IsRegistered(assets, q) then Absent else KindAt(root, q))
  {
    var extras := ExtraFiles(root, Paths(assets)).value;
    forall p ensures p in extras <==> FileAt(root, p).Some? && !IsRegistered(assets, p) {
      ExtraFilesAreExact(root, assets, p);
    }
    if root.Some? {
      ExtrasAreDistinct(root.value.entries, [], Paths(assets));
      assert FileAt(root, []) == None;
    } else {
      assert FileAt(root, []) == None;
    }
    RemovesAll(root, extras);
    assert forall q :: FileAt(root, q).Some? <==> KindAt(root, q) == Regular;
  }

  /** Writing a registry of different paths, if it succeeds, makes the check clean, whatever
      was under the root before. */
  lemma {:induction false} WritingMakesTheCheckClean(root: Option<Node>, assets: seq<Asset>)
    requires WellFormedRoot(root) && UniquePaths(assets) && Write(root, assets).Written?
    ensures Write(root, assets).count == |assets|
    ensures Check(Write(root, assets).root, assets) == Checked([])
  {
    var cleared := RemoveAll(root, ExtraFiles(root, Paths(assets)).value);
    var after := Write(root, assets).root;
    ClearsExtras(root, assets);
    PutsAll(cleared.root, assets);
    assert Matches(after, assets);
    CheckIsCleanExactlyWhen(after, assets);
    RootStaysReadable(root, assets);
  }

  lemma {:induction false} RootStaysReadable(root: Option<Node>, assets: seq<Asset>)
    requires WellFormedRoot(root) && Write(root, assets).Written?
    ensures Write(root, assets).root != Some(Special)
  {
    var cleared := RemoveAll(root, ExtraFiles(root, Paths(assets)).value);
    ClearsExtras(root, assets);
    assert KindAt(root, []) == KindOf(root) && KindAt(cleared.root, []) == KindOf(cleared.root);
    PutsLeaveNoSpecialRoot(cleared.root, assets);
  }

  lemma {:induction false} PutsLeaveNoSpecialRoot(root: Option<Node>, assets: seq<Asset>)
    requires root != Some(Special) && PutAll(root, assets).Stepped?
    ensures PutAll(root, assets).root != Some(Special)
    decreases |assets|
  {
    if assets != [] {
      PutsLeaveNoSpecialRoot(Put(root, Location(assets[0].path), assets[0].content), assets[1..]);
    }
  }

  /** Nothing but regular files stands in the way of an asset: it is no directory and no
      special file, and no special file is above it. */
  ghost predicate Writable(root: Option<Node>, p: Path) {
    && (KindAt(root, p) == Absent || KindAt(root, p) == Regular)
    && forall q :: ProperPrefix(q, p) ==> KindAt(root, q) != Other
  }

  lemma {:induction false} ClearedCanPut(root: Option<Node>, cleared: Option<Node>, assets: seq<Asset>, a: Asset)
    requires a in assets && Unnested(assets)
    requires forall q ::
               KindAt(cleared, q) == if KindAt(root, q) == Regular && !IsRegistered(assets, q) then Absent
                 else KindAt(root, q)
    ensures CanPut(cleared, Location(a.path)) <==> Writable(root, Location(a.path))
  {
    assert IsRegistered(assets, Location(a.path));
    forall q | ProperPrefix(q, Location(a.path)) ensures !IsRegistered(assets, q) {
      forall b | b in assets ensures Location(b.path) != q {
        var i :| 0 <= i < |assets| && assets[i] == b;
        var j :| 0 <= j < |assets| && assets[j] == a;
        assert !ProperPrefix(Location(assets[i].path), Location(assets[j].path));
      }
    }
  }

  /** Writing succeeds exactly if the registry is valid, the root is a directory or missing,
      no registered path is inside of another, and only regular files are in the way. */
  lemma {:induction false} WriteSucceedsExactlyWhen(root: Option<Node>, assets: seq<Asset>)
    requires WellFormedRoot(root)
    ensures Write(root, assets).Written?
            <==> AllPlain(assets) && (root.None? || root.value.Dir?) && Unnested(assets)
                 && forall a :: a in assets ==> Writable(root, Location(a.path))
  {
    if ExtraFiles(root, Paths(assets)).Some? {
      ClearsExtras(root, assets);
      var cleared := RemoveAll(root, ExtraFiles(root, Paths(assets)).value).root;
      PutsAllExactlyWhen(cleared, assets);
      if Unnested(assets) {
        forall i | 0 <= i < |assets|
          ensures CanPut(cleared, Location(assets[i].path)) <==> Writable(root, Location(assets[i].path))
        {
          ClearedCanPut(root, cleared, assets, assets[i]);
        }
      }
    }
  }
}
