/** Writing the registered assets under a root and checking them there
    (packages/cargo-bench-history-figures/src/assets.rs). */
module GeneratedAssets {
  import opened MachineIntegers
  import opened Texts
  import opened FileTrees

  /** One generated file; the path is relative, with forward slashes. */
  datatype Asset = Asset(path: string, content: string)

  function Location(path: string): (segments: Path)
    ensures |segments| >= 1
  {
    Split(path, '/')
  }

  function Relative(path: Path): string {
    Join(path, "/")
  }

  predicate IsPlainSegment(segment: string) {
    segment != "" && segment != "." && segment != ".."
  }

  ghost predicate IsPlain(path: string) {
    forall i :: 0 <= i < |Location(path)| ==> IsPlainSegment(Location(path)[i])
  }

  lemma {:induction false} PlainSegmentsAreNames(path: string)
    requires IsPlain(path)
    ensures forall i :: 0 <= i < |Location(path)| ==> IsName(Location(path)[i])
    ensures Relative(Location(path)) == path
  {
    JoinUndoesSplit(path, '/');
  }

  ghost predicate AllPlain(assets: seq<Asset>) {
    forall i :: 0 <= i < |assets| ==> IsPlain(assets[i].path)
  }

  function Paths(assets: seq<Asset>): set<string> {
    set a | a in assets :: a.path
  }

  method ValidateRegisteredPath(path: string) returns (valid: bool)
    ensures valid <==> IsPlain(path)
  {
    var segments := Location(path);
    for i := 0 to |segments|
      invariant forall k :: 0 <= k < i ==> IsPlainSegment(segments[k])
    {
      if !IsPlainSegment(segments[i]) {
        return false;
      }
    }
    valid := true;
  }

  method RegisteredPaths(assets: seq<Asset>) returns (registered: Option<set<string>>)
    ensures registered == if AllPlain(assets) then Some(Paths(assets)) else None
  {
    var paths: set<string> := {};
    for i := 0 to |assets|
      invariant AllPlain(assets[..i]) && paths == Paths(assets[..i])
    {
      var valid := ValidateRegisteredPath(assets[i].path);
      if !valid {
        return None;
      }
      assert assets[..i + 1] == assets[..i] + [assets[i]];
      paths := paths + {assets[i].path};
    }
    assert assets[..|assets|] == assets;
    registered := Some(paths);
  }

  // ----- files outside of the registry -----

  /** Paths of the regular files below a directory that are not registered. */
  function Extras(entries: seq<Entry>, at: Path, registered: set<string>): seq<Path>
    decreases entries
  {
    if entries == [] then []
    else ExtrasAt(entries[0].node, at + [entries[0].name], registered) + Extras(entries[1..], at, registered)
  }

  function ExtrasAt(node: Node, path: Path, registered: set<string>): seq<Path>
    decreases node
  {
    match node
    case Dir(below) => Extras(below, path, registered)
    case File(_) => if Relative(path) in registered then [] else [path]
    case Special => []
  }

  /** Walks one directory and those below it. */
  method CollectExtras(
      entries: seq<Entry>, at: Path, registered: set<string>, extras: seq<Path>) returns (all: seq<Path>)
    ensures all == extras + Extras(entries, at, registered)
    decreases entries
  {
    all := extras;
    for i := 0 to |entries|
      invariant all + Extras(entries[i..], at, registered) == extras + Extras(entries, at, registered)
    {
      var entry := entries[i];
      var path := at + [entry.name];
      assert entries[i..][1..] == entries[i + 1..];
      match entry.node
      case Dir(below) => all := CollectExtras(below, path, registered, all);
      case File(_) =>
        if Relative(path) !in registered {
          all := all + [path];
        }
      case Special =>
    }
  }

  /** A missing root has no files; a root that is no directory cannot be read. */
  function ExtraFiles(root: Option<Node>, registered: set<string>): Option<seq<Path>> {
    match root
    case None => Some([])
    case Some(Dir(entries)) => Some(Extras(entries, [], registered))
    case Some(_) => None
  }

  lemma {:induction false} ExtrasAreBelow(entries: seq<Entry>, at: Path, registered: set<string>, p: Path)
    requires p in Extras(entries, at, registered)
    ensures |p| > |at| && p[..|at|] == at && exists e :: e in entries && e.name == p[|at|]
    decreases entries
  {
    var path := at + [entries[0].name];
    assert entries[0] in entries;
    if p in Extras(entries[1..], at, registered) {
      ExtrasAreBelow(entries[1..], at, registered, p);
    } else {
      ExtrasAtAreBelow(entries[0].node, path, registered, p);
      assert p[..|at|] == p[..|path|][..|at|] && p[|at|] == p[..|path|][|at|];
    }
  }

  lemma {:induction false} ExtrasAtAreBelow(node: Node, path: Path, registered: set<string>, p: Path)
    requires p in ExtrasAt(node, path, registered)
    ensures |p| >= |path| && p[..|path|] == path && (p == path ==> node.File?)
    ensures path != [] ==> p[|path| - 1] == path[|path| - 1]
    decreases node
  {
    match node
    case Dir(below) => ExtrasAreBelow(below, path, registered, p);
    case File(_) =>
  }

  lemma FileByOne(entries: seq<Entry>, q: Path)
    requires entries != [] && q != []
    ensures FileAt(Some(Dir(entries)), q)
            == if q[0] == entries[0].name then FileAt(Some(entries[0].node), q[1..])
              else FileAt(Some(Dir(entries[1..])), q)
  {
  }

  lemma RestIsWellFormed(entries: seq<Entry>)
    requires entries != [] && WellFormed(Dir(entries))
    ensures WellFormed(Dir(entries[1..])) && WellFormed(entries[0].node)
    ensures forall e :: e in entries[1..] ==> e.name != entries[0].name
  {
    assert entries == [entries[0]] + entries[1..];
    assert Listing(entries);
    ListingByOne(entries[0], entries[1..]);
    assert Listing(entries[1..]);
  }

  /** The walk finds a path exactly if there is a regular file that is not registered. */
  lemma {:induction false} ExtrasAreExact(entries: seq<Entry>, at: Path, registered: set<string>, q: Path)
    requires WellFormed(Dir(entries))
    ensures at + q in Extras(entries, at, registered)
            <==> q != [] && FileAt(Some(Dir(entries)), q).Some? && Relative(at + q) !in registered
    decreases entries
  {
    var p := at + q;
    if q == [] {
      if p in Extras(entries, at, registered) {
        ExtrasAreBelow(entries, at, registered, p);
      }
    } else if entries == [] {
      NothingBelow(q[1..]);
    } else {
      var path := at + [entries[0].name];
      RestIsWellFormed(entries);
      FileByOne(entries, q);
      ExtrasAreExact(entries[1..], at, registered, q);
      assert p[|at|] == q[0];
      if q[0] == entries[0].name {
        assert p == path + q[1..];
        ExtrasAtIsExact(entries[0].node, path, registered, q[1..]);
        if p in Extras(entries[1..], at, registered) {
          ExtrasAreBelow(entries[1..], at, registered, p);
        }
      } else if p in ExtrasAt(entries[0].node, path, registered) {
        ExtrasAtAreBelow(entries[0].node, path, registered, p);
      }
    }
  }

  lemma {:induction false} ExtrasAtIsExact(node: Node, path: Path, registered: set<string>, q: Path)
    requires WellFormed(node)
    ensures path + q in ExtrasAt(node, path, registered)
            <==> FileAt(Some(node), q).Some? && Relative(path + q) !in registered
    decreases node
  {
    match node
    case Dir(below) => ExtrasAreExact(below, path, registered, q);
    case File(_) =>
      if q == [] {
        assert path + q == path;
      } else {
        NoFileBelowFile(node, q);
        assert |path + q| > |path|;
      }
    case Special =>
      if q != [] {
        NothingBelow(q[1..]);
      }
  }

  /** No path is found twice. */
  lemma {:induction false} ExtrasAreDistinct(entries: seq<Entry>, at: Path, registered: set<string>)
    requires WellFormed(Dir(entries))
    ensures NoDuplicates(Extras(entries, at, registered))
    decreases entries
  {
    if entries != [] {
      var path := at + [entries[0].name];
      var first, rest := ExtrasAt(entries[0].node, path, registered), Extras(entries[1..], at, registered);
      RestIsWellFormed(entries);
      ExtrasAreDistinct(entries[1..], at, registered);
      if entries[0].node.Dir? {
        ExtrasAreDistinct(entries[0].node.entries, path, registered);
      }
      forall p | p in first ensures p !in rest {
        ExtrasAtAreBelow(entries[0].node, path, registered, p);
        if p in rest {
          ExtrasAreBelow(entries[1..], at, registered, p);
        }
      }
      DisjointAppend(first, rest);
    }
  }

  ghost predicate NoDuplicates(paths: seq<Path>) {
    forall i, j :: 0 <= i < j < |paths| ==> paths[i] != paths[j]
  }

  lemma DisjointAppend(a: seq<Path>, b: seq<Path>)
    requires NoDuplicates(a) && NoDuplicates(b) && forall p :: p in a ==> p !in b
    ensures NoDuplicates(a + b)
  {
    forall i, j | 0 <= i < j < |a + b| ensures (a + b)[i] != (a + b)[j] {
      if i < |a| <= j {
        assert a[i] in a && b[j - |a|] in b;
      }
    }
  }

  // ----- checking -----

  datatype Problem = Differs(path: string) | Missing(path: string) | Extra(path: string)

  /** A failure of the file system or of the registry, or all problems found. */
  datatype CheckResult = CheckFailed | Checked(problems: seq<Problem>)

  /** What is wrong with one readable asset. */
  function ProblemOf(root: Option<Node>, a: Asset): Option<Problem> {
    match ReadToString(root, Location(a.path))
    case Read(text) => if text == a.content then None else Some(Differs(a.path))
    case NotFound => Some(Missing(a.path))
    case ReadError => None
  }

  /** What reading the registered files tells, or none if one cannot be read. */
  function AssetProblems(root: Option<Node>, assets: seq<Asset>): Option<seq<Problem>> {
    if assets == [] then Some([])
    else
      var n := |assets| - 1;
      var before := AssetProblems(root, assets[..n]);
      if before.None? || ReadToString(root, Location(assets[n].path)).ReadError? then None
      else
        var problem := ProblemOf(root, assets[n]);
        if problem.None? then before else Some(before.value + [problem.value])
  }

  function ExtraProblems(extras: seq<Path>): (problems: seq<Problem>)
    ensures |problems| == |extras|
  {
    seq(|extras|, i requires 0 <= i < |extras| => Extra(Relative(extras[i])))
  }

  ghost function Check(root: Option<Node>, assets: seq<Asset>): CheckResult {
    var problems, extras := AssetProblems(root, assets), ExtraFiles(root, Paths(assets));
    if !AllPlain(assets) || problems.None? || extras.None? then CheckFailed
    else Checked(problems.value + ExtraProblems(extras.value))
  }

  method ExtraFilesOf(root: Option<Node>, registered: set<string>) returns (extras: Option<seq<Path>>)
    ensures extras == ExtraFiles(root, registered)
  {
    match root
    case None => extras := Some([]);
    case Some(node) =>
      match node
      case Dir(entries) =>
        var all := CollectExtras(entries, [], registered, []);
        assert [] + Extras(entries, [], registered) == Extras(entries, [], registered);
        extras := Some(all);
      case File(_) => extras := None;
      case Special => extras := None;
  }

  method CheckRegistry(root: Option<Node>, assets: seq<Asset>) returns (r: CheckResult)
    ensures r == Check(root, assets)
  {
    var registered := RegisteredPaths(assets);
    if registered.None? {
      return CheckFailed;
    }
    var problems: seq<Problem> := [];
    for i := 0 to |assets|
      invariant AssetProblems(root, assets[..i]) == Some(problems)
    {
      assert assets[..i + 1][..i] == assets[..i];
      match ReadToString(root, Location(assets[i].path))
      case Read(text) =>
        if text != assets[i].content {
          problems := problems + [Differs(assets[i].path)];
        }
      case NotFound => problems := problems + [Missing(assets[i].path)];
      case ReadError =>
        UnreadableFails(root, assets, i + 1);
        return CheckFailed;
    }
    assert assets[..|assets|] == assets;
    var extras := ExtraFilesOf(root, registered.value);
    if extras.None? {
      return CheckFailed;
    }
    r := Checked(problems + ExtraProblems(extras.value));
  }

  lemma {:induction false} UnreadableFails(root: Option<Node>, assets: seq<Asset>, k: nat)
    requires k <= |assets| && AssetProblems(root, assets[..k]).None?
    ensures AssetProblems(root, assets).None?
    decreases |assets| - k
  {
    if k < |assets| {
      assert assets[..k + 1][..k] == assets[..k];
      UnreadableFails(root, assets, k + 1);
    } else {
      assert assets[..k] == assets;
    }
  }
}
