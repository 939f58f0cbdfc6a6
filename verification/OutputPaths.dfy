/** Where synthetic benchmark output goes, and the scan that keeps files apart
    (packages/cargo-bench-history-faker/src/writers.rs). */
module OutputPaths {
  import opened MachineIntegers
  import opened Texts
  import opened FileNames

  type Path = seq<string>

  // ----- the scan -----

  predicate IsPrefix(p: Path, q: Path) {
    |p| <= |q| && q[..|p|] == p
  }

  /** Neither is the other or inside of it. */
  predicate Apart(p: Path, q: Path) {
    !IsPrefix(p, q) && !IsPrefix(q, p)
  }

  /** How a case-insensitive file system compares a path. */
  function Folded(path: Path): (r: Path)
    ensures |r| == |path| && forall i :: 0 <= i < |r| ==> r[i] == Lower(path[i])
  {
    seq(|path|, i requires 0 <= i < |path| => Lower(path[i]))
  }

  ghost predicate PairwiseApart(paths: seq<Path>) {
    forall i, j :: 0 <= i < j < |paths| ==> Apart(paths[i], paths[j])
  }

  /** An output file of one case. */
  datatype Output = Output(identity: string, path: Path)

  function Keys(outputs: seq<Output>): (keys: seq<Path>)
    ensures |keys| == |outputs| && forall i :: 0 <= i < |keys| ==> keys[i] == Folded(outputs[i].path)
  {
    seq(|outputs|, i requires 0 <= i < |outputs| => Folded(outputs[i].path))
  }

  /** Compares each path with all before it. The first conflict names the earliest of those. */
  method AssertUniqueOutputPaths(outputs: seq<Output>) returns (conflict: Option<(string, string)>)
    ensures conflict.None? <==> PairwiseApart(Keys(outputs))
    ensures conflict.Some? ==> exists i, j ::
        && 0 <= i < j < |outputs| && conflict.value == (outputs[i].identity, outputs[j].identity)
        && !Apart(Keys(outputs)[i], Keys(outputs)[j])
        && PairwiseApart(Keys(outputs)[..j]) && forall k :: 0 <= k < i ==> Apart(Keys(outputs)[k], Keys(outputs)[j])
  {
    var paths: seq<(Path, string)> := [];
    ghost var keys := Keys(outputs);
    for j := 0 to |outputs|
      invariant |paths| == j && forall k :: 0 <= k < j ==> paths[k] == (keys[k], outputs[k].identity)
      invariant PairwiseApart(keys[..j])
    {
      var key := Folded(outputs[j].path);
      for i := 0 to |paths|
        invariant forall k :: 0 <= k < i ==> Apart(keys[k], keys[j])
      {
        if IsPrefix(key, paths[i].0) || IsPrefix(paths[i].0, key) {
          assert !Apart(keys[i], keys[j]);
          return Some((paths[i].1, outputs[j].identity));
        }
      }
      paths := paths + [(key, outputs[j].identity)];
    }
    assert keys[..|outputs|] == keys;
    conflict := None;
  }

  // ----- the tree -----

  /** A case-insensitive file system: folded paths of its directories, and its files. */
  datatype Tree = Tree(files: map<Path, string>, dirs: set<Path>)

  /** What writing does: the new tree and whether a file was replaced, or a failure. */
  datatype Outcome = Done(tree: Tree, replaced: bool) | Failed

  function Prefixes(p: Path): (r: set<Path>)
    ensures forall q :: q in r <==> IsPrefix(q, p)
  {
    var r := set k | 0 <= k <= |p| :: p[..k];
    assert forall q :: IsPrefix(q, p) ==> q == p[..|q|];
    r
  }

  /** A file where a directory is needed is an error. */
  function CreateDirAll(t: Tree, dir: Path): Option<Tree> {
    if exists p :: p in t.files && IsPrefix(p, dir) then None else Some(t.(dirs := t.dirs + Prefixes(dir)))
  }

  /** A directory in place of the file, or none above it, is an error. */
  function WriteFile(t: Tree, dir: Path, name: string, content: string): Outcome {
    var path := dir + [name];
    if path in t.dirs || dir !in t.dirs then Failed
    else Done(t.(files := t.files[path := content]), path in t.files)
  }

  function WriteFiles(t: Tree, dir: Path, files: seq<(string, string)>): Outcome
    decreases |files|
  {
    if files == [] then Done(t, false)
    else
      match WriteFile(t, dir, files[0].0, files[0].1)
      case Failed => Failed
      case Done(next, replaced) =>
        match WriteFiles(next, dir, files[1..])
        case Failed => Failed
        case Done(last, others) => Done(last, replaced || others)
  }

  /** The files of one case, in one directory; paths and names are folded. */
  datatype Case = Case(dir: Path, files: seq<(string, string)>)

  function WriteCase(t: Tree, c: Case): Outcome {
    var made := CreateDirAll(t, c.dir);
    if made.None? then Failed else WriteFiles(made.value, c.dir, c.files)
  }

  function WriteCases(t: Tree, cases: seq<Case>): Outcome
    decreases |cases|
  {
    if cases == [] then Done(t, false)
    else
      match WriteCase(t, cases[0])
      case Failed => Failed
      case Done(next, replaced) =>
        match WriteCases(next, cases[1..])
        case Failed => Failed
        case Done(last, others) => Done(last, replaced || others)
  }

  /** Every case is written and none over a file that is there. */
  predicate Clean(outcome: Outcome) {
    outcome.Done? && !outcome.replaced
  }

  // ----- one file -----

  /** Nothing is in the way of a file. */
  ghost predicate Free(t: Tree, path: Path) {
    path !in t.dirs && forall p :: p in t.files ==> !IsPrefix(p, path)
  }

  /** The tree with one more file and the directories above it. */
  function With(t: Tree, dir: Path, name: string, content: string): Tree {
    Tree(t.files[dir + [name] := content], t.dirs + Prefixes(dir))
  }

  lemma PrefixOfFile(p: Path, dir: Path, name: string)
    ensures IsPrefix(p, dir + [name]) <==> IsPrefix(p, dir) || p == dir + [name]
  {
    var path := dir + [name];
    if IsPrefix(p, path) && |p| <= |dir| {
      assert path[..|p|] == dir[..|p|];
    }
    if IsPrefix(p, dir) {
      assert path[..|p|] == dir[..|p|];
    }
    assert path[..|path|] == path;
  }

  /** Something is free beside a new file exactly if it was free and is apart from it. */
  lemma FreeBesides(t: Tree, dir: Path, name: string, content: string, path: Path)
    ensures Free(With(t, dir, name, content), path) <==> Free(t, path) && Apart(dir + [name], path)
  {
    PrefixOfFile(path, dir, name);
    var file, after := dir + [name], With(t, dir, name, content);
    assert file in after.files;
    assert forall p :: p in t.files ==> p in after.files;
    assert forall p :: p in after.files ==> p in t.files || p == file;
  }
}
