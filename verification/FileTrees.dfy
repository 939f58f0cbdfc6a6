/** Finite file trees: directories, regular files and special files.

    A tree is a value, and a missing root is `None`. `Put` creates the directories above a file
    and writes it, `Remove` removes a file; both are specified by what is at every path before
    and after. Directories list their entries in an order of their own, which reads and writes
    ignore. */
module FileTrees {
  import opened MachineIntegers

  type Path = seq<string>

  /** What a regular file holds; only text can be read into a string. */
  datatype Content = Text(text: string) | Binary

  datatype Node = File(content: Content) | Dir(entries: seq<Entry>) | Special

  datatype Entry = Entry(name: string, node: Node)

  // ----- one directory -----

  function Find(entries: seq<Entry>, name: string): Option<Node>
    decreases entries
  {
    if entries == [] then None
    else if entries[0].name == name then Some(entries[0].node)
    else Find(entries[1..], name)
  }

  function Update(entries: seq<Entry>, name: string, node: Node): seq<Entry> {
    if entries == [] then [Entry(name, node)]
    else if entries[0].name == name then [Entry(name, node)] + entries[1..]
    else [entries[0]] + Update(entries[1..], name, node)
  }

  function Without(entries: seq<Entry>, name: string): seq<Entry> {
    if entries == [] then []
    else if entries[0].name == name then entries[1..]
    else [entries[0]] + Without(entries[1..], name)
  }

  ghost predicate Distinct(entries: seq<Entry>) {
    forall i, j :: 0 <= i < j < |entries| ==> entries[i].name != entries[j].name
  }

  lemma {:induction false} FindAfterUpdate(entries: seq<Entry>, name: string, node: Node, other: string)
    ensures Find(Update(entries, name, node), other) == if other == name then Some(node) else Find(entries, other)
    decreases |entries|
  {
    if entries != [] && entries[0].name != name {
      FindAfterUpdate(entries[1..], name, node, other);
      assert ([entries[0]] + Update(entries[1..], name, node))[1..] == Update(entries[1..], name, node);
    }
    if entries != [] && entries[0].name == name {
      assert ([Entry(name, node)] + entries[1..])[1..] == entries[1..];
    }
  }

  lemma {:induction false} FindIsMember(entries: seq<Entry>, name: string)
    ensures Find(entries, name).Some?
            ==> exists i :: 0 <= i < |entries| && entries[i] == Entry(name, Find(entries, name).value)
    ensures Find(entries, name).None? ==> forall i :: 0 <= i < |entries| ==> entries[i].name != name
    decreases |entries|
  {
    if entries != [] && entries[0].name != name {
      FindIsMember(entries[1..], name);
      if Find(entries[1..], name).Some? {
        var i :| 0 <= i < |entries| - 1 && entries[1..][i] == Entry(name, Find(entries[1..], name).value);
        assert entries[i + 1] == entries[1..][i];
      } else {
        assert forall i :: 0 < i < |entries| ==> entries[i] == entries[1..][i - 1];
      }
    } else if entries != [] {
      assert entries[0] == Entry(name, Find(entries, name).value);
    }
  }

  lemma {:induction false} FindAfterWithout(entries: seq<Entry>, name: string, other: string)
    requires Distinct(entries)
    ensures Find(Without(entries, name), other) == if other == name then None else Find(entries, other)
    decreases |entries|
  {
    if entries != [] {
      if entries[0].name == name {
        FindIsMember(entries[1..], name);
        assert forall i :: 0 <= i < |entries| - 1 ==> entries[1..][i] == entries[i + 1] && entries[i + 1].name != name;
      } else {
        FindAfterWithout(entries[1..], name, other);
        assert ([entries[0]] + Without(entries[1..], name))[1..] == Without(entries[1..], name);
      }
    }
  }

  // ----- paths -----

  /** Names that a directory lists. */
  predicate IsName(name: string) {
    name != "" && name != "." && name != ".." && '/' !in name
  }

  /** In every directory the names are names, and different. */
  ghost predicate WellFormed(node: Node) {
    node.Dir? ==>
      && Distinct(node.entries)
      && forall i :: 0 <= i < |node.entries| ==> IsName(node.entries[i].name) && WellFormed(node.entries[i].node)
  }

  ghost predicate WellFormedRoot(root: Option<Node>) {
    root.Some? ==> WellFormed(root.value)
  }

  function ChildOf(root: Option<Node>, name: string): Option<Node> {
    if root.Some? && root.value.Dir? then Find(root.value.entries, name) else None
  }

  /** The node at a path below a node that may be missing. */
  function At(root: Option<Node>, path: Path): Option<Node>
    decreases |path|
  {
    if path == [] then root else At(ChildOf(root, path[0]), path[1..])
  }

  /** The content of the regular file at a path. */
  function FileAt(root: Option<Node>, path: Path): Option<Content> {
    var node := At(root, path);
    if node.Some? && node.value.File? then Some(node.value.content) else None
  }

  datatype ReadResult = Read(text: string) | NotFound | ReadError

  /** A missing component is not found; a file in place of a directory, a directory in place
      of the file and content that is no text are other errors. */
  function ReadToString(root: Option<Node>, path: Path): ReadResult
    decreases |path|
  {
    if root.None? then NotFound
    else if path == [] then
      if root.value.File? && root.value.content.Text? then Read(root.value.content.text) else ReadError
    else if root.value.Dir? then ReadToString(Find(root.value.entries, path[0]), path[1..])
    else ReadError
  }

  lemma {:induction false} ReadIsFile(root: Option<Node>, path: Path, text: string)
    ensures ReadToString(root, path) == Read(text) <==> FileAt(root, path) == Some(Text(text))
    ensures ReadToString(root, path) == NotFound ==> At(root, path) == None
    decreases |path|
  {
    if path != [] && root.Some? && root.value.Dir? {
      ReadIsFile(Find(root.value.entries, path[0]), path[1..], text);
    } else if path != [] {
      NothingBelow(path[1..]);
    }
  }

  lemma {:induction false} NothingBelow(path: Path)
    ensures At(None, path) == None
    decreases |path|
  {
    if path != [] {
      NothingBelow(path[1..]);
    }
  }

  // ----- changing a tree -----

  /** Creates the directories above the file and writes it. Anything but a directory above it
      is an error, and so is anything but a regular file in its place. */
  function Put(root: Option<Node>, path: Path, text: string): Option<Node>
    decreases |path|
  {
    if path == [] then
      if root.None? || root.value.File? then Some(File(Text(text))) else None
    else if root.Some? && !root.value.Dir? then None
    else
      var entries := if root.Some? then root.value.entries else [];
      var child := Put(Find(entries, path[0]), path[1..], text);
      if child.None? then None else Some(Dir(Update(entries, path[0], child.value)))
  }

  /** Removes the regular file at a path; there must be one. */
  function Remove(root: Option<Node>, path: Path): Option<Node>
    decreases |path|
  {
    if path == [] || root.None? || !root.value.Dir? then None
    else
      var entries := root.value.entries;
      var child := Find(entries, path[0]);
      if |path| == 1 then
        if child.Some? && child.value.File? then Some(Dir(Without(entries, path[0]))) else None
      else
        var next := Remove(child, path[1..]);
        if next.None? then None else Some(Dir(Update(entries, path[0], next.value)))
  }

  lemma {:induction false} FileIsRemovable(root: Option<Node>, path: Path)
    requires path != [] && FileAt(root, path).Some?
    ensures Remove(root, path).Some?
    decreases |path|
  {
    if ChildOf(root, path[0]).None? {
      NothingBelow(path[1..]);
    } else if |path| > 1 {
      FileIsRemovable(ChildOf(root, path[0]), path[1..]);
    } else {
      assert path[1..] == [] && At(root, path) == At(ChildOf(root, path[0]), []);
    }
  }

  /** Writing changes the one file and no other. */
  lemma {:induction false} FilesAfterPut(root: Option<Node>, path: Path, text: string, other: Path)
    requires Put(root, path, text).Some?
    ensures FileAt(Put(root, path, text), other) == if other == path then Some(Text(text)) else FileAt(root, other)
    decreases |path|
  {
    if path != [] {
      var entries := if root.Some? then root.value.entries else [];
      var child := Put(Find(entries, path[0]), path[1..], text);
      if other != [] {
        FindAfterUpdate(entries, path[0], child.value, other[0]);
        assert ChildOf(root, other[0]) == Find(entries, other[0]);
        if other[0] == path[0] {
          FilesAfterPut(Find(entries, path[0]), path[1..], text, other[1..]);
          assert other == path <==> other[1..] == path[1..] by {
            assert other == [other[0]] + other[1..] && path == [path[0]] + path[1..];
          }
        }
      }
    } else if other != [] {
      assert ChildOf(root, other[0]) == None;
      NothingBelow(other[1..]);
    }
  }

  lemma {:induction false} NoFileBelowFile(node: Node, path: Path)
    requires node.File? && path != []
    ensures FileAt(Some(node), path) == None
  {
    NothingBelow(path[1..]);
  }

  /** Removing takes away the one file and no other. */
  lemma {:induction false} FilesAfterRemove(root: Option<Node>, path: Path, other: Path)
    requires WellFormedRoot(root) && Remove(root, path).Some?
    ensures FileAt(Remove(root, path), other) == if other == path then None else FileAt(root, other)
    decreases |path|
  {
    var entries := root.value.entries;
    if other != [] {
      assert other == [other[0]] + other[1..] && path == [path[0]] + path[1..];
      assert At(root, other) == At(Find(entries, other[0]), other[1..]);
      if |path| == 1 {
        FindAfterWithout(entries, path[0], other[0]);
        if other[0] == path[0] {
          NothingBelow(other[1..]);
          if other[1..] != [] {
            NoFileBelowFile(Find(entries, path[0]).value, other[1..]);
          }
        }
      } else {
        var below := Find(entries, path[0]);
        FindAfterUpdate(entries, path[0], Remove(below, path[1..]).value, other[0]);
        if other[0] == path[0] {
          ChildIsWellFormed(root.value, path[0]);
          FilesAfterRemove(below, path[1..], other[1..]);
        }
      }
    }
  }

  // ----- the shape stays -----

  lemma ChildIsWellFormed(node: Node, name: string)
    requires node.Dir? && WellFormed(node)
    ensures WellFormedRoot(Find(node.entries, name))
  {
    FindIsMember(node.entries, name);
  }

  ghost predicate Listing(entries: seq<Entry>) {
    Distinct(entries) && forall i :: 0 <= i < |entries| ==> IsName(entries[i].name) && WellFormed(entries[i].node)
  }

  lemma DistinctByOne(entry: Entry, rest: seq<Entry>)
    ensures Distinct([entry] + rest) <==> Distinct(rest) && forall e :: e in rest ==> e.name != entry.name
  {
    var all := [entry] + rest;
    if Distinct(all) {
      forall i, j | 0 <= i < j < |rest| ensures rest[i].name != rest[j].name {
        assert rest[i] == all[i + 1] && rest[j] == all[j + 1];
      }
      forall e | e in rest ensures e.name != entry.name {
        var i :| 0 <= i < |rest| && rest[i] == e;
        assert all[0] == entry && all[i + 1] == e;
      }
    }
    if Distinct(rest) && forall e :: e in rest ==> e.name != entry.name {
      forall i, j | 0 <= i < j < |all| ensures all[i].name != all[j].name {
        assert all[j] == rest[j - 1] && all[j] in rest;
        assert i > 0 ==> all[i] == rest[i - 1];
      }
    }
  }

  lemma ListingByOne(entry: Entry, rest: seq<Entry>)
    ensures Listing([entry] + rest)
            <==> Listing(rest) && IsName(entry.name) && WellFormed(entry.node)
                 && forall e :: e in rest ==> e.name != entry.name
  {
    var all := [entry] + rest;
    DistinctByOne(entry, rest);
    if Listing(all) {
      assert all[0] == entry;
      assert forall i :: 0 <= i < |rest| ==> rest[i] == all[i + 1];
    }
    if Listing(rest) && IsName(entry.name) && WellFormed(entry.node) {
      assert forall i :: 0 < i < |all| ==> all[i] == rest[i - 1];
    }
  }

  lemma {:induction false} ListingAfterUpdate(entries: seq<Entry>, name: string, node: Node)
    requires Listing(entries) && IsName(name) && WellFormed(node)
    ensures Listing(Update(entries, name, node))
    ensures forall e :: e in Update(entries, name, node) ==> e.name == name || e in entries
    decreases |entries|
  {
    if entries == [] {
      ListingByOne(Entry(name, node), []);
    } else {
      assert entries == [entries[0]] + entries[1..];
      ListingByOne(entries[0], entries[1..]);
      if entries[0].name == name {
        ListingByOne(Entry(name, node), entries[1..]);
      } else {
        ListingAfterUpdate(entries[1..], name, node);
        ListingByOne(entries[0], Update(entries[1..], name, node));
      }
    }
  }

  lemma {:induction false} ListingAfterWithout(entries: seq<Entry>, name: string)
    requires Listing(entries)
    ensures Listing(Without(entries, name))
    ensures forall e :: e in Without(entries, name) ==> e in entries
    decreases |entries|
  {
    if entries != [] {
      assert entries == [entries[0]] + entries[1..];
      ListingByOne(entries[0], entries[1..]);
      if entries[0].name != name {
        ListingAfterWithout(entries[1..], name);
        ListingByOne(entries[0], Without(entries[1..], name));
      }
    }
  }

  lemma {:induction false} RemoveKeepsWellFormed(root: Option<Node>, path: Path)
    requires WellFormedRoot(root) && Remove(root, path).Some?
    ensures WellFormedRoot(Remove(root, path))
    decreases |path|
  {
    var entries := root.value.entries;
    assert Listing(entries);
    if |path| == 1 {
      ListingAfterWithout(entries, path[0]);
    } else {
      ChildIsWellFormed(root.value, path[0]);
      FindIsMember(entries, path[0]);
      RemoveKeepsWellFormed(Find(entries, path[0]), path[1..]);
      ListingAfterUpdate(entries, path[0], Remove(Find(entries, path[0]), path[1..]).value);
    }
  }

  lemma {:induction false} PutKeepsWellFormed(root: Option<Node>, path: Path, text: string)
    requires WellFormedRoot(root) && Put(root, path, text).Some? && forall i :: 0 <= i < |path| ==> IsName(path[i])
    ensures WellFormedRoot(Put(root, path, text))
    decreases |path|
  {
    if path != [] {
      var entries := if root.Some? then root.value.entries else [];
      assert Listing(entries);
      if root.Some? {
        ChildIsWellFormed(root.value, path[0]);
      }
      PutKeepsWellFormed(Find(entries, path[0]), path[1..], text);
      ListingAfterUpdate(entries, path[0], Put(Find(entries, path[0]), path[1..], text).value);
    }
  }

  // ----- what is where -----

  datatype Kind = Absent | Regular | Directory | Other

  function KindOf(node: Option<Node>): Kind {
    match node
    case None => Absent
    case Some(File(_)) => Regular
    case Some(Dir(_)) => Directory
    case Some(Special) => Other
  }

  function KindAt(root: Option<Node>, path: Path): Kind {
    KindOf(At(root, path))
  }

  predicate ProperPrefix(p: Path, q: Path) {
    |p| < |q| && q[..|p|] == p
  }

  lemma ProperPrefixByOne(p: Path, q: Path)
    requires p != [] && q != []
    ensures ProperPrefix(p, q) <==> p[0] == q[0] && ProperPrefix(p[1..], q[1..])
  {
    if |p| < |q| {
      assert q[..|p|] == [q[0]] + q[1..][..|p| - 1] && p == [p[0]] + p[1..];
    }
  }

  lemma {:induction false} KindAfterPut(root: Option<Node>, path: Path, text: string, other: Path)
    requires Put(root, path, text).Some?
    ensures KindAt(Put(root, path, text), other)
            == if other == path then Regular else if ProperPrefix(other, path) then Directory else KindAt(root, other)
    decreases |path|
  {
    if path != [] {
      var entries := if root.Some? then root.value.entries else [];
      var child := Put(Find(entries, path[0]), path[1..], text);
      if other != [] {
        FindAfterUpdate(entries, path[0], child.value, other[0]);
        ProperPrefixByOne(other, path);
        assert ChildOf(root, other[0]) == Find(entries, other[0]);
        assert other == [other[0]] + other[1..] && path == [path[0]] + path[1..];
        if other[0] == path[0] {
          KindAfterPut(Find(entries, path[0]), path[1..], text, other[1..]);
        }
      }
    } else if other != [] {
      assert ChildOf(root, other[0]) == None;
      NothingBelow(other[1..]);
    }
  }

  lemma {:induction false} KindAfterRemove(root: Option<Node>, path: Path, other: Path)
    requires WellFormedRoot(root) && Remove(root, path).Some?
    ensures KindAt(Remove(root, path), other) == if other == path then Absent else KindAt(root, other)
    decreases |path|
  {
    var entries := root.value.entries;
    if other != [] {
      assert other == [other[0]] + other[1..] && path == [path[0]] + path[1..];
      assert At(root, other) == At(Find(entries, other[0]), other[1..]);
      if |path| == 1 {
        FindAfterWithout(entries, path[0], other[0]);
        if other[0] == path[0] {
          NothingBelow(other[1..]);
          if other[1..] != [] {
            NothingBelow(other[1..][1..]);
          }
        }
      } else {
        var below := Find(entries, path[0]);
        FindAfterUpdate(entries, path[0], Remove(below, path[1..]).value, other[0]);
        if other[0] == path[0] {
          ChildIsWellFormed(root.value, path[0]);
          KindAfterRemove(below, path[1..], other[1..]);
        }
      }
    }
  }

  /** A file can be written exactly if only directories or nothing is above it, and a regular
      file or nothing in its place. */
  ghost predicate CanPut(root: Option<Node>, path: Path) {
    && (KindAt(root, path) == Absent || KindAt(root, path) == Regular)
    && forall p :: ProperPrefix(p, path) ==> KindAt(root, p) == Absent || KindAt(root, p) == Directory
  }

  lemma CanPutByOne(root: Option<Node>, path: Path)
    requires path != []
    ensures CanPut(root, path)
            <==> (root.None? || root.value.Dir?) && CanPut(ChildOf(root, path[0]), path[1..])
  {
    assert ProperPrefix([], path) && KindAt(root, []) == KindOf(root);
    if CanPut(root, path) {
      forall p | ProperPrefix(p, path[1..])
        ensures KindAt(ChildOf(root, path[0]), p) == Absent || KindAt(ChildOf(root, path[0]), p) == Directory
      {
        var longer := [path[0]] + p;
        assert longer[1..] == p;
        ProperPrefixByOne(longer, path);
        assert KindAt(root, longer) == KindAt(ChildOf(root, path[0]), p);
      }
    }
    if (root.None? || root.value.Dir?) && CanPut(ChildOf(root, path[0]), path[1..]) {
      forall p | ProperPrefix(p, path) ensures KindAt(root, p) == Absent || KindAt(root, p) == Directory {
        if p != [] {
          ProperPrefixByOne(p, path);
          assert KindAt(root, p) == KindAt(ChildOf(root, p[0]), p[1..]);
        }
      }
    }
  }

  lemma {:induction false} PutsExactlyWhen(root: Option<Node>, path: Path, text: string)
    ensures Put(root, path, text).Some? <==> CanPut(root, path)
    decreases |path|
  {
    if path != [] {
      CanPutByOne(root, path);
      PutsExactlyWhen(ChildOf(root, path[0]), path[1..], text);
    }
  }

  /** After a file is written, another one can be exactly if it could be and neither is inside
      of the other. */
  lemma {:induction false} CanPutBesides(root: Option<Node>, path: Path, text: string, other: Path)
    requires Put(root, path, text).Some?
    ensures CanPut(Put(root, path, text), other)
            <==> CanPut(root, other) && !ProperPrefix(path, other) && !ProperPrefix(other, path)
  {
    var after := Put(root, path, text);
    forall p
      ensures KindAt(after, p) == if p == path then Regular else if ProperPrefix(p, path) then Directory
              else KindAt(root, p)
    {
      KindAfterPut(root, path, text, p);
    }
    PutsExactlyWhen(root, path, text);
  }

  /** Nothing is at the path, and nothing on the way to it is anything but a directory. */
  ghost predicate IsMissing(root: Option<Node>, path: Path) {
    && KindAt(root, path) == Absent
    && forall p :: ProperPrefix(p, path) ==> KindAt(root, p) == Absent || KindAt(root, p) == Directory
  }

  /** Reading finds nothing exactly then; below a file, say, it fails instead. */
  lemma {:induction false} NotFoundExactlyWhen(root: Option<Node>, path: Path)
    ensures ReadToString(root, path) == NotFound <==> IsMissing(root, path)
    decreases |path|
  {
    if path != [] {
      CanPutByOne(root, path);
      assert KindAt(root, path) == KindAt(ChildOf(root, path[0]), path[1..]);
      if root.None? {
        NothingBelow(path);
        forall p | ProperPrefix(p, path) ensures KindAt(root, p) == Absent {
          NothingBelow(p);
        }
      } else if root.value.Dir? {
        NotFoundExactlyWhen(Find(root.value.entries, path[0]), path[1..]);
      } else {
        assert ProperPrefix([], path) && KindAt(root, []) == KindOf(root);
      }
    }
  }
}
