/**
  The in-memory directory tree of repositories/types/filesystem.rs.

  A `Node` is a file (a reference to the chat message holding the content,
  plus metadata) or a directory whose children are keyed by a single path
  component. A `FileSystem` owns one root node. Every operation that takes
  a path walks it component by component from the root.
 */
module FileSystems {
  import opened Outcome
  import opened Paths
  import opened StringOrder

  /** The chat message that carries a file's content. */
  type MessageId = int

  const PathMustBeAbsolute: string := "Path must be absolute"
  const PathNotFound: string := "Path not found"
  const NotADirectory: string := "Not a directory"
  const InvalidPath: string := "Invalid path"
  const InvalidDirectoryName: string := "Invalid directory name"
  const InvalidFileName: string := "Invalid file name"
  const ParentNotDirectory: string := "Parent is not a directory"

  /**
    `FileSystemNode`. The optional MIME type is carried by the file nodes the
    chat flow builds; `create_file` leaves it empty.
   */
  datatype Node =
    | File(messageId: MessageId, createdAt: nat, size: nat, mimeType: Option<string>)
    | Directory(createdAt: nat, children: map<string, Node>)

  /** `FileSystemNode::new_file`: creation time is always 0. */
  function NewFile(messageId: MessageId, size: nat): Node {
    File(messageId, 0, size, None)
  }

  /** `FileSystemNode::new_directory`: empty, creation time 0. */
  function NewDirectory(): Node {
    Directory(0, map[])
  }

  // ---------------------------------------------------------------------
  // Listings
  // ---------------------------------------------------------------------

  /** The keys of `keys`, in their order, whose node is a directory (or a file). */
  function Select(keys: seq<string>, children: map<string, Node>, directories: bool): (r: seq<string>)
    requires forall k :: k in keys ==> k in children
    ensures forall k :: k in r <==> k in keys && children[k].Directory? == directories
    ensures StrictlySorted(keys) ==> StrictlySorted(r)
    ensures |r| <= |keys|
  {
    if |keys| == 0 then []
    else
      var rest := Select(keys[1..], children, directories);
      assert forall k :: k in keys[1..] ==> k in keys;
      if children[keys[0]].Directory? == directories then
        var r := [keys[0]] + rest;
        assert StrictlySorted(keys) ==> StrictlySorted(r) by {
          if StrictlySorted(keys) {
            forall i, j | 0 <= i < j < |r|
              ensures Less(r[i], r[j])
            {
              if i == 0 {
                assert r[j] in keys[1..];
                var m :| 1 <= m < |keys| && keys[m] == r[j];
              } else {
                assert r[i] == rest[i - 1] && r[j] == rest[j - 1];
              }
            }
          }
        }
        r
      else
        rest
  }

  /** Every key goes to exactly one of the two selections. */
  lemma {:induction false} SelectSplits(keys: seq<string>, children: map<string, Node>)
    requires forall k :: k in keys ==> k in children
    ensures |Select(keys, children, true)| + |Select(keys, children, false)| == |keys|
    decreases |keys|
  {
    if |keys| > 0 {
      assert forall k :: k in keys[1..] ==> k in keys;
      SelectSplits(keys[1..], children);
    }
  }

  /** `FileSystemNode::ls`: the child names in key order. */
  function NodeLs(n: Node): (r: Result<seq<string>, string>)
    ensures n.File? ==> r == Err(NotADirectory)
    ensures n.Directory? ==> r.Ok? && StrictlySorted(r.value)
    ensures n.Directory? ==> forall k :: k in r.value <==> k in n.children
  {
    match n
    case Directory(_, children) => Ok(Sorted(children.Keys))
    case File(_, _, _, _) => Err(NotADirectory)
  }

  /** `FileSystemNode::ls_directories`: the names of the child directories in key order. */
  function NodeLsDirectories(n: Node): (r: Result<seq<string>, string>)
    ensures n.File? ==> r == Err(NotADirectory)
    ensures n.Directory? ==> r.Ok? && StrictlySorted(r.value)
    ensures n.Directory? ==> forall k :: k in r.value <==> k in n.children && n.children[k].Directory?
  {
    match n
    case Directory(_, children) => Ok(Select(Sorted(children.Keys), children, true))
    case File(_, _, _, _) => Err(NotADirectory)
  }

  /** `FileSystemNode::ls_files`: the names of the child files in key order. */
  function NodeLsFiles(n: Node): (r: Result<seq<string>, string>)
    ensures n.File? ==> r == Err(NotADirectory)
    ensures n.Directory? ==> r.Ok? && StrictlySorted(r.value)
    ensures n.Directory? ==> forall k :: k in r.value <==> k in n.children && n.children[k].File?
  {
    match n
    case Directory(_, children) => Ok(Select(Sorted(children.Keys), children, false))
    case File(_, _, _, _) => Err(NotADirectory)
  }

  /** The directory and file listings partition the full listing. */
  lemma ListingsPartition(n: Node)
    requires n.Directory?
    ensures forall k :: k in NodeLs(n).value <==> k in NodeLsDirectories(n).value || k in NodeLsFiles(n).value
    ensures forall k :: !(k in NodeLsDirectories(n).value && k in NodeLsFiles(n).value)
    ensures |NodeLsDirectories(n).value| + |NodeLsFiles(n).value| == |NodeLs(n).value|
  {
    SelectSplits(Sorted(n.children.Keys), n.children);
  }

  // ---------------------------------------------------------------------
  // The tree and lookups
  // ---------------------------------------------------------------------

  datatype FileSystem = FileSystem(root: Node)

  /** The root is a directory, as every constructor and mutation keeps it. */
  predicate Valid(fs: FileSystem) {
    fs.root.Directory?
  }

  /** `FileSystem::new`: an empty root. */
  function New(): (fs: FileSystem)
    ensures Valid(fs) && fs.root.children == map[]
  {
    FileSystem(NewDirectory())
  }

  /** `FileSystem::default`: the root holds four empty directories. */
  function Default(): (fs: FileSystem)
    ensures Valid(fs)
    ensures fs.root.children.Keys == {"Documents", "Images", "Trash", "Videos"}
    ensures forall k :: k in fs.root.children ==> fs.root.children[k] == NewDirectory()
  {
    FileSystem(Directory(0, map[
      "Documents" := NewDirectory(),
      "Images" := NewDirectory(),
      "Videos" := NewDirectory(),
      "Trash" := NewDirectory()]))
  }

  /**
    The walk of `get_node` below a node: each component selects a child of
    the current directory; a file met on the way ends the walk early.
   */
  function Lookup(n: Node, segments: seq<string>): (r: Result<Node, string>)
    ensures r.Err? ==> r.error == PathNotFound
    ensures |segments| == 0 || n.File? ==> r == Ok(n)
    decreases |segments|
  {
    if |segments| == 0 then Ok(n)
    else
      match n
      case File(_, _, _, _) => Ok(n)
      case Directory(_, children) =>
        if segments[0] in children then Lookup(children[segments[0]], segments[1..])
        else Err(PathNotFound)
  }

  /** The walk reaches a file (possibly an ancestor of the walked path). */
  predicate BlockedByFile(n: Node, segments: seq<string>) {
    Lookup(n, segments).Ok? && Lookup(n, segments).value.File?
  }

  /** The walk reaches a directory. */
  predicate DirectoryAt(n: Node, segments: seq<string>) {
    Lookup(n, segments).Ok? && Lookup(n, segments).value.Directory?
  }

  /** Once the walk meets a file, further components are ignored. */
  lemma {:induction false} LookupStopsAtFile(n: Node, a: seq<string>, b: seq<string>)
    requires BlockedByFile(n, a)
    ensures Lookup(n, a + b) == Lookup(n, a)
    decreases |a|
  {
    if |a| > 0 && n.Directory? {
      assert (a + b)[0] == a[0] && (a + b)[1..] == a[1..] + b;
      LookupStopsAtFile(n.children[a[0]], a[1..], b);
    }
  }

  /** A walk that reaches a directory continues from it. */
  lemma {:induction false} LookupDescends(n: Node, a: seq<string>, b: seq<string>)
    requires DirectoryAt(n, a)
    ensures Lookup(n, a + b) == Lookup(Lookup(n, a).value, b)
    decreases |a|
  {
    if |a| == 0 {
      assert a + b == b;
    } else {
      assert (a + b)[0] == a[0] && (a + b)[1..] == a[1..] + b;
      LookupDescends(n.children[a[0]], a[1..], b);
    }
  }

  /** A missing component fails the walk of every extension of the path. */
  lemma {:induction false} LookupMissing(n: Node, a: seq<string>, b: seq<string>)
    requires Lookup(n, a).Err?
    ensures Lookup(n, a + b) == Err(PathNotFound)
    decreases |a|
  {
    assert (a + b)[0] == a[0] && (a + b)[1..] == a[1..] + b;
    if a[0] in n.children {
      LookupMissing(n.children[a[0]], a[1..], b);
    }
  }

  /** `FileSystem::get_node`. */
  function GetNode(fs: FileSystem, p: Path): (r: Result<Node, string>)
    ensures !p.rooted ==> r == Err(PathMustBeAbsolute)
    ensures p.rooted && |p.segments| == 0 ==> r == Ok(fs.root)
    ensures r.Err? ==> r.error == PathMustBeAbsolute || r.error == PathNotFound
    ensures p.rooted ==> r == Lookup(fs.root, p.segments)
  {
    if !p.rooted then Err(PathMustBeAbsolute)
    else Lookup(fs.root, p.segments)
  }

  /** `get_node` of a path below a file returns that file. */
  lemma GetNodeStopsAtFile(fs: FileSystem, p: Path, rest: seq<string>)
    requires GetNode(fs, p).Ok? && GetNode(fs, p).value.File?
    ensures GetNode(fs, Path(p.rooted, p.segments + rest)) == GetNode(fs, p)
  {
    LookupStopsAtFile(fs.root, p.segments, rest);
  }

  /** `get_node` of a path below a missing entry fails with "Path not found". */
  lemma GetNodeMissing(fs: FileSystem, p: Path, rest: seq<string>)
    requires p.rooted && GetNode(fs, p).Err?
    ensures GetNode(fs, Path(true, p.segments + rest)) == Err(PathNotFound)
  {
    LookupMissing(fs.root, p.segments, rest);
  }

  /** `FileSystem::ls`. */
  function Ls(fs: FileSystem, p: Path): (r: Result<seq<string>, string>)
    ensures GetNode(fs, p).Err? ==> r == Err(GetNode(fs, p).error)
    ensures GetNode(fs, p).Ok? && GetNode(fs, p).value.File? ==> r == Err(NotADirectory)
    ensures GetNode(fs, p).Ok? && GetNode(fs, p).value.Directory? ==>
      r.Ok? && StrictlySorted(r.value) &&
      forall k :: k in r.value <==> k in GetNode(fs, p).value.children
  {
    var node :- GetNode(fs, p);
    if node.Directory? then NodeLs(node) else Err(NotADirectory)
  }

  lemma DefaultNamesSorted()
    ensures StrictlySorted(["Documents", "Images", "Trash", "Videos"])
  {
    var names := ["Documents", "Images", "Trash", "Videos"];
    assert Less(names[0], names[1]) && Less(names[1], names[2]) && Less(names[2], names[3]);
    LessTransitive(names[0], names[1], names[2]);
    LessTransitive(names[1], names[2], names[3]);
    LessTransitive(names[0], names[2], names[3]);
  }

  /** The default tree lists its four directories in key order. */
  lemma DefaultListing()
    ensures Ls(Default(), Root) == Ok(["Documents", "Images", "Trash", "Videos"])
  {
    var listed := Ls(Default(), Root).value;
    DefaultNamesSorted();
    SortedUnique(listed, ["Documents", "Images", "Trash", "Videos"]);
  }

  // ---------------------------------------------------------------------
  // Creating entries
  // ---------------------------------------------------------------------

  /** A walk's resulting tree together with its outcome. */
  datatype Placed = Placed(node: Node, outcome: Result<(), string>)

  /**
    The loop shared by `mkdir` and `create_file`, below node `n`: each
    component of `dir` selects a child, a missing one is first inserted as
    an empty directory; at the end `leaf` is stored under `name`, replacing
    any previous entry. A file met on the way fails the walk. The tree is
    mutated in place, so the returned node keeps whatever the walk inserted
    before a failure (`PlaceFailureChangesNothing` shows that is nothing).
   */
  function Place(n: Node, dir: seq<string>, name: string, leaf: Node): (r: Placed)
    ensures r.outcome.Err? ==> r.outcome.error == ParentNotDirectory
    ensures n.Directory? <==> r.node.Directory?
    decreases |dir|
  {
    match n
    case File(_, _, _, _) => Placed(n, Err(ParentNotDirectory))
    case Directory(createdAt, children) =>
      if |dir| == 0 then Placed(Directory(createdAt, children[name := leaf]), Ok(()))
      else
        var child := if dir[0] in children then children[dir[0]] else NewDirectory();
        var sub := Place(child, dir[1..], name, leaf);
        Placed(Directory(createdAt, children[dir[0] := sub.node]), sub.outcome)
  }

  /** The walk fails exactly when it meets a file on the way to the parent. */
  lemma {:induction false} PlaceFailsIffBlocked(n: Node, dir: seq<string>, name: string, leaf: Node)
    ensures Place(n, dir, name, leaf).outcome.Err? <==> BlockedByFile(n, dir)
    decreases |dir|
  {
    if n.Directory? && |dir| > 0 {
      if dir[0] in n.children {
        PlaceFailsIffBlocked(n.children[dir[0]], dir[1..], name, leaf);
      } else {
        PlaceFailsIffBlocked(NewDirectory(), dir[1..], name, leaf);
        if |dir[1..]| > 0 {
          assert Lookup(NewDirectory(), dir[1..]) == Err(PathNotFound);
        }
      }
    }
  }

  /** A failed walk leaves the tree unchanged: only missing components are created, and they are directories. */
  lemma {:induction false} PlaceFailureChangesNothing(n: Node, dir: seq<string>, name: string, leaf: Node)
    requires Place(n, dir, name, leaf).outcome.Err?
    ensures Place(n, dir, name, leaf).node == n
    decreases |dir|
  {
    if n.Directory? && |dir| > 0 {
      if dir[0] in n.children {
        PlaceFailureChangesNothing(n.children[dir[0]], dir[1..], name, leaf);
        assert n.children[dir[0] := n.children[dir[0]]] == n.children;
      } else {
        PlaceFailsIffBlocked(NewDirectory(), dir[1..], name, leaf);
      }
    }
  }

  /** After a successful walk, the full path leads to the stored leaf. */
  lemma {:induction false} PlaceStoresLeaf(n: Node, dir: seq<string>, name: string, leaf: Node)
    requires Place(n, dir, name, leaf).outcome.Ok?
    ensures Lookup(Place(n, dir, name, leaf).node, dir + [name]) == Ok(leaf)
    decreases |dir|
  {
    var child := if dir != [] && dir[0] in n.children then n.children[dir[0]] else NewDirectory();
    if |dir| > 0 {
      assert (dir + [name])[0] == dir[0] && (dir + [name])[1..] == dir[1..] + [name];
      PlaceStoresLeaf(child, dir[1..], name, leaf);
    }
  }

  /** After a successful walk, every ancestor of the stored leaf is a directory. */
  lemma {:induction false} PlaceAncestorsAreDirectories(n: Node, dir: seq<string>, name: string, leaf: Node, k: nat)
    requires Place(n, dir, name, leaf).outcome.Ok?
    requires k <= |dir|
    ensures DirectoryAt(Place(n, dir, name, leaf).node, dir[..k])
    decreases |dir|
  {
    if k > 0 {
      var child := if dir[0] in n.children then n.children[dir[0]] else NewDirectory();
      assert dir[..k][0] == dir[0] && dir[..k][1..] == dir[1..][..k - 1];
      PlaceAncestorsAreDirectories(child, dir[1..], name, leaf, k - 1);
    }
  }

  /**
    An ancestor the walk had to create is a new empty directory (creation
    time 0) holding only the next component of the path.
   */
  lemma {:induction false} PlaceCreatesMissingAncestors(n: Node, dir: seq<string>, name: string, leaf: Node, k: nat)
    requires Place(n, dir, name, leaf).outcome.Ok?
    requires k <= |dir| && Lookup(n, dir[..k]).Err?
    ensures Lookup(Place(n, dir, name, leaf).node, dir[..k]).Ok?
    ensures Lookup(Place(n, dir, name, leaf).node, dir[..k]).value.createdAt == 0
    ensures Lookup(Place(n, dir, name, leaf).node, dir[..k]).value.Directory?
    ensures Lookup(Place(n, dir, name, leaf).node, dir[..k]).value.children.Keys == {(dir + [name])[k]}
    decreases |dir|
  {
    assert dir[..k][0] == dir[0] && dir[..k][1..] == dir[1..][..k - 1];
    assert (dir + [name])[k] == (dir[1..] + [name])[k - 1];
    if dir[0] in n.children {
      PlaceCreatesMissingAncestors(n.children[dir[0]], dir[1..], name, leaf, k - 1);
    } else if k > 1 {
      PlaceCreatesMissingAncestors(NewDirectory(), dir[1..], name, leaf, k - 1);
    }
  }

  /** A successful walk changes nothing on paths that part ways with the stored path. */
  lemma {:induction false} PlaceFrame(n: Node, dir: seq<string>, name: string, leaf: Node, q: seq<string>)
    requires Place(n, dir, name, leaf).outcome.Ok?
    requires Diverge(dir + [name], q)
    ensures Lookup(Place(n, dir, name, leaf).node, q) == Lookup(n, q)
    decreases |dir|
  {
    var path := dir + [name];
    assert path[0] == (if |dir| > 0 then dir[0] else name);
    if |dir| > 0 && q[0] == dir[0] {
      assert path[1..] == dir[1..] + [name];
      if dir[0] in n.children {
        PlaceFrame(n.children[dir[0]], dir[1..], name, leaf, q[1..]);
      } else {
        PlaceFrame(NewDirectory(), dir[1..], name, leaf, q[1..]);
      }
    }
  }

  // ---------------------------------------------------------------------
  // mkdir and create_file
  // ---------------------------------------------------------------------

  /** A mutation's resulting tree together with its outcome. */
  datatype Mutation = Mutation(fs: FileSystem, outcome: Result<(), string>)

  /** The components `mkdir` and `create_file` walk: those of the parent, after the first. */
  function ParentWalk(p: Path): seq<string>
    requires |p.segments| > 0
  {
    ComponentsAfterFirst(Parent(p).value)
  }

  /**
    The common body of `mkdir` and `create_file`: `parent()` or else
    "Invalid path", `file_name()` or else `nameError`, then the walk.
   */
  function Insert(fs: FileSystem, p: Path, leaf: Node, nameError: string): (r: Mutation)
    ensures |p.segments| == 0 ==> r == Mutation(fs, Err(InvalidPath))
    ensures r.outcome.Err? ==> r.fs == fs
    ensures |p.segments| > 0 ==> (r.outcome.Err? <==> BlockedByFile(fs.root, ParentWalk(p)))
    ensures |p.segments| > 0 && r.outcome.Err? ==> r.outcome.error == ParentNotDirectory
    ensures Valid(fs) ==> Valid(r.fs)
  {
    match Parent(p)
    case None => Mutation(fs, Err(InvalidPath))
    case Some(parent) =>
      match FileName(p)
      case None => Mutation(fs, Err(nameError))
      case Some(name) =>
        var placed := Place(fs.root, ComponentsAfterFirst(parent), name, leaf);
        PlaceFailsIffBlocked(fs.root, ComponentsAfterFirst(parent), name, leaf);
        if placed.outcome.Err? then
          PlaceFailureChangesNothing(fs.root, ComponentsAfterFirst(parent), name, leaf);
          Mutation(FileSystem(placed.node), placed.outcome)
        else
          Mutation(FileSystem(placed.node), placed.outcome)
  }

  /** For an absolute path the walk covers the parent's components, then the last one is stored. */
  lemma AbsoluteWalk(p: Path)
    requires p.rooted && |p.segments| > 0
    ensures ParentWalk(p) + [FileName(p).value] == p.segments
  {
    ParentJoinFileName(p);
  }

  /** On success, `get_node` of an absolute target path yields the stored leaf. */
  lemma InsertStoresLeaf(fs: FileSystem, p: Path, leaf: Node, nameError: string)
    requires p.rooted && Insert(fs, p, leaf, nameError).outcome.Ok?
    ensures GetNode(Insert(fs, p, leaf, nameError).fs, p) == Ok(leaf)
  {
    AbsoluteWalk(p);
    PlaceStoresLeaf(fs.root, ParentWalk(p), FileName(p).value, leaf);
  }

  /** On success, every proper ancestor of an absolute target path is a directory. */
  lemma InsertAncestors(fs: FileSystem, p: Path, leaf: Node, nameError: string, k: nat)
    requires p.rooted && Insert(fs, p, leaf, nameError).outcome.Ok?
    requires k < |p.segments|
    ensures GetNode(Insert(fs, p, leaf, nameError).fs, Path(true, p.segments[..k])).Ok?
    ensures GetNode(Insert(fs, p, leaf, nameError).fs, Path(true, p.segments[..k])).value.Directory?
  {
    AbsoluteWalk(p);
    assert ParentWalk(p)[..k] == p.segments[..k];
    PlaceAncestorsAreDirectories(fs.root, ParentWalk(p), FileName(p).value, leaf, k);
  }

  /** On success, a proper ancestor that was missing is now a new directory holding only the next component. */
  lemma InsertCreatesMissing(fs: FileSystem, p: Path, leaf: Node, nameError: string, k: nat)
    requires p.rooted && Insert(fs, p, leaf, nameError).outcome.Ok?
    requires k < |p.segments| && GetNode(fs, Path(true, p.segments[..k])).Err?
    ensures GetNode(Insert(fs, p, leaf, nameError).fs, Path(true, p.segments[..k])).Ok?
    ensures GetNode(Insert(fs, p, leaf, nameError).fs, Path(true, p.segments[..k])).value.Directory?
    ensures GetNode(Insert(fs, p, leaf, nameError).fs, Path(true, p.segments[..k])).value.createdAt == 0
    ensures GetNode(Insert(fs, p, leaf, nameError).fs, Path(true, p.segments[..k])).value.children.Keys
      == {p.segments[k]}
  {
    AbsoluteWalk(p);
    assert ParentWalk(p)[..k] == p.segments[..k];
    PlaceCreatesMissingAncestors(fs.root, ParentWalk(p), FileName(p).value, leaf, k);
  }

  /** On success, absolute paths that part ways with the target path resolve as before. */
  lemma InsertFrame(fs: FileSystem, p: Path, leaf: Node, nameError: string, q: Path)
    requires p.rooted && q.rooted && Insert(fs, p, leaf, nameError).outcome.Ok?
    requires Diverge(p.segments, q.segments)
    ensures GetNode(Insert(fs, p, leaf, nameError).fs, q) == GetNode(fs, q)
  {
    AbsoluteWalk(p);
    PlaceFrame(fs.root, ParentWalk(p), FileName(p).value, leaf, q.segments);
  }

  /** `FileSystem::mkdir`: store a new empty directory at `p`, creating missing ancestors. */
  function Mkdir(fs: FileSystem, p: Path): (r: Mutation)
    ensures |p.segments| == 0 ==> r == Mutation(fs, Err(InvalidPath))
    ensures |p.segments| > 0 ==> (r.outcome.Err? <==> BlockedByFile(fs.root, ParentWalk(p)))
    ensures r.outcome.Err? ==> r.fs == fs
    ensures |p.segments| > 0 && r.outcome.Err? ==> r.outcome.error == ParentNotDirectory
    ensures Valid(fs) ==> Valid(r.fs)
    ensures p.rooted && r.outcome.Ok? ==> GetNode(r.fs, p) == Ok(NewDirectory())
  {
    var r := Insert(fs, p, NewDirectory(), InvalidDirectoryName);
    if p.rooted && r.outcome.Ok? then
      InsertStoresLeaf(fs, p, NewDirectory(), InvalidDirectoryName);
      r
    else
      r
  }

  /** `FileSystem::create_file`: store a new file at `p`, creating missing ancestors. */
  function CreateFile(fs: FileSystem, p: Path, messageId: MessageId, size: nat): (r: Mutation)
    ensures |p.segments| == 0 ==> r == Mutation(fs, Err(InvalidPath))
    ensures |p.segments| > 0 ==> (r.outcome.Err? <==> BlockedByFile(fs.root, ParentWalk(p)))
    ensures r.outcome.Err? ==> r.fs == fs
    ensures |p.segments| > 0 && r.outcome.Err? ==> r.outcome.error == ParentNotDirectory
    ensures Valid(fs) ==> Valid(r.fs)
    ensures p.rooted && r.outcome.Ok? ==> GetNode(r.fs, p) == Ok(File(messageId, 0, size, None))
  {
    var r := Insert(fs, p, NewFile(messageId, size), InvalidFileName);
    if p.rooted && r.outcome.Ok? then
      InsertStoresLeaf(fs, p, NewFile(messageId, size), InvalidFileName);
      r
    else
      r
  }

  /** After `mkdir`, every proper ancestor of the new directory is a directory. */
  lemma MkdirAncestors(fs: FileSystem, p: Path, k: nat)
    requires p.rooted && Mkdir(fs, p).outcome.Ok? && k < |p.segments|
    ensures DirectoryAt(Mkdir(fs, p).fs.root, p.segments[..k])
  {
    InsertAncestors(fs, p, NewDirectory(), InvalidDirectoryName, k);
  }

  /** `mkdir` creates each missing ancestor as an empty directory that then holds only the next component. */
  lemma MkdirCreatesMissing(fs: FileSystem, p: Path, k: nat)
    requires p.rooted && Mkdir(fs, p).outcome.Ok?
    requires k < |p.segments| && GetNode(fs, Path(true, p.segments[..k])).Err?
    ensures DirectoryAt(Mkdir(fs, p).fs.root, p.segments[..k])
    ensures Lookup(Mkdir(fs, p).fs.root, p.segments[..k]).value.createdAt == 0
    ensures Lookup(Mkdir(fs, p).fs.root, p.segments[..k]).value.children.Keys == {p.segments[k]}
  {
    InsertCreatesMissing(fs, p, NewDirectory(), InvalidDirectoryName, k);
  }

  /** `mkdir` changes nothing off the target path. */
  lemma MkdirFrame(fs: FileSystem, p: Path, q: Path)
    requires p.rooted && q.rooted && Mkdir(fs, p).outcome.Ok?
    requires Diverge(p.segments, q.segments)
    ensures GetNode(Mkdir(fs, p).fs, q) == GetNode(fs, q)
  {
    InsertFrame(fs, p, NewDirectory(), InvalidDirectoryName, q);
  }

  /** After `create_file`, every proper ancestor of the new file is a directory. */
  lemma CreateFileAncestors(fs: FileSystem, p: Path, messageId: MessageId, size: nat, k: nat)
    requires p.rooted && CreateFile(fs, p, messageId, size).outcome.Ok? && k < |p.segments|
    ensures DirectoryAt(CreateFile(fs, p, messageId, size).fs.root, p.segments[..k])
  {
    InsertAncestors(fs, p, NewFile(messageId, size), InvalidFileName, k);
  }

  /** `create_file` creates each missing ancestor as an empty directory that then holds only the next component. */
  lemma CreateFileCreatesMissing(fs: FileSystem, p: Path, messageId: MessageId, size: nat, k: nat)
    requires p.rooted && CreateFile(fs, p, messageId, size).outcome.Ok?
    requires k < |p.segments| && GetNode(fs, Path(true, p.segments[..k])).Err?
    ensures DirectoryAt(CreateFile(fs, p, messageId, size).fs.root, p.segments[..k])
    ensures Lookup(CreateFile(fs, p, messageId, size).fs.root, p.segments[..k]).value.createdAt == 0
    ensures Lookup(CreateFile(fs, p, messageId, size).fs.root, p.segments[..k]).value.children.Keys == {p.segments[k]}
  {
    InsertCreatesMissing(fs, p, NewFile(messageId, size), InvalidFileName, k);
  }

  /** `create_file` changes nothing off the target path. */
  lemma CreateFileFrame(fs: FileSystem, p: Path, messageId: MessageId, size: nat, q: Path)
    requires p.rooted && q.rooted && CreateFile(fs, p, messageId, size).outcome.Ok?
    requires Diverge(p.segments, q.segments)
    ensures GetNode(CreateFile(fs, p, messageId, size).fs, q) == GetNode(fs, q)
  {
    InsertFrame(fs, p, NewFile(messageId, size), InvalidFileName, q);
  }

  /**
    `mkdir` of a relative path is `mkdir` of an absolute one: a single
    segment lands under the root as it is, and a longer path loses its
    first segment.
   */
  lemma MkdirRelativePath(fs: FileSystem, p: Path)
    requires !p.rooted && |p.segments| > 0
    ensures |p.segments| == 1 ==> Mkdir(fs, p) == Mkdir(fs, Path(true, p.segments))
    ensures |p.segments| >= 2 ==> Mkdir(fs, p) == Mkdir(fs, Path(true, p.segments[1..]))
  {
    var n := |p.segments|;
    if n >= 2 {
      var q := Path(true, p.segments[1..]);
      assert Parent(q).value.segments == p.segments[1..n - 1];
      assert FileName(q) == FileName(p);
    }
  }

  /**
    `mkdir` never checks that its path is absolute: for a relative path the
    skipped first component is a normal one, so "a/b/c" creates "/b/c".
   */
  lemma MkdirRelativeDropsFirstComponent(fs: FileSystem, p: Path)
    requires !p.rooted && |p.segments| >= 2
    requires Mkdir(fs, p).outcome.Ok?
    ensures GetNode(Mkdir(fs, p).fs, Path(true, p.segments[1..])) == Ok(NewDirectory())
  {
    var n := |p.segments|;
    assert ParentWalk(p) + [FileName(p).value] == p.segments[1..];
    PlaceStoresLeaf(fs.root, ParentWalk(p), FileName(p).value, NewDirectory());
  }
}
