/**
  `KeyboardDirectoryBuilder` of repositories/types/filesystem.rs: the row
  of inline buttons offered for a directory. Button labels are presentation
  and are left out; a button is identified by what pressing it sends back.
 */
module Keyboards {
  import opened Outcome
  import opened Paths
  import opened StringOrder
  import opened FileSystems

  /**
    `Parent`, `Current`, `DeleteDir` and `Back` are the fixed buttons of
    utils/defaults.rs; `Entry(name)` is `path_button`, whose payload is the
    bare key of a child.
   */
  datatype Button = Parent | Current | DeleteDir | Back | Entry(name: string)

  /** `InlineKeyboardMarkup`: rows of buttons. */
  type Keyboard = seq<seq<Button>>

  datatype KeyboardDirectoryBuilder = KeyboardDirectoryBuilder(buttons: seq<Button>, currentNode: Node)

  function EntryButtons(names: seq<string>): (r: seq<Button>)
    ensures |r| == |names|
    ensures forall i :: 0 <= i < |r| ==> r[i] == Entry(names[i])
  {
    if |names| == 0 then [] else [Entry(names[0])] + EntryButtons(names[1..])
  }

  /** The names carried by a row of entry buttons (other buttons read as ""). */
  function Names(buttons: seq<Button>): (r: seq<string>)
    ensures |r| == |buttons|
  {
    seq(|buttons|, i requires 0 <= i < |buttons| => if buttons[i].Entry? then buttons[i].name else "")
  }

  lemma NamesOfEntryButtons(names: seq<string>)
    ensures Names(EntryButtons(names)) == names
  {
  }

  /**
    The buttons list the children of `n` of one kind: each is an entry, in
    strictly ascending key order, and an entry is present exactly for the
    children of that kind.
   */
  ghost predicate ListsChildren(buttons: seq<Button>, n: Node, directories: bool)
    requires n.Directory?
  {
    && (forall i :: 0 <= i < |buttons| ==> buttons[i].Entry?)
    && StrictlySorted(Names(buttons))
    && (forall k :: Entry(k) in buttons <==> k in n.children && n.children[k].Directory? == directories)
  }

  lemma EntryButtonsList(names: seq<string>, n: Node, directories: bool)
    requires n.Directory? && StrictlySorted(names)
    requires forall k :: k in names <==> k in n.children && n.children[k].Directory? == directories
    ensures ListsChildren(EntryButtons(names), n, directories)
  {
    NamesOfEntryButtons(names);
    forall k
      ensures Entry(k) in EntryButtons(names) <==> k in names
    {
      if Entry(k) in EntryButtons(names) {
        var i :| 0 <= i < |names| && EntryButtons(names)[i] == Entry(k);
      }
      if k in names {
        var i :| 0 <= i < |names| && names[i] == k;
        assert EntryButtons(names)[i] == Entry(k);
      }
    }
  }

  /** The leading parent button, present everywhere but at the root. */
  function ParentButtons(currentPath: Path): seq<Button> {
    if currentPath != Root then [Parent] else []
  }

  /**
    `KeyboardDirectoryBuilder::new`: a parent button unless the path is
    "/", then one entry per child directory of the node at the path.
   */
  function NewBuilder(fs: FileSystem, currentPath: Path): (r: Result<KeyboardDirectoryBuilder, string>)
    ensures GetNode(fs, currentPath).Err? ==> r == Err(GetNode(fs, currentPath).error)
    ensures GetNode(fs, currentPath).Ok? && GetNode(fs, currentPath).value.File? ==> r == Err(NotADirectory)
    ensures GetNode(fs, currentPath).Ok? && GetNode(fs, currentPath).value.Directory? ==> r.Ok?
    ensures r.Ok? ==> r.value.currentNode == GetNode(fs, currentPath).value && r.value.currentNode.Directory?
    ensures r.Ok? ==> (|r.value.buttons| > 0 && r.value.buttons[0] == Parent) == (currentPath != Root)
    ensures r.Ok? ==>
      var lead := |ParentButtons(currentPath)|;
      |r.value.buttons| >= lead && r.value.buttons[..lead] == ParentButtons(currentPath) &&
      ListsChildren(r.value.buttons[lead..], r.value.currentNode, true)
  {
    var node :- GetNode(fs, currentPath);
    var directories :- NodeLsDirectories(node);
    var buttons := ParentButtons(currentPath) + EntryButtons(directories);
    EntryButtonsList(directories, node, true);
    assert buttons[|ParentButtons(currentPath)|..] == EntryButtons(directories);
    Ok(KeyboardDirectoryBuilder(buttons, node))
  }

  /** `with_delete_dir_button`: prepends the delete button. */
  function WithDeleteDirButton(b: KeyboardDirectoryBuilder): (r: KeyboardDirectoryBuilder)
    ensures |r.buttons| == |b.buttons| + 1 && r.buttons[0] == DeleteDir && r.buttons[1..] == b.buttons
    ensures r.currentNode == b.currentNode
  {
    b.(buttons := [DeleteDir] + b.buttons)
  }

  /** `with_current_dir_button`: prepends the current-directory button. */
  function WithCurrentDirButton(b: KeyboardDirectoryBuilder): (r: KeyboardDirectoryBuilder)
    ensures |r.buttons| == |b.buttons| + 1 && r.buttons[0] == Current && r.buttons[1..] == b.buttons
    ensures r.currentNode == b.currentNode
  {
    b.(buttons := [Current] + b.buttons)
  }

  /** `with_files`: appends one entry per child file, in key order. */
  function WithFiles(b: KeyboardDirectoryBuilder): (r: Result<KeyboardDirectoryBuilder, string>)
    ensures b.currentNode.File? ==> r == Err(NotADirectory)
    ensures b.currentNode.Directory? ==> r.Ok? && r.value.currentNode == b.currentNode
    ensures r.Ok? ==>
      |r.value.buttons| >= |b.buttons| && r.value.buttons[..|b.buttons|] == b.buttons &&
      ListsChildren(r.value.buttons[|b.buttons|..], b.currentNode, false)
  {
    var files :- NodeLsFiles(b.currentNode);
    EntryButtonsList(files, b.currentNode, false);
    var buttons := b.buttons + EntryButtons(files);
    assert buttons[|b.buttons|..] == EntryButtons(files);
    Ok(b.(buttons := buttons))
  }

  /** `build`: the buttons as a single row. */
  function Build(b: KeyboardDirectoryBuilder): (r: Keyboard)
    ensures |r| == 1 && r[0] == b.buttons
  {
    [b.buttons]
  }

  /** `back_inline_keyboard`: a single back button. */
  function BackKeyboard(): Keyboard {
    [[Back]]
  }

  /**
    The keyboard of the mkdir and save-file prompts: one row, the
    current-directory button first, then the parent button unless at "/",
    then the child directories in key order.
   */
  lemma CurrentDirKeyboard(fs: FileSystem, currentPath: Path, b: KeyboardDirectoryBuilder)
    requires NewBuilder(fs, currentPath) == Ok(b)
    ensures var row := Build(WithCurrentDirButton(b))[0];
      && |Build(WithCurrentDirButton(b))| == 1
      && row[0] == Current
      && (|row| > 1 && row[1] == Parent) == (currentPath != Root)
      && ListsChildren(row[1 + |ParentButtons(currentPath)|..], GetNode(fs, currentPath).value, true)
  {
    var row := [Current] + b.buttons;
    var lead := |ParentButtons(currentPath)|;
    assert row[1..] == b.buttons;
    assert row[1 + lead..] == b.buttons[lead..];
  }

  /**
    The explorer keyboard (`new`, then `with_files`): one row, the parent
    button unless at "/", the child directories in key order, then the
    child files in key order; every child appears exactly once.
   */
  lemma ExplorerKeyboard(fs: FileSystem, currentPath: Path)
    requires NewBuilder(fs, currentPath).Ok?
    ensures WithFiles(NewBuilder(fs, currentPath).value).Ok?
    ensures var b := NewBuilder(fs, currentPath).value;
      var kb := Build(WithFiles(b).value);
      var lead := |ParentButtons(currentPath)|;
      && |kb| == 1
      && kb[0][..lead] == ParentButtons(currentPath)
      && ListsChildren(kb[0][lead..|b.buttons|], b.currentNode, true)
      && ListsChildren(kb[0][|b.buttons|..], b.currentNode, false)
      && |kb[0]| == lead + |b.currentNode.children|
  {
    var b := NewBuilder(fs, currentPath).value;
    var lead := |ParentButtons(currentPath)|;
    var row := WithFiles(b).value.buttons;
    assert row[..|b.buttons|] == b.buttons;
    assert row[..lead] == b.buttons[..lead];
    assert row[lead..|b.buttons|] == b.buttons[lead..];
    var dirs := NodeLsDirectories(b.currentNode).value;
    var files := NodeLsFiles(b.currentNode).value;
    ListingsPartition(b.currentNode);
    assert b.buttons == ParentButtons(currentPath) + EntryButtons(dirs);
    assert row == b.buttons + EntryButtons(files);
    assert |NodeLs(b.currentNode).value| == |b.currentNode.children| by {
      SortedHasSize(b.currentNode.children.Keys);
    }
  }

  /**
    The delete-directory keyboard (`new`, `with_delete_dir_button`, then
    `with_files`): the delete button first, then the explorer row.
   */
  lemma DeleteDirKeyboard(fs: FileSystem, currentPath: Path, b: KeyboardDirectoryBuilder)
    requires NewBuilder(fs, currentPath) == Ok(b)
    ensures WithFiles(WithDeleteDirButton(b)).Ok? && WithFiles(b).Ok?
    ensures var row := Build(WithFiles(WithDeleteDirButton(b)).value)[0];
      |row| > 0 && row[0] == DeleteDir && row[1..] == Build(WithFiles(b).value)[0]
  {
    var files := NodeLsFiles(b.currentNode).value;
    assert ([DeleteDir] + b.buttons) + EntryButtons(files) == [DeleteDir] + (b.buttons + EntryButtons(files));
  }

  lemma NewBuilderOf(fs: FileSystem, currentPath: Path)
    requires GetNode(fs, currentPath).Ok? && GetNode(fs, currentPath).value.Directory?
    ensures var node := GetNode(fs, currentPath).value;
      NewBuilder(fs, currentPath) ==
        Ok(KeyboardDirectoryBuilder(ParentButtons(currentPath) + EntryButtons(NodeLsDirectories(node).value), node))
  {
  }

  /** In a directory holding only directories, the directory listing is the whole listing. */
  lemma OnlyDirectoriesListing(n: Node)
    requires n.Directory? && forall k :: k in n.children ==> n.children[k].Directory?
    ensures NodeLsDirectories(n) == NodeLs(n)
  {
    SortedUnique(NodeLsDirectories(n).value, NodeLs(n).value);
  }

  lemma DefaultEntryButtons()
    ensures EntryButtons(["Documents", "Images", "Trash", "Videos"]) ==
      [Entry("Documents"), Entry("Images"), Entry("Trash"), Entry("Videos")]
  {
  }

  /** The root keyboard of a fresh file system lists its four directories in order. */
  lemma DefaultRootKeyboard()
    ensures NewBuilder(Default(), Root).Ok?
    ensures Build(NewBuilder(Default(), Root).value) ==
      [[Entry("Documents"), Entry("Images"), Entry("Trash"), Entry("Videos")]]
  {
    var fs := Default();
    var names := ["Documents", "Images", "Trash", "Videos"];
    DefaultListing();
    assert GetNode(fs, Root) == Ok(fs.root);
    assert NodeLs(fs.root) == Ok(names);
    OnlyDirectoriesListing(fs.root);
    NewBuilderOf(fs, Root);
    DefaultEntryButtons();
  }

  lemma SortedHasSize(ks: set<string>)
    ensures |Sorted(ks)| == |ks|
  {
  }
}
