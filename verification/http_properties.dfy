/**
  What the update handler of controllers/http.rs promises, stated over the
  model in module `Http`: the transition table of the session, which
  turns touch the tree, the error contract, the invariant every stored
  session keeps, and the write-back of both stores.
 */
module HttpProperties {
  import opened Outcome
  import opened Paths
  import opened FileSystems
  import opened ChatSessions
  import opened Updates
  import opened ChatIds
  import opened Repositories
  import opened Http
  import FilesystemServices
  import ChatSessionServices
  import Keyboards
  import Commands

  // ---------------------------------------------------------------------
  // Commands
  // ---------------------------------------------------------------------

  /** The flow each command enters; start, help and info leave nothing pending. */
  function CommandAction(c: Commands.Command): Option<Action> {
    match c
    case Start => None
    case Help => None
    case Info => None
    case MkDir => Some(MkDir(None))
    case Explorer => Some(Explorer)
    case RenameFile => Some(RenameFile(None))
    case MoveFile => Some(PrepareMoveFile)
    case DeleteDir => Some(DeleteDir)
    case DeleteFile => Some(DeleteFile)
  }

  /**
    A command resets the session before entering its flow, so the result
    depends only on the command and the tree, never on the session before;
    the tree is untouched. The turn fails only when a flow's keyboard cannot
    be built because the root is not a directory, and then nothing is left
    pending.
   */
  lemma CommandTurn(s: ChatSession, fs: FileSystem, m: Message, store: FileStore)
    requires Acceptable(m) && NamesStoredFiles(store)
    requires Commands.Parse(m).Ok?
    ensures var t := Dispatch(s, fs, MessageUpdate(m), store);
      var flow := CommandAction(Commands.Parse(m).value);
      && t.fs == fs
      && (t.reply.Ok? <==> Valid(fs) || flow.None?)
      && t.session == ChatSession(Root, if t.reply.Ok? then flow else None)
      && (t.reply.Ok? ==> t.reply.value.mode == Send)
  {
  }

  // ---------------------------------------------------------------------
  // Free text
  // ---------------------------------------------------------------------

  /**
    A text while a directory name is awaited creates the directory under
    the current path. On success the session is reset; on failure the
    pending action is dropped, the path is kept and the tree is unchanged.
   */
  lemma DirectoryNameReply(s: ChatSession, fs: FileSystem, m: Message, store: FileStore)
    requires Acceptable(m) && NamesStoredFiles(store)
    requires Commands.Parse(m).Err? && m.text.Some?
    requires s.action == Some(MkDir(Some(DirectoryName)))
    ensures var t := Dispatch(s, fs, MessageUpdate(m), store);
      var dirPath := Join(s.currentPath, m.text.value);
      var made := Mkdir(fs, dirPath);
      && t.fs == made.fs
      && (made.outcome.Ok? ==>
            t.session == ChatSessions.Default() &&
            t.reply == Ok(Reply(Send, CreatedDirectoryText(m.text.value, Render(dirPath)), None, None)))
      && (made.outcome.Err? ==>
            t.fs == fs && t.session == s.(action := None) && t.reply == Err(made.outcome.error))
  {
  }

  /**
    When the current path is absolute and the text is a plain name, a
    successful directory-name reply leaves an empty directory under that
    name, and every path off the new directory's branch resolves as before.
   */
  lemma DirectoryNameCreates(s: ChatSession, fs: FileSystem, m: Message, store: FileStore, q: Path)
    requires Acceptable(m) && NamesStoredFiles(store)
    requires Commands.Parse(m).Err? && m.text.Some? && IsSegment(m.text.value)
    requires s.action == Some(MkDir(Some(DirectoryName))) && s.currentPath.rooted
    requires Dispatch(s, fs, MessageUpdate(m), store).reply.Ok?
    requires q.rooted && Diverge(s.currentPath.segments + [m.text.value], q.segments)
    ensures var t := Dispatch(s, fs, MessageUpdate(m), store);
      && GetNode(t.fs, Path(true, s.currentPath.segments + [m.text.value])) == Ok(NewDirectory())
      && GetNode(t.fs, q) == GetNode(fs, q)
  {
    var dirPath := Join(s.currentPath, m.text.value);
    JoinSegment(s.currentPath, m.text.value);
    assert dirPath == Path(true, s.currentPath.segments + [m.text.value]);
    DirectoryNameReply(s, fs, m, store);
    MkdirFrame(fs, dirPath, q);
  }

  /**
    A text while a file name is awaited stores the pending file under the
    current path. Unlike the directory flow, a success does not reset the
    session: the save flow stays pending.
   */
  lemma FileNameReply(s: ChatSession, fs: FileSystem, m: Message, store: FileStore)
    requires Acceptable(m) && NamesStoredFiles(store)
    requires Commands.Parse(m).Err? && m.text.Some?
    requires s.action.Some? && s.action.value.SaveFile?
    requires s.action.value.file.Some? && s.action.value.wait.Some?
    ensures var t := Dispatch(s, fs, MessageUpdate(m), store);
      var stored := store(fs, Join(s.currentPath, m.text.value), s.action.value.file.value);
      && t.fs == stored.fs
      && (stored.outcome.Ok? ==>
            t.session == s &&
            t.reply == Ok(Reply(Send, CreatedFileText(Paths.FileName(stored.outcome.value).value, Render(s.currentPath)), None, None)))
      && (stored.outcome.Err? ==> t.session == s.(action := None) && t.reply == Err(stored.outcome.error))
  {
  }

  /**
    A text while nothing is pending starts saving the text itself as a
    file: its size is its length in UTF-8 bytes and its type "tg+text".
   */
  lemma TextStartsSaveFlow(s: ChatSession, fs: FileSystem, m: Message, store: FileStore)
    requires Acceptable(m) && NamesStoredFiles(store)
    requires Commands.Parse(m).Err? && m.text.Some? && s.action.None?
    ensures var t := Dispatch(s, fs, MessageUpdate(m), store);
      var pending := Some(SaveFile(Some(File(m.messageId, 0, Utf8Length(m.text.value), Some("tg+text"))), None));
      && t.fs == fs
      && (t.reply.Ok? <==> Valid(fs))
      && t.session == ChatSession(Root, if Valid(fs) then pending else None)
      && (t.reply.Ok? ==> t.reply.value.text == CreateFileText("/"))
  {
    assert MimePrefix + "text" == "tg+text";
  }

  /** A text of ASCII characters is as many bytes long as it has characters. */
  lemma {:induction false} Utf8LengthAscii(s: string)
    requires forall i :: 0 <= i < |s| ==> s[i] as int < 0x80
    ensures Utf8Length(s) == |s|
  {
    if |s| > 0 {
      Utf8LengthAscii(s[1..]);
    }
  }

  /**
    An attachment without text starts the save flow whatever was pending,
    recording the attachment's size (0 when unknown) and type.
   */
  lemma AttachmentStartsSaveFlow(s: ChatSession, fs: FileSystem, m: Message, store: FileStore)
    requires Acceptable(m) && NamesStoredFiles(store)
    requires m.text.None? && !NoAttachment(m)
    ensures AttachmentOf(m).Some?
    ensures var t := Dispatch(s, fs, MessageUpdate(m), store);
      var info := AttachmentOf(m).value;
      var pending := Some(SaveFile(Some(File(m.messageId, 0, info.size.GetOr(0), info.mimeType)), None));
      && t.fs == fs
      && (t.reply.Ok? <==> Valid(fs))
      && t.session == ChatSession(Root, if Valid(fs) then pending else None)
  {
  }

  /**
    A text under any other pending action, and a message with neither text
    nor attachment, are answered with the generic error as a success: the
    session and the tree stay as they were.
   */
  lemma GenericErrorReplies(s: ChatSession, fs: FileSystem, m: Message, store: FileStore)
    requires Acceptable(m) && NamesStoredFiles(store)
    requires Commands.Parse(m).Err?
    requires (m.text.Some? && s.action.Some? && !AwaitsName(s.action)) || (m.text.None? && NoAttachment(m))
    ensures Dispatch(s, fs, MessageUpdate(m), store) == Turn(s, fs, Ok(GenericErrorReply))
  {
  }

  // ---------------------------------------------------------------------
  // Button presses
  // ---------------------------------------------------------------------

  /** A button press that the handler gets as far as matching against the pending action. */
  predicate Pressed(s: ChatSession, q: CallbackQuery, trigger: Action) {
    q.data == Some(trigger) && q.message.Some? && s.action.Some?
  }

  /** A button press while nothing is pending fails and changes nothing. */
  lemma CallbackWithoutAction(s: ChatSession, fs: FileSystem, q: CallbackQuery, store: FileStore)
    requires NamesStoredFiles(store)
    requires q.data.Some? && q.message.Some? && s.action.None?
    ensures Dispatch(s, fs, CallbackUpdate(q), store) == Turn(s, fs, Err(NoAction))
  {
  }

  /** A stored action arriving as a button payload is rejected, and the pending action dropped. */
  lemma PersistedActionAsTrigger(s: ChatSession, fs: FileSystem, q: CallbackQuery, a: Action, store: FileStore)
    requires NamesStoredFiles(store)
    requires Pressed(s, q, a) && !IsTrigger(a)
    ensures Dispatch(s, fs, CallbackUpdate(q), store) == Turn(s.(action := None), fs, Err(InvalidAction))
  {
  }

  /**
    The delete-directory button carries `DeleteDir` itself as its payload,
    a stored action rather than a button action, so pressing it always
    fails with "invalid action" and drops the pending action.
   */
  lemma DeleteDirButtonRejected(s: ChatSession, fs: FileSystem, q: CallbackQuery, store: FileStore)
    requires NamesStoredFiles(store)
    requires Pressed(s, q, DeleteDir)
    ensures Dispatch(s, fs, CallbackUpdate(q), store) == Turn(s.(action := None), fs, Err(InvalidAction))
  {
    PersistedActionAsTrigger(s, fs, q, DeleteDir, store);
  }

  /**
    "Current directory": a directory-creation flow starts waiting for the
    name, a save flow holding a file starts waiting for the file name;
    every other pending action rejects it and is dropped.
   */
  lemma CurrentDirTable(s: ChatSession, fs: FileSystem, q: CallbackQuery, store: FileStore)
    requires NamesStoredFiles(store)
    requires Pressed(s, q, CurrentDir)
    ensures var t := Dispatch(s, fs, CallbackUpdate(q), store);
      var a := s.action.value;
      var edit := Edit(CallbackMessageId(q.message.value));
      && t.fs == fs
      && (a.MkDir? ==>
            t.session == s.(action := Some(MkDir(Some(DirectoryName)))) &&
            t.reply == Ok(Reply(edit, AskDirectoryNameText(Render(s.currentPath)), Some(Keyboards.BackKeyboard()), None)))
      && (a.SaveFile? && a.file.Some? && a.wait.None? ==>
            t.session == s.(action := Some(SaveFile(a.file, Some(ChatSessions.FileName)))) &&
            t.reply == Ok(Reply(edit, AskFileNameText(Render(s.currentPath)), Some(Keyboards.BackKeyboard()), None)))
      && (!a.MkDir? && !(a.SaveFile? && a.file.Some? && a.wait.None?) ==>
            t.session == s.(action := None) && t.reply == Err(NotSupported))
  {
  }

  /** The parent of "/" is "/". */
  lemma ParentOfRoot()
    ensures ParentOrRoot(Root) == Root
  {
  }

  /**
    "Parent directory" in the explorer: the session moves to the parent
    (the root stays at the root) when that is a directory and shows its
    entries; when the parent resolves to a file nothing changes and the
    message is edited to an empty text; when it cannot be resolved the
    pending action is dropped.
   */
  lemma ParentDirInExplorer(s: ChatSession, fs: FileSystem, q: CallbackQuery, store: FileStore)
    requires NamesStoredFiles(store)
    requires Pressed(s, q, ParentDir) && s.action == Some(Explorer)
    ensures var t := Dispatch(s, fs, CallbackUpdate(q), store);
      var up := ParentOrRoot(s.currentPath);
      && t.fs == fs
      && (GetNode(fs, up).Ok? && GetNode(fs, up).value.Directory? ==>
            t.session == s.(currentPath := up) && t.reply.Ok? && t.reply.value.text == ExplorerText(Render(up)) &&
            t.reply.value.keyboard == Some(FilesKeyboardAt(fs, up).value))
      && (GetNode(fs, up).Ok? && GetNode(fs, up).value.File? ==>
            t.session == s && t.reply == Ok(Reply(Edit(CallbackMessageId(q.message.value)), EmptyText, None, None)))
      && (GetNode(fs, up).Err? ==> t.session == s.(action := None) && t.reply == Err(GetNode(fs, up).error))
  {
  }

  /**
    "Parent directory" while creating a directory moves to the parent
    without looking it up first; the flow stays pending exactly when the
    parent is a directory whose keyboard can be shown.
   */
  lemma ParentDirInMkDir(s: ChatSession, fs: FileSystem, q: CallbackQuery, store: FileStore)
    requires NamesStoredFiles(store)
    requires Pressed(s, q, ParentDir) && s.action.value.MkDir?
    ensures var t := Dispatch(s, fs, CallbackUpdate(q), store);
      var up := ParentOrRoot(s.currentPath);
      && t.fs == fs
      && t.session.currentPath == up
      && (t.reply.Ok? <==> GetNode(fs, up).Ok? && GetNode(fs, up).value.Directory?)
      && (t.reply.Ok? ==> t.session.action == s.action && t.reply.value.text == MkdirText(Render(up)))
  {
  }

  /** "Parent directory" under any other pending action is rejected. */
  lemma ParentDirElsewhere(s: ChatSession, fs: FileSystem, q: CallbackQuery, store: FileStore)
    requires NamesStoredFiles(store)
    requires Pressed(s, q, ParentDir) && !s.action.value.MkDir? && !s.action.value.Explorer?
    ensures Dispatch(s, fs, CallbackUpdate(q), store) == Turn(s.(action := None), fs, Err(NotSupported))
  {
  }

  /**
    A directory or file button in the explorer: a directory becomes the
    current path; a file leaves the session as it is and is answered by a
    new message replying to the file's own message; a path that cannot be
    resolved fails with the lookup's error and drops the pending action.
   */
  lemma FileOrDirInExplorer(s: ChatSession, fs: FileSystem, q: CallbackQuery, p: Path, store: FileStore)
    requires NamesStoredFiles(store)
    requires Pressed(s, q, FileOrDir(p)) && s.action == Some(Explorer)
    ensures var t := Dispatch(s, fs, CallbackUpdate(q), store);
      var node := GetNode(fs, p);
      && t.fs == fs
      && (node.Err? ==> t.session == s.(action := None) && t.reply == Err(node.error))
      && (node.Ok? && node.value.Directory? ==>
            t.session == s.(currentPath := p) && t.reply.Ok? && t.reply.value.text == ExplorerText(Render(p)))
      && (node.Ok? && node.value.File? && |p.segments| > 0 ==>
            t.session == s &&
            t.reply == Ok(Reply(Send, ExplorerFileText(p.segments[|p.segments| - 1], Render(s.currentPath)), None, Some(node.value.messageId))))
  {
  }

  /**
    The payload of a directory button is the child's bare name, a relative
    path; taken literally, the explorer cannot resolve it and the press
    fails with "Path must be absolute", dropping the pending action.
   */
  lemma RelativeButtonPathFails(s: ChatSession, fs: FileSystem, q: CallbackQuery, name: string, store: FileStore)
    requires NamesStoredFiles(store)
    requires Pressed(s, q, FileOrDir(Path(false, [name]))) && s.action == Some(Explorer)
    ensures Dispatch(s, fs, CallbackUpdate(q), store) == Turn(s.(action := None), fs, Err(PathMustBeAbsolute))
  {
  }

  /**
    A directory button while creating a directory or choosing where to save
    a file moves to its path without looking it up first; the flow stays
    pending exactly when that path is a directory.
   */
  lemma FileOrDirInPicker(s: ChatSession, fs: FileSystem, q: CallbackQuery, p: Path, store: FileStore)
    requires NamesStoredFiles(store)
    requires Pressed(s, q, FileOrDir(p))
    requires s.action.value.MkDir? || (s.action.value.SaveFile? && s.action.value.file.Some? && s.action.value.wait.None?)
    ensures var t := Dispatch(s, fs, CallbackUpdate(q), store);
      && t.fs == fs
      && t.session.currentPath == p
      && (t.reply.Ok? <==> GetNode(fs, p).Ok? && GetNode(fs, p).value.Directory?)
      && (t.reply.Ok? ==> t.session.action == s.action)
  {
  }

  /**
    A directory or file button under any pending action other than the
    explorer, directory creation or choosing where to save a file is
    rejected, and the pending action dropped.
   */
  lemma FileOrDirElsewhere(s: ChatSession, fs: FileSystem, q: CallbackQuery, p: Path, store: FileStore)
    requires NamesStoredFiles(store)
    requires Pressed(s, q, FileOrDir(p))
    requires !s.action.value.Explorer? && !s.action.value.MkDir?
    requires !(s.action.value.SaveFile? && s.action.value.file.Some? && s.action.value.wait.None?)
    ensures Dispatch(s, fs, CallbackUpdate(q), store) == Turn(s.(action := None), fs, Err(NotSupported))
  {
  }

  /**
    "Back" right after "current directory" restores the session: the flow
    is again choosing a directory, at the same path and with the same
    pending file.
   */
  lemma BackUndoesCurrentDir(s: ChatSession, fs: FileSystem, messageId: int)
    requires s.action == Some(MkDir(None)) ||
             (s.action.Some? && s.action.value.SaveFile? && s.action.value.file.Some? && s.action.value.wait.None?)
    ensures var t := OnCurrentDir(s, fs, s.action.value, messageId);
      t.reply.Ok? && OnBack(t.session, fs, t.session.action.value, messageId).session == s
  {
  }

  /**
    "Back" returns a flow waiting for a name to the choice of directory,
    keeping the path and a pending file, and succeeds exactly when the
    current path is a directory whose keyboard can be shown; every other
    pending action rejects it.
   */
  lemma BackTable(s: ChatSession, fs: FileSystem, q: CallbackQuery, store: FileStore)
    requires NamesStoredFiles(store)
    requires Pressed(s, q, Back)
    ensures var t := Dispatch(s, fs, CallbackUpdate(q), store);
      var a := s.action.value;
      var shown := GetNode(fs, s.currentPath).Ok? && GetNode(fs, s.currentPath).value.Directory?;
      && t.fs == fs
      && (a.MkDir? && a.wait.Some? ==>
            (t.reply.Ok? <==> shown) && t.session == s.(action := if shown then Some(MkDir(None)) else None))
      && (a.SaveFile? && a.file.Some? && a.wait.Some? ==>
            (t.reply.Ok? <==> shown) && t.session == s.(action := if shown then Some(SaveFile(a.file, None)) else None))
      && (!(a.MkDir? && a.wait.Some?) && !(a.SaveFile? && a.file.Some? && a.wait.Some?) ==>
            t == Turn(s.(action := None), fs, Err(NotSupported)))
  {
  }

  // ---------------------------------------------------------------------
  // Whole turns
  // ---------------------------------------------------------------------

  /**
    Only a name reply can change the tree: button presses and every other
    message leave it as it was.
   */
  lemma TreeChangesOnlyOnNameReplies(s: ChatSession, fs: FileSystem, u: UpdateContent, store: FileStore)
    requires AcceptableUpdate(u) && NamesStoredFiles(store)
    requires Dispatch(s, fs, u, store).fs != fs
    ensures u.MessageUpdate? && Commands.Parse(u.message).Err? && u.message.text.Some? && AwaitsName(s.action)
  {
  }

  /** The file store keeps a directory at the root. */
  ghost predicate KeepsValid(store: FileStore) {
    forall fs, p, n :: Valid(fs) ==> Valid(store(fs, p, n).fs)
  }

  /** A turn keeps a directory at the root of the tree. */
  lemma ValidPreserved(s: ChatSession, fs: FileSystem, u: UpdateContent, store: FileStore)
    requires AcceptableUpdate(u) && NamesStoredFiles(store) && KeepsValid(store)
    requires Valid(fs)
    ensures Valid(Dispatch(s, fs, u, store).fs)
  {
  }

  lemma CommandKeepsInvariant(s: ChatSession, fs: FileSystem, c: Commands.Command, firstName: Option<string>)
    ensures Invariant(OnCommand(s, fs, c, firstName).session)
  {
  }

  lemma TextKeepsInvariant(s: ChatSession, fs: FileSystem, messageId: int, text: string, store: FileStore)
    requires NamesStoredFiles(store) && Invariant(s)
    ensures Invariant(OnText(s, fs, messageId, text, store).session)
  {
  }

  lemma CallbackKeepsInvariant(s: ChatSession, fs: FileSystem, q: CallbackQuery)
    requires Invariant(s)
    ensures Invariant(OnCallback(s, fs, q).session)
  {
    if q.data.Some? && q.message.Some? && s.action.Some? {
      var messageId := CallbackMessageId(q.message.value);
      var current := s.action.value;
      match q.data.value
      case CurrentDir => assert Invariant(OnCurrentDir(s, fs, current, messageId).session);
      case ParentDir => assert Invariant(OnParentDir(s, fs, current, messageId).session);
      case FileOrDir(p) => assert Invariant(OnFileOrDir(s, fs, current, p, messageId).session);
      case Back => assert Invariant(OnBack(s, fs, current, messageId).session);
      case _ =>
    }
  }

  /** A turn keeps the session invariant. */
  lemma InvariantPreserved(s: ChatSession, fs: FileSystem, u: UpdateContent, store: FileStore)
    requires AcceptableUpdate(u) && NamesStoredFiles(store)
    requires Invariant(s)
    ensures Invariant(Dispatch(s, fs, u, store).session)
  {
    match u
    case MessageUpdate(m) =>
      var command := Commands.Parse(m);
      if command.Ok? {
        CommandKeepsInvariant(s, fs, command.value, m.firstName);
      } else if m.text.Some? {
        TextKeepsInvariant(s, fs, m.messageId, m.text.value, store);
      }
    case CallbackUpdate(q) =>
      CallbackKeepsInvariant(s, fs, q);
    case OtherUpdate =>
  }

  /**
    The directory-creation flow end to end: "/mkdir", then "current
    directory", then the name "Notes" leaves an empty directory "/Notes"
    and a reset session.
   */
  lemma MkdirScenario(fs: FileSystem, command: Message, press: CallbackQuery, reply: Message, store: FileStore)
    requires Valid(fs) && NamesStoredFiles(store)
    requires Acceptable(command) && Commands.Parse(command) == Ok(Commands.MkDir)
    requires press.data == Some(CurrentDir) && press.message.Some?
    requires Acceptable(reply) && Commands.Parse(reply).Err? && reply.text == Some("Notes")
    ensures var t1 := Dispatch(ChatSessions.Default(), fs, MessageUpdate(command), store);
      var t2 := Dispatch(t1.session, t1.fs, CallbackUpdate(press), store);
      var t3 := Dispatch(t2.session, t2.fs, MessageUpdate(reply), store);
      && t1.session == ChatSession(Root, Some(MkDir(None)))
      && t2.session == ChatSession(Root, Some(MkDir(Some(DirectoryName))))
      && t3.session == ChatSessions.Default()
      && GetNode(t3.fs, Path(true, ["Notes"])) == Ok(NewDirectory())
  {
    var s0 := ChatSessions.Default();
    CommandTurn(s0, fs, command, store);
    var t1 := Dispatch(s0, fs, MessageUpdate(command), store);
    CurrentDirTable(t1.session, t1.fs, press, store);
    var t2 := Dispatch(t1.session, t1.fs, CallbackUpdate(press), store);
    assert t2.fs == fs;
    DirectoryNameReply(t2.session, t2.fs, reply, store);
    assert IsSegment("Notes");
    JoinSegment(Root, "Notes");
    assert Join(Root, "Notes") == Path(true, ["Notes"]);
    assert ParentWalk(Path(true, ["Notes"])) == [];
    assert !BlockedByFile(fs.root, []);
  }

  /**
    After routing, both the chat's session and its tree are written back,
    whether the turn failed or not, and no other chat's entries change.
   */
  lemma WrittenBack(filesystems: Store<FileSystem>, sessions: Store<ChatSession>, u: UpdateContent, store: FileStore)
    requires AcceptableUpdate(u) && NamesStoredFiles(store)
    requires ChatIdOf(u).Ok?
    ensures var id := ChatIdOf(u).value;
      var r := ProcessUpdate(filesystems, sessions, u, store);
      var fs := if id in filesystems then filesystems[id] else FileSystems.Default();
      var s := if id in sessions then sessions[id] else ChatSessions.Default();
      var t := Dispatch(s, fs, u, store);
      && r.filesystems == filesystems[id := t.fs]
      && r.sessions == sessions[id := t.session]
      && r.reply == (if t.reply.Ok? then Ok(t.reply.value) else Err((t.reply.error, Some(id))))
  {
    var id := ChatIdOf(u).value;
    var fetchedFs := FilesystemServices.GetOrCreateFilesystem(filesystems, id);
    var fetchedSession := ChatSessionServices.GetOrCreateChatSession(sessions, id);
    var t := Dispatch(fetchedSession.value, fetchedFs.value, u, store);
    Repositories.SetAfterGetOrCreate(filesystems, id, FileSystems.Default(), t.fs);
    Repositories.SetAfterGetOrCreate(sessions, id, ChatSessions.Default(), t.session);
  }
}
