/**
  The update handler of controllers/http.rs (`process_tg_update_content`
  and `process_file_message`): one Telegram update moves a chat's session
  and file system from one state to the next and yields the reply to send.

  The Telegram request parameters are reduced to a `Reply`: whether a new
  message is sent or the pressed message is edited, which text template is
  used and with which arguments, the inline keyboard, and the message the
  reply answers. Rendering templates and JSON is not part of this model.
 */
module Http {
  import opened Outcome
  import opened Paths
  import opened FileSystems
  import opened ChatSessions
  import opened Updates
  import opened ChatIds
  import opened Repositories
  import opened FilesystemServices
  import opened ChatSessionServices
  import Keyboards
  import Commands

  const DataNotFound: string := "Data not found in callback query"
  const NoAction: string := "UpdateContent::CallbackQuery: No action in chat session"
  const NotSupported: string := "current action not supported by this action"
  const InvalidAction: string := "invalid action"
  const FileNameNotFound: string := "File name not found"

  /** `TG_FILE_MIME_TYPE_PREFIX` of utils/defaults.rs. */
  const MimePrefix: string := "tg+"

  /** The message templates of utils/defaults.rs, with their arguments. */
  datatype Template =
    | StartText(firstName: Option<string>)
    | HelpText
    | InfoText
    | MkdirText(path: string)
    | ExplorerText(path: string)
    | RenameFileText(path: string)
    | PrepareMoveFileText(path: string)
    | DeleteDirText(path: string)
    | DeleteFileText(path: string)
    | CreateFileText(path: string)
    | AskDirectoryNameText(path: string)
    | AskFileNameText(path: string)
    | CreatedDirectoryText(name: string, path: string)
    | CreatedFileText(name: string, path: string)
    | ExplorerFileText(name: string, path: string)
    | GenericErrorText
    | EmptyText

  /** `sendMessage`, or `editMessageText` on the message whose button was pressed. */
  datatype ReplyMode = Send | Edit(messageId: int)

  datatype Reply = Reply(mode: ReplyMode, text: Template, keyboard: Option<Keyboards.Keyboard>, replyTo: Option<int>)

  /** `MessageParams::generic_error`. */
  const GenericErrorReply: Reply := Reply(Send, GenericErrorText, None, None)

  /** A chat's session and file system after a turn, with the turn's outcome. */
  datatype Turn = Turn(session: ChatSession, fs: FileSystem, reply: Result<Reply, string>)

  /** What `create_file_from_node` leaves behind: the tree and the path the file was stored at. */
  datatype Stored = Stored(fs: FileSystem, outcome: Result<Path, string>)

  /**
    `FileSystem::create_file_from_node` is not part of this model; it is a
    parameter of the handler.
   */
  type FileStore = (FileSystem, Path, Node) -> Stored

  /**
    The handler takes the file name of the path the file was stored at
    without checking there is one; the file store is required to return
    such paths.
   */
  ghost predicate NamesStoredFiles(store: FileStore) {
    forall fs, p, n :: store(fs, p, n).outcome.Ok? ==> |store(fs, p, n).outcome.value.segments| > 0
  }

  // ---------------------------------------------------------------------
  // Keyboards
  // ---------------------------------------------------------------------

  /** `new(..).with_current_dir_button().build()`. */
  function CurrentDirKeyboardAt(fs: FileSystem, p: Path): (r: Result<Keyboards.Keyboard, string>)
    ensures r.Ok? <==> GetNode(fs, p).Ok? && GetNode(fs, p).value.Directory?
    ensures r.Ok? ==> |r.value| == 1 && |r.value[0]| > 0 && r.value[0][0] == Keyboards.Current
  {
    var b :- Keyboards.NewBuilder(fs, p);
    Ok(Keyboards.Build(Keyboards.WithCurrentDirButton(b)))
  }

  /** `new(..).with_files()?.build()`. */
  function FilesKeyboardAt(fs: FileSystem, p: Path): (r: Result<Keyboards.Keyboard, string>)
    ensures r.Ok? <==> GetNode(fs, p).Ok? && GetNode(fs, p).value.Directory?
    ensures r.Ok? ==> |r.value| == 1
  {
    var b :- Keyboards.NewBuilder(fs, p);
    Ok(Keyboards.Build(Keyboards.WithFiles(b).value))
  }

  /** `new(..).with_delete_dir_button().with_files()?.build()`. */
  function DeleteDirKeyboardAt(fs: FileSystem, p: Path): (r: Result<Keyboards.Keyboard, string>)
    ensures r.Ok? <==> GetNode(fs, p).Ok? && GetNode(fs, p).value.Directory?
    ensures r.Ok? ==> |r.value| == 1 && |r.value[0]| > 0 && r.value[0][0] == Keyboards.DeleteDir
  {
    var b :- Keyboards.NewBuilder(fs, p);
    Ok(Keyboards.Build(Keyboards.WithFiles(Keyboards.WithDeleteDirButton(b)).value))
  }

  /** A reply carrying a keyboard, or the error building the keyboard. */
  function WithKeyboard(mode: ReplyMode, text: Template, keyboard: Result<Keyboards.Keyboard, string>): (r: Result<Reply, string>)
    ensures keyboard.Err? ==> r == Err(keyboard.error)
    ensures keyboard.Ok? ==> r == Ok(Reply(mode, text, Some(keyboard.value), None))
  {
    var kb :- keyboard;
    Ok(Reply(mode, text, Some(kb), None))
  }

  // ---------------------------------------------------------------------
  // Messages
  // ---------------------------------------------------------------------

  /** The number of bytes of a character in UTF-8. */
  function Utf8Width(c: char): (r: nat)
    ensures 1 <= r <= 4
  {
    if c as int < 0x80 then 1
    else if c as int < 0x800 then 2
    else if c as int < 0x1_0000 then 3
    else 4
  }

  /** `String::len`: the length of the text in UTF-8 bytes. */
  function Utf8Length(s: string): (r: nat)
    ensures |s| <= r <= 4 * |s|
  {
    if |s| == 0 then 0 else Utf8Width(s[0]) + Utf8Length(s[1..])
  }

  /** The size and MIME type recorded for an attachment. */
  datatype FileInfo = FileInfo(size: Option<nat>, mimeType: Option<string>)

  /** The handler takes the first photo size without checking there is one. */
  predicate PhotoInBounds(m: Message) {
    m.document.None? && m.photo.Some? ==> |m.photo.value| > 0
  }

  /** The message carries none of the attachments the bot stores. */
  predicate NoAttachment(m: Message) {
    m.document.None? && m.photo.None? && m.video.None? && m.videoNote.None? &&
    m.audio.None? && m.voice.None? && m.sticker.None? && !m.hasContact
  }

  /**
    The attachment a message without text is stored as: the first of
    document, photo, video, video note, audio, voice, sticker and contact
    that is present. A photo is recorded with the MIME type "jpeg", a video
    note, sticker or contact with a "tg+" type; a contact has no size.
   */
  function AttachmentOf(m: Message): (r: Option<FileInfo>)
    requires PhotoInBounds(m)
    ensures r.None? <==> NoAttachment(m)
    ensures m.document.Some? ==> r == Some(FileInfo(m.document.value.fileSize, m.document.value.mimeType))
    ensures m.document.None? && m.photo.Some? ==> r == Some(FileInfo(m.photo.value[0].fileSize, Some("jpeg")))
    ensures m.document.None? && m.photo.None? && m.video.Some? ==>
      r == Some(FileInfo(m.video.value.fileSize, m.video.value.mimeType))
    ensures m.document.None? && m.photo.None? && m.video.None? && m.videoNote.Some? ==>
      r == Some(FileInfo(m.videoNote.value.fileSize, Some(MimePrefix + "video_note")))
    ensures (m.document.None? && m.photo.None? && m.video.None? && m.videoNote.None? &&
             m.audio.Some?) ==>
      r == Some(FileInfo(m.audio.value.fileSize, m.audio.value.mimeType))
    ensures (m.document.None? && m.photo.None? && m.video.None? && m.videoNote.None? &&
             m.audio.None? && m.voice.Some?) ==>
      r == Some(FileInfo(m.voice.value.fileSize, m.voice.value.mimeType))
    ensures (m.document.None? && m.photo.None? && m.video.None? && m.videoNote.None? &&
             m.audio.None? && m.voice.None? && m.sticker.Some?) ==>
      r == Some(FileInfo(m.sticker.value.fileSize, Some(MimePrefix + "sticker")))
    ensures (m.document.None? && m.photo.None? && m.video.None? && m.videoNote.None? &&
             m.audio.None? && m.voice.None? && m.sticker.None? && m.hasContact) ==>
      r == Some(FileInfo(None, Some(MimePrefix + "contact")))
  {
    if m.document.Some? then Some(FileInfo(m.document.value.fileSize, m.document.value.mimeType))
    else if m.photo.Some? then Some(FileInfo(m.photo.value[0].fileSize, Some("jpeg")))
    else if m.video.Some? then Some(FileInfo(m.video.value.fileSize, m.video.value.mimeType))
    else if m.videoNote.Some? then Some(FileInfo(m.videoNote.value.fileSize, Some(MimePrefix + "video_note")))
    else if m.audio.Some? then Some(FileInfo(m.audio.value.fileSize, m.audio.value.mimeType))
    else if m.voice.Some? then Some(FileInfo(m.voice.value.fileSize, m.voice.value.mimeType))
    else if m.sticker.Some? then Some(FileInfo(m.sticker.value.fileSize, Some(MimePrefix + "sticker")))
    else if m.hasContact then Some(FileInfo(None, Some(MimePrefix + "contact")))
    else None
  }

  /**
    `process_file_message`: start the flow of saving a new file. The
    session is reset and then holds the new file node (created at time 0,
    size 0 when unknown) awaiting a destination; the tree is untouched.
   */
  function ProcessFileMessage(s: ChatSession, fs: FileSystem, messageId: int, info: FileInfo): (t: Turn)
    ensures t.fs == fs
    ensures t.session.currentPath == Root
    ensures t.session.action == Some(SaveFile(Some(File(messageId, 0, info.size.GetOr(0), info.mimeType)), None))
    ensures t.reply.Err? <==> !Valid(fs)
    ensures t.reply.Ok? ==> t.reply.value.mode == Send && t.reply.value.text == CreateFileText(Render(Root))
  {
    var file := File(messageId, 0, info.size.GetOr(0), info.mimeType);
    var s1 := Reset(s).(action := Some(SaveFile(Some(file), None)));
    Turn(s1, fs, WithKeyboard(Send, CreateFileText(CurrentPathString(s1)), CurrentDirKeyboardAt(fs, s1.currentPath)))
  }

  /**
    A recognised command: the session is reset first, then the command's
    flow is entered and the matching keyboard of the root is shown.
   */
  function OnCommand(s: ChatSession, fs: FileSystem, c: Commands.Command, firstName: Option<string>): (t: Turn)
    ensures t.fs == fs
    ensures t.session.currentPath == Root
    ensures t.reply.Err? <==> !Valid(fs) && !(c.Start? || c.Help? || c.Info?)
    ensures t.reply.Ok? ==> t.reply.value.mode == Send && t.reply.value.replyTo.None?
  {
    var s0 := Reset(s);
    var at := CurrentPathString(s0);
    match c
    case Start => Turn(s0, fs, Ok(Reply(Send, StartText(firstName), None, None)))
    case Help => Turn(s0, fs, Ok(Reply(Send, HelpText, None, None)))
    case Info => Turn(s0, fs, Ok(Reply(Send, InfoText, None, None)))
    case MkDir =>
      Turn(s0.(action := Some(MkDir(None))), fs, WithKeyboard(Send, MkdirText(at), CurrentDirKeyboardAt(fs, s0.currentPath)))
    case Explorer =>
      Turn(s0.(action := Some(Explorer)), fs, WithKeyboard(Send, ExplorerText(at), FilesKeyboardAt(fs, s0.currentPath)))
    case RenameFile =>
      Turn(s0.(action := Some(RenameFile(None))), fs, WithKeyboard(Send, RenameFileText(at), FilesKeyboardAt(fs, s0.currentPath)))
    case MoveFile =>
      Turn(s0.(action := Some(PrepareMoveFile)), fs, WithKeyboard(Send, PrepareMoveFileText(at), FilesKeyboardAt(fs, s0.currentPath)))
    case DeleteDir =>
      Turn(s0.(action := Some(DeleteDir)), fs, WithKeyboard(Send, DeleteDirText(at), DeleteDirKeyboardAt(fs, s0.currentPath)))
    case DeleteFile =>
      Turn(s0.(action := Some(DeleteFile)), fs, WithKeyboard(Send, DeleteFileText(at), FilesKeyboardAt(fs, s0.currentPath)))
  }

  /** The pending actions under which a text is taken as a name. */
  predicate AwaitsName(a: Option<Action>) {
    a == Some(MkDir(Some(DirectoryName))) ||
    (a.Some? && a.value.SaveFile? && a.value.file.Some? && a.value.wait.Some?)
  }

  /**
    A text that is not a command: a directory name or a file name when a
    flow waits for one, the start of saving the text itself as a file when
    nothing is pending, and the generic error otherwise.
   */
  function OnText(s: ChatSession, fs: FileSystem, messageId: int, text: string, store: FileStore): (t: Turn)
    requires NamesStoredFiles(store)
    ensures !AwaitsName(s.action) ==> t.fs == fs
    ensures s.action.Some? && !AwaitsName(s.action) ==> t == Turn(s, fs, Ok(GenericErrorReply))
    ensures s.action.None? ==>
      t.fs == fs && t.session.currentPath == Root &&
      t.session.action == Some(SaveFile(Some(File(messageId, 0, Utf8Length(text), Some(MimePrefix + "text"))), None))
    ensures s.action == Some(MkDir(Some(DirectoryName))) ==>
      var made := Mkdir(fs, Join(s.currentPath, text));
      t.fs == made.fs && (t.reply.Ok? <==> made.outcome.Ok?) &&
      t.session == (if made.outcome.Ok? then ChatSessions.Default() else s)
    ensures AwaitsName(s.action) && s.action.value.SaveFile? ==>
      var stored := store(fs, Join(s.currentPath, text), s.action.value.file.value);
      t.fs == stored.fs && t.session == s && (t.reply.Ok? <==> stored.outcome.Ok?)
  {
    match s.action
    case Some(MkDir(Some(DirectoryName))) =>
      var dirPath := Join(s.currentPath, text);
      var made := Mkdir(fs, dirPath);
      if made.outcome.Err? then Turn(s, made.fs, Err(made.outcome.error))
      else Turn(Reset(s), made.fs, Ok(Reply(Send, CreatedDirectoryText(text, Render(dirPath)), None, None)))
    case Some(SaveFile(Some(node), Some(_))) =>
      var filePath := Join(s.currentPath, text);
      var stored := store(fs, filePath, node);
      if stored.outcome.Err? then Turn(s, stored.fs, Err(stored.outcome.error))
      else
        var name := Paths.FileName(stored.outcome.value).value;
        Turn(s, stored.fs, Ok(Reply(Send, CreatedFileText(name, Render(s.currentPath)), None, None)))
    case Some(_) => Turn(s, fs, Ok(GenericErrorReply))
    case None =>
      ProcessFileMessage(s, fs, messageId, FileInfo(Some(Utf8Length(text)), Some(MimePrefix + "text")))
  }

  /** The requirements the handler places on a message. */
  predicate Acceptable(m: Message) {
    Commands.SliceInBounds(m) && PhotoInBounds(m)
  }

  /** The `UpdateContent::Message` branch, inside the error wrapper. */
  function OnMessage(s: ChatSession, fs: FileSystem, m: Message, store: FileStore): (t: Turn)
    requires Acceptable(m) && NamesStoredFiles(store)
    ensures Commands.Parse(m).Ok? ==> t.fs == fs && t.session.currentPath == Root
    ensures t.fs != fs ==> Commands.Parse(m).Err? && m.text.Some? && AwaitsName(s.action)
    ensures Commands.Parse(m).Err? && m.text.None? && !NoAttachment(m) ==>
      t.fs == fs && t.session.currentPath == Root &&
      t.session.action == Some(SaveFile(Some(File(m.messageId, 0, AttachmentOf(m).value.size.GetOr(0), AttachmentOf(m).value.mimeType)), None))
    ensures Commands.Parse(m).Err? && m.text.None? && NoAttachment(m) ==> t == Turn(s, fs, Ok(GenericErrorReply))
  {
    var command := Commands.Parse(m);
    if command.Ok? then OnCommand(s, fs, command.value, m.firstName)
    else if m.text.Some? then OnText(s, fs, m.messageId, m.text.value, store)
    else
      var attachment := AttachmentOf(m);
      if attachment.Some? then ProcessFileMessage(s, fs, m.messageId, attachment.value)
      else Turn(s, fs, Ok(GenericErrorReply))
  }

  // ---------------------------------------------------------------------
  // Button presses
  // ---------------------------------------------------------------------

  /** The id of the message a button belongs to, accessible or not. */
  function CallbackMessageId(m: CallbackMessage): int {
    match m
    case Accessible(msg) => msg.messageId
    case Inaccessible(_, id) => id
  }

  /** `parent().unwrap_or(root)`: the parent, and "/" for a path without one. */
  function ParentOrRoot(p: Path): (r: Path)
    ensures |p.segments| > 0 ==> r == Path(p.rooted, p.segments[..|p.segments| - 1])
    ensures |p.segments| == 0 ==> r == Root
  {
    Parent(p).GetOr(Root)
  }

  /** The "current directory" button. */
  function OnCurrentDir(s: ChatSession, fs: FileSystem, current: Action, messageId: int): (t: Turn)
    ensures t.fs == fs && t.session.currentPath == s.currentPath
    ensures t.reply.Ok? <==> current.MkDir? || (current.SaveFile? && current.file.Some? && current.wait.None?)
    ensures t.reply.Err? ==> t == Turn(s, fs, Err(NotSupported))
    ensures t.reply.Ok? ==>
      AwaitsName(t.session.action) && t.reply.value.mode == Edit(messageId) &&
      t.reply.value.keyboard == Some(Keyboards.BackKeyboard())
    ensures current.SaveFile? && t.reply.Ok? ==>
      t.session.action.value.SaveFile? && t.session.action.value.file == current.file
  {
    match current
    case MkDir(_) =>
      var s1 := s.(action := Some(MkDir(Some(DirectoryName))));
      Turn(s1, fs, Ok(Reply(Edit(messageId), AskDirectoryNameText(CurrentPathString(s1)), Some(Keyboards.BackKeyboard()), None)))
    case SaveFile(Some(node), None) =>
      var s1 := s.(action := Some(SaveFile(Some(node), Some(ChatSessions.FileName))));
      Turn(s1, fs, Ok(Reply(Edit(messageId), AskFileNameText(CurrentPathString(s1)), Some(Keyboards.BackKeyboard()), None)))
    case _ => Turn(s, fs, Err(NotSupported))
  }

  /** The explorer moving into the directory at `p`, or replying with the file at `p`. */
  function ExploreTo(s: ChatSession, fs: FileSystem, p: Path, messageId: int, replyWithFile: bool): (t: Turn)
    ensures t.fs == fs && t.session.action == s.action
    ensures GetNode(fs, p).Err? ==> t == Turn(s, fs, Err(GetNode(fs, p).error))
    ensures GetNode(fs, p).Ok? && GetNode(fs, p).value.Directory? ==>
      t.session.currentPath == p && t.reply.Ok? && t.reply.value.mode == Edit(messageId)
    ensures !(GetNode(fs, p).Ok? && GetNode(fs, p).value.Directory?) ==> t.session == s
    ensures GetNode(fs, p).Ok? && GetNode(fs, p).value.File? && !replyWithFile ==>
      t.reply == Ok(Reply(Edit(messageId), EmptyText, None, None))
    ensures GetNode(fs, p).Ok? && GetNode(fs, p).value.File? && replyWithFile ==>
      (t.reply.Err? <==> |p.segments| == 0) &&
      (t.reply.Ok? ==> t.reply.value.mode == Send && t.reply.value.replyTo == Some(GetNode(fs, p).value.messageId))
  {
    var node := GetNode(fs, p);
    if node.Err? then Turn(s, fs, Err(node.error))
    else if node.value.Directory? then
      var s1 := s.(currentPath := p);
      Turn(s1, fs, WithKeyboard(Edit(messageId), ExplorerText(CurrentPathString(s1)), FilesKeyboardAt(fs, p)))
    else if !replyWithFile then Turn(s, fs, Ok(Reply(Edit(messageId), EmptyText, None, None)))
    else
      match Paths.FileName(p)
      case None => Turn(s, fs, Err(FileNameNotFound))
      case Some(name) => Turn(s, fs, Ok(Reply(Send, ExplorerFileText(name, CurrentPathString(s)), None, Some(node.value.messageId))))
  }

  /** The "parent directory" button. */
  function OnParentDir(s: ChatSession, fs: FileSystem, current: Action, messageId: int): (t: Turn)
    ensures t.fs == fs && t.session.action == s.action
    ensures !(current.Explorer? || current.MkDir?) ==> t == Turn(s, fs, Err(NotSupported))
    ensures t.session.currentPath == s.currentPath || t.session.currentPath == ParentOrRoot(s.currentPath)
    ensures t.reply.Ok? ==> t.reply.value.mode == Edit(messageId) && t.reply.value.replyTo.None?
    ensures current.MkDir? ==>
      var up := ParentOrRoot(s.currentPath);
      t.session.currentPath == up && (t.reply.Ok? <==> GetNode(fs, up).Ok? && GetNode(fs, up).value.Directory?)
  {
    var up := ParentOrRoot(s.currentPath);
    match current
    case Explorer => ExploreTo(s, fs, up, messageId, false)
    case MkDir(_) =>
      var s1 := s.(currentPath := up);
      Turn(s1, fs, WithKeyboard(Edit(messageId), MkdirText(CurrentPathString(s1)), CurrentDirKeyboardAt(fs, up)))
    case _ => Turn(s, fs, Err(NotSupported))
  }

  /** A directory or file button, carrying the path it was built with. */
  function OnFileOrDir(s: ChatSession, fs: FileSystem, current: Action, p: Path, messageId: int): (t: Turn)
    ensures t.fs == fs && t.session.action == s.action
    ensures !(current.Explorer? || current.MkDir? || (current.SaveFile? && current.file.Some? && current.wait.None?)) ==>
      t == Turn(s, fs, Err(NotSupported))
    ensures t.session.currentPath == s.currentPath || t.session.currentPath == p
    ensures current.MkDir? || (current.SaveFile? && current.file.Some? && current.wait.None?) ==>
      t.session.currentPath == p && (t.reply.Ok? <==> GetNode(fs, p).Ok? && GetNode(fs, p).value.Directory?)
    ensures current.Explorer? && t.reply.Ok? && t.reply.value.mode == Send ==>
      GetNode(fs, p).Ok? && GetNode(fs, p).value.File? && t.reply.value.replyTo == Some(GetNode(fs, p).value.messageId)
  {
    match current
    case Explorer => ExploreTo(s, fs, p, messageId, true)
    case MkDir(_) =>
      var s1 := s.(currentPath := p);
      Turn(s1, fs, WithKeyboard(Edit(messageId), MkdirText(CurrentPathString(s1)), CurrentDirKeyboardAt(fs, p)))
    case SaveFile(Some(_), None) =>
      var s1 := s.(currentPath := p);
      Turn(s1, fs, WithKeyboard(Edit(messageId), CreateFileText(CurrentPathString(s1)), CurrentDirKeyboardAt(fs, p)))
    case _ => Turn(s, fs, Err(NotSupported))
  }

  /** The "back" button. */
  function OnBack(s: ChatSession, fs: FileSystem, current: Action, messageId: int): (t: Turn)
    ensures t.fs == fs && t.session.currentPath == s.currentPath
    ensures !((current.MkDir? && current.wait.Some?) || (current.SaveFile? && current.file.Some? && current.wait.Some?)) ==>
      t == Turn(s, fs, Err(NotSupported))
    ensures current.MkDir? && current.wait.Some? ==> t.session.action == Some(MkDir(None))
    ensures current.SaveFile? && current.file.Some? && current.wait.Some? ==>
      t.session.action == Some(SaveFile(current.file, None))
    ensures t.session.action != s.action ==>
      !AwaitsName(t.session.action) && (t.reply.Ok? <==> GetNode(fs, s.currentPath).Ok? && GetNode(fs, s.currentPath).value.Directory?)
  {
    match current
    case MkDir(Some(_)) =>
      var s1 := s.(action := Some(MkDir(None)));
      Turn(s1, fs, WithKeyboard(Edit(messageId), MkdirText(CurrentPathString(s1)), CurrentDirKeyboardAt(fs, s1.currentPath)))
    case SaveFile(Some(node), Some(_)) =>
      var s1 := s.(action := Some(SaveFile(Some(node), None)));
      Turn(s1, fs, WithKeyboard(Edit(messageId), CreateFileText(CurrentPathString(s1)), CurrentDirKeyboardAt(fs, s1.currentPath)))
    case _ => Turn(s, fs, Err(NotSupported))
  }

  /** The `UpdateContent::CallbackQuery` branch, inside the error wrapper. */
  function OnCallback(s: ChatSession, fs: FileSystem, q: CallbackQuery): (t: Turn)
    ensures t.fs == fs
    ensures q.data.None? ==> t == Turn(s, fs, Err(DataNotFound))
    ensures q.data.Some? && q.message.None? ==> t == Turn(s, fs, Err(MessageNotFound))
    ensures q.data.Some? && q.message.Some? && s.action.None? ==> t == Turn(s, fs, Err(NoAction))
    ensures q.data.Some? && !IsTrigger(q.data.value) ==> t.reply.Err? && t.session == s
  {
    if q.data.None? then Turn(s, fs, Err(DataNotFound))
    else if q.message.None? then Turn(s, fs, Err(MessageNotFound))
    else if s.action.None? then Turn(s, fs, Err(NoAction))
    else
      var messageId := CallbackMessageId(q.message.value);
      var current := s.action.value;
      match q.data.value
      case CurrentDir => OnCurrentDir(s, fs, current, messageId)
      case ParentDir => OnParentDir(s, fs, current, messageId)
      case FileOrDir(p) => OnFileOrDir(s, fs, current, p, messageId)
      case Back => OnBack(s, fs, current, messageId)
      case _ => Turn(s, fs, Err(InvalidAction))
  }

  // ---------------------------------------------------------------------
  // A whole update
  // ---------------------------------------------------------------------

  /** The requirements the handler places on an update. */
  predicate AcceptableUpdate(u: UpdateContent) {
    u.MessageUpdate? ==> Acceptable(u.message)
  }

  /**
    One chat's turn: messages and button presses run inside the error
    wrapper, so a failure drops the pending action; any other kind of
    update is refused.
   */
  function Dispatch(s: ChatSession, fs: FileSystem, u: UpdateContent, store: FileStore): (t: Turn)
    requires AcceptableUpdate(u) && NamesStoredFiles(store)
    ensures !u.OtherUpdate? && t.reply.Err? ==> t.session.action.None?
    ensures u.OtherUpdate? ==> t == Turn(s, fs, Err(UnsupportedUpdate))
  {
    match u
    case MessageUpdate(m) =>
      var t := OnMessage(s, fs, m, store);
      t.(session := AssumedClearActionOnError(t.session, t.reply))
    case CallbackUpdate(q) =>
      var t := OnCallback(s, fs, q);
      t.(session := AssumedClearActionOnError(t.session, t.reply))
    case OtherUpdate => Turn(s, fs, Err(UnsupportedUpdate))
  }

  /** The stores after an update, and the reply or the error with the chat it concerns. */
  datatype Processed = Processed(
    filesystems: Store<FileSystem>,
    sessions: Store<ChatSession>,
    reply: Result<Reply, (string, Option<ChatId>)>)

  /**
    `process_tg_update_content`: route the update to its chat, load (or
    create) the chat's file system and session, run the turn, and write
    both back whether the turn succeeded or not.
   */
  function ProcessUpdate(filesystems: Store<FileSystem>, sessions: Store<ChatSession>, u: UpdateContent, store: FileStore): (r: Processed)
    requires AcceptableUpdate(u) && NamesStoredFiles(store)
    ensures ChatIdOf(u).Err? ==> r == Processed(filesystems, sessions, Err((ChatIdOf(u).error, None)))
    ensures ChatIdOf(u).Ok? ==> r.reply.Ok? || r.reply.error.1 == Some(ChatIdOf(u).value)
  {
    var routed := ChatIdOf(u);
    if routed.Err? then Processed(filesystems, sessions, Err((routed.error, None)))
    else
      var id := routed.value;
      var fetchedFs := GetOrCreateFilesystem(filesystems, id);
      var fetchedSession := GetOrCreateChatSession(sessions, id);
      var t := Dispatch(fetchedSession.value, fetchedFs.value, u, store);
      var reply := if t.reply.Ok? then Ok(t.reply.value) else Err((t.reply.error, Some(id)));
      Processed(UpdateFilesystem(fetchedFs.store, id, t.fs), UpdateChatSession(fetchedSession.store, id, t.session), reply)
  }
}
