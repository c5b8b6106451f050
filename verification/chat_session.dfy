/**
  The per-chat session that the update handler of controllers/http.rs reads
  and writes: where the user is in the tree and which multi-step flow, if
  any, is pending. The session type itself appears there only through its
  accessors (`current_path`, `action`, `set_action`, `set_current_path`,
  `reset`); its fields are reconstructed from those uses.
 */
module ChatSessions {
  import opened Outcome
  import opened Paths
  import opened FileSystems

  /** What a pending flow waits for as the next free-text message. */
  datatype WaitReply = DirectoryName | FileName

  /**
    `ChatSessionAction`, with the variants matched by the update handler.
    `MkDir`, `Explorer`, `RenameFile`, `PrepareMoveFile`, `DeleteDir`,
    `DeleteFile` and `SaveFile` are stored as the pending action;
    `CurrentDir`, `ParentDir`, `FileOrDir` and `Back` arrive as the payload of
    a button press.
   */
  datatype Action =
    | MkDir(wait: Option<WaitReply>)
    | Explorer
    | RenameFile(wait: Option<WaitReply>)
    | PrepareMoveFile
    | DeleteDir
    | DeleteFile
    | SaveFile(file: Option<Node>, wait: Option<WaitReply>)
    | CurrentDir
    | ParentDir
    | FileOrDir(path: Path)
    | Back

  /** The variants only ever received from a button, never stored. */
  predicate IsTrigger(a: Action) {
    a.CurrentDir? || a.ParentDir? || a.FileOrDir? || a.Back?
  }

  datatype ChatSession = ChatSession(currentPath: Path, action: Option<Action>)

  /** `ChatSession::default`: at the root, nothing pending. */
  function Default(): ChatSession {
    ChatSession(Root, None)
  }

  /** `reset`: back to the default session, whatever came before. */
  function Reset(s: ChatSession): (r: ChatSession)
    ensures r.currentPath == Root && r.action.None?
  {
    Default()
  }

  /** Two sessions are indistinguishable after a reset. */
  lemma ResetForgets(s: ChatSession, t: ChatSession)
    ensures Reset(s) == Reset(t) == Default()
  {
  }

  /** `current_path_string`: the path as text. */
  function CurrentPathString(s: ChatSession): string {
    Render(s.currentPath)
  }

  /**
    `with_clear_action_on_error` is not part of this model. It is taken to
    run the handler on the session and, when the handler fails, to drop the
    pending action while keeping everything else the handler did to the
    session, in particular its current path.
   */
  function AssumedClearActionOnError<T>(s: ChatSession, outcome: Result<T, string>): (r: ChatSession)
    ensures outcome.Ok? ==> r == s
    ensures outcome.Err? ==> r.action.None? && r.currentPath == s.currentPath
  {
    if outcome.Err? then s.(action := None) else s
  }

  /**
    The shape every stored session has: a pending action is never a button
    payload; a directory-creation flow waits, if at all, for a directory
    name; a save flow holds the file node being saved and waits, if at
    all, for a file name.
   */
  predicate Invariant(s: ChatSession) {
    s.action.Some? ==>
      var a := s.action.value;
      && !IsTrigger(a)
      && (a.MkDir? ==> a.wait != Some(FileName))
      && (a.SaveFile? ==> a.file.Some? && a.file.value.File? && a.wait != Some(DirectoryName))
  }

  lemma DefaultInvariant()
    ensures Invariant(Default())
  {
  }
}
