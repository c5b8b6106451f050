/**
  repositories/types/command.rs: recognising a bot command in a message.
 */
module Commands {
  import opened Outcome
  import opened Updates

  const NoText: string := "No text in message"
  const NoEntities: string := "No entities in message"
  const NoBotCommand: string := "No bot command in message"
  const UnknownCommand: string := "Unknown command"

  datatype Command = Start | Help | Info | MkDir | Explorer | RenameFile | MoveFile | DeleteDir | DeleteFile

  /** The exact text that names each command. */
  function Token(c: Command): string {
    match c
    case Start => "/start"
    case Help => "/help"
    case Info => "/info"
    case MkDir => "/mkdir"
    case Explorer => "/explorer"
    case RenameFile => "/rename_file"
    case MoveFile => "/move_file"
    case DeleteDir => "/delete_dir"
    case DeleteFile => "/delete_file"
  }

  /** Distinct commands have distinct tokens. */
  lemma TokenInjective(a: Command, b: Command)
    ensures Token(a) == Token(b) ==> a == b
  {
  }

  /** The command a token names; only the nine exact tokens are accepted. */
  function FromToken(t: string): (r: Result<Command, string>)
    ensures r.Ok? ==> Token(r.value) == t
    ensures r.Err? ==> r == Err(UnknownCommand) && forall c :: Token(c) != t
  {
    if t == "/start" then Ok(Start)
    else if t == "/help" then Ok(Help)
    else if t == "/info" then Ok(Info)
    else if t == "/mkdir" then Ok(MkDir)
    else if t == "/explorer" then Ok(Explorer)
    else if t == "/rename_file" then Ok(RenameFile)
    else if t == "/move_file" then Ok(MoveFile)
    else if t == "/delete_dir" then Ok(DeleteDir)
    else if t == "/delete_file" then Ok(DeleteFile)
    else Err(UnknownCommand)
  }

  /** Printing a command and reading it back gives the command. */
  lemma TokenRoundTrip(c: Command)
    ensures FromToken(Token(c)) == Ok(c)
  {
    TokenInjective(c, FromToken(Token(c)).value);
  }

  /** The message has text and its first entity is a bot command. */
  predicate MarksCommand(m: Message) {
    m.text.Some? && m.entities.Some? && |m.entities.value| > 0 && m.entities.value[0].kind == BotCommand
  }

  /**
    The span the first entity marks lies within the text; the source slices
    the text with it unchecked.
   */
  predicate SliceInBounds(m: Message) {
    MarksCommand(m) ==> m.entities.value[0].offset + m.entities.value[0].length <= |m.text.value|
  }

  /** The text the first entity marks. */
  function CommandText(m: Message): string
    requires MarksCommand(m) && SliceInBounds(m)
  {
    var e := m.entities.value[0];
    m.text.value[e.offset..e.offset + e.length]
  }

  /**
    `TryFrom<Message> for Command`. Only the first entity is examined: a
    command marked by a later entity is not recognised.
   */
  function Parse(m: Message): (r: Result<Command, string>)
    requires SliceInBounds(m)
    ensures m.text.None? ==> r == Err(NoText)
    ensures m.text.Some? && (m.entities.None? || |m.entities.value| == 0) ==> r == Err(NoEntities)
    ensures m.text.Some? && m.entities.Some? && |m.entities.value| > 0 && m.entities.value[0].kind != BotCommand ==>
      r == Err(NoBotCommand)
    ensures r.Ok? ==> MarksCommand(m) && Token(r.value) == CommandText(m)
    ensures MarksCommand(m) ==> (r.Ok? <==> exists c :: Token(c) == CommandText(m))
    ensures MarksCommand(m) && r.Err? ==> r.error == UnknownCommand
  {
    var text :- if m.text.Some? then Ok(m.text.value) else Err(NoText);
    var entity :- if m.entities.Some? && |m.entities.value| > 0 then Ok(m.entities.value[0]) else Err(NoEntities);
    if entity.kind != BotCommand then Err(NoBotCommand)
    else FromToken(text[entity.offset..entity.offset + entity.length])
  }

  /** A message whose whole text is a command token is recognised as that command. */
  lemma ParseCommandMessage(m: Message, c: Command)
    requires m.text == Some(Token(c))
    requires m.entities.Some? && |m.entities.value| > 0
    requires m.entities.value[0] == Entity(BotCommand, 0, |Token(c)|)
    ensures SliceInBounds(m) && Parse(m) == Ok(c)
  {
    assert CommandText(m) == Token(c);
    TokenRoundTrip(c);
  }
}
