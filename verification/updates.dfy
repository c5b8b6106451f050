/**
  The parts of a Telegram update that the bot reads. Only the fields the
  command parser, the chat-id routing and the update handler consult are
  kept; everything else in an update is ignored by the bot and left out.
 */
module Updates {
  import opened Outcome
  import opened ChatSessions

  const TwoTo63: int := 0x8000_0000_0000_0000

  /** Telegram's chat ids are signed 64-bit integers. */
  type i64 = x: int | -TwoTo63 <= x < TwoTo63

  /** Only bot commands matter to the parser; every other entity kind is alike to it. */
  datatype EntityKind = BotCommand | OtherEntity

  /** A `MessageEntity`: a marked span of the text, in characters. */
  datatype Entity = Entity(kind: EntityKind, offset: nat, length: nat)

  /**
    An attached document, photo size, video, video note, audio, voice or
    sticker, reduced to its optional size and optional MIME type (photo
    sizes, video notes and stickers have no MIME type; theirs is `None`).
   */
  datatype Media = Media(fileSize: Option<nat>, mimeType: Option<string>)

  datatype Message = Message(
    messageId: int,
    chatId: i64,
    firstName: Option<string>,
    text: Option<string>,
    entities: Option<seq<Entity>>,
    document: Option<Media>,
    photo: Option<seq<Media>>,
    video: Option<Media>,
    videoNote: Option<Media>,
    audio: Option<Media>,
    voice: Option<Media>,
    sticker: Option<Media>,
    hasContact: bool)

  /** `MaybeInaccessibleMessage`: an inaccessible one still has its chat and id. */
  datatype CallbackMessage =
    | Accessible(message: Message)
    | Inaccessible(chatId: i64, messageId: int)

  /**
    A `CallbackQuery`. The button payload is given already decoded into an
    action; the textual encoding of actions is not part of this model.
   */
  datatype CallbackQuery = CallbackQuery(data: Option<Action>, message: Option<CallbackMessage>)

  /** `UpdateContent`: a message, a button press, or any other kind of update. */
  datatype UpdateContent =
    | MessageUpdate(message: Message)
    | CallbackUpdate(query: CallbackQuery)
    | OtherUpdate
}
