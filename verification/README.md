# InfiniteCloud bot core in Dafny

A model of the core of the InfiniteCloud Telegram bot, a canister that
keeps one virtual file tree per Telegram chat. Users browse the tree and
save files into it through bot commands, inline keyboards and free-text
replies. The model covers:

- the file tree (`FileSystems`): nodes, the default layout, `get_node`,
  `ls`, the directory and file listings, `mkdir` and `create_file`;
- the inline keyboard builder (`Keyboards`): parent button, directory
  entries, file entries, and the "current directory" and "delete
  directory" buttons;
- absolute-path detection and the parts of `std::path` the bot relies on
  (`Paths`): join, parent, file name, and the text form of a path;
- bot command recognition (`Commands`);
- the chat id (`ChatIds`): its conversions to and from Telegram's signed
  ids, its stable-memory key encoding, its decimal display, and the
  routing of an update to a chat;
- the per-chat stores and the two services over them (`Repositories`,
  `FilesystemServices`, `ChatSessionServices`);
- the update handler (`Http`), which maps a chat's session and tree plus
  one update to the next session, the next tree and a reply.

The handler's promises are proved in `HttpProperties`:

- the transition table of the session for every command, text reply and
  button;
- that only name replies touch the tree;
- that every turn keeps the session invariant and a directory at the root;
- that both stores are written back after every routed update.

Child names are stored in a `map`, and every listing is the strictly
ascending sequence of its keys (`StringOrder.Sorted`). This mirrors the
iteration order of the source's `BTreeMap<PathBuf, _>` for single-component
names.

Three behaviours of the handler and the tree are easy to overlook:

- A successful file-name reply (`http.rs:381-400`) does not reset the
  session. The save flow stays pending with the chosen path. Only the
  directory-name reply resets it (`http.rs:369`).
- A failing turn does not produce the generic error message. The handler
  returns the error text together with the chat id (`http.rs:708`).
- `mkdir` and `create_file` skip the first component of the parent path
  whatever the path is, and never refuse a relative path. A relative path
  of two or more segments loses its first segment, so "a/b/c" creates
  "/b/c". A one-segment relative path "a" has the empty parent, which has
  no component to skip, so "a" is created at "/a"
  (`FileSystems.MkdirRelativePath`).

Two types are used differently from how they are declared:

- `repositories/types/chat_session.rs` declares an empty struct, while
  `http.rs` reads a current path and a pending action from it and calls
  `reset` and `set_action` on it. The session model follows the handler's
  use.
- `filesystem.rs`'s `new_file` takes no MIME type, while `http.rs` passes
  one. The model's file node carries an optional MIME type, which
  `create_file` leaves empty.

Button payloads are given to the handler already decoded into an
`Action`. A directory or file button carries the bare child name
(`filesystem.rs:265-271` builds it from a listing entry). That name is a
relative path, so the explorer cannot resolve it:
`HttpProperties.RelativeButtonPathFails` shows it fails with "Path must be
absolute". How the payload text is decoded is not part of this model.

## Model

| member | source | states |
|---|---|---|
| Paths.IsAbsolute | src/backend/src/utils/path.rs:3-6 | a path is absolute exactly when its text exists (non-UTF-8 reads as "") and starts with '/' |
| Paths.IsAbsoluteExamples | src/backend/src/utils/path.rs:13-21 | the six paths of the source's test are classified as the test expects |
| Paths.ParseRender | src/backend/src/utils/path.rs:3-6 | reading back the text of a well-formed path gives the same path, so a path and its text determine each other |
| Paths.IsAbsoluteRender | src/backend/src/utils/path.rs:3-6 | the text check on a rendered path agrees with whether the path is rooted |
| Paths.Join | src/backend/src/controllers/http.rs:367 | joining an absolute text gives exactly that text's path; any other text keeps the base's root and gives the base's segments followed by the text's |
| Paths.Parent | src/backend/src/repositories/types/filesystem.rs:200 | a path has a parent iff it has segments; the parent keeps the root and drops exactly the last segment |
| Paths.FileName | src/backend/src/repositories/types/filesystem.rs:201 | a path has a file name iff it has segments, and it is the last segment |
| Paths.ParentFileNameOfJoin | src/backend/src/controllers/http.rs:384-394 | after joining a plain name, the parent is the base and the file name is that name |
| Paths.ParentJoinFileName | src/backend/src/repositories/types/filesystem.rs:200-201 | a path with segments is its parent followed by its file name |
| Paths.ComponentsAfterFirst | src/backend/src/repositories/types/filesystem.rs:204 | skipping the first component drops the root of an absolute path but the first name of a relative one |
| StringOrder.Sorted | src/backend/src/repositories/types/filesystem.rs:110 | key iteration yields every child name exactly once in strictly ascending order |
| StringOrder.SortedUnique | src/backend/src/repositories/types/filesystem.rs:110 | two strictly ascending sequences with the same members are equal, so the listing order is determined by the set of names |
| FileSystems.NodeLs | src/backend/src/repositories/types/filesystem.rs:108-113 | a file gives "Not a directory"; a directory gives exactly its child names, ascending |
| FileSystems.NodeLsDirectories | src/backend/src/repositories/types/filesystem.rs:115-128 | exactly the children that are directories, ascending; a file gives "Not a directory" |
| FileSystems.NodeLsFiles | src/backend/src/repositories/types/filesystem.rs:130-143 | exactly the children that are files, ascending; a file gives "Not a directory" |
| FileSystems.ListingsPartition | src/backend/src/repositories/types/filesystem.rs:108-143 | every listed name is in exactly one of the directory and file listings, and their lengths add up to the full listing |
| FileSystems.New | src/backend/src/repositories/types/filesystem.rs:165-169 | a root directory with no children |
| FileSystems.Default | src/backend/src/repositories/types/filesystem.rs:151-162 | a root directory holding exactly Documents, Images, Trash and Videos, each an empty directory |
| FileSystems.DefaultListing | src/backend/src/repositories/types/filesystem.rs:151-162 | listing "/" of the default tree gives Documents, Images, Trash, Videos in that order |
| FileSystems.GetNode | src/backend/src/repositories/types/filesystem.rs:171-188 | a relative path fails with "Path must be absolute"; "/" is the root; otherwise the outcome is the walk from the root, which only fails with "Path not found" |
| FileSystems.Lookup | src/backend/src/repositories/types/filesystem.rs:176-187 | the walk fails only with "Path not found"; it returns the node reached, stopping at the first file |
| FileSystems.GetNodeStopsAtFile | src/backend/src/repositories/types/filesystem.rs:183-185 | segments after a file are ignored: the file itself is returned |
| FileSystems.GetNodeMissing | src/backend/src/repositories/types/filesystem.rs:180-182 | once a prefix is not found, every extension of it is not found either |
| FileSystems.LookupDescends | src/backend/src/repositories/types/filesystem.rs:177-186 | walking a + b through a directory reached by a is walking b from that directory |
| FileSystems.Ls | src/backend/src/repositories/types/filesystem.rs:190-197 | lookup errors propagate; a file gives "Not a directory"; a directory gives its ascending child names |
| FileSystems.Place | src/backend/src/repositories/types/filesystem.rs:203-220 | a failed walk fails only with "Parent is not a directory", and the node stays a directory iff it was one |
| FileSystems.PlaceFailsIffBlocked | src/backend/src/repositories/types/filesystem.rs:203-220 | the walk to the parent fails exactly when it meets a file before the end |
| FileSystems.PlaceFailureChangesNothing | src/backend/src/repositories/types/filesystem.rs:210-212 | a failed walk leaves the tree as it was |
| FileSystems.Insert | src/backend/src/repositories/types/filesystem.rs:199-221 | the shared walk of mkdir and create_file: fails iff a file blocks the parent walk, otherwise stores the leaf |
| FileSystems.InsertFrame | src/backend/src/repositories/types/filesystem.rs:199-221 | every path off the new node's branch resolves as before |
| FileSystems.Mkdir | src/backend/src/repositories/types/filesystem.rs:199-221 | no segments gives "Invalid path"; it fails iff a file blocks the parent walk, with "Parent is not a directory" and the tree unchanged; the root stays a directory; on an absolute path success leaves a fresh empty directory there |
| FileSystems.MkdirAncestors | src/backend/src/repositories/types/filesystem.rs:203-213 | after a successful mkdir every ancestor of the new directory is a directory |
| FileSystems.MkdirCreatesMissing | src/backend/src/repositories/types/filesystem.rs:206-209 | ancestors that were missing are created as directories |
| FileSystems.MkdirFrame | src/backend/src/repositories/types/filesystem.rs:199-221 | paths off the new directory's branch resolve as before |
| FileSystems.MkdirRelativePath | src/backend/src/repositories/types/filesystem.rs:199-221 | mkdir of a one-segment relative path is mkdir of that segment under "/"; of a longer relative path, mkdir of the absolute path without its first segment |
| FileSystems.MkdirRelativeDropsFirstComponent | src/backend/src/repositories/types/filesystem.rs:204 | a successful mkdir of a relative path of two or more segments leaves an empty directory at the absolute path without its first segment |
| FileSystems.CreateFile | src/backend/src/repositories/types/filesystem.rs:223-250 | the same error contract as mkdir; success leaves a file with the message id and size, created at 0, at an absolute path |
| FileSystems.CreateFileAncestors | src/backend/src/repositories/types/filesystem.rs:232-242 | after a successful create_file every ancestor of the file is a directory |
| FileSystems.CreateFileCreatesMissing | src/backend/src/repositories/types/filesystem.rs:235-238 | ancestors that were missing are created as directories, at time 0, holding only the next component |
| FileSystems.CreateFileFrame | src/backend/src/repositories/types/filesystem.rs:223-250 | paths off the new file's branch resolve as before |
| Keyboards.EntryButtons | src/backend/src/repositories/types/filesystem.rs:265-271 | one entry button per name, in order, each carrying that name |
| Keyboards.NewBuilder | src/backend/src/repositories/types/filesystem.rs:278-296 | lookup errors propagate; a file fails with "Not a directory"; a directory gives a Parent button first iff the path is not "/", followed by exactly its sub-directories in ascending order |
| Keyboards.WithFiles | src/backend/src/repositories/types/filesystem.rs:310-316 | keeps the buttons so far and appends exactly the directory's files in ascending order |
| Keyboards.WithDeleteDirButton | src/backend/src/repositories/types/filesystem.rs:298-302 | "delete directory" is put in front of the buttons so far, which are kept in order |
| Keyboards.WithCurrentDirButton | src/backend/src/repositories/types/filesystem.rs:304-308 | "current directory" is put in front of the buttons so far, which are kept in order |
| Keyboards.Build | src/backend/src/repositories/types/filesystem.rs:318-322 | a keyboard of exactly one row, holding the builder's buttons |
| Keyboards.CurrentDirKeyboard | src/backend/src/repositories/types/filesystem.rs:304-308 | one row whose first button is "current directory", then Parent iff not at "/", then the sub-directories |
| Keyboards.ExplorerKeyboard | src/backend/src/repositories/types/filesystem.rs:278-322 | one row: the parent prefix, the sub-directories, then the files, one button per child |
| Keyboards.DeleteDirKeyboard | src/backend/src/repositories/types/filesystem.rs:298-302 | "delete directory" first, then exactly the explorer row |
| Keyboards.DefaultRootKeyboard | src/backend/src/repositories/types/filesystem.rs:564-576 | the keyboard of "/" in the default tree is the four default directories, no Parent button |
| ChatSessions.Reset | src/backend/src/controllers/http.rs:268-269 | a reset session is at "/" with nothing pending, whatever it was before |
| ChatSessions.ResetForgets | src/backend/src/controllers/http.rs:268-269 | any two sessions reset to the same, default session |
| ChatSessions.AssumedClearActionOnError | src/backend/src/controllers/http.rs:259 | the error wrapper keeps a successful turn's session and drops the pending action, keeping the path, of a failed one |
| Commands.TokenInjective | src/backend/src/repositories/types/command.rs:37-46 | distinct commands have distinct tokens |
| Commands.FromToken | src/backend/src/repositories/types/command.rs:37-47 | a recognised text is exactly the token of the command returned; any other text gives "Unknown command" |
| Commands.TokenRoundTrip | src/backend/src/repositories/types/command.rs:37-46 | reading back a command's token gives the command |
| Commands.Parse | src/backend/src/repositories/types/command.rs:19-48 | errors in order: no text, no entities, first entity not a bot command; otherwise it succeeds iff the marked slice is a token, naming that command |
| Commands.ParseCommandMessage | src/backend/src/repositories/types/command.rs:33-46 | a message whose text is a token, marked as a bot command, is that command |
| ChatIds.FromI64 | src/backend/src/repositories/types/chat_id.rs:10-14 | the result is congruent to the signed id modulo 2^64, and equal to it when non-negative |
| ChatIds.IntoTgChatId | src/backend/src/repositories/types/chat_id.rs:16-20 | the result is congruent to the chat id modulo 2^64, and equal to it below 2^63 |
| ChatIds.SignedRoundTrip | src/backend/src/repositories/types/chat_id.rs:10-20 | every signed id, negative ones included, survives the trip through a chat id |
| ChatIds.UnsignedRoundTrip | src/backend/src/repositories/types/chat_id.rs:10-20 | every chat id survives the trip through a signed id |
| ChatIds.ConversionExamples | src/backend/src/repositories/types/chat_id.rs:85-98 | 123 converts both ways unchanged; -1 becomes 2^64 - 1 |
| ChatIds.ToBytes | src/backend/src/repositories/types/chat_id.rs:34-37 | the key is eight bytes whose big-endian value is the chat id |
| ChatIds.FromBytes | src/backend/src/repositories/types/chat_id.rs:39-41 | decoding eight bytes gives the chat id whose encoding they are |
| ChatIds.BytesRoundTrip | src/backend/src/repositories/types/chat_id.rs:75-83 | decoding an encoded chat id gives it back |
| ChatIds.ToBytesInjective | src/backend/src/repositories/types/chat_id.rs:34-44 | distinct chat ids are stored under distinct keys |
| ChatIds.Display | src/backend/src/repositories/types/chat_id.rs:22-26 | non-empty decimal digits with no leading zero except for 0 |
| ChatIds.DisplayRoundTrip | src/backend/src/repositories/types/chat_id.rs:22-26 | the displayed digits denote the chat id's value |
| ChatIds.ChatIdOf | src/backend/src/repositories/types/chat_id.rs:46-67 | a message's chat, a callback's message's chat whether accessible or not, "Message not found in callback query", or "Unsupported update content" |
| ChatIds.ChatIdOfFails | src/backend/src/repositories/types/chat_id.rs:46-67 | routing fails exactly for callbacks without a message and for other updates |
| Repositories.GetOrCreate | src/backend/src/services/chat_session_service.rs:20-33 | a stored value is returned with the store unchanged; a missing one is the default, now stored; no other chat's entry changes |
| Repositories.Set | src/backend/src/services/chat_session_service.rs:35-38 | the chat maps to the new value and no other chat's entry changes |
| Repositories.GetOrCreateIdempotent | src/backend/src/services/chat_session_service.rs:20-33 | a second get-or-create returns the same value and store as the first |
| Repositories.SetAfterGetOrCreate | src/backend/src/services/chat_session_service.rs:20-38 | writing a value back after a get-or-create leaves the store as writing it directly would |
| Repositories.GetAfterSet | src/backend/src/services/chat_session_service.rs:20-38 | after an update, get-or-create returns the written value |
| FilesystemServices.GetOrCreateFilesystem | src/backend/src/services/filesystem_service.rs:19-32 | a stored tree is returned unchanged; a new chat gets the default four-directory tree, which is stored |
| FilesystemServices.UpdateFilesystem | src/backend/src/services/filesystem_service.rs:34-37 | the chat maps to the given tree and no other chat's tree changes, so a store of well-formed trees stays well-formed |
| FilesystemServices.FirstContact | src/backend/src/services/filesystem_service.rs:25-30 | a new chat gets the default tree, and asking again gives the same |
| FilesystemServices.ValidHandedOut | src/backend/src/services/filesystem_service.rs:19-32 | if every stored tree has a directory at its root, so does the tree handed out and every tree stored afterwards |
| ChatSessionServices.GetOrCreateChatSession | src/backend/src/services/chat_session_service.rs:20-33 | a stored session is returned unchanged; a new chat gets the session at "/" with nothing pending, which is stored |
| ChatSessionServices.UpdateChatSession | src/backend/src/services/chat_session_service.rs:35-38 | the chat maps to the given session and no other chat's session changes, so a store of sessions keeping the invariant keeps it |
| ChatSessionServices.FirstContact | src/backend/src/services/chat_session_service.rs:26-30 | a new chat gets the default session, and asking again gives the same |
| ChatSessionServices.InvariantHandedOut | src/backend/src/services/chat_session_service.rs:20-33 | if every stored session keeps the invariant, so does the session handed out and every session stored afterwards |
| Http.CurrentDirKeyboardAt | src/backend/src/controllers/http.rs:287-290 | the keyboard exists iff the path resolves to a directory, and its one row starts with "current directory" |
| Http.FilesKeyboardAt | src/backend/src/controllers/http.rs:299-302 | the keyboard exists iff the path resolves to a directory |
| Http.DeleteDirKeyboardAt | src/backend/src/controllers/http.rs:336-340 | the keyboard exists iff the path resolves to a directory, and its one row starts with "delete directory" |
| Http.Utf8Length | src/backend/src/controllers/http.rs:408 | the byte length of a text lies between one and four bytes per character |
| Http.AttachmentOf | src/backend/src/controllers/http.rs:414-503 | nothing is stored iff the message has no attachment; otherwise the first present of document, photo, video, video note, audio, voice, sticker and contact decides: documents, videos, audio and voice keep their own size and type, a photo takes its first size with type "jpeg", a video note and a sticker get "tg+video_note" and "tg+sticker", a contact has no size and type "tg+contact" |
| Http.ProcessFileMessage | src/backend/src/controllers/http.rs:712-734 | the tree is untouched; the session is at "/" holding the new file (time 0, size 0 when unknown) awaiting a destination; it fails iff the root is not a directory |
| Http.OnCommand | src/backend/src/controllers/http.rs:266-357 | the tree is untouched and the session is back at "/"; it fails iff a flow's keyboard cannot be built because the root is not a directory |
| Http.OnText | src/backend/src/controllers/http.rs:359-412 | only a text awaited as a name touches the tree: a directory name runs mkdir under the current path and resets the session iff it succeeds; a file name hands the pending file to the file store and keeps the session; nothing pending starts saving the text itself; any other pending action gets the generic error and changes nothing |
| Http.OnMessage | src/backend/src/controllers/http.rs:256-506 | a command leaves the tree and returns to "/"; the tree changes only for a text awaited as a name; a message without text but with an attachment starts saving it at "/"; one with neither gets the generic error and changes nothing |
| Http.OnCurrentDir | src/backend/src/controllers/http.rs:537-562 | the tree and path are untouched; it succeeds exactly for directory creation and a save flow holding a file and choosing a directory, which then await a name under a back keyboard, keeping the file; anything else fails with "current action not supported" and changes nothing |
| Http.ExploreTo | src/backend/src/controllers/http.rs:600-635 | the tree and pending action are untouched; a lookup error is returned as is; a directory becomes the current path; a file keeps the session and is either edited to an empty text or answered by a new message replying to the file's own message, failing only for a path without segments |
| Http.OnParentDir | src/backend/src/controllers/http.rs:564-597 | the tree and pending action are untouched; only the explorer and directory creation accept it; the path either stays or becomes the parent ("/" for the root); the reply always edits the pressed message; directory creation moves unconditionally and succeeds iff the parent is a directory |
| Http.OnFileOrDir | src/backend/src/controllers/http.rs:599-658 | the tree and pending action are untouched; only the explorer, directory creation and a save flow choosing a directory accept it; the path either stays or becomes the button's; the two pickers move unconditionally and succeed iff the target is a directory; a new message is sent only to answer a file, replying to its message |
| Http.OnBack | src/backend/src/controllers/http.rs:660-690 | the tree and path are untouched; a flow awaiting a name returns to choosing a directory, keeping a pending file, and succeeds iff the current path is a directory; anything else fails with "current action not supported" and changes nothing |
| Http.OnCallback | src/backend/src/controllers/http.rs:508-535 | the tree is untouched; a missing payload, missing message or missing pending action fails with its own error and changes nothing; a payload that is not a button fails |
| Http.Dispatch | src/backend/src/controllers/http.rs:255-702 | a failed message or button turn leaves nothing pending; any other update is refused with "Unsupported update content" and changes nothing |
| Http.ProcessUpdate | src/backend/src/controllers/http.rs:243-709 | an update that cannot be routed changes no store and reports no chat; a routed failure reports its chat |
| HttpProperties.CommandTurn | src/backend/src/controllers/http.rs:266-357 | a command's turn depends only on the command and the tree: at "/", with the command's flow pending when it succeeds; it fails only when the root is not a directory |
| HttpProperties.DirectoryNameReply | src/backend/src/controllers/http.rs:363-380 | a text awaited as a directory name runs mkdir under the current path; success resets the session and names the new directory; failure keeps the tree and path and drops the pending action |
| HttpProperties.DirectoryNameCreates | src/backend/src/controllers/http.rs:366-369 | a successful plain-name reply leaves an empty directory under the current path, and other branches resolve as before |
| HttpProperties.FileNameReply | src/backend/src/controllers/http.rs:381-400 | a text awaited as a file name stores the pending file under the current path; success keeps the session and names the stored file |
| HttpProperties.TextStartsSaveFlow | src/backend/src/controllers/http.rs:403-410 | a text with nothing pending starts saving the text itself, sized in UTF-8 bytes with type "tg+text" |
| HttpProperties.Utf8LengthAscii | src/backend/src/controllers/http.rs:408 | an ASCII text is as many bytes long as it has characters |
| HttpProperties.AttachmentStartsSaveFlow | src/backend/src/controllers/http.rs:414-501 | an attachment starts the save flow whatever was pending, recording its size and type |
| HttpProperties.GenericErrorReplies | src/backend/src/controllers/http.rs:401-503 | a text under any other pending action, or a message with nothing storable, gets the generic error as a success and changes nothing |
| HttpProperties.CallbackWithoutAction | src/backend/src/controllers/http.rs:532-534 | a button press with nothing pending fails and changes nothing |
| HttpProperties.PersistedActionAsTrigger | src/backend/src/controllers/http.rs:691-697 | a payload naming a stored flow rather than a button action fails with "invalid action" and drops the pending action |
| HttpProperties.DeleteDirButtonRejected | src/backend/src/controllers/http.rs:691-697 | the delete-directory button, whose payload is the stored `DeleteDir` action (utils/defaults.rs:252-256), always fails with "invalid action" and drops the pending action |
| HttpProperties.CurrentDirTable | src/backend/src/controllers/http.rs:537-562 | "current directory" makes directory creation await a name and a save flow await a file name, with a back keyboard; anything else is rejected |
| HttpProperties.ParentOfRoot | src/backend/src/controllers/http.rs:565-567 | the parent of "/" is "/" |
| HttpProperties.ParentDirInExplorer | src/backend/src/controllers/http.rs:564-582 | the explorer moves to the parent when it is a directory, edits to an empty text when it is a file, and fails with the lookup error otherwise |
| HttpProperties.ParentDirInMkDir | src/backend/src/controllers/http.rs:583-596 | directory creation moves to the parent unconditionally and stays pending iff the parent is a directory |
| HttpProperties.ParentDirElsewhere | src/backend/src/controllers/http.rs:597 | "parent directory" under any other flow is rejected |
| HttpProperties.FileOrDirInExplorer | src/backend/src/controllers/http.rs:600-635 | the explorer enters a directory, answers a file with a new message replying to the file's own message, and fails with the lookup error otherwise |
| HttpProperties.RelativeButtonPathFails | src/backend/src/controllers/http.rs:599-601 | a button carrying a bare child name fails in the explorer with "Path must be absolute" |
| HttpProperties.FileOrDirInPicker | src/backend/src/controllers/http.rs:636-657 | directory creation and file saving move to the button's path unconditionally and stay pending iff it is a directory |
| HttpProperties.FileOrDirElsewhere | src/backend/src/controllers/http.rs:658 | a directory or file button under any other pending action fails with "current action not supported" and drops the pending action |
| HttpProperties.BackUndoesCurrentDir | src/backend/src/controllers/http.rs:537-690 | "back" right after "current directory" gives back the session as it was before |
| HttpProperties.BackTable | src/backend/src/controllers/http.rs:660-690 | "back" returns a flow awaiting a name to choosing a directory iff the current path is a directory; anything else is rejected |
| HttpProperties.TreeChangesOnlyOnNameReplies | src/backend/src/controllers/http.rs:255-702 | only a text awaited as a name can change the tree |
| HttpProperties.ValidPreserved | src/backend/src/controllers/http.rs:255-702 | every turn keeps a directory at the root, given a file store that does |
| HttpProperties.InvariantPreserved | src/backend/src/controllers/http.rs:255-702 | every turn keeps the session invariant: no button stored as a flow, and directory creation never awaits a file name |
| HttpProperties.MkdirScenario | src/backend/src/controllers/http.rs:281-380 | "/mkdir", then "current directory", then "Notes" leaves an empty directory "/Notes" and a reset session |
| HttpProperties.WrittenBack | src/backend/src/controllers/http.rs:704-708 | after a routed update both stores hold the turn's session and tree for that chat, failed or not, and the error carries the chat id |

## Left out

- HTTP request and response handling, JSON, the Telegram method names, link previews and parse modes are not modelled. The handler's reply is reduced to a mode, a template with its arguments, a keyboard and the message it answers.
- The rendering of errors ("Error processing update content: ...") and the message templates' text are not modelled. Templates are constructors.
- The Candid encoding of `FileSystem` and sessions in stable memory is not modelled. It is foreign code.
- The memories, the access-control and admin services, and the chat-session controller are not modelled. They are outside the update path.
- Paths: `.` and `..` components, repeated or trailing separators beyond what `Split` drops, and non-UTF-8 names are not modelled. Paths are sequences of plain segments.
- Commands.Parse: the text is sliced by character positions. The source slices a UTF-8 string by byte offsets, and Telegram counts them in UTF-16 code units. The slice is required to lie in range, where the source would panic.
- Http.AttachmentOf: requires a photo message to have at least one photo size. The source indexes the first one unchecked.
- Http.NamesStoredFiles: `create_file_from_node` is defined outside the modelled modules. It is a parameter of the handler, required to return paths that have a file name, because the source unwraps that name.
- ChatSessions.AssumedClearActionOnError: `with_clear_action_on_error` is defined outside the modelled modules. Its effect is a stated assumption: on error the pending action is dropped and the path is kept.
- Http.ExploreTo: answers a file with its message id. The source reads it through a getter defined outside the modelled modules, and the model assumes every file node has one.
- FileSystems: the `get_nodes` panics on a file are not modelled. No modelled operation reaches them.
- Moving, renaming and deleting files and directories are not modelled. The handler only enters those flows, and their completion is not in the modelled source.
- FileSystems.Mkdir: the "Invalid directory name" and "Invalid file name" errors cannot arise. A path with a parent always has a file name once `..` is excluded.
- The textual encoding of button payloads is not modelled. Payloads arrive as decoded actions.
- ChatIds.ToBytes: assumes the `u64` stable-memory encoding is eight big-endian bytes. That encoding belongs to the stable-structures library, which is not part of this model.
- FileSystems.GetNode: reads std `Path::is_absolute` with its Unix meaning, that the path has a root, as the tests at `filesystem.rs:365-404` expect. On the wasm32-unknown-unknown target std's method also requires a Windows prefix and is always false, the reason `utils/path.rs:1-2` gives for the bot's own textual check; there every lookup would fail with "Path must be absolute". That target behaviour is not modelled.
- FileSystems.CreateFile: sizes and message ids are unbounded integers. The source's `u64` width and `try_into` on text lengths are not enforced.
- Clocks: every node is created at time 0, as in the source.
