# Telegram note bot — a verified model of its conversation core

The bot keeps a personal list of short text notes for every chat user. A user
works through four keyboard buttons ("add", "list", "edit", "delete"). Each
user has a session that says which input the bot expects next:

- nothing;
- the text of a new note;
- the number of a note to edit;
- the new text of that note;
- the number of a note to delete.

Notes are addressed by their 1-based position in the list. Every text message
also registers its sender, once, in a user registry. Two administrator
commands, `/send` and `/checkuser`, are open only to one fixed user id.

The model keeps the source's structure:

- `Text`: the Python string operations the bot relies on: `strip()` (with
  the whitespace set of Python 3's `str.isspace`), `int()` on a stripped
  message, the decimal rendering of a position, and `" ".join`.
- `Rendering`: the numbered list shown for list, edit and delete. It is a
  recursive function, plus the accumulating loop as a method proved against it.
- `Registry`: `save_user` as an insert-if-absent update of a map.
- `Conversation`: the pure specification of `handle_message`:
  - `Handle` covers one user and one message;
  - `Receive` covers the whole store and every session;
  - `ReceiveAll` covers a run of messages.
- `Admin`: the decision taken by each administrator command.
- `Bot`: class `NoteBot`. It holds the notes store, the sessions and the
  registry as maps. Its methods change these maps step by step, as the
  handler does, and are proved to agree with `Receive` and `Register`.

The central invariant is `Conversation.SessionOk`: a session that waits for
the new text of a note holds a position that is valid in that user's current
list. `Handle` and `Receive` preserve it, so the overwrite at Bot.py:142 never
goes out of range.

The notes file and the users file are in-memory maps. The current time
(`datetime.now()`) is a parameter. Replies are a `Reply` value, and
`ReplyText` gives the text the bot sends for each one.

Three details of the code are easy to misread; the model keeps them as written:

- The code adds an empty list for a new user to its loaded copy of the notes
  (Bot.py:110-111). That copy is written back only after an add, an edit or a
  delete. So the store gains an entry for a user only on their first write.
  `Receive` states this.
- Only plain text messages and `/start` register their sender. The commands
  `/send` and `/checkuser` do not call `save_user`.
- After a choice is finished or abandoned, the pending edit index stays in the
  session, stale. `Session.editIndex` keeps it the same way.

## Model

| member | source | states |
|---|---|---|
| Text.Strip | Bot.py:116 | the stripped text is no longer than the input and neither starts nor ends with whitespace |
| Text.StripIsSlice | Bot.py:139 | stripping keeps one contiguous slice of the message and removes only whitespace before and after it |
| Text.BlankIffAllSpace | Bot.py:116 | a message counts as blank exactly when every character is whitespace |
| Text.StripIdempotent | Bot.py:116-117 | stripping an already stripped text changes nothing |
| Text.StripFixed | Bot.py:117 | a text without whitespace at either end is stored exactly as typed |
| Text.Join | Bot.py:221 | no words give the empty text and one word gives that word; otherwise the joined text starts with the first word and the separator and ends with the last word |
| Text.JoinAppend | Bot.py:221 | joining two non-empty runs of words gives their joins with one separator between, so every word is kept, in order |
| Text.ParseInt | Bot.py:126 | a successful parse implies the text is non-empty and has no whitespace at either end |
| Text.DigitsAreZerosThenRendering | Bot.py:126 | a non-empty string of digits is some zeros followed by the rendering of its value |
| Text.ParseIntShape | Bot.py:126 | every accepted text is an optional sign, some zeros and the rendering of the absolute value, and a negative value comes with a minus sign |
| Text.ParseDigits | Bot.py:126 | a non-empty string of digits, alone or behind "+" or "-", is accepted with its value and that value's sign |
| Text.ZerosValue | Bot.py:126 | a run of zeros reads 0 |
| Text.LeadingZerosValue | Bot.py:126 | leading zeros do not change the value of a string of digits |
| Text.ParseZerosThenRendering | Bot.py:126 | the converse of `ParseIntShape`: every optional sign followed by any number of zeros and a rendered number is accepted, with the value the sign gives; together the two lemmas fix exactly which texts `int()` accepts here and what they read |
| Text.ParseIntExamples | Bot.py:126 | "02" reads 2, "007" reads 7, "+2" reads 2 and "-1" reads -1; the empty text, a lone "+" and "1a" are refused |
| Text.ParseSignedNatToString | Bot.py:126 | a rendered number behind a minus sign parses to its negation, and behind a plus sign to itself |
| Text.NatToString | Bot.py:173 | a rendered position is a non-empty string of decimal digits |
| Text.DigitsOfNatToString | Bot.py:173 | reading the digits of a rendered position gives back the position |
| Text.ParseNatToString | Bot.py:126 | typing back a rendered position, stripped and parsed, gives exactly that position |
| Rendering.NumberedAppend | Bot.py:172-173 | the rendering of a concatenation is the rendering of the first part followed by the second part numbered on from it |
| Rendering.Entry | Bot.py:173 | one line is as long as the rendered position, the note and the three characters ". " and newline together |
| Rendering.Numbered | Bot.py:168-173 | the numbered list is empty exactly when there are no notes, and takes at least four characters per note |
| Rendering.NumberedShowsEach | Bot.py:181-183 | the note at position k appears on its own line, numbered k, between the lines before and after it |
| Rendering.RenderList | Bot.py:171-173 | the accumulating loop produces the header followed by the numbered list of all notes |
| Rendering.TwoNotesExample | Bot.py:192-194 | the notes "buy milk" and "call mom" render as "1. buy milk\n2. call mom\n" |
| Registry.Register | Bot.py:55-66 | the registry afterwards has the same keys plus the sender; existing records are unchanged; a new sender gets a record built from the profile and the time |
| Registry.RegisterIdempotent | Bot.py:58 | registering the same id again, with any profile and time, changes nothing |
| Registry.RegisterKeepsRecords | Bot.py:58-64 | a record that is present survives any registration unchanged |
| Conversation.ReplyText | Bot.py:119-200 | every fixed reply is a non-empty text; the deletion reply ends with the deleted note |
| Conversation.SessionOk | Bot.py:127-129 | the invariant: a session waiting for new text holds an index inside the user's list; Handle, Receive, ReceiveAll and NoteBot.Valid keep it |
| Conversation.AddNote | Bot.py:115-122 | the add step always returns to idle; it writes back exactly when the text is not blank, and then grows the list by one, keeping the earlier notes |
| Conversation.ChooseEdit | Bot.py:124-136 | the edit-target step never changes or writes the notes, ends idle or waiting for the text, and leaves a session that satisfies SessionOk |
| Conversation.Overwrite | Bot.py:138-147 | the overwrite step returns to idle, writes back exactly when the text is not blank, and keeps the length of the list |
| Conversation.DeleteAt | Bot.py:149-160 | the delete step returns to idle; a write-back shortens the list by one; without one the list is unchanged |
| Conversation.Menu | Bot.py:162-202 | the idle step never changes or writes the notes, never touches the stored edit index, and never starts waiting for new text |
| Conversation.Handle | Bot.py:113-202 | keeps the invariant SessionOk; "add", "edit content" and "delete" always return to idle; "edit index" ends either idle or waiting for the text; the notes change only when written back, and only in "add", "edit content" or "delete"; the length changes by at most one |
| Conversation.AddAppends | Bot.py:115-122 | while waiting for a note, a non-blank text is appended, stripped, as the new last element, with the earlier elements kept; a blank text changes nothing; both return to idle |
| Conversation.ChooseEditSelects | Bot.py:124-136 | while waiting for an edit target, the notes never change; the bot waits for the new text exactly when the parsed number k satisfies 1 <= k <= length, storing k - 1; otherwise it returns to idle with "not a number" or "bad number" |
| Conversation.OverwriteReplacesOne | Bot.py:138-147 | while waiting for the new text, the length and every other note are kept; a non-blank text replaces exactly the stored position; a blank text changes nothing; both return to idle |
| Conversation.DeleteRemovesOne | Bot.py:149-160 | while waiting for a position, a number k in range removes note k - 1: the length drops by one, earlier notes are kept, later ones shift down, and the reply names the deleted note; any other text changes nothing; all return to idle |
| Conversation.MenuDispatch | Bot.py:162-202 | with nothing pending: the notes never change; "add" always waits for a note; "list" shows the numbered list or "no notes"; "edit" and "delete" wait for a position only when there is a note, otherwise stay idle; any other text leaves the session and replies with the help text |
| Conversation.ButtonsAreStripped | Bot.py:74-75 | stripping keeps each button text unchanged |
| Conversation.ButtonsDistinct | Bot.py:74-75 | the four button texts differ from each other |
| Conversation.PendingInputBeatsButtons | Bot.py:115-117 | while waiting for a note, a button text is stored as the note and is not executed as a command |
| Conversation.OpenWithNotes | Bot.py:176-196 | "edit" and "delete" on a non-empty list show that list under their header and wait for a position |
| Conversation.SelectPosition | Bot.py:126-130 | a position in range, typed while an edit target is awaited, stores that index and waits for the new text |
| Conversation.DeletePosition | Bot.py:151-155 | a position in range, typed while a deletion is awaited, removes exactly that note and names it in the reply |
| Conversation.EditByShownNumber | Bot.py:138-147 | "edit", then the number shown in front of note k, then a non-blank text: the result is the old list with only note k replaced by the stripped text |
| Conversation.DeleteByShownNumber | Bot.py:149-160 | "delete", then the number shown in front of note k: note k is removed and named in the reply, and the session returns to idle |
| Conversation.DeleteExample | Bot.py:187-196 | with the notes ["buy milk", "call mom"], "delete" shows "1. buy milk\n2. call mom\n"; then "1" leaves ["call mom"], replies with the deleted "buy milk", and returns to the initial session |
| Conversation.Receive | Bot.py:107-113 | a message from u keeps every session valid; every other user's notes and session are unchanged; u's list, u's session and the reply are those of the handler; u gets a store entry only if one existed or the list was written back |
| Conversation.OthersUntouched | Bot.py:109-111 | any run of messages from other users leaves a user's notes and session unchanged |
| Conversation.ReceiveAll | Bot.py:127-142 | after any run of messages from any users, every pending edit still points at an existing note |
| Admin.Send | Bot.py:207-227 | a non-administrator is always refused and the administrator never is; fewer than two arguments give the usage reply and a non-integer target the "must be a number" reply; a message is handed over exactly when the administrator gives at least two arguments and the first is an integer; the target and the space-joined text come from the arguments |
| Admin.SendExample | Bot.py:208-210 | user 42 running `/send 7 hi` is refused and nothing is delivered |
| Admin.CheckUser | Bot.py:229-270 | a non-administrator is refused and the administrator never is; an empty registry always gives "no users"; otherwise no arguments give the full listing, and only no arguments do; a non-integer argument gives "must be a number"; a reported user is registered, their record is returned as stored, and their note count equals the length of their list; "not found" means truly absent; an integer argument always gives a report or "not found" for that id |
| Bot.NoteBot.constructor | Bot.py:31-39 | a started bot holds the stored notes and users and no sessions, and satisfies the invariant |
| Bot.NoteBot.SaveUser | Bot.py:55-66 | the registry becomes Register of the old registry; notes and sessions are untouched |
| Bot.NoteBot.HandleMessage | Bot.py:98-202 | keeps the invariant; registers the sender; the new store, sessions and reply are exactly those given by Receive |
| Bot.NoteBot.FinishAdd | Bot.py:115-122 | the in-place append, the write-back and the reset of the sender's session agree with AddNote |
| Bot.NoteBot.FinishChooseEdit | Bot.py:124-136 | the writes of the edit index and of the awaited input into the sender's session, and the reply, agree with ChooseEdit; the notes are not touched |
| Bot.NoteBot.FinishOverwrite | Bot.py:138-147 | the item assignment, the write-back and the reset of the sender's session agree with Overwrite |
| Bot.NoteBot.FinishDelete | Bot.py:149-160 | the `pop`, the write-back and the reset of the sender's session agree with DeleteAt |
| Bot.NoteBot.MenuCommand | Bot.py:162-202 | the button dispatch, including the rendered lists and the write of the awaited input, agrees with Menu; the notes are not touched |
| Bot.DeleteScenario | Bot.py:187-196 | a bot started with the notes ["buy milk", "call mom"] answers "delete" with the numbered list under the delete header, then "1" by deleting "buy milk", and keeps ["call mom"] |

## Left out

- The chat framework: updates, contexts, the application, polling, and the asynchronous sending of replies (Bot.py:6-9, 275-287). These are transport; a reply is a `Reply` value. The message handler is registered with the filter `filters.TEXT & ~filters.COMMAND` (Bot.py:281), so a text that starts with a bot command, such as "/x" typed while a note is awaited, never reaches `handle_message`; `Receive`, `ReceiveAll` and `NoteBot.HandleMessage` accept every text and do not model that filter.
- A reply that fails to send. In every pending branch the code resets `awaiting` only after `await reply_text` (Bot.py:119-122, 132-136, 144-147, 155-160). A failed send, such as a deletion reply over Telegram's 4096-character limit, raises out of the handler: the store was already written (Bot.py:118, 143, 154) but the session stays pending, so the next message is read as the same kind of input again. The model assumes every reply is delivered, so `Handle` and `NoteBot.HandleMessage` always return to idle.
- The reply keyboard (`get_keyboard`, Bot.py:71-79) and its attachment to the help reply. Both are presentation only.
- Reading and writing the JSON files, and the swallowed decoding errors (Bot.py:31-53, 65-66). These are I/O. The files are in-memory maps, and the string keys of the JSON become integer keys.
- Concurrency: interleaved messages, and the last-writer-wins race on the files. The model delivers messages one at a time.
- The `/start` handler (Bot.py:84-96). It only registers the sender and sends a greeting; registration is `SaveUser`.
- Logging, the bot token and the startup code. These are configuration.
- Admin.Send: the actual delivery and its failure report (Bot.py:222-227) are a network call. The model stops at the decision to deliver.
- Admin.CheckUser: the wording of the reports (Bot.py:240-268) is not modelled. `AllUsers` carries the registry, and `UserInfo` carries the record and the note count.
- Text.ParseInt: accepts only an optional sign and ASCII digits. Python's `int()` also accepts underscores between digits, non-ASCII decimal digits and surrounding whitespace; the caller has already stripped the whitespace.
- Conversation.Handle: requires the session invariant `SessionOk`. If a session waited for new text with an invalid stored index, Python would raise `IndexError` at Bot.py:142. `Receive`, `ReceiveAll` and `NoteBot.Valid` prove that such a session never arises, so that path is not modelled.
