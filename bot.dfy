/**
  The running bot: the notes store, every user's session and the user
  registry, all held in memory. `HandleMessage` updates them step by step,
  branch by branch, and is proved to agree with `Conversation.Receive` and
  `Registry.Register`.
 */
module Bot {
  import opened Wrappers
  import opened Text
  import opened Rendering
  import opened Registry
  import opened Conversation

  class NoteBot {
    /** Each user's notes, oldest first (the notes file). */
    var notes: map<int, seq<string>>
    /** Each user's session (the chat framework's per-user data). */
    var sessions: map<int, Session>
    /** Everyone who has written to the bot (the users file). */
    var users: map<int, UserRecord>

    /** Every pending edit points at an existing note. */
    ghost predicate Valid()
      reads this
    {
      AllSessionsOk(notes, sessions)
    }

    /** A freshly started bot: the stored files loaded, no sessions yet. */
    constructor (storedNotes: map<int, seq<string>>, storedUsers: map<int, UserRecord>)
      ensures Valid()
      ensures notes == storedNotes && users == storedUsers && sessions == map[]
    {
      notes := storedNotes;
      users := storedUsers;
      sessions := map[];
    }

    /** `save_user`: record a sender the first time they are seen, never afterwards. */
    method SaveUser(id: int, profile: Profile, now: string)
      modifies this
      ensures users == Register(old(users), id, profile, now)
      ensures notes == old(notes) && sessions == old(sessions)
    {
      if id !in users {
        users := users[id := UserRecord(profile.username, profile.firstName, profile.lastName, now)];
      }
    }

    /** `handle_message`: one text message from user `id`, received at time `now`. */
    method HandleMessage(id: int, profile: Profile, now: string, text: string) returns (reply: Reply)
      requires Valid()
      modifies this
      ensures Valid()
      ensures users == Register(old(users), id, profile, now)
      ensures var d := Receive(old(notes), old(sessions), id, text);
        notes == d.notes && sessions == d.sessions && reply == d.reply
    {
      SaveUser(id, profile, now);
      var list := if id in notes then notes[id] else [];
      var session := if id in sessions then sessions[id] else Initial;
      ghost var d := Receive(notes, sessions, id, text);
      ghost var o := Handle(list, session, text);
      assert d == Delivery(if o.saved then notes[id := o.notes] else notes, sessions[id := o.session], o.reply);
      match session.awaiting {
        case Add =>
          reply := FinishAdd(id, list, session, text);
        case EditIndex =>
          reply := FinishChooseEdit(id, list, session, text);
        case EditContent =>
          reply := FinishOverwrite(id, list, session, text);
        case Delete =>
          reply := FinishDelete(id, list, session, text);
        case Idle =>
          reply := MenuCommand(id, list, session, text);
      }
    }

    /** A pending "add": a non-blank text is appended, stripped, to the user's notes. */
    method FinishAdd(id: int, list: seq<string>, session: Session, text: string) returns (reply: Reply)
      modifies this`notes, this`sessions
      ensures var o := AddNote(list, session, text);
        && reply == o.reply && sessions == old(sessions)[id := o.session]
        && notes == if o.saved then old(notes)[id := o.notes] else old(notes)
    {
      var t := Strip(text);
      if t != [] {
        var updated := list + [t];
        notes := notes[id := updated];
        reply := NoteAdded;
      } else {
        reply := EmptyNoteRejected;
      }
      sessions := sessions[id := session.(awaiting := Idle)];
    }

    /** A pending edit target: a valid 1-based number is remembered as a 0-based index. */
    method FinishChooseEdit(id: int, list: seq<string>, session: Session, text: string) returns (reply: Reply)
      modifies this`sessions
      ensures var o := ChooseEdit(list, session, text);
        reply == o.reply && sessions == old(sessions)[id := o.session]
    {
      match ParseInt(Strip(text)) {
        case None =>
          reply := NotANumber;
          sessions := sessions[id := session.(awaiting := Idle)];
        case Some(n) =>
          var index := n - 1;
          if 0 <= index < |list| {
            sessions := sessions[id := session.(editIndex := Some(index))];
            sessions := sessions[id := sessions[id].(awaiting := EditContent)];
            reply := AskNewText;
          } else {
            reply := BadNumber;
            sessions := sessions[id := session.(awaiting := Idle)];
          }
      }
    }

    /** A pending new text: a non-blank text overwrites the remembered position. */
    method FinishOverwrite(id: int, list: seq<string>, session: Session, text: string) returns (reply: Reply)
      requires session.editIndex.Some? && 0 <= session.editIndex.value < |list|
      modifies this`notes, this`sessions
      ensures var o := Overwrite(list, session, text);
        && reply == o.reply && sessions == old(sessions)[id := o.session]
        && notes == if o.saved then old(notes)[id := o.notes] else old(notes)
    {
      var t := Strip(text);
      if t != [] {
        var index := session.editIndex.value;
        var updated := list[index := t];
        notes := notes[id := updated];
        reply := NoteUpdated;
      } else {
        reply := EmptyTextRejected;
      }
      sessions := sessions[id := session.(awaiting := Idle)];
    }

    /** A pending deletion: a valid 1-based number removes that note (`list.pop(index)`). */
    method FinishDelete(id: int, list: seq<string>, session: Session, text: string) returns (reply: Reply)
      modifies this`notes, this`sessions
      ensures var o := DeleteAt(list, session, text);
        && reply == o.reply && sessions == old(sessions)[id := o.session]
        && notes == if o.saved then old(notes)[id := o.notes] else old(notes)
    {
      ghost var o := DeleteAt(list, session, text);
      match ParseInt(Strip(text)) {
        case None =>
          reply := NotANumber;
        case Some(n) =>
          var index := n - 1;
          if 0 <= index < |list| {
            var deleted := list[index];
            var updated := list[..index] + list[index + 1..];
            notes := notes[id := updated];
            reply := NoteDeleted(deleted);
            assert o == Outcome(updated, session.(awaiting := Idle), reply, true);
          } else {
            reply := BadNumber;
          }
      }
      sessions := sessions[id := session.(awaiting := Idle)];
    }

    /** Nothing pending: the text is matched against the four buttons. */
    method MenuCommand(id: int, list: seq<string>, session: Session, text: string) returns (reply: Reply)
      modifies this`sessions
      ensures var o := Menu(list, session, text);
        reply == o.reply && sessions == old(sessions)[id := o.session]
    {
      var next := session;
      if text == AddButton {
        next := session.(awaiting := Add);
        reply := AskNoteText;
      } else if text == ListButton {
        if list == [] {
          reply := NoNotes;
        } else {
          var msg := RenderList(ListHeader, list);
          reply := NotesList(msg);
        }
      } else if text == EditButton {
        if list == [] {
          reply := NothingToEdit;
        } else {
          var msg := RenderList(EditHeader, list);
          next := session.(awaiting := EditIndex);
          reply := EditPrompt(msg);
        }
      } else if text == DeleteButton {
        if list == [] {
          reply := NothingToDelete;
        } else {
          var msg := RenderList(DeleteHeader, list);
          next := session.(awaiting := Delete);
          reply := DeletePrompt(msg);
        }
      } else {
        reply := UseButtons;
      }
      sessions := sessions[id := next];
    }
  }

  /** An example played against the bot: two notes, "delete", then "1". */
  method DeleteScenario(id: int, profile: Profile, now: string)
    returns (prompt: Reply, reply: Reply, remaining: seq<string>)
    ensures prompt == DeletePrompt(DeleteHeader + "1. buy milk\n2. call mom\n")
    ensures reply == NoteDeleted("buy milk") && remaining == ["call mom"]
  {
    var bot := new NoteBot(map[id := ["buy milk", "call mom"]], map[]);
    prompt := bot.HandleMessage(id, profile, now, DeleteButton);
    reply := bot.HandleMessage(id, profile, now, "1");
    DeleteExample();
    remaining := bot.notes[id];
  }
}
