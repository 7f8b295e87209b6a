/**
  The conversation that drives note editing (`handle_message`). Each user has
  a session saying which input the bot waits for, and an ordered list of
  notes addressed by 1-based position. A message either completes the pending
  operation or, when nothing is pending, is matched against the four buttons.
 */
module Conversation {
  import opened Wrappers
  import opened Text
  import opened Rendering

  // The four keyboard buttons.
  const AddButton: string := "📝 Добавить"
  const ListButton: string := "📋 Список"
  const EditButton: string := "✏️ Редактировать"
  const DeleteButton: string := "🗑 Удалить"

  // The headers placed above the numbered list.
  const ListHeader: string := "Ваши заметки:\n\n"
  const EditHeader: string := "Введите номер заметки, которую хотите изменить:\n\n"
  const DeleteHeader: string := "Введите номер заметки для удаления:\n\n"

  /** The input a user's next message is expected to provide (`user_data["awaiting"]`). */
  datatype Awaiting = Idle | Add | EditIndex | EditContent | Delete

  /**
    A user's session: what is awaited and the pending edit target
    (`user_data["edit_index"]`), which is absent until a first edit target is
    chosen and afterwards kept, stale, until the next one.
   */
  datatype Session = Session(awaiting: Awaiting, editIndex: Option<int>)

  const Initial: Session := Session(Idle, None)

  /** The reply the bot sends for one message. */
  datatype Reply =
    | NoteAdded
    | EmptyNoteRejected
    | AskNewText
    | BadNumber
    | NotANumber
    | NoteUpdated
    | EmptyTextRejected
    | NoteDeleted(note: string)
    | AskNoteText
    | NoNotes
    | NotesList(list: string)
    | NothingToEdit
    | EditPrompt(list: string)
    | NothingToDelete
    | DeletePrompt(list: string)
    | UseButtons

  /** The text sent for each reply. */
  function ReplyText(r: Reply): (t: string)
    ensures !(r.NotesList? || r.EditPrompt? || r.DeletePrompt?) ==> t != []
    ensures r.NoteDeleted? ==> |r.note| <= |t| && t[|t| - |r.note|..] == r.note
  {
    match r
    case NoteAdded => "✅ Заметка добавлена!"
    case EmptyNoteRejected => "❌ Пустая заметка не сохранена."
    case AskNewText => "✏️ Введите новый текст заметки:"
    case BadNumber => "❌ Неверный номер заметки."
    case NotANumber => "❌ Введите число."
    case NoteUpdated => "✅ Заметка обновлена!"
    case EmptyTextRejected => "❌ Пустой текст не сохранён."
    case NoteDeleted(note) => "🗑 Удалено: " + note
    case AskNoteText => "✏️ Введите текст новой заметки:"
    case NoNotes => "📭 У вас пока нет заметок."
    case NotesList(list) => list
    case NothingToEdit => "📭 Нет заметок для редактирования."
    case EditPrompt(list) => list
    case NothingToDelete => "📭 Нет заметок для удаления."
    case DeletePrompt(list) => list
    case UseButtons => " ❌ Используй кнопки ниже или команду /start"
  }

  /**
    The result of one message for its sender: the new list, the new session,
    the reply, and whether the notes were written back to the store.
   */
  datatype Outcome = Outcome(notes: seq<string>, session: Session, reply: Reply, saved: bool)

  /** Waiting for the new text of a note requires a valid stored position. */
  predicate SessionOk(notes: seq<string>, s: Session) {
    s.awaiting == EditContent ==> s.editIndex.Some? && 0 <= s.editIndex.value < |notes|
  }

  // One function per branch of the handler.

  function AddNote(notes: seq<string>, s: Session, text: string): (o: Outcome)
    ensures o.session == s.(awaiting := Idle)
    ensures o.saved <==> !IsBlank(text)
    ensures |o.notes| == |notes| + (if o.saved then 1 else 0) && o.notes[..|notes|] == notes
  {
    var t := Strip(text);
    if t != [] then Outcome(notes + [t], s.(awaiting := Idle), NoteAdded, true)
    else Outcome(notes, s.(awaiting := Idle), EmptyNoteRejected, false)
  }

  function ChooseEdit(notes: seq<string>, s: Session, text: string): (o: Outcome)
    ensures o.notes == notes && !o.saved
    ensures o.session.awaiting == Idle || o.session.awaiting == EditContent
    ensures SessionOk(notes, o.session)
  {
    match ParseInt(Strip(text))
    case None => Outcome(notes, s.(awaiting := Idle), NotANumber, false)
    case Some(n) =>
      var index := n - 1;
      if 0 <= index < |notes| then Outcome(notes, Session(EditContent, Some(index)), AskNewText, false)
      else Outcome(notes, s.(awaiting := Idle), BadNumber, false)
  }

  function Overwrite(notes: seq<string>, s: Session, text: string): (o: Outcome)
    requires s.editIndex.Some? && 0 <= s.editIndex.value < |notes|
    ensures o.session == s.(awaiting := Idle)
    ensures o.saved <==> !IsBlank(text)
    ensures |o.notes| == |notes|
  {
    var t := Strip(text);
    if t != [] then Outcome(notes[s.editIndex.value := t], s.(awaiting := Idle), NoteUpdated, true)
    else Outcome(notes, s.(awaiting := Idle), EmptyTextRejected, false)
  }

  function DeleteAt(notes: seq<string>, s: Session, text: string): (o: Outcome)
    ensures o.session == s.(awaiting := Idle)
    ensures o.saved ==> |o.notes| == |notes| - 1
    ensures !o.saved ==> o.notes == notes
  {
    match ParseInt(Strip(text))
    case None => Outcome(notes, s.(awaiting := Idle), NotANumber, false)
    case Some(n) =>
      var index := n - 1;
      if 0 <= index < |notes| then
        Outcome(notes[..index] + notes[index + 1..], s.(awaiting := Idle), NoteDeleted(notes[index]), true)
      else Outcome(notes, s.(awaiting := Idle), BadNumber, false)
  }

  function Menu(notes: seq<string>, s: Session, text: string): (o: Outcome)
    ensures o.notes == notes && !o.saved
    ensures o.session.editIndex == s.editIndex
    ensures s.awaiting != EditContent ==> o.session.awaiting != EditContent
  {
    if text == AddButton then Outcome(notes, s.(awaiting := Add), AskNoteText, false)
    else if text == ListButton then
      Outcome(notes, s, if notes == [] then NoNotes else NotesList(ListHeader + Numbered(notes, 1)), false)
    else if text == EditButton then
      if notes == [] then Outcome(notes, s, NothingToEdit, false)
      else Outcome(notes, s.(awaiting := EditIndex), EditPrompt(EditHeader + Numbered(notes, 1)), false)
    else if text == DeleteButton then
      if notes == [] then Outcome(notes, s, NothingToDelete, false)
      else Outcome(notes, s.(awaiting := Delete), DeletePrompt(DeleteHeader + Numbered(notes, 1)), false)
    else Outcome(notes, s, UseButtons, false)
  }

  /**
    One message `text` from a user whose list is `notes` and whose session is
    `s`. A pending input takes priority over the buttons.
   */
  function Handle(notes: seq<string>, s: Session, text: string): (o: Outcome)
    requires SessionOk(notes, s)
    ensures SessionOk(o.notes, o.session)
    ensures s.awaiting != Idle && s.awaiting != EditIndex ==> o.session.awaiting == Idle
    ensures s.awaiting == EditIndex ==> o.session.awaiting == Idle || o.session.awaiting == EditContent
    ensures !o.saved ==> o.notes == notes
    ensures o.saved ==> s.awaiting == Add || s.awaiting == EditContent || s.awaiting == Delete
    ensures |notes| - 1 <= |o.notes| <= |notes| + 1
  {
    match s.awaiting
    case Add => AddNote(notes, s, text)
    case EditIndex => ChooseEdit(notes, s, text)
    case EditContent => Overwrite(notes, s, text)
    case Delete => DeleteAt(notes, s, text)
    case Idle => Menu(notes, s, text)
  }

  /** Awaiting a new note: a non-blank message is appended stripped; a blank one changes nothing. */
  lemma AddAppends(notes: seq<string>, s: Session, text: string)
    requires s.awaiting == Add
    ensures var o := Handle(notes, s, text);
      && o.session == s.(awaiting := Idle)
      && (IsBlank(text) ==> o.notes == notes && !o.saved && o.reply == EmptyNoteRejected)
      && (!IsBlank(text) ==>
            && |o.notes| == |notes| + 1 && o.notes[..|notes|] == notes && o.notes[|notes|] == Strip(text)
            && o.saved && o.reply == NoteAdded)
  {
  }

  /**
    Awaiting an edit target: the notes never change; a number k with
    1 <= k <= |notes| selects position k - 1, anything else ends the edit.
   */
  lemma ChooseEditSelects(notes: seq<string>, s: Session, text: string)
    requires s.awaiting == EditIndex
    ensures var o := Handle(notes, s, text);
      && o.notes == notes && !o.saved
      && (o.session.awaiting == EditContent <==>
            ParseInt(Strip(text)).Some? && 1 <= ParseInt(Strip(text)).value <= |notes|)
      && (o.session.awaiting == EditContent ==>
            o.session.editIndex == Some(ParseInt(Strip(text)).value - 1) && o.reply == AskNewText)
      && (o.session.awaiting != EditContent ==>
            o.session == s.(awaiting := Idle)
            && o.reply == (if ParseInt(Strip(text)).None? then NotANumber else BadNumber))
  {
  }

  /**
    Awaiting the new text: a non-blank message replaces exactly the chosen
    note; a blank one changes nothing. Either way the edit ends.
   */
  lemma OverwriteReplacesOne(notes: seq<string>, s: Session, text: string)
    requires s.awaiting == EditContent && SessionOk(notes, s)
    ensures var o := Handle(notes, s, text);
      var i := s.editIndex.value;
      && o.session == s.(awaiting := Idle)
      && |o.notes| == |notes|
      && (forall j :: 0 <= j < |notes| && j != i ==> o.notes[j] == notes[j])
      && (IsBlank(text) ==> o.notes == notes && !o.saved && o.reply == EmptyTextRejected)
      && (!IsBlank(text) ==> o.notes[i] == Strip(text) && o.saved && o.reply == NoteUpdated)
  {
  }

  /**
    Awaiting a position to delete: a number k with 1 <= k <= |notes| removes
    exactly note k - 1 and shifts the later ones down; anything else changes
    nothing. Either way the deletion ends.
   */
  lemma DeleteRemovesOne(notes: seq<string>, s: Session, text: string)
    requires s.awaiting == Delete
    ensures var o := Handle(notes, s, text);
      && o.session == s.(awaiting := Idle)
      && var p := ParseInt(Strip(text));
      && (p.None? ==> o.notes == notes && !o.saved && o.reply == NotANumber)
      && (p.Some? && !(1 <= p.value <= |notes|) ==> o.notes == notes && !o.saved && o.reply == BadNumber)
      && (p.Some? && 1 <= p.value <= |notes| ==>
            var k := p.value;
            && |o.notes| == |notes| - 1
            && (forall j :: 0 <= j < k - 1 ==> o.notes[j] == notes[j])
            && (forall j :: k - 1 <= j < |o.notes| ==> o.notes[j] == notes[j + 1])
            && o.saved && o.reply == NoteDeleted(notes[k - 1]))
  {
  }

  /** With nothing pending, the buttons open the operations; an edit or delete needs a note to act on. */
  lemma MenuDispatch(notes: seq<string>, s: Session, text: string)
    requires s.awaiting == Idle
    ensures var o := Handle(notes, s, text);
      && o.notes == notes && !o.saved
      && (text == AddButton ==> o.session == s.(awaiting := Add) && o.reply == AskNoteText)
      && (text == ListButton ==>
            o.session == s && o.reply == (if notes == [] then NoNotes else NotesList(ListHeader + Numbered(notes, 1))))
      && (text == EditButton ==>
            if notes == [] then o.session == s && o.reply == NothingToEdit
            else o.session == s.(awaiting := EditIndex) && o.reply == EditPrompt(EditHeader + Numbered(notes, 1)))
      && (text == DeleteButton ==>
            if notes == [] then o.session == s && o.reply == NothingToDelete
            else o.session == s.(awaiting := Delete) && o.reply == DeletePrompt(DeleteHeader + Numbered(notes, 1)))
      && (text != AddButton && text != ListButton && text != EditButton && text != DeleteButton ==>
            o.session == s && o.reply == UseButtons)
  {
  }

  /** The button texts are kept intact by stripping. */
  lemma ButtonsAreStripped()
    ensures Strip(AddButton) == AddButton && Strip(ListButton) == ListButton
    ensures Strip(EditButton) == EditButton && Strip(DeleteButton) == DeleteButton
  {
    AddButtonStripped();
    ListButtonStripped();
    EditButtonStripped();
    DeleteButtonStripped();
  }

  // One lemma per button keeps each proof about a single literal.

  lemma AddButtonStripped()
    ensures Strip(AddButton) == AddButton
  {
    StripFixed(AddButton);
  }

  lemma ListButtonStripped()
    ensures Strip(ListButton) == ListButton
  {
    StripFixed(ListButton);
  }

  lemma EditButtonStripped()
    ensures Strip(EditButton) == EditButton
  {
    StripFixed(EditButton);
  }

  lemma DeleteButtonStripped()
    ensures Strip(DeleteButton) == DeleteButton
  {
    StripFixed(DeleteButton);
  }

  /** The four buttons have different texts, so the menu can tell them apart. */
  lemma ButtonsDistinct()
    ensures AddButton != ListButton && AddButton != EditButton && AddButton != DeleteButton
    ensures ListButton != EditButton && ListButton != DeleteButton && EditButton != DeleteButton
  {
  }

  /** While a note is awaited, a button text is stored as the note, not obeyed as a command. */
  lemma PendingInputBeatsButtons(notes: seq<string>, s: Session, text: string)
    requires s.awaiting == Add
    requires text == AddButton || text == ListButton || text == EditButton || text == DeleteButton
    ensures Handle(notes, s, text).notes == notes + [text]
    ensures Handle(notes, s, text).session.awaiting == Idle
  {
    ButtonsAreStripped();
  }

  /** Pressing "edit" or "delete" with at least one note shows the numbered list and waits for a position. */
  lemma OpenWithNotes(notes: seq<string>, s: Session)
    requires s.awaiting == Idle && notes != []
    ensures Handle(notes, s, EditButton) ==
              Outcome(notes, s.(awaiting := EditIndex), EditPrompt(EditHeader + Numbered(notes, 1)), false)
    ensures Handle(notes, s, DeleteButton) ==
              Outcome(notes, s.(awaiting := Delete), DeletePrompt(DeleteHeader + Numbered(notes, 1)), false)
  {
    ButtonsDistinct();
  }

  /** Typing a position in range while an edit target is awaited selects exactly that note. */
  lemma SelectPosition(notes: seq<string>, s: Session, text: string, k: int)
    requires s.awaiting == EditIndex && ParseInt(Strip(text)) == Some(k) && 1 <= k <= |notes|
    ensures Handle(notes, s, text) == Outcome(notes, Session(EditContent, Some(k - 1)), AskNewText, false)
  {
  }

  /** Typing a position in range while a deletion is awaited removes exactly that note. */
  lemma DeletePosition(notes: seq<string>, s: Session, text: string, k: int)
    requires s.awaiting == Delete && ParseInt(Strip(text)) == Some(k) && 1 <= k <= |notes|
    ensures Handle(notes, s, text) ==
              Outcome(notes[..k - 1] + notes[k..], s.(awaiting := Idle), NoteDeleted(notes[k - 1]), true)
  {
  }

  /**
    The whole edit conversation: pressing "edit", typing the number shown in
    front of note k (`Rendering.NumberedShowsEach`), then a non-blank text
    replaces note k and nothing else.
   */
  lemma EditByShownNumber(notes: seq<string>, s: Session, k: nat, text: string)
    requires s.awaiting == Idle && 1 <= k <= |notes| && !IsBlank(text)
    ensures var o1 := Handle(notes, s, EditButton);
      && o1.session.awaiting == EditIndex
      && o1.reply == EditPrompt(EditHeader + Numbered(notes, 1))
      && var o2 := Handle(o1.notes, o1.session, NatToString(k));
      && o2.session == Session(EditContent, Some(k - 1))
      && var o3 := Handle(o2.notes, o2.session, text);
      && o3.notes == notes[k - 1 := Strip(text)]
      && o3.session.awaiting == Idle
  {
    OpenWithNotes(notes, s);
    var o1 := Handle(notes, s, EditButton);
    var typed := NatToString(k);
    assert ParseInt(Strip(typed)) == Some(k) by {
      ParseNatToString(k);
    }
    SelectPosition(notes, o1.session, typed, k);
    var o2 := Handle(o1.notes, o1.session, typed);
    assert Handle(o2.notes, o2.session, text) == Overwrite(notes, o2.session, text);
  }

  /** The whole delete conversation: typing the number shown in front of note k removes note k. */
  lemma DeleteByShownNumber(notes: seq<string>, s: Session, k: nat)
    requires s.awaiting == Idle && 1 <= k <= |notes|
    ensures var o1 := Handle(notes, s, DeleteButton);
      && o1.session.awaiting == Delete
      && o1.reply == DeletePrompt(DeleteHeader + Numbered(notes, 1))
      && var o2 := Handle(o1.notes, o1.session, NatToString(k));
      && o2.notes == notes[..k - 1] + notes[k..]
      && o2.reply == NoteDeleted(notes[k - 1])
      && o2.session.awaiting == Idle
  {
    OpenWithNotes(notes, s);
    var o1 := Handle(notes, s, DeleteButton);
    var typed := NatToString(k);
    assert ParseInt(Strip(typed)) == Some(k) by {
      ParseNatToString(k);
    }
    DeletePosition(notes, o1.session, typed, k);
  }

  /** An example: deleting the first of ["buy milk", "call mom"]. */
  lemma DeleteExample()
    ensures var o1 := Handle(["buy milk", "call mom"], Initial, DeleteButton);
      && o1.reply == DeletePrompt(DeleteHeader + "1. buy milk\n2. call mom\n")
      && var o2 := Handle(o1.notes, o1.session, "1");
      && o2.notes == ["call mom"] && o2.reply == NoteDeleted("buy milk") && o2.session == Initial
  {
    ButtonsDistinct();
    TwoNotesExample();
    ParseNatToString(1);
    assert NatToString(1) == "1";
  }

  // The bot as a whole: every user's list and session.

  /** `notes.get(u, [])`: a user without an entry has no notes. */
  function NotesOf(notes: map<int, seq<string>>, u: int): seq<string> {
    if u in notes then notes[u] else []
  }

  /** A user who never wrote has the initial session. */
  function SessionOf(sessions: map<int, Session>, u: int): Session {
    if u in sessions then sessions[u] else Initial
  }

  predicate AllSessionsOk(notes: map<int, seq<string>>, sessions: map<int, Session>) {
    forall u :: u in sessions ==> SessionOk(NotesOf(notes, u), sessions[u])
  }

  /** The notes store, the sessions and the reply after one message. */
  datatype Delivery = Delivery(notes: map<int, seq<string>>, sessions: map<int, Session>, reply: Reply)

  /**
    A message `text` from user `u`. Only `u`'s list and session can change;
    the store gains an entry for `u` only when its list is written back.
   */
  function Receive(notes: map<int, seq<string>>, sessions: map<int, Session>, u: int, text: string): (d: Delivery)
    requires AllSessionsOk(notes, sessions)
    ensures AllSessionsOk(d.notes, d.sessions)
    ensures d.notes - {u} == notes - {u}
    ensures d.sessions - {u} == sessions - {u}
    ensures u in d.sessions
    ensures (u in d.notes) <==> (u in notes || Handle(NotesOf(notes, u), SessionOf(sessions, u), text).saved)
    ensures NotesOf(d.notes, u) == Handle(NotesOf(notes, u), SessionOf(sessions, u), text).notes
    ensures d.sessions[u] == Handle(NotesOf(notes, u), SessionOf(sessions, u), text).session
    ensures d.reply == Handle(NotesOf(notes, u), SessionOf(sessions, u), text).reply
  {
    var o := Handle(NotesOf(notes, u), SessionOf(sessions, u), text);
    var notes' := if o.saved then notes[u := o.notes] else notes;
    var sessions' := sessions[u := o.session];
    assert forall v :: v != u ==> NotesOf(notes', v) == NotesOf(notes, v);
    Delivery(notes', sessions', o.reply)
  }

  /** Messages from other users never change a user's notes or session. */
  lemma {:induction false} OthersUntouched(notes: map<int, seq<string>>, sessions: map<int, Session>,
                                          senders: seq<int>, texts: seq<string>, v: int)
    requires AllSessionsOk(notes, sessions)
    requires |senders| == |texts|
    requires forall i :: 0 <= i < |senders| ==> senders[i] != v
    ensures var r := ReceiveAll(notes, sessions, senders, texts);
      NotesOf(r.0, v) == NotesOf(notes, v) && SessionOf(r.1, v) == SessionOf(sessions, v)
    decreases |senders|
  {
    if senders != [] {
      var d := Receive(notes, sessions, senders[0], texts[0]);
      assert NotesOf(d.notes, v) == NotesOf(notes, v);
      OthersUntouched(d.notes, d.sessions, senders[1..], texts[1..], v);
    }
  }

  /** The notes store and the sessions after a run of messages, `texts[i]` sent by `senders[i]`, in order. */
  function ReceiveAll(notes: map<int, seq<string>>, sessions: map<int, Session>,
                      senders: seq<int>, texts: seq<string>): (r: (map<int, seq<string>>, map<int, Session>))
    requires AllSessionsOk(notes, sessions)
    requires |senders| == |texts|
    ensures AllSessionsOk(r.0, r.1)
    decreases |senders|
  {
    if senders == [] then (notes, sessions)
    else
      var d := Receive(notes, sessions, senders[0], texts[0]);
      ReceiveAll(d.notes, d.sessions, senders[1..], texts[1..])
  }
}
