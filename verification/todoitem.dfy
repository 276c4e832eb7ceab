/** The per-task controls of components/TodoItem.tsx: the status button, the
    priority button, the inline text editor and the visual state of a row. */
module TodoItem {
  import opened Types
  import opened Strings
  import TodoList

  // ---- status button ----

  /** `handleCycleStatus`: on a past date the button toggles between done and
      not done; otherwise it steps PENDING, IN_PROGRESS, COMPLETED, PENDING. */
  function CycleStatus(status: TaskStatus, isPast: bool): (r: TaskStatus)
    ensures isPast ==> r != InProgress
    ensures isPast ==> (r == Completed <==> status != Completed)
    ensures r != status
  {
    if isPast then
      if status == Completed then Pending else Completed
    else
      match status
      case Pending => InProgress
      case InProgress => Completed
      case Completed => Pending
  }

  /** Position of a status on the cycle of a current or future date. */
  function StatusStep(s: TaskStatus): nat {
    match s
    case Pending => 0
    case InProgress => 1
    case Completed => 2
  }

  /** On a current or future date one click moves one step round a cycle of
      three, so three clicks restore the status and every status is reached. */
  lemma CycleStatusIsRotation(s: TaskStatus)
    ensures StatusStep(CycleStatus(s, false)) == (StatusStep(s) + 1) % 3
    ensures CycleStatus(CycleStatus(CycleStatus(s, false), false), false) == s
    ensures CycleStatus(CycleStatus(s, false), false) != s
  {
  }

  /** On a past date two clicks restore a task that was done or pending; an
      in-progress task comes back as pending. */
  lemma PastCycleToggles(s: TaskStatus)
    ensures s != InProgress ==> CycleStatus(CycleStatus(s, true), true) == s
    ensures s == InProgress ==> CycleStatus(CycleStatus(s, true), true) == Pending
  {
  }

  // ---- priority button ----

  /** `handleCyclePriority`: LOW, MEDIUM, HIGH, LOW. */
  function CyclePriority(p: Priority): (r: Priority)
    ensures r != p
  {
    match p
    case Low => Medium
    case Medium => High
    case High => Low
  }

  /** One click raises the section weight by one, wrapping from the top to the
      bottom; three clicks restore the priority. */
  lemma CyclePriorityIsRotation(p: Priority)
    ensures TodoList.Weight(CyclePriority(p)) == TodoList.Weight(p) % 3 + 1
    ensures CyclePriority(CyclePriority(CyclePriority(p))) == p
  {
  }

  /** `getPriorityLabel`. */
  function PriorityLabel(p: Priority): (r: string)
    ensures |r| <= 4
  {
    match p
    case High => "HIGH"
    case Medium => "MED"
    case Low => "LOW"
  }

  /** The short label abbreviates the stored name and tells priorities apart. */
  lemma PriorityLabelAbbreviates(p: Priority, q: Priority)
    ensures PriorityLabel(p) <= PriorityName(p)
    ensures PriorityLabel(p) == PriorityLabel(q) <==> p == q
  {
  }

  // ---- inline editor ----

  /** The editor of one row: whether the input is shown, and its contents. */
  datatype Editor = Editor(editing: bool, buffer: string)

  /** Mounting a row: not editing, the buffer holds the task text. */
  function InitialEditor(t: Todo): (e: Editor)
    ensures !e.editing && e.buffer == t.text
  {
    Editor(false, t.text)
  }

  /** A click on the text opens the editor. */
  function StartEdit(e: Editor): (r: Editor)
    ensures r.editing && r.buffer == e.buffer
  {
    e.(editing := true)
  }

  /** Typing replaces the buffer. */
  function TypeText(e: Editor, s: string): (r: Editor)
    ensures r.editing == e.editing && r.buffer == s
  {
    e.(buffer := s)
  }

  /** The editor after an event, and the new text passed to `onEdit`, if any. */
  datatype EditOutcome = EditOutcome(editor: Editor, emitted: Option<string>)

  /** `handleSaveEdit` (also run on blur): a non-blank buffer is emitted trimmed;
      a blank one is dropped and the buffer reverts to the task text. */
  function SaveEdit(e: Editor, original: string): (r: EditOutcome)
    ensures !r.editor.editing
    ensures r.emitted.None? <==> IsBlank(e.buffer)
    ensures r.emitted.Some? ==> r.emitted.value == Trim(e.buffer) && !IsBlank(r.emitted.value)
    ensures r.emitted.Some? ==> r.editor.buffer == e.buffer
    ensures r.emitted.None? ==> r.editor.buffer == original
  {
    if IsBlank(e.buffer) then EditOutcome(Editor(false, original), None)
    else
      TrimIdempotent(e.buffer);
      EditOutcome(e.(editing := false), Some(Trim(e.buffer)))
  }

  datatype Key = Enter | Escape | OtherKey

  /** `handleKeyDown`: Enter saves, Escape reverts and closes, other keys do
      nothing here. */
  function KeyDown(e: Editor, original: string, key: Key): (r: EditOutcome)
    ensures key == Enter ==> r == SaveEdit(e, original)
    ensures key == Escape ==> r.editor == Editor(false, original) && r.emitted.None?
    ensures key == OtherKey ==> r.editor == e && r.emitted.None?
  {
    match key
    case Enter => SaveEdit(e, original)
    case Escape => EditOutcome(Editor(false, original), None)
    case OtherKey => EditOutcome(e, None)
  }

  /** Applying what an edit emits: the list changes exactly as `handleEditTodo`
      says, and saving the stored text again would emit that same text, so
      an emitted edit is a fixed point. */
  lemma EmittedEditIsStable(todos: seq<Todo>, id: string, e: Editor, original: string)
    requires SaveEdit(e, original).emitted.Some?
    ensures var text := SaveEdit(e, original).emitted.value;
      && SaveEdit(Editor(true, text), original).emitted == Some(text)
      && forall i | 0 <= i < |todos| && todos[i].id == id ::
           TodoList.SetText(todos, id, text)[i].text == Trim(e.buffer)
  {
    TrimIdempotent(e.buffer);
  }

  /** Whatever was typed, Escape never changes the list: it emits nothing and
      the next save starts from the stored text. */
  lemma EscapeDiscards(e: Editor, original: string, typed: string)
    requires !IsBlank(original)
    ensures var esc := KeyDown(TypeText(StartEdit(e), typed), original, Escape);
      && esc.emitted.None?
      && esc.editor == Editor(false, original)
      && SaveEdit(StartEdit(esc.editor), original).emitted == Some(Trim(original))
  {
  }

  // ---- visual state ----

  /** The look of a row: done on a past date, missed, done, in progress,
      waiting. */
  datatype Look = PastDone | Missed | Done | Doing | Waiting

  /** The visual logic of the row: a past row is done or missed, a current or
      future row follows its status. */
  function ItemLook(isPast: bool, status: TaskStatus): (r: Look)
    ensures isPast <==> r in {PastDone, Missed}
    ensures r in {PastDone, Done} <==> status == Completed
  {
    if isPast then
      if status == Completed then PastDone else Missed
    else
      match status
      case Completed => Done
      case InProgress => Doing
      case Pending => Waiting
  }

  /** The status button on a past row flips between missed and done; on a
      current row it passes through each of the three looks in turn. */
  lemma CycleMovesLook(s: TaskStatus)
    ensures ItemLook(true, s) == Missed <==> ItemLook(true, CycleStatus(s, true)) == PastDone
    ensures ItemLook(false, CycleStatus(s, false)) ==
      match ItemLook(false, s)
      case Waiting => Doing
      case Doing => Done
      case _ => Waiting
  {
  }
}
