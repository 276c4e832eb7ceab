/** The date-section card of components/TodoSection.tsx: its completion
    summary and border colour, its expansion state and the day-note editor. */
module TodoSection {
  import opened Types
  import opened Seqs
  import opened TodoItem
  import TodoList

  // ---- summary ----

  /** The card border: green, red, or the plain navy border. */
  datatype Border = GreenBorder | RedBorder | PlainBorder

  datatype Summary = Summary(completed: nat, total: nat, allDone: bool, border: Border)

  /** The counts, the all-done test and the border of a section; `None` for a
      section without tasks, which renders nothing. */
  function SectionSummary(g: TodoGroup): (r: Option<Summary>)
    ensures r.None? <==> |g.todos| == 0
    ensures r.Some? ==> r.value.total == |g.todos| && r.value.completed <= r.value.total
    ensures r.Some? ==> r.value.completed == Count(g.todos, IsDone)
    ensures r.Some? ==> (r.value.allDone <==> forall i | 0 <= i < |g.todos| :: g.todos[i].status == Completed)
    ensures r.Some? ==> (r.value.border == GreenBorder <==> g.isPast && r.value.allDone)
    ensures r.Some? ==> (r.value.border == RedBorder <==> g.isPast && !r.value.allDone)
    ensures r.Some? ==> (r.value.border == PlainBorder <==> !g.isPast)
  {
    if |g.todos| == 0 then None
    else
      var completed := Count(g.todos, IsDone);
      var total := |g.todos|;
      CountAll(g.todos, IsDone);
      var allDone := completed == total;
      var border := if g.isPast then (if allDone then GreenBorder else RedBorder) else PlainBorder;
      Some(Summary(completed, total, allDone, border))
  }

  /** On a past section the border agrees with the rows: green exactly when
      every row shows done, red exactly when some row shows missed. */
  lemma PastBorderMatchesRows(g: TodoGroup)
    requires g.isPast && |g.todos| > 0
    ensures SectionSummary(g).value.border == GreenBorder <==>
      forall i | 0 <= i < |g.todos| :: ItemLook(g.isPast, g.todos[i].status) == PastDone
    ensures SectionSummary(g).value.border == RedBorder <==>
      exists i | 0 <= i < |g.todos| :: ItemLook(g.isPast, g.todos[i].status) == Missed
  {
  }

  /** Grouping never produces a section that renders nothing. */
  lemma GroupedSectionsHaveSummaries(todos: seq<Todo>, query: string, today: string, yesterday: string,
                                     meta: Metadata, g: int)
    requires 0 <= g < |TodoList.GroupedTodos(todos, query, today, yesterday, meta)|
    ensures SectionSummary(TodoList.GroupedTodos(todos, query, today, yesterday, meta)[g]).Some?
  {
    TodoList.SectionMembers(todos, query, today, yesterday, meta, g);
  }

  // ---- card state ----

  /** Whether the card is open, and the contents of its day-note box. */
  datatype CardState = CardState(expanded: bool, localNote: string)

  /** Mounting a card: open only for today's section; the note box holds the
      day note or nothing. */
  function InitialCard(g: TodoGroup): (c: CardState)
    ensures c.expanded <==> g.isToday
    ensures g.note.Some? ==> c.localNote == g.note.value
    ensures g.note.None? ==> c.localNote == ""
  {
    CardState(g.isToday, if g.note.Some? then g.note.value else "")
  }

  /** A click on the header opens or closes the card. */
  function ToggleExpanded(c: CardState): (r: CardState)
    ensures r.expanded != c.expanded && r.localNote == c.localNote
  {
    c.(expanded := !c.expanded)
  }

  /** `handleNoteBlur`: the note box's contents, passed to `onUpdateNote` only
      when they differ from the stored day note (a missing note differs from
      every string). */
  function NoteBlur(localNote: string, dayNote: Option<string>): (r: Option<string>)
    ensures r.Some? <==> dayNote != Some(localNote)
    ensures r.Some? ==> r.value == localNote
  {
    if dayNote != Some(localNote) then Some(localNote) else None
  }

  /** Leaving the note box of a freshly mounted card writes the empty note
      exactly when the day has no note yet. */
  lemma BlurAfterMount(g: TodoGroup)
    ensures NoteBlur(InitialCard(g).localNote, g.note).Some? <==> g.note.None?
    ensures g.note.None? ==> NoteBlur(InitialCard(g).localNote, g.note) == Some("")
  {
  }

  /** Once the emitted note has been stored, a second blur emits nothing, and
      the day keeps its rating. */
  lemma BlurIsIdempotent(meta: Metadata, date: string, localNote: string)
    requires NoteBlur(localNote, DayOf(meta, date).note).Some?
    ensures var after := TodoList.UpdateDayNote(meta, date, localNote);
      && NoteBlur(localNote, DayOf(after, date).note).None?
      && DayOf(after, date).rating == DayOf(meta, date).rating
  {
  }
}
