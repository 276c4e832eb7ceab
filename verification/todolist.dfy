/** The task-list and day-metadata state of the application and every change
    the event handlers of App.tsx make to it: user creation, adding, editing,
    status, priority and note changes, deletion, day rating and day notes, the
    load-time migration of legacy records, and the grouping of tasks into date
    sections. Values taken from the environment (a fresh id, the current time,
    today's date) are parameters. */
module TodoList {
  import opened Types
  import opened Strings
  import opened Seqs
  import opened Sorting
  import opened DateUtils

  // ---- users ----

  /** The list of known user names and the logged-in user. */
  datatype Session = Session(users: seq<string>, current: string)

  /** `handleCreateUser`: a blank name is ignored; otherwise the trimmed name is
      appended to the list unless present and becomes the current user. */
  function CreateUser(users: seq<string>, input: string): (r: Option<Session>)
    ensures r.None? <==> IsBlank(input)
    ensures r.Some? ==> r.value.current == Trim(input) && r.value.current in r.value.users
    ensures r.Some? ==> |users| <= |r.value.users| <= |users| + 1 && r.value.users[..|users|] == users
    ensures r.Some? && Trim(input) in users ==> r.value.users == users
    ensures r.Some? && Distinct(users) ==> Distinct(r.value.users)
  {
    var name := Trim(input);
    if name == "" then None
    else if name in users then Some(Session(users, name))
    else Some(Session(users + [name], name))
  }

  // ---- adding ----

  predicate UniqueIds(todos: seq<Todo>) {
    forall i, j | 0 <= i < j < |todos| :: todos[i].id != todos[j].id
  }

  predicate FreshId(todos: seq<Todo>, id: string) {
    forall i | 0 <= i < |todos| :: todos[i].id != id
  }

  /** `handleAddTodo`. `freshId` and `now` stand for `crypto.randomUUID()` and
      `Date.now()`; an empty `selectedDate` falls back to today. */
  function AddTodo(todos: seq<Todo>, input: string, priority: Priority, selectedDate: string,
                   today: string, freshId: string, now: int): (r: seq<Todo>)
    ensures IsBlank(input) ==> r == todos
    ensures !IsBlank(input) ==> |r| == |todos| + 1 && r[1..] == todos
    ensures !IsBlank(input) ==>
      && r[0].id == freshId
      && r[0].text == Trim(input) && !IsBlank(r[0].text)
      && r[0].status == Pending
      && r[0].priority == priority
      && r[0].note == ""
      && r[0].createdAt == now
      && r[0].isCompleted == None
      && r[0].dateString == (if selectedDate == "" then today else selectedDate)
  {
    if IsBlank(input) then todos
    else
      TrimIdempotent(input);
      var date := if selectedDate == "" then today else selectedDate;
      [Todo(freshId, Trim(input), Pending, priority, None, now, date, "")] + todos
  }

  /** With a fresh id, adding keeps the ids unique. */
  lemma AddKeepsIdsUnique(todos: seq<Todo>, input: string, priority: Priority, selectedDate: string,
                          today: string, freshId: string, now: int)
    requires UniqueIds(todos) && FreshId(todos, freshId)
    ensures UniqueIds(AddTodo(todos, input, priority, selectedDate, today, freshId, now))
  {
    var r := AddTodo(todos, input, priority, selectedDate, today, freshId, now);
    if !IsBlank(input) {
      forall i, j | 0 <= i < j < |r|
        ensures r[i].id != r[j].id
      {
        assert r[j] == todos[j - 1];
        if i > 0 {
          assert r[i] == todos[i - 1];
        }
      }
    }
  }

  /** Deleting the task just added restores the list. */
  lemma DeleteUndoesAdd(todos: seq<Todo>, input: string, priority: Priority, selectedDate: string,
                        today: string, freshId: string, now: int)
    requires FreshId(todos, freshId)
    ensures DeleteTodo(AddTodo(todos, input, priority, selectedDate, today, freshId, now), freshId) == todos
  {
    FilterAll(todos, (t: Todo) => t.id != freshId);
    var r := AddTodo(todos, input, priority, selectedDate, today, freshId, now);
    if !IsBlank(input) {
      assert r == [r[0]] + todos;
      FilterAppend([r[0]], todos, (t: Todo) => t.id != freshId);
    }
  }

  // ---- per-task changes ----

  /** Applies `f` to the tasks whose id is `id`. */
  function UpdateWhere(todos: seq<Todo>, id: string, f: Todo -> Todo): (r: seq<Todo>)
    ensures |r| == |todos|
    ensures forall i | 0 <= i < |todos| :: r[i] == if todos[i].id == id then f(todos[i]) else todos[i]
  {
    seq(|todos|, i requires 0 <= i < |todos| => if todos[i].id == id then f(todos[i]) else todos[i])
  }

  /** `handleStatusChange`. */
  function SetStatus(todos: seq<Todo>, id: string, status: TaskStatus): (r: seq<Todo>)
    ensures |r| == |todos|
    ensures forall i | 0 <= i < |r| :: r[i].id == todos[i].id
    ensures forall i | 0 <= i < |r| && todos[i].id != id :: r[i] == todos[i]
    ensures forall i | 0 <= i < |r| && todos[i].id == id :: r[i] == todos[i].(status := status)
  {
    UpdateWhere(todos, id, (t: Todo) => t.(status := status))
  }

  /** `handlePriorityChange`. */
  function SetPriority(todos: seq<Todo>, id: string, priority: Priority): (r: seq<Todo>)
    ensures |r| == |todos|
    ensures forall i | 0 <= i < |r| :: r[i].id == todos[i].id
    ensures forall i | 0 <= i < |r| && todos[i].id != id :: r[i] == todos[i]
    ensures forall i | 0 <= i < |r| && todos[i].id == id :: r[i] == todos[i].(priority := priority)
  {
    UpdateWhere(todos, id, (t: Todo) => t.(priority := priority))
  }

  /** `handleEditTodo`. */
  function SetText(todos: seq<Todo>, id: string, text: string): (r: seq<Todo>)
    ensures |r| == |todos|
    ensures forall i | 0 <= i < |r| :: r[i].id == todos[i].id
    ensures forall i | 0 <= i < |r| && todos[i].id != id :: r[i] == todos[i]
    ensures forall i | 0 <= i < |r| && todos[i].id == id :: r[i] == todos[i].(text := text)
  {
    UpdateWhere(todos, id, (t: Todo) => t.(text := text))
  }

  /** `handleSaveTaskNote`. */
  function SetNote(todos: seq<Todo>, id: string, note: string): (r: seq<Todo>)
    ensures |r| == |todos|
    ensures forall i | 0 <= i < |r| :: r[i].id == todos[i].id
    ensures forall i | 0 <= i < |r| && todos[i].id != id :: r[i] == todos[i]
    ensures forall i | 0 <= i < |r| && todos[i].id == id :: r[i] == todos[i].(note := note)
  {
    UpdateWhere(todos, id, (t: Todo) => t.(note := note))
  }

  /** The last of two changes to one field wins. */
  lemma LastChangeWins(todos: seq<Todo>, id: string, s1: TaskStatus, s2: TaskStatus,
                       p1: Priority, p2: Priority, x1: string, x2: string, n1: string, n2: string)
    ensures SetStatus(SetStatus(todos, id, s1), id, s2) == SetStatus(todos, id, s2)
    ensures SetPriority(SetPriority(todos, id, p1), id, p2) == SetPriority(todos, id, p2)
    ensures SetText(SetText(todos, id, x1), id, x2) == SetText(todos, id, x2)
    ensures SetNote(SetNote(todos, id, n1), id, n2) == SetNote(todos, id, n2)
  {
  }

  /** A change to a task that is then deleted leaves no trace. */
  lemma {:induction false} DeleteAfterUpdate(todos: seq<Todo>, id: string, f: Todo -> Todo)
    requires forall t :: f(t).id == t.id
    ensures DeleteTodo(UpdateWhere(todos, id, f), id) == DeleteTodo(todos, id)
  {
    if |todos| > 0 {
      assert UpdateWhere(todos, id, f)[1..] == UpdateWhere(todos[1..], id, f);
      DeleteAfterUpdate(todos[1..], id, f);
    }
  }

  lemma DeleteAbsorbsChanges(todos: seq<Todo>, id: string, s: TaskStatus, p: Priority, text: string, note: string)
    ensures DeleteTodo(SetStatus(todos, id, s), id) == DeleteTodo(todos, id)
    ensures DeleteTodo(SetPriority(todos, id, p), id) == DeleteTodo(todos, id)
    ensures DeleteTodo(SetText(todos, id, text), id) == DeleteTodo(todos, id)
    ensures DeleteTodo(SetNote(todos, id, note), id) == DeleteTodo(todos, id)
  {
    DeleteAfterUpdate(todos, id, (t: Todo) => t.(status := s));
    DeleteAfterUpdate(todos, id, (t: Todo) => t.(priority := p));
    DeleteAfterUpdate(todos, id, (t: Todo) => t.(text := text));
    DeleteAfterUpdate(todos, id, (t: Todo) => t.(note := note));
  }

  // ---- deletion ----

  /** `handleDeleteTodo`: every task with the id goes, every other task stays as
      often as it was there. */
  function DeleteTodo(todos: seq<Todo>, id: string): (r: seq<Todo>)
    ensures forall t | t in r :: t.id != id && t in todos
    ensures forall t: Todo | t.id != id :: multiset(r)[t] == multiset(todos)[t]
    ensures |r| == |todos| - Count(todos, (t: Todo) => t.id == id)
  {
    var r := Filter(todos, (t: Todo) => t.id != id);
    forall t: Todo | t.id != id
      ensures multiset(r)[t] == multiset(todos)[t]
    {
      FilterMultiplicity(todos, (t: Todo) => t.id != id, t);
    }
    FilterPartition(todos, (t: Todo) => t.id != id, (t: Todo) => t.id == id);
    r
  }

  /** Deletion keeps the remaining tasks in their relative order. */
  lemma DeleteKeepsOrder(a: seq<Todo>, b: seq<Todo>, id: string)
    ensures DeleteTodo(a + b, id) == DeleteTodo(a, id) + DeleteTodo(b, id)
  {
    FilterAppend(a, b, (t: Todo) => t.id != id);
  }

  // ---- day metadata ----

  /** `handleRateDay`: the same rating again clears it, another replaces it. */
  function RateDay(meta: Metadata, date: string, rating: DailyRating): (r: Metadata)
    ensures r.Keys == meta.Keys + {date}
    ensures forall d | d in meta && d != date :: r[d] == meta[d]
    ensures r[date].note == DayOf(meta, date).note
    ensures DayOf(meta, date).rating == Some(rating) ==> r[date].rating == None
    ensures DayOf(meta, date).rating != Some(rating) ==> r[date].rating == Some(rating)
  {
    var current := DayOf(meta, date);
    var newRating := if current.rating == Some(rating) then None else Some(rating);
    meta[date := current.(rating := newRating)]
  }

  /** Rating a day twice with its current rating, or an unrated day twice with
      any rating, restores it. */
  lemma RateDayTwice(meta: Metadata, date: string, rating: DailyRating)
    requires DayOf(meta, date).rating == None || DayOf(meta, date).rating == Some(rating)
    ensures RateDay(RateDay(meta, date, rating), date, rating)[date] == DayOf(meta, date)
    ensures date in meta ==> RateDay(RateDay(meta, date, rating), date, rating) == meta
  {
    var once := RateDay(meta, date, rating);
    assert DayOf(once, date) == once[date];
    var d := DayOf(meta, date);
    assert RateDay(once, date, rating)[date] == DayMetadata(d.rating, d.note);
  }

  /** `handleUpdateNote`: the note is set, the rating kept. */
  function UpdateDayNote(meta: Metadata, date: string, note: string): (r: Metadata)
    ensures r.Keys == meta.Keys + {date}
    ensures forall d | d in meta && d != date :: r[d] == meta[d]
    ensures r[date].rating == DayOf(meta, date).rating
    ensures r[date].note == Some(note)
  {
    meta[date := DayOf(meta, date).(note := Some(note))]
  }

  /** Rating and note are independent: the two updates commute. */
  lemma RatingAndNoteCommute(meta: Metadata, date: string, rating: DailyRating, note: string)
    ensures RateDay(UpdateDayNote(meta, date, note), date, rating)
         == UpdateDayNote(RateDay(meta, date, rating), date, note)
  {
  }

  // ---- load-time migration ----

  /** The migration applied to every loaded record: a missing status becomes
      COMPLETED when the legacy flag is set and PENDING otherwise, a missing
      priority becomes LOW and a missing note the empty string. */
  function Migrate(raw: RawTodo): (t: Todo)
    ensures t.id == raw.id && t.text == raw.text && t.createdAt == raw.createdAt
    ensures t.dateString == raw.dateString && t.isCompleted == raw.isCompleted
    ensures raw.status.Some? ==> t.status == raw.status.value
    ensures raw.status.None? ==> t.status != InProgress && (t.status == Completed <==> raw.isCompleted == Some(true))
    ensures raw.priority.Some? ==> t.priority == raw.priority.value
    ensures raw.priority.None? ==> t.priority == Low
    ensures raw.note.Some? ==> t.note == raw.note.value
    ensures raw.note.None? ==> t.note == ""
  {
    var status := match raw.status
      case Some(s) => s
      case None => if raw.isCompleted == Some(true) then Completed else Pending;
    var priority := match raw.priority
      case Some(p) => p
      case None => Low;
    var note := match raw.note
      case Some(n) => n
      case None => "";
    Todo(raw.id, raw.text, status, priority, raw.isCompleted, raw.createdAt, raw.dateString, note)
  }

  function MigrateAll(raws: seq<RawTodo>): (r: seq<Todo>)
    ensures |r| == |raws|
    ensures forall i | 0 <= i < |raws| :: r[i] == Migrate(raws[i])
  {
    seq(|raws|, i requires 0 <= i < |raws| => Migrate(raws[i]))
  }

  /** Migration undoes the persisted form: a saved list loads back unchanged. */
  lemma MigrateEmbedAll(todos: seq<Todo>)
    ensures MigrateAll(EmbedAll(todos)) == todos
  {
  }

  /** Migration is idempotent through a save. */
  lemma MigrateStable(raws: seq<RawTodo>)
    ensures MigrateAll(EmbedAll(MigrateAll(raws))) == MigrateAll(raws)
  {
    MigrateEmbedAll(MigrateAll(raws));
  }

  // ---- grouping into date sections ----

  /** The search filter: an empty query keeps everything, otherwise the text must
      contain the query, ignoring case. */
  predicate MatchesQuery(t: Todo, query: string) {
    query == "" || Contains(Lower(t.text), Lower(query))
  }

  /** `todo.dateString || today`. */
  function GroupKey(t: Todo, today: string): string {
    if t.dateString == "" then today else t.dateString
  }

  function Visible(todos: seq<Todo>, query: string): (r: seq<Todo>)
    ensures forall t | t in r :: t in todos && MatchesQuery(t, query)
    ensures forall t | t in todos && MatchesQuery(t, query) :: t in r
  {
    Filter(todos, (t: Todo) => MatchesQuery(t, query))
  }

  /** Weight of a priority in the section order. */
  function Weight(p: Priority): int {
    match p
    case High => 3
    case Medium => 2
    case Low => 1
  }

  /** The in-section comparator: higher priority first, then newer first. */
  predicate ItemBefore(a: Todo, b: Todo) {
    Weight(a.priority) > Weight(b.priority)
    || (Weight(a.priority) == Weight(b.priority) && a.createdAt >= b.createdAt)
  }

  lemma ItemBeforeIsPreorder()
    ensures TotalPreorder(ItemBefore)
  {
  }

  /** The tasks of one section, in list order. */
  function KeyGroup(todos: seq<Todo>, key: string, today: string): seq<Todo> {
    Filter(todos, (t: Todo) => GroupKey(t, today) == key)
  }

  function MakeGroup(visible: seq<Todo>, key: string, today: string, yesterday: string, meta: Metadata): TodoGroup {
    ItemBeforeIsPreorder();
    TodoGroup(
      key,
      SortBy(KeyGroup(visible, key, today), ItemBefore),
      FormatDateLabel(key, today, yesterday),
      IsDatePast(key, today),
      key == today,
      DayOf(meta, key).rating,
      DayOf(meta, key).note)
  }

  function BuildGroups(visible: seq<Todo>, keys: seq<string>, today: string, yesterday: string, meta: Metadata): (r: seq<TodoGroup>)
    ensures |r| == |keys|
    ensures forall i | 0 <= i < |keys| :: r[i] == MakeGroup(visible, keys[i], today, yesterday, meta)
  {
    if |keys| == 0 then []
    else [MakeGroup(visible, keys[0], today, yesterday, meta)] + BuildGroups(visible, keys[1..], today, yesterday, meta)
  }

  /** All tasks of all sections, section by section. */
  function Flatten(groups: seq<TodoGroup>): seq<Todo> {
    if |groups| == 0 then [] else groups[0].todos + Flatten(groups[1..])
  }

  function GroupKeys(todos: seq<Todo>, today: string): (r: seq<string>)
    ensures |r| == |todos|
    ensures forall i | 0 <= i < |todos| :: r[i] == GroupKey(todos[i], today)
  {
    seq(|todos|, i requires 0 <= i < |todos| => GroupKey(todos[i], today))
  }

  /** `groupedTodos`: the visible tasks in sections by date, latest date first,
      each section ordered by priority and then by creation time. `yesterday`
      is the date one day before `today`. */
  function GroupedTodos(todos: seq<Todo>, query: string, today: string, yesterday: string, meta: Metadata): (groups: seq<TodoGroup>)
    ensures forall g | 0 <= g < |groups| ::
      var d := groups[g].dateString;
      && groups[g].isToday == (d == today)
      && groups[g].isPast == IsDatePast(d, today)
      && groups[g].dateLabel == FormatDateLabel(d, today, yesterday)
      && groups[g].rating == DayOf(meta, d).rating
      && groups[g].note == DayOf(meta, d).note
  {
    var visible := Visible(todos, query);
    BuildGroups(visible, SectionKeys(visible, today), today, yesterday, meta)
  }

  /** The distinct keys of the visible tasks, latest first. */
  function SectionKeys(visible: seq<Todo>, today: string): (keys: seq<string>)
    ensures Distinct(keys)
    ensures forall k | k in GroupKeys(visible, today) :: k in keys
    ensures forall k | k in keys :: k in GroupKeys(visible, today)
    ensures forall i, j | 0 <= i < j < |keys| :: LexLess(keys[j], keys[i])
  {
    SortedDates(GroupKeys(visible, today), true)
  }

  /** Every section is non-empty and holds only visible tasks of its date. */
  lemma SectionsHoldTheirDate(todos: seq<Todo>, query: string, today: string, yesterday: string, meta: Metadata)
    ensures var groups := GroupedTodos(todos, query, today, yesterday, meta);
      && (forall g | 0 <= g < |groups| :: |groups[g].todos| > 0)
      && (forall g, t | 0 <= g < |groups| && t in groups[g].todos ::
            t in todos && MatchesQuery(t, query) && GroupKey(t, today) == groups[g].dateString)
  {
    var groups := GroupedTodos(todos, query, today, yesterday, meta);
    forall g | 0 <= g < |groups|
      ensures |groups[g].todos| > 0
      ensures forall t | t in groups[g].todos ::
        t in todos && MatchesQuery(t, query) && GroupKey(t, today) == groups[g].dateString
    {
      SectionMembers(todos, query, today, yesterday, meta, g);
    }
  }

  /** One section of `GroupedTodos`: non-empty, and its tasks are visible tasks of its date. */
  lemma SectionMembers(todos: seq<Todo>, query: string, today: string, yesterday: string, meta: Metadata, g: int)
    requires 0 <= g < |GroupedTodos(todos, query, today, yesterday, meta)|
    ensures var section := GroupedTodos(todos, query, today, yesterday, meta)[g];
      && |section.todos| > 0
      && forall t | t in section.todos ::
        t in todos && MatchesQuery(t, query) && GroupKey(t, today) == section.dateString
  {
    var visible := Visible(todos, query);
    var keys := SectionKeys(visible, today);
    assert keys[g] in GroupKeys(visible, today);
    GroupMembers(visible, keys[g], today, yesterday, meta);
  }

  /** Sections come latest date first, and each is in section order. */
  lemma SectionsOrdered(todos: seq<Todo>, query: string, today: string, yesterday: string, meta: Metadata)
    ensures var groups := GroupedTodos(todos, query, today, yesterday, meta);
      && (forall g, h | 0 <= g < h < |groups| :: LexLess(groups[h].dateString, groups[g].dateString))
      && (forall g | 0 <= g < |groups| :: SortedBy(groups[g].todos, ItemBefore))
  {
    var visible := Visible(todos, query);
    SectionsSorted(visible, SectionKeys(visible, today), today, yesterday, meta);
  }

  /** Together the sections hold every visible task exactly as often as the list. */
  lemma SectionsPartitionVisible(todos: seq<Todo>, query: string, today: string, yesterday: string, meta: Metadata)
    ensures multiset(Flatten(GroupedTodos(todos, query, today, yesterday, meta))) == multiset(Visible(todos, query))
  {
    var visible := Visible(todos, query);
    SectionsProperties(visible, SectionKeys(visible, today), today, yesterday, meta);
  }

  /** The sections built for the distinct keys of the visible tasks, latest first. */
  lemma SectionsProperties(visible: seq<Todo>, keys: seq<string>, today: string, yesterday: string, meta: Metadata)
    requires Distinct(keys)
    requires forall k | k in GroupKeys(visible, today) :: k in keys
    requires forall k | k in keys :: k in GroupKeys(visible, today)
    requires forall i, j | 0 <= i < j < |keys| :: LexLess(keys[j], keys[i])
    ensures var groups := BuildGroups(visible, keys, today, yesterday, meta);
      && (forall g | 0 <= g < |groups| :: |groups[g].todos| > 0)
      && (forall g, t | 0 <= g < |groups| && t in groups[g].todos ::
            t in visible && GroupKey(t, today) == groups[g].dateString)
      && (forall g, h | 0 <= g < h < |groups| :: LexLess(groups[h].dateString, groups[g].dateString))
      && multiset(Flatten(groups)) == multiset(visible)
  {
    var groups := BuildGroups(visible, keys, today, yesterday, meta);
    forall g | 0 <= g < |groups|
      ensures |groups[g].todos| > 0
      ensures forall t | t in groups[g].todos :: t in visible && GroupKey(t, today) == groups[g].dateString
    {
      GroupMembers(visible, keys[g], today, yesterday, meta);
    }
    FlattenGroups(visible, keys, today, yesterday, meta);
    KeyedPartition(visible, keys, today);
  }

  /** Every section is in section order. */
  lemma SectionsSorted(visible: seq<Todo>, keys: seq<string>, today: string, yesterday: string, meta: Metadata)
    ensures var groups := BuildGroups(visible, keys, today, yesterday, meta);
      forall g | 0 <= g < |groups| :: SortedBy(groups[g].todos, ItemBefore)
  {
  }

  /** A section holds exactly the tasks of its key, and is not empty when some
      task has that key. */
  lemma GroupMembers(visible: seq<Todo>, k: string, today: string, yesterday: string, meta: Metadata)
    requires k in GroupKeys(visible, today)
    ensures var g := MakeGroup(visible, k, today, yesterday, meta);
      && |g.todos| > 0
      && forall t | t in g.todos :: t in visible && GroupKey(t, today) == k
  {
    var g := MakeGroup(visible, k, today, yesterday, meta);
    var i :| 0 <= i < |visible| && GroupKeys(visible, today)[i] == k;
    assert visible[i] in KeyGroup(visible, k, today);
    assert multiset(g.todos) == multiset(KeyGroup(visible, k, today));
    forall t | t in g.todos
      ensures t in visible && GroupKey(t, today) == k
    {
      assert t in multiset(KeyGroup(visible, k, today));
    }
  }

  // ---- the partition proof ----

  /** The tasks of the sections for `keys`, as one multiset. */
  ghost function KeyedMultiset(todos: seq<Todo>, keys: seq<string>, today: string): multiset<Todo> {
    if |keys| == 0 then multiset{}
    else multiset(KeyGroup(todos, keys[0], today)) + KeyedMultiset(todos, keys[1..], today)
  }

  lemma {:induction false} FlattenGroups(visible: seq<Todo>, keys: seq<string>, today: string, yesterday: string, meta: Metadata)
    ensures multiset(Flatten(BuildGroups(visible, keys, today, yesterday, meta))) == KeyedMultiset(visible, keys, today)
  {
    if |keys| > 0 {
      FlattenGroups(visible, keys[1..], today, yesterday, meta);
    }
  }

  /** With distinct keys, a task is counted in exactly the section of its key. */
  lemma {:induction false} KeyedMultiplicity(todos: seq<Todo>, keys: seq<string>, today: string, t: Todo)
    requires Distinct(keys)
    ensures KeyedMultiset(todos, keys, today)[t] == if GroupKey(t, today) in keys then multiset(todos)[t] else 0
  {
    if |keys| > 0 {
      assert Distinct(keys[1..]);
      KeyedMultiplicity(todos, keys[1..], today, t);
      FilterMultiplicity(todos, (x: Todo) => GroupKey(x, today) == keys[0], t);
      assert keys == [keys[0]] + keys[1..];
      if GroupKey(t, today) == keys[0] {
        assert keys[0] !in keys[1..];
      }
    }
  }

  /** Sections for distinct keys covering every task's key hold every task
      exactly as often as the list does. */
  lemma KeyedPartition(todos: seq<Todo>, keys: seq<string>, today: string)
    requires Distinct(keys)
    requires forall k | k in GroupKeys(todos, today) :: k in keys
    ensures KeyedMultiset(todos, keys, today) == multiset(todos)
  {
    forall t: Todo
      ensures KeyedMultiset(todos, keys, today)[t] == multiset(todos)[t]
    {
      KeyedMultiplicity(todos, keys, today, t);
      if t in todos {
        var i :| 0 <= i < |todos| && todos[i] == t;
        assert GroupKeys(todos, today)[i] == GroupKey(t, today);
      }
    }
  }

  /** A task is shown exactly when it matches the query, and then in exactly
      one section. */
  lemma ShownIffMatches(todos: seq<Todo>, query: string, today: string, yesterday: string, meta: Metadata, t: Todo)
    requires t in todos
    ensures var groups := GroupedTodos(todos, query, today, yesterday, meta);
      && (MatchesQuery(t, query) <==> exists g | 0 <= g < |groups| :: t in groups[g].todos)
      && forall g, h | 0 <= g < h < |groups| :: !(t in groups[g].todos && t in groups[h].todos)
  {
    var groups := GroupedTodos(todos, query, today, yesterday, meta);
    if MatchesQuery(t, query) {
      MatchingIsShown(todos, query, today, yesterday, meta, t);
    } else {
      forall g | 0 <= g < |groups|
        ensures t !in groups[g].todos
      {
        SectionMembers(todos, query, today, yesterday, meta, g);
      }
    }
    forall g, h | 0 <= g < h < |groups|
      ensures !(t in groups[g].todos && t in groups[h].todos)
    {
      if t in groups[g].todos && t in groups[h].todos {
        SectionMembers(todos, query, today, yesterday, meta, g);
        SectionMembers(todos, query, today, yesterday, meta, h);
        SectionsOrdered(todos, query, today, yesterday, meta);
        LexIrreflexive(groups[g].dateString);
      }
    }
  }

  lemma MatchingIsShown(todos: seq<Todo>, query: string, today: string, yesterday: string, meta: Metadata, t: Todo)
    requires t in todos && MatchesQuery(t, query)
    ensures var groups := GroupedTodos(todos, query, today, yesterday, meta);
      exists g | 0 <= g < |groups| :: t in groups[g].todos
  {
    var groups := GroupedTodos(todos, query, today, yesterday, meta);
    assert t in Visible(todos, query);
    SectionsPartitionVisible(todos, query, today, yesterday, meta);
    assert t in multiset(Flatten(groups));
    InFlatten(groups, t);
  }

  lemma {:induction false} InFlatten(groups: seq<TodoGroup>, t: Todo)
    requires t in Flatten(groups)
    ensures exists g | 0 <= g < |groups| :: t in groups[g].todos
  {
    if t !in groups[0].todos {
      InFlatten(groups[1..], t);
      var g :| 0 <= g < |groups[1..]| && t in groups[1..][g].todos;
      assert t in groups[g + 1].todos;
    }
  }
}
