/** The record shapes and enumerations of the application (types.ts). */
module Types {
  import DateUtils

  datatype Option<+T> = None | Some(value: T)

  datatype TaskStatus = Pending | InProgress | Completed

  datatype DailyRating = Good | Neutral | Bad

  datatype Priority = High | Medium | Low

  /** A task as the application holds it in memory. `note` is a plain string:
      every task in the in-memory list either came through the load-time
      migration or through `AddTodo`, and both set it. `isCompleted` is the
      legacy flag, carried along untouched. */
  datatype Todo = Todo(
    id: string,
    text: string,
    status: TaskStatus,
    priority: Priority,
    isCompleted: Option<bool>,
    createdAt: int,
    dateString: string,
    note: string)

  /** `status === 'COMPLETED'`. */
  predicate IsDone(t: Todo) {
    t.status == Completed
  }

  /** A task as it may be found in storage: records written by older versions
      lack `status`, `priority` or `note`. */
  datatype RawTodo = RawTodo(
    id: string,
    text: string,
    status: Option<TaskStatus>,
    priority: Option<Priority>,
    isCompleted: Option<bool>,
    createdAt: int,
    dateString: string,
    note: Option<string>)

  /** Both parts are optional, so `DayMetadata(None, None)` is a valid entry. */
  datatype DayMetadata = DayMetadata(rating: Option<DailyRating>, note: Option<string>)

  const EmptyDay := DayMetadata(None, None)

  /** Day metadata keyed by `YYYY-MM-DD` date string. */
  type Metadata = map<string, DayMetadata>

  /** `prev[date] || {}`. */
  function DayOf(meta: Metadata, date: string): (d: DayMetadata)
    ensures date !in meta ==> d == EmptyDay
    ensures date in meta ==> d == meta[date]
  {
    if date in meta then meta[date] else EmptyDay
  }

  /** One date section of the task list. */
  datatype TodoGroup = TodoGroup(
    dateString: string,
    todos: seq<Todo>,
    dateLabel: DateUtils.DateLabel,
    isPast: bool,
    isToday: bool,
    rating: Option<DailyRating>,
    note: Option<string>)

  /** The persisted form of a task: the in-memory record with every field present. */
  function Embed(t: Todo): (r: RawTodo)
    ensures r.id == t.id && r.text == t.text && r.dateString == t.dateString
    ensures r.status == Some(t.status) && r.priority == Some(t.priority) && r.note == Some(t.note)
    ensures r.createdAt == t.createdAt && r.isCompleted == t.isCompleted
  {
    RawTodo(t.id, t.text, Some(t.status), Some(t.priority), t.isCompleted, t.createdAt, t.dateString, Some(t.note))
  }

  function EmbedAll(ts: seq<Todo>): (r: seq<RawTodo>)
    ensures |r| == |ts|
    ensures forall i | 0 <= i < |ts| :: r[i] == Embed(ts[i])
  {
    seq(|ts|, i requires 0 <= i < |ts| => Embed(ts[i]))
  }

  // ---- the string forms of the enumerations ----

  function StatusName(s: TaskStatus): string {
    match s
    case Pending => "PENDING"
    case InProgress => "IN_PROGRESS"
    case Completed => "COMPLETED"
  }

  function ParseStatus(name: string): (r: Option<TaskStatus>)
    ensures r.Some? ==> StatusName(r.value) == name
  {
    if name == "PENDING" then Some(Pending)
    else if name == "IN_PROGRESS" then Some(InProgress)
    else if name == "COMPLETED" then Some(Completed)
    else None
  }

  function RatingName(r: DailyRating): string {
    match r
    case Good => "GOOD"
    case Neutral => "NEUTRAL"
    case Bad => "BAD"
  }

  function ParseRating(name: string): (r: Option<DailyRating>)
    ensures r.Some? ==> RatingName(r.value) == name
  {
    if name == "GOOD" then Some(Good)
    else if name == "NEUTRAL" then Some(Neutral)
    else if name == "BAD" then Some(Bad)
    else None
  }

  function PriorityName(p: Priority): string {
    match p
    case High => "HIGH"
    case Medium => "MEDIUM"
    case Low => "LOW"
  }

  function ParsePriority(name: string): (r: Option<Priority>)
    ensures r.Some? ==> PriorityName(r.value) == name
  {
    if name == "HIGH" then Some(High)
    else if name == "MEDIUM" then Some(Medium)
    else if name == "LOW" then Some(Low)
    else None
  }

  /** A status is exactly one of the three names: each name reads back as its
      status, and no other string is a status. */
  lemma StatusNamesExact(s: TaskStatus, name: string)
    ensures ParseStatus(StatusName(s)) == Some(s)
    ensures ParseStatus(name).Some? <==> name in {"PENDING", "IN_PROGRESS", "COMPLETED"}
  {
  }

  lemma RatingNamesExact(r: DailyRating, name: string)
    ensures ParseRating(RatingName(r)) == Some(r)
    ensures ParseRating(name).Some? <==> name in {"GOOD", "NEUTRAL", "BAD"}
  {
  }

  lemma PriorityNamesExact(p: Priority, name: string)
    ensures ParsePriority(PriorityName(p)) == Some(p)
    ensures ParsePriority(name).Some? <==> name in {"HIGH", "MEDIUM", "LOW"}
  {
  }
}
