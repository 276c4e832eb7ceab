/** The archive of old tasks (utils/archiveUtils.ts): splitting the list at a
    cutoff date, keeping archived tasks under a per-user local key, and the
    archive's completion figures. The cutoff date string comes from the clock
    and is a parameter. */
module Archive {
  import opened Types
  import opened Strings
  import opened Seqs
  import opened DateUtils
  import opened Storage
  import TodoList
  import Stats

  /** `getOldTasks`: the tasks dated before the cutoff, in list order. */
  function GetOldTasks(todos: seq<Todo>, cutoff: string): (r: seq<Todo>)
    ensures forall t | t in r :: t in todos && LexLess(t.dateString, cutoff)
    ensures forall t | t in todos && LexLess(t.dateString, cutoff) :: t in r
  {
    Filter(todos, (t: Todo) => LexLess(t.dateString, cutoff))
  }

  /** `removeOldTasks`: the tasks dated on or after the cutoff, in list order. */
  function RemoveOldTasks(todos: seq<Todo>, cutoff: string): (r: seq<Todo>)
    ensures forall t | t in r :: t in todos && !LexLess(t.dateString, cutoff)
    ensures forall t | t in todos && !LexLess(t.dateString, cutoff) :: t in r
  {
    Filter(todos, (t: Todo) => !LexLess(t.dateString, cutoff))
  }

  /** For one cutoff the two lists split the task list: every task lands in
      exactly one, as often as it occurs, and the lengths add up. */
  lemma OldAndKeptPartition(todos: seq<Todo>, cutoff: string)
    ensures multiset(GetOldTasks(todos, cutoff)) + multiset(RemoveOldTasks(todos, cutoff)) == multiset(todos)
    ensures |GetOldTasks(todos, cutoff)| + |RemoveOldTasks(todos, cutoff)| == |todos|
    ensures forall t | t in GetOldTasks(todos, cutoff) :: t !in RemoveOldTasks(todos, cutoff)
  {
    var p := (t: Todo) => LexLess(t.dateString, cutoff);
    var q := (t: Todo) => !LexLess(t.dateString, cutoff);
    FilterPartition(todos, p, q);
  }

  /** Both lists keep the original relative order: filtering distributes over
      any split of the list. */
  lemma ArchiveKeepsOrder(a: seq<Todo>, b: seq<Todo>, cutoff: string)
    ensures GetOldTasks(a + b, cutoff) == GetOldTasks(a, cutoff) + GetOldTasks(b, cutoff)
    ensures RemoveOldTasks(a + b, cutoff) == RemoveOldTasks(a, cutoff) + RemoveOldTasks(b, cutoff)
  {
    FilterAppend(a, b, (t: Todo) => LexLess(t.dateString, cutoff));
    FilterAppend(a, b, (t: Todo) => !LexLess(t.dateString, cutoff));
  }

  /** Removing old tasks once is enough: the kept list has no old tasks, and
      removing again changes nothing. */
  lemma RemoveOldIsIdempotent(todos: seq<Todo>, cutoff: string)
    ensures GetOldTasks(RemoveOldTasks(todos, cutoff), cutoff) == []
    ensures RemoveOldTasks(RemoveOldTasks(todos, cutoff), cutoff) == RemoveOldTasks(todos, cutoff)
  {
    var kept := RemoveOldTasks(todos, cutoff);
    FilterNone(kept, (t: Todo) => LexLess(t.dateString, cutoff));
    FilterAll(kept, (t: Todo) => !LexLess(t.dateString, cutoff));
  }

  /** For well-formed dates, an old task is one dated chronologically before
      the cutoff. */
  lemma OldMeansEarlier(todos: seq<Todo>, cutoff: string, t: Todo)
    requires t in todos && WellFormedDate(t.dateString) && WellFormedDate(cutoff)
    ensures t in GetOldTasks(todos, cutoff) <==> ChronologicallyBefore(t.dateString, cutoff)
  {
    PastIsChronological(t.dateString, cutoff);
  }

  // ---- the stored archive ----

  /** `saveArchiveToStorage`: the archived tasks under the user's archive key. */
  function SaveArchive(local: Store, username: string, archived: seq<Todo>): (r: Store)
    ensures r.Keys == local.Keys + {ArchiveKey(NormalizeName(username))}
    ensures r[ArchiveKey(NormalizeName(username))] == TaskList(EmbedAll(archived))
    ensures forall k | k in local && k != ArchiveKey(NormalizeName(username)) :: r[k] == local[k]
  {
    local[ArchiveKey(NormalizeName(username)) := TaskList(EmbedAll(archived))]
  }

  /** `loadArchiveFromStorage`: the stored list, or `[]` if none was saved. */
  function LoadArchive(local: Store, username: string): (r: seq<RawTodo>)
    ensures ArchiveKey(NormalizeName(username)) !in local ==> r == []
  {
    ReadTasks(local, ArchiveKey(NormalizeName(username)))
  }

  /** What was archived under a name loads back under every spelling of it
      that normalises the same. */
  lemma ArchiveRoundTrip(local: Store, u: string, v: string, archived: seq<Todo>)
    requires NormalizeName(u) == NormalizeName(v)
    ensures LoadArchive(SaveArchive(local, u, archived), v) == EmbedAll(archived)
    ensures TodoList.MigrateAll(LoadArchive(SaveArchive(local, u, archived), v)) == archived
  {
    TodoList.MigrateEmbedAll(archived);
  }

  /** Archiving leaves every user's task data and day metadata as they were,
      and another user's archive too. */
  lemma ArchiveLeavesUserData(stores: Stores, u: string, v: string, archived: seq<Todo>, cloud: bool, readsOk: bool)
    ensures LoadUserData(cloud, readsOk, stores.(local := SaveArchive(stores.local, u, archived)), v)
         == LoadUserData(cloud, readsOk, stores, v)
    ensures NormalizeName(u) != NormalizeName(v) ==>
      LoadArchive(SaveArchive(stores.local, u, archived), v) == LoadArchive(stores.local, v)
  {
    ArchiveKeepsLocalData(stores.local, u, v, archived);
    if NormalizeName(u) != NormalizeName(v) {
      ArchiveOfOthers(stores.local, u, v, archived);
    }
  }

  /** Another user's archive key is untouched. */
  lemma ArchiveOfOthers(local: Store, u: string, v: string, archived: seq<Todo>)
    requires NormalizeName(u) != NormalizeName(v)
    ensures LoadArchive(SaveArchive(local, u, archived), v) == LoadArchive(local, v)
  {
    var a, b := NormalizeName(u), NormalizeName(v);
    LocalKeysDistinct(a, b);
    var after := SaveArchive(local, u, archived);
    assert ArchiveKey(b) in after <==> ArchiveKey(b) in local;
    if ArchiveKey(b) in local {
      assert after[ArchiveKey(b)] == local[ArchiveKey(b)];
    }
  }

  /** The archive key is neither user's task key nor metadata key. */
  lemma ArchiveKeepsLocalData(local: Store, u: string, v: string, archived: seq<Todo>)
    ensures ReadTasks(SaveArchive(local, u, archived), TodosKey(NormalizeName(v))) == ReadTasks(local, TodosKey(NormalizeName(v)))
    ensures ReadDays(SaveArchive(local, u, archived), MetaKey(NormalizeName(v))) == ReadDays(local, MetaKey(NormalizeName(v)))
  {
    LocalKeysDistinct(NormalizeName(v), NormalizeName(u));
  }

  // ---- figures ----

  datatype ArchiveFigures = ArchiveFigures(total: nat, completed: nat, percentage: nat)

  /** `getArchiveStats`. */
  function ArchiveStats(archived: seq<Todo>): (r: ArchiveFigures)
    ensures r.total == |archived|
    ensures r.completed == Count(archived, IsDone) && r.completed <= r.total
    ensures r.percentage <= 100
    ensures r.total == 0 ==> r.percentage == 0
    ensures r.total > 0 && r.completed == r.total ==> r.percentage == 100
    ensures r.percentage == Stats.Percent(r.completed, r.total)
  {
    var completed := Count(archived, IsDone);
    ArchiveFigures(|archived|, completed, Stats.Percent(completed, |archived|))
  }

  /** Archiving at a cutoff: the archive's total and the kept list's length
      add up to the list, and every completed task is counted on one side. */
  lemma ArchiveStatsSplit(todos: seq<Todo>, cutoff: string)
    ensures ArchiveStats(GetOldTasks(todos, cutoff)).total + |RemoveOldTasks(todos, cutoff)| == |todos|
    ensures ArchiveStats(GetOldTasks(todos, cutoff)).completed + Count(RemoveOldTasks(todos, cutoff), IsDone)
         == Count(todos, IsDone)
  {
    OldAndKeptPartition(todos, cutoff);
    var p := (t: Todo) => LexLess(t.dateString, cutoff);
    var q := (t: Todo) => !LexLess(t.dateString, cutoff);
    FilterFilter(todos, p, IsDone, (t: Todo) => p(t) && IsDone(t));
    FilterFilter(todos, q, IsDone, (t: Todo) => q(t) && IsDone(t));
    FilterFilter(todos, IsDone, p, (t: Todo) => IsDone(t) && p(t));
    FilterFilter(todos, IsDone, q, (t: Todo) => IsDone(t) && q(t));
    FilterCongruent(todos, (t: Todo) => p(t) && IsDone(t), (t: Todo) => IsDone(t) && p(t));
    FilterCongruent(todos, (t: Todo) => q(t) && IsDone(t), (t: Todo) => IsDone(t) && q(t));
    FilterPartition(Filter(todos, IsDone), p, q);
  }
}
