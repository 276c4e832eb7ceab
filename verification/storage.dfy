/** Per-user persistence (utils/storage.ts). The browser's local storage and
    the remote database are each a map from key (or path) to a stored value;
    serialisation is the identity on modelled values. Whether the remote
    database is configured, and whether each remote call succeeds, are
    parameters. */
module Storage {
  import opened Types
  import opened Strings
  import TodoList

  // ---- user names ----

  /** `username.toLowerCase().trim()`. */
  function NormalizeName(u: string): (n: string)
    ensures forall i | 0 <= i < |n| :: !IsUpper(n[i])
    ensures n == [] || (!IsSpace(n[0]) && !IsSpace(n[|n| - 1]))
    ensures |n| <= |u|
  {
    Trim(Lower(u))
  }

  /** The normal form is the lower-cased trim of the name: the slice of it
      left once the white space at both ends is dropped, and only that white
      space. */
  lemma NormalizeNameShape(u: string)
    ensures NormalizeName(u) == Lower(Trim(u))
    ensures LeadingSpaces(u) + |Trim(u)| <= |u| && Trim(u) == u[LeadingSpaces(u)..LeadingSpaces(u) + |Trim(u)|]
    ensures AllSpace(u[..LeadingSpaces(u)]) && AllSpace(u[LeadingSpaces(u) + |Trim(u)|..])
  {
    TrimLowerCommute(u);
    TrimDropsSpaces(u);
  }

  /** A name with no upper-case letter and no white space at either end. */
  predicate IsNormalForm(n: string) {
    && (forall i | 0 <= i < |n| :: !IsUpper(n[i]))
    && (n == [] || (!IsSpace(n[0]) && !IsSpace(n[|n| - 1])))
  }

  /** A name that is already lower case and trimmed is its own normal form. */
  lemma NormalFormIsFixed(n: string)
    requires IsNormalForm(n)
    ensures NormalizeName(n) == n
  {
    assert Lower(n) == n;
    if n != [] {
      assert TrimStart(n) == n;
      assert TrimEnd(n) == n;
    }
  }

  /** Two different normal forms address different data: their local keys and
      remote paths all differ. */
  lemma NormalFormsKeepApart(u: string, v: string)
    requires NormalizeName(u) != NormalizeName(v)
    ensures TodosKey(NormalizeName(u)) != TodosKey(NormalizeName(v))
    ensures MetaKey(NormalizeName(u)) != MetaKey(NormalizeName(v))
    ensures ArchiveKey(NormalizeName(u)) != ArchiveKey(NormalizeName(v))
    ensures RemoteTodosPath(NormalizeName(u)) != RemoteTodosPath(NormalizeName(v))
    ensures RemoteMetaPath(NormalizeName(u)) != RemoteMetaPath(NormalizeName(v))
  {
    LocalKeysDistinct(NormalizeName(u), NormalizeName(v));
    RemotePathsDistinct(NormalizeName(u), NormalizeName(v));
  }

  /** Normalising twice is normalising once. */
  lemma NormalizeIdempotent(u: string)
    ensures NormalizeName(NormalizeName(u)) == NormalizeName(u)
  {
    var l := Lower(u);
    TrimLowerCommute(l);
    LowerIdempotent(u);
    TrimIdempotent(l);
  }

  /** Case and surrounding white space do not matter: every spelling of a name
      that differs only in them addresses the same data. */
  lemma NormalizeIgnoresCaseAndSpace(u: string, before: string, after: string)
    requires forall i | 0 <= i < |before| :: IsSpace(before[i])
    requires forall i | 0 <= i < |after| :: IsSpace(after[i])
    ensures NormalizeName(before + u + after) == NormalizeName(u)
    ensures NormalizeName(Lower(u)) == NormalizeName(u)
  {
    LowerIdempotent(u);
    assert Lower(before + u + after) == Lower(before) + Lower(u) + Lower(after);
    TrimSurrounding(Lower(before), Lower(u), Lower(after));
  }

  lemma {:induction false} TrimStartSpaces(a: string, s: string)
    requires forall i | 0 <= i < |a| :: IsSpace(a[i])
    ensures TrimStart(a + s) == TrimStart(s)
  {
    if |a| > 0 {
      assert (a + s)[0] == a[0];
      assert (a + s)[1..] == a[1..] + s;
      TrimStartSpaces(a[1..], s);
    } else {
      assert a + s == s;
    }
  }

  lemma {:induction false} TrimEndSpaces(s: string, b: string)
    requires forall i | 0 <= i < |b| :: IsSpace(b[i])
    ensures TrimEnd(s + b) == TrimEnd(s)
  {
    if |b| > 0 {
      var b' := b[..|b| - 1];
      assert (s + b)[|s + b| - 1] == b[|b| - 1];
      assert (s + b)[..|s + b| - 1] == s + b';
      TrimEndSpaces(s, b');
    } else {
      assert s + b == s;
    }
  }

  /** Trimming the front of `s + b`: either `s` is all white space and so is
      the result's remainder, or the front trim of `s` keeps `b` behind it. */
  lemma {:induction false} TrimStartAppend(s: string, b: string)
    ensures TrimStart(s) == [] ==> TrimStart(s + b) == TrimStart(b)
    ensures TrimStart(s) != [] ==> TrimStart(s + b) == TrimStart(s) + b
  {
    if |s| > 0 {
      assert (s + b)[1..] == s[1..] + b;
      TrimStartAppend(s[1..], b);
    } else {
      assert s + b == b;
    }
  }

  lemma TrimSurrounding(a: string, s: string, b: string)
    requires forall i | 0 <= i < |a| :: IsSpace(a[i])
    requires forall i | 0 <= i < |b| :: IsSpace(b[i])
    ensures Trim(a + s + b) == Trim(s)
  {
    assert a + s + b == a + (s + b);
    TrimStartSpaces(a, s + b);
    TrimStartAppend(s, b);
    if TrimStart(s) == [] {
      BlankSuffix(b);
      TrimStartAllSpace(b);
    } else {
      TrimEndSpaces(TrimStart(s), b);
    }
  }

  lemma BlankSuffix(b: string)
    requires forall i | 0 <= i < |b| :: IsSpace(b[i])
    ensures TrimEnd([]) == []
  {
  }

  // ---- keys ----

  function TodosKey(n: string): string { "chronos_" + n + "_todos" }
  function MetaKey(n: string): string { "chronos_" + n + "_daily_metadata" }
  function ArchiveKey(n: string): string { "chronos_" + n + "_archive" }
  const UsersListKey: string := "chronos_users_list"
  const ActiveUserKey: string := "chronos_active_user"

  function RemoteTodosPath(n: string): string { "users/" + n + "/todos" }
  function RemoteMetaPath(n: string): string { "users/" + n + "/metadata" }

  /** The local keys are injective in the name and never collide with each
      other or with the two application-wide keys: each kind ends in its own
      letter. */
  lemma LocalKeysDistinct(a: string, b: string)
    ensures TodosKey(a) == TodosKey(b) ==> a == b
    ensures MetaKey(a) == MetaKey(b) ==> a == b
    ensures ArchiveKey(a) == ArchiveKey(b) ==> a == b
    ensures TodosKey(a) != MetaKey(b) && TodosKey(a) != ArchiveKey(b) && MetaKey(a) != ArchiveKey(b)
    ensures TodosKey(a) !in {UsersListKey, ActiveUserKey}
    ensures MetaKey(a) !in {UsersListKey, ActiveUserKey}
    ensures ArchiveKey(a) !in {UsersListKey, ActiveUserKey}
  {
    Unwrap("chronos_", a, "_todos");
    Unwrap("chronos_", b, "_todos");
    Unwrap("chronos_", a, "_daily_metadata");
    Unwrap("chronos_", b, "_daily_metadata");
    Unwrap("chronos_", a, "_archive");
    Unwrap("chronos_", b, "_archive");
    LastChar(TodosKey(a), "_todos");
    LastChar(MetaKey(a), "_daily_metadata");
    LastChar(ArchiveKey(a), "_archive");
    LastChar(MetaKey(b), "_daily_metadata");
    LastChar(ArchiveKey(b), "_archive");
  }

  /** The remote paths of one kind are injective in the name, and the two kinds
      differ for every pair of names. */
  lemma RemotePathsDistinct(a: string, b: string)
    ensures RemoteTodosPath(a) == RemoteTodosPath(b) ==> a == b
    ensures RemoteMetaPath(a) == RemoteMetaPath(b) ==> a == b
    ensures RemoteTodosPath(a) != RemoteMetaPath(b)
  {
    Unwrap("users/", a, "/todos");
    Unwrap("users/", b, "/todos");
    Unwrap("users/", a, "/metadata");
    Unwrap("users/", b, "/metadata");
    LastChar(RemoteTodosPath(a), "/todos");
    LastChar(RemoteMetaPath(b), "/metadata");
  }

  /** The name can be read back from between a key's prefix and suffix. */
  lemma Unwrap(p: string, n: string, q: string)
    ensures (p + n + q)[|p|..|p + n + q| - |q|] == n
  {
  }

  lemma LastChar(s: string, q: string)
    requires |q| > 0 && |s| >= |q| && s[|s| - |q|..] == q
    ensures s[|s| - 1] == q[|q| - 1]
  {
    assert s[|s| - 1] == s[|s| - |q|..][|q| - 1];
  }

  // ---- stores ----

  /** A value as it is kept under a key: a task list or a day-metadata map. */
  datatype Stored = TaskList(tasks: seq<RawTodo>) | DayMap(days: Metadata)

  type Store = map<string, Stored>

  /** The local copy and the remote database together. */
  datatype Stores = Stores(local: Store, remote: Store)

  datatype UserData = UserData(todos: seq<RawTodo>, metadata: Metadata)

  /** A task list read from a key, or `[]` when nothing is stored there. */
  function ReadTasks(store: Store, key: string): (r: seq<RawTodo>)
    ensures key !in store ==> r == []
    ensures key in store && store[key].TaskList? ==> r == store[key].tasks
  {
    if key in store && store[key].TaskList? then store[key].tasks else []
  }

  /** A metadata map read from a key, or `{}` when nothing is stored there. */
  function ReadDays(store: Store, key: string): (r: Metadata)
    ensures key !in store ==> r == map[]
    ensures key in store && store[key].DayMap? ==> r == store[key].days
  {
    if key in store && store[key].DayMap? then store[key].days else map[]
  }

  /** `isCloudActive`: the database exists when both the API key and the
      database URL are configured and initialisation did not throw. */
  predicate IsCloudActive(apiKey: string, databaseUrl: string, initSucceeds: bool) {
    apiKey != "" && databaseUrl != "" && initSucceeds
  }

  /** `loadUserData`: with the database active and both reads succeeding, the
      remote data, each part defaulting to empty; otherwise the local copy. */
  function LoadUserData(cloud: bool, readsOk: bool, stores: Stores, username: string): (r: UserData)
    ensures var n := NormalizeName(username);
      var source := if cloud && readsOk then stores.remote else stores.local;
      var tasksAt := if cloud && readsOk then RemoteTodosPath(n) else TodosKey(n);
      var daysAt := if cloud && readsOk then RemoteMetaPath(n) else MetaKey(n);
      && (tasksAt !in source ==> r.todos == [])
      && (tasksAt in source && source[tasksAt].TaskList? ==> r.todos == source[tasksAt].tasks)
      && (daysAt !in source ==> r.metadata == map[])
      && (daysAt in source && source[daysAt].DayMap? ==> r.metadata == source[daysAt].days)
  {
    var n := NormalizeName(username);
    if cloud && readsOk then
      UserData(ReadTasks(stores.remote, RemoteTodosPath(n)), ReadDays(stores.remote, RemoteMetaPath(n)))
    else
      UserData(ReadTasks(stores.local, TodosKey(n)), ReadDays(stores.local, MetaKey(n)))
  }

  /** A load consults one store only: the database when it is active and
      the reads succeed, the local copy otherwise. */
  lemma LoadReadsOneStore(cloud: bool, readsOk: bool, stores: Stores, other: Store, username: string)
    ensures cloud && readsOk ==>
      LoadUserData(cloud, readsOk, stores.(local := other), username) == LoadUserData(cloud, readsOk, stores, username)
    ensures !(cloud && readsOk) ==>
      LoadUserData(cloud, readsOk, stores.(remote := other), username) == LoadUserData(cloud, readsOk, stores, username)
  {
  }

  /** The two `localStorage.setItem` calls of a save. */
  function WriteLocal(local: Store, n: string, todos: seq<Todo>, meta: Metadata): (r: Store)
    ensures r.Keys == local.Keys + {TodosKey(n), MetaKey(n)}
    ensures r[TodosKey(n)] == TaskList(EmbedAll(todos)) && r[MetaKey(n)] == DayMap(meta)
    ensures forall k | k in local && k != TodosKey(n) && k != MetaKey(n) :: r[k] == local[k]
  {
    LocalKeysDistinct(n, n);
    local[TodosKey(n) := TaskList(EmbedAll(todos))][MetaKey(n) := DayMap(meta)]
  }

  /** `saveUserData`: both parts always go to the local copy; with the database
      active each part also goes to its remote path, and either write may fail
      on its own (`todosOk`, `metaOk`), leaving that path as it was. */
  function SaveUserData(cloud: bool, todosOk: bool, metaOk: bool, stores: Stores, username: string,
                        todos: seq<Todo>, meta: Metadata): (r: Stores)
    ensures var n := NormalizeName(username);
      && r.local.Keys == stores.local.Keys + {TodosKey(n), MetaKey(n)}
      && r.local[TodosKey(n)] == TaskList(EmbedAll(todos))
      && r.local[MetaKey(n)] == DayMap(meta)
      && (forall k | k in stores.local && k != TodosKey(n) && k != MetaKey(n) :: r.local[k] == stores.local[k])
      && (!cloud ==> r.remote == stores.remote)
  {
    var n := NormalizeName(username);
    var local := WriteLocal(stores.local, n, todos, meta);
    var remote :=
      if !cloud then stores.remote
      else
        var r1 := if todosOk then stores.remote[RemoteTodosPath(n) := TaskList(EmbedAll(todos))] else stores.remote;
        if metaOk then r1[RemoteMetaPath(n) := DayMap(meta)] else r1;
    Stores(local, remote)
  }

  // ---- what saving and loading promise ----

  /** Without the database, what was saved loads back, under any spelling of
      the name that normalises the same; migration then restores the tasks. */
  lemma LocalRoundTrip(stores: Stores, u: string, v: string, readsOk: bool, todosOk: bool, metaOk: bool,
                       todos: seq<Todo>, meta: Metadata)
    requires NormalizeName(u) == NormalizeName(v)
    ensures var data := LoadUserData(false, readsOk, SaveUserData(false, todosOk, metaOk, stores, u, todos, meta), v);
      && data == UserData(EmbedAll(todos), meta)
      && TodoList.MigrateAll(data.todos) == todos
  {
    TodoList.MigrateEmbedAll(todos);
  }

  /** With the database active and every call succeeding, what was saved loads
      back from the remote side. */
  lemma RemoteRoundTrip(stores: Stores, u: string, v: string, todos: seq<Todo>, meta: Metadata)
    requires NormalizeName(u) == NormalizeName(v)
    ensures LoadUserData(true, true, SaveUserData(true, true, true, stores, u, todos, meta), v)
         == UserData(EmbedAll(todos), meta)
  {
    RemotePathsDistinct(NormalizeName(u), NormalizeName(u));
  }

  /** A user with nothing stored loads an empty list and an empty map. */
  lemma NothingStoredLoadsEmpty(stores: Stores, u: string, cloud: bool, readsOk: bool)
    requires TodosKey(NormalizeName(u)) !in stores.local && MetaKey(NormalizeName(u)) !in stores.local
    requires RemoteTodosPath(NormalizeName(u)) !in stores.remote && RemoteMetaPath(NormalizeName(u)) !in stores.remote
    ensures LoadUserData(cloud, readsOk, stores, u) == UserData([], map[])
  {
  }

  /** Saving for one user changes nothing another user loads, locally or
      remotely. */
  lemma SaveIsolatesUsers(stores: Stores, u: string, v: string, cloud: bool, todosOk: bool, metaOk: bool,
                          readsOk: bool, todos: seq<Todo>, meta: Metadata)
    requires NormalizeName(u) != NormalizeName(v)
    ensures LoadUserData(cloud, readsOk, SaveUserData(cloud, todosOk, metaOk, stores, u, todos, meta), v)
         == LoadUserData(cloud, readsOk, stores, v)
  {
    var after := SaveUserData(cloud, todosOk, metaOk, stores, u, todos, meta);
    if cloud && readsOk {
      RemoteUntouched(stores, u, v, todosOk, metaOk, todos, meta);
    } else {
      LocalUntouched(stores.local, after.local, NormalizeName(u), NormalizeName(v));
    }
  }

  /** Two different names, each already lower case with no white space at
      either end, have different normal forms, so `SaveIsolatesUsers` keeps
      them apart. */
  lemma DistinctNamesIsolated(u: string, v: string)
    requires u != v && IsNormalForm(u) && IsNormalForm(v)
    ensures NormalizeName(u) != NormalizeName(v)
  {
    NormalFormIsFixed(u);
    NormalFormIsFixed(v);
  }

  lemma LocalUntouched(before: Store, after: Store, n: string, m: string)
    requires n != m
    requires after.Keys == before.Keys + {TodosKey(n), MetaKey(n)}
    requires forall k | k in before && k != TodosKey(n) && k != MetaKey(n) :: after[k] == before[k]
    ensures ReadTasks(after, TodosKey(m)) == ReadTasks(before, TodosKey(m))
    ensures ReadDays(after, MetaKey(m)) == ReadDays(before, MetaKey(m))
  {
    LocalKeysDistinct(n, m);
    LocalKeysDistinct(m, n);
  }

  /** The remote writes of a save for one name leave another name's remote
      task list and metadata as they were. */
  lemma RemoteUntouched(stores: Stores, u: string, v: string, todosOk: bool, metaOk: bool,
                        todos: seq<Todo>, meta: Metadata)
    requires NormalizeName(u) != NormalizeName(v)
    ensures var after := SaveUserData(true, todosOk, metaOk, stores, u, todos, meta).remote;
      var m := NormalizeName(v);
      && ReadTasks(after, RemoteTodosPath(m)) == ReadTasks(stores.remote, RemoteTodosPath(m))
      && ReadDays(after, RemoteMetaPath(m)) == ReadDays(stores.remote, RemoteMetaPath(m))
  {
    var n, m := NormalizeName(u), NormalizeName(v);
    var r1 := if todosOk then stores.remote[RemoteTodosPath(n) := TaskList(EmbedAll(todos))] else stores.remote;
    var r := if metaOk then r1[RemoteMetaPath(n) := DayMap(meta)] else r1;
    assert SaveUserData(true, todosOk, metaOk, stores, u, todos, meta).remote == r;
    OtherPathsKept(stores.remote, r1, r, n, m, todosOk, metaOk, TaskList(EmbedAll(todos)), DayMap(meta));
  }

  lemma OtherPathsKept(remote: Store, r1: Store, r: Store, n: string, m: string,
                       todosOk: bool, metaOk: bool, tasks: Stored, days: Stored)
    requires n != m
    requires r1 == if todosOk then remote[RemoteTodosPath(n) := tasks] else remote
    requires r == if metaOk then r1[RemoteMetaPath(n) := days] else r1
    ensures ReadTasks(r, RemoteTodosPath(m)) == ReadTasks(remote, RemoteTodosPath(m))
    ensures ReadDays(r, RemoteMetaPath(m)) == ReadDays(remote, RemoteMetaPath(m))
  {
    RemotePathsDistinct(n, m);
    RemotePathsDistinct(m, n);
  }

  /** Saving overwrites: after two saves the second one is what loads. */
  lemma SaveOverwrites(stores: Stores, u: string, cloud: bool, ok1: bool, ok2: bool, readsOk: bool,
                       todos1: seq<Todo>, meta1: Metadata, todos2: seq<Todo>, meta2: Metadata)
    requires cloud && readsOk ==> ok2
    ensures var s1 := SaveUserData(cloud, ok1, ok1, stores, u, todos1, meta1);
      LoadUserData(cloud, readsOk, SaveUserData(cloud, ok2, ok2, s1, u, todos2, meta2), u)
        == UserData(EmbedAll(todos2), meta2)
  {
    RemotePathsDistinct(NormalizeName(u), NormalizeName(u));
  }

  /** A failed remote write still leaves the local copy written, and a failed
      remote read then shows that local copy. */
  lemma RemoteFailureKeepsLocal(stores: Stores, u: string, todos: seq<Todo>, meta: Metadata)
    ensures var saved := SaveUserData(true, false, false, stores, u, todos, meta);
      && saved.remote == stores.remote
      && saved.local == SaveUserData(true, true, true, stores, u, todos, meta).local
      && LoadUserData(true, false, saved, u) == UserData(EmbedAll(todos), meta)
  {
  }

  /** A failed remote write followed by a good remote read shows what the
      database held before the save: the stale remote copy, not the local one
      the save did write. */
  lemma FailedWriteLoadsStaleRemote(stores: Stores, u: string, todos: seq<Todo>, meta: Metadata)
    ensures LoadUserData(true, true, SaveUserData(true, false, false, stores, u, todos, meta), u)
         == LoadUserData(true, true, stores, u)
  {
  }

  /** The two remote writes land independently: when only the metadata write
      fails, a good remote read shows the new tasks with the old day data. */
  lemma MetaWriteFailsAlone(stores: Stores, u: string, todos: seq<Todo>, meta: Metadata)
    ensures LoadUserData(true, true, SaveUserData(true, true, false, stores, u, todos, meta), u)
         == UserData(EmbedAll(todos), LoadUserData(true, true, stores, u).metadata)
  {
    RemotePathsDistinct(NormalizeName(u), NormalizeName(u));
  }

  /** When only the task write fails, a good remote read shows the old tasks
      with the new day data. */
  lemma TasksWriteFailsAlone(stores: Stores, u: string, todos: seq<Todo>, meta: Metadata)
    ensures LoadUserData(true, true, SaveUserData(true, false, true, stores, u, todos, meta), u)
         == UserData(LoadUserData(true, true, stores, u).todos, meta)
  {
    RemotePathsDistinct(NormalizeName(u), NormalizeName(u));
  }

  /** Loading a session (utils/storage.ts, then the migration in App.tsx): the
      tasks migrated and the day metadata as loaded. */
  function LoadSession(cloud: bool, readsOk: bool, stores: Stores, username: string): (r: (seq<Todo>, Metadata))
    ensures r.0 == TodoList.MigrateAll(LoadUserData(cloud, readsOk, stores, username).todos)
    ensures r.1 == LoadUserData(cloud, readsOk, stores, username).metadata
  {
    var data := LoadUserData(cloud, readsOk, stores, username);
    (TodoList.MigrateAll(data.todos), data.metadata)
  }

  /** The application's state survives a save followed by a session load,
      whenever the load reads where the save wrote. */
  lemma SessionRoundTrip(stores: Stores, u: string, cloud: bool, writesOk: bool, readsOk: bool,
                         todos: seq<Todo>, meta: Metadata)
    requires cloud && readsOk ==> writesOk
    ensures LoadSession(cloud, readsOk, SaveUserData(cloud, writesOk, writesOk, stores, u, todos, meta), u) == (todos, meta)
  {
    SavedDataLoads(stores, u, cloud, writesOk, readsOk, todos, meta);
    TodoList.MigrateEmbedAll(todos);
  }

  /** A load after a save reads back the saved data, whenever the load reads
      where the save wrote. */
  lemma SavedDataLoads(stores: Stores, u: string, cloud: bool, writesOk: bool, readsOk: bool,
                       todos: seq<Todo>, meta: Metadata)
    requires cloud && readsOk ==> writesOk
    ensures LoadUserData(cloud, readsOk, SaveUserData(cloud, writesOk, writesOk, stores, u, todos, meta), u)
         == UserData(EmbedAll(todos), meta)
  {
    if cloud && readsOk {
      RemoteRoundTrip(stores, u, u, todos, meta);
    }
  }
}
