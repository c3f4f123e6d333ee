/**
 * The stateful part of `MockServerManager`: the in-memory task store (a map
 * from id to task record plus an id counter) and the effects of the server's
 * lifecycle (`start`, `stop`, `reset`) on it. The server itself is reduced to
 * two flags: whether a server object exists and whether it is running.
 */
module TaskStore {
  import opened Wrappers
  import opened JavaLang
  import opened Json

  /** A task record, keyed by field name. */
  type Task = Object

  /** How a Java call ends: with a value, or with the NullPointerException a null map value raises. */
  datatype Outcome<+T> = Returned(value: T) | NullPointerException

  /** The six fields of every record `createTask` builds. */
  const TaskFields: set<string> := {"id", "title", "titulo", "description", "descripcion", "status"}

  /** A Java string argument that may be null, with the replacement used for null. */
  function OrDefault(s: Option<string>, default: string): string
  {
    match s
    case Some(v) => v
    case None => default
  }

  /**
   * The record `createTask` stores: the title under two keys, the description
   * under two keys, the status; a null description is stored as the empty
   * string and a null status as "PENDING".
   */
  function NewTask(id: Int32, titulo: string, descripcion: Option<string>, status: Option<string>): Task
  {
    map[
      "id" := Num(id),
      "title" := Str(titulo),
      "titulo" := Str(titulo),
      "description" := Str(OrDefault(descripcion, "")),
      "descripcion" := Str(OrDefault(descripcion, "")),
      "status" := Str(OrDefault(status, "PENDING"))
    ]
  }

  /** The shape every stored record keeps: six fields, its own id, twin title and description fields. */
  predicate WellFormed(t: Task, id: int)
  {
    && t.Keys == TaskFields
    && t["id"] == Num(id)
    && t["title"].Str? && t["titulo"] == t["title"]
    && t["description"].Str? && t["descripcion"] == t["description"]
    && t["status"].Str?
  }

  /** `status.equals(task.get("status"))`. */
  predicate StatusIs(t: Task, status: string)
  {
    "status" in t && t["status"] == Str(status)
  }

  /** Every stored record has the shape `createTask` gives it, under its own id. */
  predicate Shaped(m: map<Int32, Task>)
  {
    forall id {:trigger WellFormed(m[id], id)} :: id in m ==> WellFormed(m[id], id)
  }

  lemma ShapedUpdate(m: map<Int32, Task>, id: Int32, t: Task)
    requires Shaped(m) && WellFormed(t, id)
    ensures Shaped(m[id := t])
  {
    var updated := m[id := t];
    forall j | j in updated ensures WellFormed(updated[j], j) {
      if j != id {
        assert WellFormed(m[j], j);
      }
    }
  }

  predicate Distinct(r: seq<Task>)
  {
    forall i, j :: 0 <= i < j < |r| ==> r[i] != r[j]
  }

  /** `order` lists every id of `m` exactly once: the order in which the map is iterated. */
  predicate Enumerates(m: map<Int32, Task>, order: seq<Int32>)
  {
    && (forall i, j :: 0 <= i < j < |order| ==> order[i] != order[j])
    && (forall i :: 0 <= i < |order| ==> order[i] in m)
    && (forall id :: id in m ==> id in order)
  }

  /** The given ids whose record has the given status. */
  ghost function Matching(m: map<Int32, Task>, ids: set<Int32>, status: string): set<Int32>
  {
    set id | id in ids && id in m && StatusIs(m[id], status)
  }

  /** Looking at one more id adds it to the matching ids exactly when its record has the status. */
  lemma MatchingStep(m: map<Int32, Task>, ids: set<Int32>, id: Int32, status: string)
    requires id in m && id !in ids
    ensures StatusIs(m[id], status) ==> Matching(m, ids + {id}, status) == Matching(m, ids, status) + {id}
    ensures !StatusIs(m[id], status) ==> Matching(m, ids + {id}, status) == Matching(m, ids, status)
    ensures |Matching(m, ids + {id}, status)| == |Matching(m, ids, status)| + if StatusIs(m[id], status) then 1 else 0
  {
    if StatusIs(m[id], status) {
      assert Matching(m, ids + {id}, status) == Matching(m, ids, status) + {id};
    } else {
      assert Matching(m, ids + {id}, status) == Matching(m, ids, status);
    }
  }

  /**
   * After visiting the ids `done`, `found` holds the record of every visited
   * id with the status, each once, listed under the distinct ids `ids`.
   */
  ghost predicate Collected(m: map<Int32, Task>, status: string, done: set<Int32>, ids: seq<Int32>, found: seq<Task>)
  {
    && |found| == |ids| == |Matching(m, done, status)|
    && (forall i :: 0 <= i < |ids| ==>
         ids[i] in done && ids[i] in m && StatusIs(m[ids[i]], status) && found[i] == m[ids[i]])
    && (forall i, j :: 0 <= i < j < |ids| ==> ids[i] != ids[j])
    && (forall id :: id in done && id in m && StatusIs(m[id], status) ==> m[id] in found)
  }

  /** Visiting one more id keeps the collection complete, adding its record when it has the status. */
  lemma CollectedStep(m: map<Int32, Task>, status: string, done: set<Int32>, ids: seq<Int32>, found: seq<Task>, id: Int32)
    requires Collected(m, status, done, ids, found) && id in m && id !in done
    ensures StatusIs(m[id], status) ==> Collected(m, status, done + {id}, ids + [id], found + [m[id]])
    ensures !StatusIs(m[id], status) ==> Collected(m, status, done + {id}, ids, found)
  {
    MatchingStep(m, done, id, status);
    if StatusIs(m[id], status) {
      var ids', found' := ids + [id], found + [m[id]];
      forall i | 0 <= i < |ids'|
        ensures ids'[i] in done + {id} && ids'[i] in m && StatusIs(m[ids'[i]], status) && found'[i] == m[ids'[i]]
      {
        if i < |ids| {
          assert ids'[i] == ids[i] && found'[i] == found[i];
        }
      }
      forall j | j in done + {id} && j in m && StatusIs(m[j], status) ensures m[j] in found' {
        if j != id {
          assert m[j] in found;
        } else {
          assert found'[|found|] == m[id];
        }
      }
    }
  }

  /** A list of distinct ids is as long as the set of ids it lists. */
  lemma {:induction false} EnumerationLength(order: seq<Int32>, ids: set<Int32>)
    requires forall i, j :: 0 <= i < j < |order| ==> order[i] != order[j]
    requires forall i :: 0 <= i < |order| ==> order[i] in ids
    requires forall id :: id in ids ==> id in order
    ensures |order| == |ids|
  {
    if order != [] {
      var rest, smaller := order[1..], ids - {order[0]};
      forall id | id in smaller ensures id in rest {
        var i :| 0 <= i < |order| && order[i] == id;
        assert i != 0;
        assert rest[i - 1] == id;
      }
      EnumerationLength(rest, smaller);
    }
  }

  /** Records carry their own ids, so the records listed under distinct ids are distinct. */
  lemma RecordsDistinct(m: map<Int32, Task>, ids: seq<Int32>, r: seq<Task>)
    requires Shaped(m)
    requires |r| == |ids|
    requires forall i :: 0 <= i < |ids| ==> ids[i] in m && r[i] == m[ids[i]]
    requires forall i, j :: 0 <= i < j < |ids| ==> ids[i] != ids[j]
    ensures Distinct(r)
  {
    forall i, j | 0 <= i < j < |r| ensures r[i] != r[j] {
      assert WellFormed(m[ids[i]], ids[i]) && WellFormed(m[ids[j]], ids[j]);
    }
  }

  /** The record `createTask` builds has the shape every stored record keeps. */
  lemma NewTaskWellFormed(id: Int32, titulo: string, descripcion: Option<string>, status: Option<string>)
    ensures var t := NewTask(id, titulo, descripcion, status);
      && WellFormed(t, id)
      && t["title"] == Str(titulo)
      && t["description"] == Str(OrDefault(descripcion, ""))
      && t["status"] == Str(OrDefault(status, "PENDING"))
  {
    var t := NewTask(id, titulo, descripcion, status);
    assert t.Keys == TaskFields;
  }

  class MockServerManager {
    /** The `tasks` map. */
    var tasks: map<Int32, Task>
    /** The `idGenerator` counter: the id the next `createTask` hands out. */
    var nextId: Int32
    var port: Int32
    /** `wireMockServer != null`. */
    var hasServer: bool
    /** `wireMockServer.isRunning()`. */
    var running: bool

    ghost predicate Valid()
      reads this
    {
      && (running ==> hasServer)
      && Shaped(tasks)
    }

    /** Every stored id was handed out before the counter's current value: true until the counter wraps. */
    ghost predicate IdsBelowCounter()
      reads this
    {
      forall id :: id in tasks ==> id < nextId
    }

    /** The ids whose record has the given status. */
    ghost function IdsWithStatus(status: string): set<Int32>
      reads this
    {
      Matching(tasks, tasks.Keys, status)
    }

    constructor ()
      ensures Valid() && IdsBelowCounter()
      ensures tasks == map[] && nextId == 1
      ensures port == 0 && !hasServer && !running
    {
      tasks := map[];
      nextId := 1;
      port := 0;
      hasServer := false;
      running := false;
    }

    /** `start(port)`: records the port and starts a new server; the store is left as it is. There is no guard against a second call. */
    method Start(p: Int32)
      requires Valid()
      modifies this
      ensures Valid()
      ensures port == p && hasServer && running
      ensures tasks == old(tasks) && nextId == old(nextId)
    {
      port := p;
      hasServer := true;
      running := true;
    }

    /** `stop()`: only a running server is stopped, and only then are the store emptied and the counter rewound. */
    method Stop()
      requires Valid()
      modifies this
      ensures Valid()
      ensures old(running) ==> !running && hasServer && tasks == map[] && nextId == 1 && IdsBelowCounter()
      ensures !old(running) ==> running == old(running) && tasks == old(tasks) && nextId == old(nextId)
      ensures hasServer == old(hasServer) && port == old(port)
    {
      if hasServer && running {
        running := false;
        tasks := map[];
        nextId := 1;
      }
    }

    /**
     * `reset()`: empties the store and rewinds the counter, then clears the
     * server's stubs, which throws when no server was ever started (the store
     * is already emptied by then).
     */
    method Reset() returns (r: Outcome<()>)
      requires Valid()
      modifies this
      ensures Valid() && IdsBelowCounter()
      ensures tasks == map[] && nextId == 1
      ensures r == if old(hasServer) then Returned(()) else NullPointerException
      ensures port == old(port) && hasServer == old(hasServer) && running == old(running)
    {
      tasks := map[];
      nextId := 1;
      r := if hasServer then Returned(()) else NullPointerException;
    }

    /** `getBaseUrl()`: the loopback URL whose port part reads back as the server's port. */
    function GetBaseUrl(): (url: string)
      reads this
      ensures |url| > 17 && url[..17] == "http://localhost:"
      ensures ParseInt(url[17..]) == Some(port)
    {
      ParseIntOfIntToString(port);
      var url := "http://localhost:" + IntToString(port);
      assert url[17..] == IntToString(port);
      url
    }

    /** `getTaskById(id)`: the stored record, or null. */
    function GetTaskById(id: Int32): (r: Option<Task>)
      reads this
      ensures r.Some? <==> id in tasks
      ensures r.Some? ==> r.value == tasks[id]
    {
      if id in tasks then Some(tasks[id]) else None
    }

    /**
     * `createTask(titulo, descripcion, status)`: takes the counter's value as
     * the id and advances the counter (wrapping like a Java `int`), then stores
     * the new record under that id. A null title makes the map throw after
     * the id was taken, so the counter moves on and nothing is stored.
     */
    method CreateTask(titulo: Option<string>, descripcion: Option<string>, status: Option<string>)
      returns (r: Outcome<Int32>)
      requires Valid()
      modifies this
      ensures Valid()
      ensures nextId == Increment(old(nextId))
      ensures titulo.None? ==> r == NullPointerException && tasks == old(tasks)
      ensures titulo.Some? ==> r == Returned(old(nextId))
      ensures titulo.Some? ==>
        tasks == old(tasks)[old(nextId) := NewTask(old(nextId), titulo.value, descripcion, status)]
      ensures titulo.Some? ==>
        var t := tasks[old(nextId)];
        && t["id"] == Num(old(nextId))
        && t["title"] == Str(titulo.value) && t["titulo"] == Str(titulo.value)
        && t["description"] == Str(OrDefault(descripcion, ""))
        && t["descripcion"] == Str(OrDefault(descripcion, ""))
        && t["status"] == Str(OrDefault(status, "PENDING"))
      ensures forall id :: id != old(nextId) ==> GetTaskById(id) == old(GetTaskById(id))
      ensures old(IdsBelowCounter()) && old(nextId) < MaxInt ==>
        && IdsBelowCounter()
        && old(nextId) !in old(tasks)
        && |tasks| == |old(tasks)| + (if titulo.Some? then 1 else 0)
      ensures port == old(port) && hasServer == old(hasServer) && running == old(running)
    {
      var id := nextId;
      nextId := Increment(nextId);
      match titulo
      case None =>
        r := NullPointerException;
      case Some(title) =>
        NewTaskWellFormed(id, title, descripcion, status);
        tasks := tasks[id := NewTask(id, title, descripcion, status)];
        r := Returned(id);
    }

    /**
     * `getAllTasks()`: a new list of the stored records, in the map's
     * iteration order, which `order` stands for.
     */
    function GetAllTasks(order: seq<Int32>): (r: seq<Task>)
      reads this
      requires Valid() && Enumerates(tasks, order)
      ensures |r| == |tasks|
      ensures Distinct(r)
      ensures forall t :: t in r <==> t in tasks.Values
    {
      var m := tasks;
      var r := seq(|order|, i requires 0 <= i < |order| => m[order[i]]);
      EnumerationLength(order, m.Keys);
      RecordsDistinct(m, order, r);
      assert forall i :: 0 <= i < |r| ==> r[i] in m.Values by {
        forall i | 0 <= i < |r| ensures r[i] in m.Values {
          assert order[i] in m && m[order[i]] == r[i];
        }
      }
      assert forall t :: t in m.Values ==> t in r by {
        forall t | t in m.Values ensures t in r {
          var id :| id in m && m[id] == t;
          var i :| 0 <= i < |order| && order[i] == id;
          assert r[i] == t;
        }
      }
      r
    }

    /**
     * `getTasksByStatus(status)`: a new list of the stored records whose
     * status equals `status`, each once, collected in the map's iteration
     * order. A null `status` throws as soon as there is a record to compare.
     */
    method GetTasksByStatus(status: Option<string>) returns (r: Outcome<seq<Task>>)
      requires Valid()
      ensures status.None? ==> r == if tasks == map[] then Returned([]) else NullPointerException
      ensures status.Some? ==> r.Returned?
      ensures status.Some? ==>
        && |r.value| == |IdsWithStatus(status.value)|
        && Distinct(r.value)
        && forall t :: t in r.value <==> t in tasks.Values && StatusIs(t, status.value)
    {
      if status.None? {
        r := if tasks == map[] then Returned([]) else NullPointerException;
        return;
      }
      var s := status.value;
      var m := tasks;
      var found: seq<Task> := [];
      var left := m.Keys;
      ghost var done: set<Int32> := {};
      ghost var ids: seq<Int32> := [];
      while left != {}
        invariant left <= m.Keys && done == m.Keys - left
        invariant Collected(m, s, done, ids, found)
        decreases left
      {
        var id :| id in left;
        CollectedStep(m, s, done, ids, found, id);
        if StatusIs(m[id], s) {
          found := found + [m[id]];
          ids := ids + [id];
        }
        left := left - {id};
        done := done + {id};
      }
      assert done == m.Keys;
      RecordsDistinct(m, ids, found);
      assert forall i :: 0 <= i < |found| ==> found[i] in m.Values by {
        forall i | 0 <= i < |found| ensures found[i] in m.Values {
          assert ids[i] in m && m[ids[i]] == found[i];
        }
      }
      r := Returned(found);
    }

    /**
     * `updateTaskStatus(id, status)`: true iff the id is stored, and then only
     * that record's status changes. A null status for a stored id makes the
     * record's map throw before anything changes.
     */
    method UpdateTaskStatus(id: Int32, status: Option<string>) returns (r: Outcome<bool>)
      requires Valid()
      modifies this
      ensures Valid()
      ensures id !in old(tasks) ==> r == Returned(false) && tasks == old(tasks)
      ensures id in old(tasks) && status.None? ==> r == NullPointerException && tasks == old(tasks)
      ensures id in old(tasks) && status.Some? ==>
        && r == Returned(true)
        && tasks == old(tasks)[id := old(tasks)[id]["status" := Str(status.value)]]
        && StatusIs(tasks[id], status.value)
        && tasks[id].Keys == old(tasks)[id].Keys
        && forall f :: f in tasks[id] && f != "status" ==> tasks[id][f] == old(tasks)[id][f]
      ensures forall j :: j != id ==> GetTaskById(j) == old(GetTaskById(j))
      ensures nextId == old(nextId) && port == old(port) && hasServer == old(hasServer) && running == old(running)
    {
      if id in tasks {
        match status
        case None =>
          r := NullPointerException;
        case Some(s) =>
          var updated := tasks[id]["status" := Str(s)];
          assert WellFormed(tasks[id], id);
          assert updated.Keys == tasks[id].Keys + {"status"} == TaskFields;
          ShapedUpdate(tasks, id, updated);
          tasks := tasks[id := updated];
          r := Returned(true);
      } else {
        r := Returned(false);
      }
    }

    /** `deleteTask(id)`: true iff the id was stored; afterwards it is absent and every other record is untouched. */
    method DeleteTask(id: Int32) returns (removed: bool)
      requires Valid()
      modifies this
      ensures Valid()
      ensures removed <==> id in old(tasks)
      ensures tasks == old(tasks) - {id}
      ensures GetTaskById(id) == None
      ensures forall j :: j != id ==> GetTaskById(j) == old(GetTaskById(j))
      ensures removed ==> |tasks| == |old(tasks)| - 1
      ensures nextId == old(nextId) && port == old(port) && hasServer == old(hasServer) && running == old(running)
    {
      removed := id in tasks;
      tasks := tasks - {id};
    }
  }
}
