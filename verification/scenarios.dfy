/**
 * Call sequences the API step definitions make on the task store, run on a
 * freshly built manager, with what they are expected to observe.
 */
module Scenarios {
  import opened Wrappers
  import opened JavaLang
  import opened Json
  import opened TaskStore

  /** A started server whose store was reset, as before every API scenario. */
  method FreshStore() returns (m: MockServerManager)
    ensures fresh(m) && m.Valid() && m.IdsBelowCounter()
    ensures m.tasks == map[] && m.nextId == 1 && m.running
  {
    m := new MockServerManager();
    m.Start(8080);
    var _ := m.Reset();
  }

  /** The three records of the table step, the second one marked DONE after its creation. */
  function TableRecords(): map<Int32, Task>
  {
    map[
      1 := NewTask(1, "Comprar leche", None, Some("PENDING")),
      2 := NewTask(2, "Pagar facturas", None, Some("DONE"))["status" := Str("DONE")],
      3 := NewTask(3, "Llamar", None, Some("PENDING"))]
  }

  /** Ids 1 and 3 are the PENDING ones. */
  lemma PendingTableIds()
    ensures Matching(TableRecords(), TableRecords().Keys, "PENDING") == {1, 3}
  {
    var m := TableRecords();
    NewTaskWellFormed(1, "Comprar leche", None, Some("PENDING"));
    NewTaskWellFormed(3, "Llamar", None, Some("PENDING"));
    assert StatusIs(m[1], "PENDING") && StatusIs(m[3], "PENDING");
    assert m[2]["status"] == Str("DONE") != Str("PENDING");
    assert m.Keys == {1, 2, 3};
  }

  /** The table step: three tasks created PENDING, DONE and PENDING, the DONE one then updated to DONE. */
  method CreateTable() returns (m: MockServerManager)
    ensures m.Valid() && m.tasks == TableRecords()
  {
    m := FreshStore();
    ghost var first := NewTask(1, "Comprar leche", None, Some("PENDING"));
    ghost var second := NewTask(2, "Pagar facturas", None, Some("DONE"));
    var a := m.CreateTask(Some("Comprar leche"), None, Some("PENDING"));
    assert m.tasks == map[1 := first] && m.nextId == 2;
    var b := m.CreateTask(Some("Pagar facturas"), None, Some("DONE"));
    assert m.tasks == map[1 := first, 2 := second] && m.nextId == 3;
    var _ := m.UpdateTaskStatus(2, Some("DONE"));
    assert m.tasks == map[1 := first, 2 := second["status" := Str("DONE")]] && m.nextId == 3;
    var c := m.CreateTask(Some("Llamar"), None, Some("PENDING"));
  }

  /** After the table step, filtering on PENDING returns two records, both PENDING. */
  method FilterPending() returns (found: seq<Task>)
    ensures |found| == 2
    ensures forall t :: t in found ==> StatusIs(t, "PENDING")
  {
    var m := CreateTable();
    PendingTableIds();
    var r := m.GetTasksByStatus(Some("PENDING"));
    found := r.value;
  }

  /** The first task of a fresh store gets id 1 and is stored with the given title and a PENDING status. */
  method CreateFirst() returns (id: Int32, task: Option<Task>)
    ensures id == 1
    ensures task.Some? && task.value.Keys == TaskFields
    ensures "title" in task.value && task.value["title"] == Str("Comprar leche")
    ensures "status" in task.value && task.value["status"] == Str("PENDING")
    ensures "description" in task.value && task.value["description"] == Str("")
  {
    var m := FreshStore();
    var r := m.CreateTask(Some("Comprar leche"), None, Some("PENDING"));
    id := r.value;
    task := m.GetTaskById(id);
  }

  /** Ids start again at 1 after a reset, so a new task reuses the id of an earlier one. */
  method IdsReusedAfterReset() returns (first: Int32, again: Int32)
    ensures first == again == 1
  {
    var m := FreshStore();
    var r1 := m.CreateTask(Some("Primera"), None, None);
    var r2 := m.CreateTask(Some("Segunda"), None, None);
    var _ := m.Reset();
    var r3 := m.CreateTask(Some("Tercera"), None, None);
    first, again := r1.value, r3.value;
  }

  /** Marking a created task as done makes the store report it as DONE. */
  method CompleteTask() returns (updated: bool, status: Value)
    ensures updated && status == Str("DONE")
  {
    var m := FreshStore();
    var r := m.CreateTask(Some("Comprar leche"), None, Some("PENDING"));
    var u := m.UpdateTaskStatus(r.value, Some("DONE"));
    updated := u.value;
    status := m.GetTaskById(r.value).value["status"];
  }

  /** Deleting a created task removes it; deleting it again reports that nothing was there. */
  method DeleteTwice() returns (first: bool, second: bool, after: Option<Task>)
    ensures first && !second && after.None?
  {
    var m := FreshStore();
    var r := m.CreateTask(Some("Comprar leche"), None, Some("PENDING"));
    first := m.DeleteTask(r.value);
    second := m.DeleteTask(r.value);
    after := m.GetTaskById(r.value);
  }

  /** `keys` lists the six record fields once each: a possible iteration order of a record. */
  predicate FieldOrder(keys: seq<string>)
  {
    && (forall i, j :: 0 <= i < j < |keys| ==> keys[i] != keys[j])
    && (forall k :: k in keys ==> k in TaskFields)
    && (forall k :: k in TaskFields ==> k in keys)
  }

  /** A field order of a record enumerates its keys, and no field name holds a quote. */
  lemma FieldOrderEnumerates(keys: seq<string>, t: Task)
    requires FieldOrder(keys) && t.Keys == TaskFields
    ensures EnumeratesKeys(keys, t) && PlainKeys(keys)
  {
    forall i | 0 <= i < |keys| ensures '"' !in keys[i] {
      assert keys[i] in TaskFields;
    }
  }

  /**
   * The response body the create step registers, `toJson(getTaskById(id))`,
   * reads back as the stored record, whatever order the fields come in.
   */
  method CreatedTaskBody(keys: seq<string>) returns (body: string)
    requires FieldOrder(keys)
    ensures var decoded := DecodeObject(body);
      && decoded.Some?
      && "title" in decoded.value && decoded.value["title"] == Str("Comprar leche")
      && "status" in decoded.value && decoded.value["status"] == Str("PENDING")
  {
    var m := FreshStore();
    var r := m.CreateTask(Some("Comprar leche"), None, Some("PENDING"));
    var task := m.GetTaskById(r.value).value;
    FieldOrderEnumerates(keys, task);
    body := WriteObject(task, keys);
    DecodeObjectOfObjectToJson(task, keys);
  }
}
