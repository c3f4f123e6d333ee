/**
 * The `setup*Stub` methods of the mock server, each reduced to the stub it
 * registers: which requests it answers (verb, path, an optional `status`
 * query constraint) and the response it gives (content type, body, status
 * code). How the stub registry matches requests is not modelled.
 */
module Stubs {
  import opened Wrappers
  import opened JavaLang

  datatype Verb = GET | POST | PATCH | DELETE

  /** One registered stub: request pattern and canned response. */
  datatype Stub = Stub(
    verb: Verb,
    path: string,
    statusQuery: Option<string>,
    contentType: string,
    body: string,
    status: Int32)

  const CollectionPath: string := "/api/todos"
  const JsonType: string := "application/json"

  /** The path of one task: the collection path, a slash, then a segment `Integer.parseInt` reads back as the id. */
  function TodoPath(id: Int32): (path: string)
    ensures |path| > |CollectionPath| + 1
    ensures path[..|CollectionPath| + 1] == CollectionPath + "/"
    ensures ParseInt(path[|CollectionPath| + 1..]) == Some(id)
  {
    var path := CollectionPath + "/" + IntToString(id);
    assert path[|CollectionPath| + 1..] == IntToString(id);
    ParseIntOfIntToString(id);
    path
  }

  /** Different ids give different paths, and no task path is the collection path. */
  lemma TodoPathInjective(a: Int32, b: Int32)
    ensures TodoPath(a) == TodoPath(b) <==> a == b
    ensures TodoPath(a) != CollectionPath
  {
    if TodoPath(a) == TodoPath(b) {
      var n := |CollectionPath| + 1;
      assert TodoPath(a)[n..] == IntToString(a);
      assert TodoPath(b)[n..] == IntToString(b);
      IntToStringInjective(a, b);
    }
  }

  /**
   * `setupGetTodosStub(statusFilter, body, status)`: a GET on the collection,
   * constrained to the `status` query parameter only when a non-empty
   * filter is given.
   */
  function GetTodosStub(statusFilter: Option<string>, responseBody: string, status: Int32): (r: Stub)
    ensures r.verb == GET && r.path == CollectionPath
    ensures r.statusQuery.Some? <==> statusFilter.Some? && statusFilter.value != ""
    ensures r.statusQuery.Some? ==> r.statusQuery == statusFilter
    ensures r.contentType == JsonType && r.body == responseBody && r.status == status
  {
    var query := if statusFilter.Some? && statusFilter.value != "" then statusFilter else None;
    Stub(GET, CollectionPath, query, JsonType, responseBody, status)
  }

  /** `setupCreateTodoSuccessStub(body)`: a POST on the collection answered with 201 and the given body. */
  function CreateTodoSuccessStub(responseBody: string): (r: Stub)
    ensures r.verb == POST && r.path == CollectionPath && r.statusQuery.None?
    ensures r.contentType == JsonType && r.body == responseBody && r.status == 201
  {
    Stub(POST, CollectionPath, None, JsonType, responseBody, 201)
  }

  /** The opening of every error body: a `message` member whose string starts next. */
  const MessagePrefix: string := "{\"message\": \""
  const MessageSuffix: string := "\"}"

  /** The JSON error body around a message; the message is inserted as it is, without escaping. */
  function MessageBody(message: string): (body: string)
    ensures |body| == |MessagePrefix| + |message| + |MessageSuffix|
    ensures body[..|MessagePrefix|] == MessagePrefix
    ensures body[|MessagePrefix|..|body| - |MessageSuffix|] == message
    ensures body[|body| - |MessageSuffix|..] == MessageSuffix
  {
    var body := MessagePrefix + message + MessageSuffix;
    assert body[..|MessagePrefix|] == MessagePrefix;
    assert body[|MessagePrefix|..|body| - |MessageSuffix|] == message;
    body
  }

  /** Different messages give different bodies. */
  lemma MessageBodyInjective(a: string, b: string)
    ensures MessageBody(a) == MessageBody(b) <==> a == b
  {
  }

  /** `setupCreateTodoErrorStub(message, status)`: a POST on the collection answered with the message body. */
  function CreateTodoErrorStub(errorMessage: string, status: Int32): (r: Stub)
    ensures r.verb == POST && r.path == CollectionPath && r.statusQuery.None?
    ensures r.contentType == JsonType && r.body == MessageBody(errorMessage) && r.status == status
    ensures |r.body| >= |MessagePrefix| + |MessageSuffix|
    ensures r.body[|MessagePrefix|..|r.body| - |MessageSuffix|] == errorMessage
  {
    Stub(POST, CollectionPath, None, JsonType, MessageBody(errorMessage), status)
  }

  /** `setupGetTodoByIdStub(id, body, status)`: a GET on the task's own path. */
  function GetTodoByIdStub(id: Int32, responseBody: string, status: Int32): (r: Stub)
    ensures r.verb == GET && r.path == TodoPath(id) && r.statusQuery.None?
    ensures r.contentType == JsonType && r.body == responseBody && r.status == status
    ensures |r.path| > |CollectionPath| + 1 && r.path[..|CollectionPath| + 1] == CollectionPath + "/"
    ensures ParseInt(r.path[|CollectionPath| + 1..]) == Some(id)
  {
    Stub(GET, TodoPath(id), None, JsonType, responseBody, status)
  }

  /** `setupUpdateTodoStub(id, body, status)`: a PATCH on the task's own path. */
  function UpdateTodoStub(id: Int32, responseBody: string, status: Int32): (r: Stub)
    ensures r.verb == PATCH && r.path == TodoPath(id) && r.statusQuery.None?
    ensures r.contentType == JsonType && r.body == responseBody && r.status == status
    ensures |r.path| > |CollectionPath| + 1 && r.path[..|CollectionPath| + 1] == CollectionPath + "/"
    ensures ParseInt(r.path[|CollectionPath| + 1..]) == Some(id)
  {
    Stub(PATCH, TodoPath(id), None, JsonType, responseBody, status)
  }

  /** `setupDeleteTodoStub(id, status)`: a DELETE on the task's path; the body is empty exactly for 204. */
  function DeleteTodoStub(id: Int32, status: Int32): (r: Stub)
    ensures r.verb == DELETE && r.path == TodoPath(id) && r.statusQuery.None?
    ensures |r.path| > |CollectionPath| + 1 && ParseInt(r.path[|CollectionPath| + 1..]) == Some(id)
    ensures r.contentType == JsonType && r.status == status
    ensures r.body == "" <==> status == 204
    ensures status != 204 ==> r.body == MessageBody("Tarea no encontrada")
  {
    Stub(DELETE, TodoPath(id), None, JsonType, if status == 204 then "" else MessageBody("Tarea no encontrada"), status)
  }

  /** `setupUiStub()`: a GET on the root answered with the page, as HTML, with 200. */
  function UiStub(page: string): (r: Stub)
    ensures r.verb == GET && r.path == "/" && r.statusQuery.None?
    ensures r.contentType == "text/html" && r.body == page && r.status == 200
  {
    Stub(GET, "/", None, "text/html", page, 200)
  }
}
