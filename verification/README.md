# DemoBDD mock server and configuration, modelled in Dafny

DemoBDD is a Cucumber test suite for a to-do REST API. It does not talk to a
real service. `MockServerManager` stands in for the service: it keeps the
tasks in memory, registers WireMock stubs that answer the HTTP calls, and
serves a small HTML page whose script keeps its own task list.
`ConfigManager` reads the settings of the suite.

The model covers:

- **`TaskStore`**: the `MockServerManager` object as a class. Its fields are
  the task map, the id counter, the port, and two flags for the WireMock
  server (whether one exists and whether it is running). The lifecycle
  methods (`start`, `stop`, `reset`) and the task operations (`createTask`,
  `getAllTasks`, `getTasksByStatus`, `getTaskById`, `updateTaskStatus`,
  `deleteTask`) are its methods. A task record is a string-keyed map of
  `Value`s, with the six keys the Java code writes.
- **`Json`**: `escapeJson`, `toJson(Map)` and `toJson(List)`.
  - Each encoder is a specification function.
  - Each `StringBuilder` loop is a method proved equal to that function.
  - A reader for exactly the text the encoder writes makes the round trips
    statable: decoding the output gives back the map or the list.
- **`Stubs`**: each `setup*Stub` method as the stub it registers, i.e. the
  request it answers and the response it gives.
- **`PageScript`**: the state of the page script (`addTask`, `toggleTask`,
  `deleteTask`) as a class over a sequence of tasks. JavaScript's `trim`,
  `find`/`findIndex` and `splice` are written out.
- **`Config`**: `ConfigManager.get`, `get(key, default)`, `getInt` and
  `getBoolean`. The environment, the system properties and
  `config.properties` are passed in as three maps.
- **`JavaLang`**: the Java library behaviour the core depends on.
  - The 32-bit `int` and the wrap-around of `AtomicInteger.getAndIncrement`.
  - `Integer.toString` and `Integer.parseInt`, with `NumberFormatException`
    as `None`.
  - `String.replace` with a one-character target, `toUpperCase` and
    `equalsIgnoreCase`.
- **`Scenarios`**: the store-side call sequences of the API step definitions,
  run on a fresh manager, with what the steps expect to observe.

How Java behaviour is modelled:

- **Null arguments.** A `ConcurrentHashMap` rejects null values, so some
  nulls make the Java call throw. Those calls return an `Outcome` whose
  `NullPointerException` case says so:
  - a null title in `createTask`;
  - a null status in `updateTaskStatus` on a stored id;
  - a null filter in `getTasksByStatus` on a non-empty store.
- **Iteration order.** The iteration order of a `ConcurrentHashMap` is not
  specified. Where the output depends on it (`getAllTasks`, `toJson`), the
  order is a parameter, required to list every key exactly once.
  `getTasksByStatus` loops over the key set in an arbitrary order. Its
  contract does not depend on that order.

## Model

Some functions model a source operation directly but carry no contract of
their own; their properties are stated by the lemmas in the rows that cite
the same lines: `Config.Get` (`get`, ConfigManager.java:19-25) by
`GetIsLayeredLookup`, `HigherSourceShadows` and `SetPropertyThenGet`;
`Json.EscapeJson` (`escapeJson`, MockServerManager.java:266-272) by the
`EscapeJson*` and `ParseStringOfEscapeJson` lemmas; `Json.ValueToJson` (the
value branch of `toJson(Map)`, MockServerManager.java:253-260) by
`ParseValueOfValueToJson` and its three case lemmas; `TaskStore.NewTask` (the
record built in `createTask`, MockServerManager.java:175-181) by
`NewTaskWellFormed`.

| member | source | states |
|---|---|---|
| `JavaLang.Increment` | src/test/java/utils/MockServerManager.java:174 | the counter moves on by exactly one below the top of the `int` range and wraps to the minimum at the top |
| `JavaLang.IntToString` | src/test/java/utils/MockServerManager.java:257 | `Integer.toString` writes a leading minus sign exactly for negative numbers |
| `JavaLang.ParseInt` | src/test/java/utils/ConfigManager.java:34 | `Integer.parseInt` rejects the empty string, and a result is negative only after a leading minus sign |
| `JavaLang.ParseIntOfIntToString` | src/test/java/utils/ConfigManager.java:34 | `Integer.parseInt` reads back what `Integer.toString` wrote, for every `int` |
| `JavaLang.IntToStringInjective` | src/test/java/utils/MockServerManager.java:128 | distinct ints have distinct decimal renderings |
| `JavaLang.ParseIntRejectsOutOfRange` | src/test/java/utils/ConfigManager.java:34 | a decimal number outside the `int` range is rejected, not wrapped |
| `JavaLang.ReplaceCharAppend` | src/test/java/utils/MockServerManager.java:267-271 | `replace` of one character works piecewise over a concatenation |
| `JavaLang.ReplaceCharAt` | src/test/java/utils/ConfigManager.java:20 | replacing `.` by a one-character string keeps the length and changes exactly the targeted characters |
| `JavaLang.UpperChar` | src/test/java/utils/ConfigManager.java:20 | upper-casing leaves no lower-case letter, keeps every other character, and maps a letter to its capital |
| `JavaLang.ToUpperCase` | src/test/java/utils/ConfigManager.java:20 | every character is upper-cased in place: same length, each result character is the upper case of the input character, so no lower-case letter is left and text without one is unchanged |
| `JavaLang.EqualsIgnoreCaseIsUpperEqual` | src/test/java/utils/ConfigManager.java:39 | two strings are equal ignoring case exactly when their upper-cased forms are equal |
| `Json.EscapeJsonAppend` | src/test/java/utils/MockServerManager.java:266-272 | escaping works piecewise over a concatenation |
| `Json.EscapeJsonChar` | src/test/java/utils/MockServerManager.java:266-272 | the five chained replacements escape one character as the single-character escape table says |
| `Json.EscapeJsonIsEscapeEach` | src/test/java/utils/MockServerManager.java:266-272 | the chained replacements equal escaping every character independently; no backslash a later step inserts is escaped again |
| `Json.EscapeJsonNoRawControl` | src/test/java/utils/MockServerManager.java:266-272 | the output holds no raw newline, carriage return or tab |
| `Json.EscapeJsonKeepsOtherCharacters` | src/test/java/utils/MockServerManager.java:266-272 | text without the five escaped characters, other control characters included, is copied unchanged |
| `Json.ParseStringOfEscapeEach` | src/test/java/utils/MockServerManager.java:266-272 | undoing the five escapes up to the closing quote recovers the input exactly and leaves the rest |
| `Json.ParseStringOfEscapeJson` | src/test/java/utils/MockServerManager.java:266-272 | the round trip of `escapeJson` itself: the reader recovers the input and stops at the closing quote |
| `Json.ObjectToJson` | src/test/java/utils/MockServerManager.java:246-264 | the output of `toJson(Map)` is braced, and an empty map gives `{}` |
| `Json.ListToJson` | src/test/java/utils/MockServerManager.java:234-244 | the output of `toJson(List)` is bracketed, and an empty list gives `[]` |
| `Json.MembersToJsonSnoc` | src/test/java/utils/MockServerManager.java:249-252 | one more entry adds a comma (unless it is the first) and its `"key":value` member |
| `Json.ElementsToJsonSnoc` | src/test/java/utils/MockServerManager.java:237-241 | one more element adds a comma (unless it is the first) and the element's encoding |
| `Json.WriteObject` | src/test/java/utils/MockServerManager.java:246-264 | the `StringBuilder` loop with its `first` flag produces exactly the braced comma-separated members |
| `Json.WriteList` | src/test/java/utils/MockServerManager.java:234-244 | the `StringBuilder` loop produces exactly the bracketed comma-separated object encodings |
| `Json.ParseNumOfValueToJson` | src/test/java/utils/MockServerManager.java:256-257 | a written number reads back as the same number when the text after it is empty or starts with a non-digit, and that text is left |
| `Json.ParseStrOfValueToJson` | src/test/java/utils/MockServerManager.java:258-259 | a written string reads back as the same string and leaves what follows its closing quote |
| `Json.ParseNullOfValueToJson` | src/test/java/utils/MockServerManager.java:254-255 | a written null reads back as null and leaves whatever follows |
| `Json.ParseValueOfValueToJson` | src/test/java/utils/MockServerManager.java:253-260 | every value reads back as itself, whatever follows it in the encoder's output |
| `Json.ParseMembersOfMember` | src/test/java/utils/MockServerManager.java:252-260 | a `"key":value` member with a key free of quotes reads back as that key and value |
| `Json.ParseMembersOfMembersToJson` | src/test/java/utils/MockServerManager.java:249-261 | the comma-separated members read back as the entries in the order written |
| `Json.ParseObjectOfObjectToJson` | src/test/java/utils/MockServerManager.java:246-264 | a braced object reads back as its entries in the order written, and what follows is left |
| `Json.ParseElementsOfElementsToJson` | src/test/java/utils/MockServerManager.java:237-241 | the comma-separated objects read back as their entries, element by element |
| `Json.EntriesToObjectOfEntriesOf` | src/test/java/utils/MockServerManager.java:249 | the entries written in a key order denote the map restricted to those keys |
| `Json.DecodeObjectOfObjectToJson` | src/test/java/utils/MockServerManager.java:246-264 | decoding the output of `toJson(Map)` gives back the same map, whatever the iteration order, when no key holds a double quote |
| `Json.EntriesToObjectOfAllEntries` | src/test/java/utils/MockServerManager.java:237 | turning each parsed element back into a map gives the original list |
| `Json.DecodeArrayOfListToJson` | src/test/java/utils/MockServerManager.java:234-264 | decoding the output of `toJson(List)` gives back the same list of maps, in list order |
| `Json.QuotedKeyBreaksOutput` | src/test/java/utils/MockServerManager.java:252 | keys are written without escaping, so a key holding a double quote yields text that does not read back |
| `TaskStore.NewTaskWellFormed` | src/test/java/utils/MockServerManager.java:175-181 | the new record has the six fields, its id, the title under both title keys, the description (empty for null) under both description keys, and the status (PENDING for null) |
| `TaskStore.MockServerManager.constructor` | src/test/java/utils/MockServerManager.java:20-26 | a new manager has an empty store, the counter at 1 and no server |
| `TaskStore.MockServerManager.Start` | src/test/java/utils/MockServerManager.java:38-44 | records the port and starts a server with no guard against a second call; the store and counter are untouched |
| `TaskStore.MockServerManager.Stop` | src/test/java/utils/MockServerManager.java:49-56 | only a running server is stopped, and only then is the store emptied and the counter set back to 1; otherwise nothing changes |
| `TaskStore.MockServerManager.Reset` | src/test/java/utils/MockServerManager.java:61-66 | empties the store and sets the counter back to 1, then throws when no server was ever created |
| `TaskStore.MockServerManager.GetBaseUrl` | src/test/java/utils/MockServerManager.java:78-80 | the URL is `http://localhost:` followed by text that parses back to the port |
| `TaskStore.MockServerManager.GetTaskById` | src/test/java/utils/MockServerManager.java:209-211 | a record is returned exactly when the id is stored, and it is the stored record |
| `TaskStore.MockServerManager.CreateTask` | src/test/java/utils/MockServerManager.java:173-184 | returns the counter's value and advances it by one; stores exactly one new record under that id with the six fields and their defaults; every other lookup is unchanged; a fresh id while the counter has not wrapped; a null title throws after the id was taken |
| `TaskStore.MockServerManager.GetAllTasks` | src/test/java/utils/MockServerManager.java:189-191 | one entry per stored record, no record twice, and exactly the stored records |
| `TaskStore.MockServerManager.GetTasksByStatus` | src/test/java/utils/MockServerManager.java:196-204 | exactly the stored records with that status, each once, as many as there are ids with that status; a null status throws unless the store is empty |
| `TaskStore.MockServerManager.UpdateTaskStatus` | src/test/java/utils/MockServerManager.java:216-223 | true exactly when the id is stored; then only that record's status changes, to the given one; otherwise nothing changes; a null status throws with nothing changed |
| `TaskStore.MockServerManager.DeleteTask` | src/test/java/utils/MockServerManager.java:228-230 | true exactly when the id was stored; afterwards the id is absent and every other record is untouched |
| `Stubs.TodoPath` | src/test/java/utils/MockServerManager.java:128 | a task's path is the collection path and a slash, followed by a segment that `Integer.parseInt` reads back as the id |
| `Stubs.TodoPathInjective` | src/test/java/utils/MockServerManager.java:127-155 | different ids give different paths, and no task path is the collection path |
| `Stubs.GetTodosStub` | src/test/java/utils/MockServerManager.java:85-100 | a GET on the collection that is constrained to the `status` query exactly when a non-null, non-empty filter is given |
| `Stubs.MessageBody` | src/test/java/utils/MockServerManager.java:120 | the error body is the fixed opening, the message as it is, and the fixed closing |
| `Stubs.MessageBodyInjective` | src/test/java/utils/MockServerManager.java:120 | different messages give different error bodies |
| `Stubs.CreateTodoErrorStub` | src/test/java/utils/MockServerManager.java:116-122 | a POST on the collection whose body gives the error message back between the fixed opening and closing |
| `Stubs.GetTodoByIdStub` | src/test/java/utils/MockServerManager.java:127-133 | a GET on a path under the collection whose last segment reads back as the id |
| `Stubs.UpdateTodoStub` | src/test/java/utils/MockServerManager.java:138-144 | a PATCH on a path under the collection whose last segment reads back as the id |
| `Stubs.DeleteTodoStub` | src/test/java/utils/MockServerManager.java:149-155 | a DELETE on a path whose last segment reads back as the id, with a body that is empty exactly for status 204 and otherwise the not-found message |
| `PageScript.TrimStart` | src/test/java/utils/MockServerManager.java:323 | drops a prefix made of white space only, and what is left does not start with white space |
| `PageScript.TrimEnd` | src/test/java/utils/MockServerManager.java:323 | drops a suffix made of white space only, and what is left does not end with white space |
| `PageScript.Trim` | src/test/java/utils/MockServerManager.java:323 | the result is a slice of the input with only white space outside it, and a non-empty result neither starts nor ends with white space |
| `PageScript.TrimEmptyIffBlank` | src/test/java/utils/MockServerManager.java:323-326 | trimming leaves nothing exactly when the input is all white space, which is when `addTask` rejects it |
| `PageScript.TrimIdempotent` | src/test/java/utils/MockServerManager.java:323 | trimming twice trims nothing more |
| `PageScript.IndexOf` | src/test/java/utils/MockServerManager.java:339-347 | `find`/`findIndex`: the first position holding the id, or none when no task has it |
| `PageScript.Toggled` | src/test/java/utils/MockServerManager.java:341 | PENDING becomes DONE and anything else becomes PENDING |
| `PageScript.ToggledTwice` | src/test/java/utils/MockServerManager.java:341 | toggling twice restores PENDING and DONE and settles any other status on DONE |
| `PageScript.IndexOfUnique` | src/test/java/utils/MockServerManager.java:333-339 | with ids handed out in increasing order, the task found is the only one with that id |
| `PageScript.RemoveAt` | src/test/java/utils/MockServerManager.java:349 | `splice(index, 1)`: one element shorter, and the elements after the index move down by one |
| `PageScript.RemoveAtKeepsOthers` | src/test/java/utils/MockServerManager.java:346-352 | after splicing out a task, the ids are still increasing, its id is gone and every other task is kept |
| `PageScript.TodoPage.constructor` | src/test/java/utils/MockServerManager.java:303-304 | the page starts with no tasks, the counter at 1, an empty input and the error hidden |
| `PageScript.TodoPage.Type` | src/test/java/utils/MockServerManager.java:296 | typing changes the input and nothing else |
| `PageScript.TodoPage.AddTask` | src/test/java/utils/MockServerManager.java:321-336 | a blank title shows the error and changes nothing else; otherwise the error is hidden, the trimmed title is appended as PENDING under the counter's id, the counter moves on and the input is cleared |
| `PageScript.TodoPage.ToggleTask` | src/test/java/utils/MockServerManager.java:338-344 | only the task with that id flips its status, and an unknown id changes nothing |
| `PageScript.TodoPage.DeleteTask` | src/test/java/utils/MockServerManager.java:346-352 | the task with that id is spliced out and no task with that id is left; an unknown id changes nothing |
| `Config.EnvName` | src/test/java/utils/ConfigManager.java:20 | the variable name has the key's length, no dot and no lower-case letter |
| `Config.EnvNameAt` | src/test/java/utils/ConfigManager.java:20 | each character of the name is `_` where the key has a dot and the upper-cased key character elsewhere |
| `Config.EnvNameIdempotent` | src/test/java/utils/ConfigManager.java:20 | a name already in environment form maps to itself |
| `Config.GetIsLayeredLookup` | src/test/java/utils/ConfigManager.java:19-25 | `get` reads one table: the file, overridden by the system properties, overridden by the environment |
| `Config.HigherSourceShadows` | src/test/java/utils/ConfigManager.java:19-25 | a source that has the key hides everything below it, whatever those hold |
| `Config.SetPropertyThenGet` | src/test/java/steps/Hooks.java:38 | a system property that was just set is what `get` returns, unless the environment overrides the key |
| `Config.GetOr` | src/test/java/utils/ConfigManager.java:27-30 | the default exactly when `get` has nothing, and otherwise `get`'s value unchanged |
| `Config.GetInt` | src/test/java/utils/ConfigManager.java:32-35 | the default when absent; otherwise the parsed number, or `NumberFormatException` exactly when the value does not parse |
| `Config.GetIntOfWrittenNumber` | src/test/java/utils/ConfigManager.java:32-35 | a setting holding a written `int` reads as that number, whatever the default |
| `Config.GetIntMalformed` | src/test/java/utils/ConfigManager.java:34 | any value that is not an optional sign followed by decimal digits is a `NumberFormatException`, never the default |
| `Config.GetBoolean` | src/test/java/utils/ConfigManager.java:37-40 | the default when absent; otherwise true exactly when the value is "true" in any case |
| `Scenarios.FreshStore` | src/test/java/steps/Hooks.java:33-35 | the started server with its store reset, as before every API scenario |
| `Scenarios.PendingTableIds` | src/test/java/steps/TodoApiSteps.java:114-137 | after the table step, ids 1 and 3 are exactly those with status PENDING |
| `Scenarios.CreateTable` | src/test/java/steps/TodoApiSteps.java:114-137 | the table step leaves exactly the three expected records |
| `Scenarios.FilterPending` | src/test/java/steps/TodoApiSteps.java:170-178 | filtering the table on PENDING returns two records, both PENDING |
| `Scenarios.CreateFirst` | src/test/java/steps/TodoApiSteps.java:34-38 | the first task of a fresh store gets id 1 and is stored with the title, an empty description and PENDING |
| `Scenarios.IdsReusedAfterReset` | src/test/java/utils/MockServerManager.java:61-63 | after a reset the next task gets id 1 again |
| `Scenarios.CompleteTask` | src/test/java/steps/TodoApiSteps.java:139-145 | marking a created task done succeeds and the store reports it as DONE |
| `Scenarios.DeleteTwice` | src/test/java/steps/TodoApiSteps.java:151-160 | deleting a created task removes it; the second delete on the same id, which reports that nothing was there, is a call the step does not make and is added here to show `deleteTask` on an absent id |
| `Scenarios.FieldOrderEnumerates` | src/test/java/utils/MockServerManager.java:176-181 | any order of the six field names enumerates a record's keys, and none of them holds a quote |
| `Scenarios.CreatedTaskBody` | src/test/java/steps/TodoApiSteps.java:37-41 | the body the create step registers reads back with the created title and status, whatever the field order |

## Left out

- The WireMock server is left out: stub registration, request matching, `resetMappings`/`resetRequests` and the HTTP traffic. A stub is only the record of what `setup*Stub` registers. The server is two flags, whether it exists and whether it is running.
- `TaskStore.MockServerManager.Start`: a port that is already bound makes `WireMockServer.start` fail. That failure is not modelled, so a second `start` always succeeds.
- Thread safety: `ConcurrentHashMap` and `AtomicInteger` are modelled as a sequential map and counter.
- The singleton `getInstance` is left out. A single manager is built explicitly.
- `getPort` is a plain field read. It is not modelled as a member.
- Console logging in `start` and `stop` is left out.
- The HTML and CSS text of `getTodoHtmlPage` is left out. `UiStub` takes the page as a parameter. `CreateTodoSuccessStub` and `UiStub` only pass a body through to the stub record, so no property is stated about them.
- The DOM rendering of the page script is left out: `renderTasks`, the event listeners and the checkbox state.
- `TaskStore.MockServerManager.GetAllTasks` models records as values. Two things are therefore not captured: that the returned list is a new `ArrayList`, and that the list's elements alias the store's inner record maps.
- `TaskStore.MockServerManager.UpdateTaskStatus` updates the record by value. When a caller holds the same record map, for example one returned by `getTaskById` or `getAllTasks`, that caller would see the change; the model does not capture this aliasing.
- `TaskStore.MockServerManager.GetTasksByStatus` and `Json.WriteList` take a collection's iteration order as given. `getTasksByStatus` visits the key set in an arbitrary order, and the order of its result is not stated.
- `JavaLang.ParseInt` accepts ASCII digits only. Java's `Integer.parseInt` also accepts the other Unicode decimal digits.
- `JavaLang.ToUpperCase` upper-cases ASCII letters only. Java's locale-dependent case mapping of other letters is left out. The same applies to `equalsIgnoreCase`.
- `PageScript.TodoPage.AddTask` keeps `taskIdCounter` as an unbounded integer. JavaScript numbers lose precision above 2^53.
- `Config`: the static loader that reads `config.properties` is left out, as are the real `System.getenv` and `System.getProperty` calls. The three sources are parameters.
- `Stubs.MessageBody` models `setupCreateTodoErrorStub` inserting the error message without escaping, as the Java code does. The model does not state which messages yield valid JSON.
- `Json.ObjectToJson` models keys written without escaping. `Json.QuotedKeyBreaksOutput` shows the consequence. The round-trip lemmas require keys free of double quotes, which holds for the six field names the store writes.
- `Json.Value` has three cases: a number, a string and null. The store only ever holds `Integer`s and `String`s, so other objects that `toJson` would write through `toString` are not modelled.
- The Cucumber glue, the RestAssured client, the Selenium page object and the runner are not part of this model. Only their store-side call sequences appear, in `Scenarios`.
