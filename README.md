# Task list: client controller and server store

A Dafny model of the two pieces of list logic in a small task-list application.

- **The browser client** (`script.js`) keeps an in-memory list of tasks and an "expanded" selection. The selection is either nothing or the position of the one task whose description is shown. Adding trims the inputs and ignores a blank name. Deleting splices out one position and repairs the selection so that it still shows the same task. Clicking a task toggles its expansion. Rendering shows every name and one description.
- **The server** (`server.js`) keeps the tasks in a JSON file. `getNextId` hands out the largest id plus one. The POST handler validates and trims a new task and appends it. The DELETE handler filters out an id, or answers 404. Each handler reads the whole file, changes it and writes it back.

Files:

- `js_text.dfy`: module `Options` (the `Option` type) and module `JsText`, which models ECMAScript's `String.prototype.trim` over the exact set of white-space and line-terminator code points it strips.
- `client.dfy`: module `Client`. The class `TodoList` has the fields `todos: seq<Item>` and `selection: Option<nat>` (`expandedTodoIndex`). Its methods change these fields in place. `Valid()` is the invariant that the selection is a position of the current list. The pure functions `RemoveAt` (`splice(index, 1)`), `RepairSelection` and `Toggle` specify the methods, and the lemmas about those functions state what the source promises.
- `server.dfy`: module `Server`. The pure functions `MaxId`, `NextId` and `RemoveId` model the expressions on server.js lines 55 and 100. The class `TodoStore` holds the file as a field `file: FileState`, with the states `Missing`, `Unreadable` and `Stored(todos)`. Its methods are the handlers and `initializeDataFile`. A handler returns a `Response(status, body)` with the source's status codes and error messages.

Behaviour that the model follows:

- The client code keeps no connection to the server, no `localStorage` and no id counter. Client tasks have only a name and a description. The client is therefore modelled in memory only.
- `readTodos` turns any read or parse failure into `[]`, so GET always answers 200. POST and DELETE then work on an empty list.
- `writeTodos` reports failure by returning `false`, and both handlers ignore that result. The model passes the file system's answer in as `writeOk`. POST still answers 201 and DELETE still answers 200 when nothing was written.
- Ids come from "largest id + 1". Deleting the record with the largest id therefore lets that id be handed out again (`Server.IdReusedAfterDeletingMax`). Ids below 2^53 are unique at every moment, but they do not increase over the life of the store. Ids are unbounded integers in the model (see `Server.NextId` under "## Left out").
- Clicking the same task twice restores the earlier selection only when nothing or that task was expanded. If another task was expanded, the two clicks end with nothing expanded (`Client.ToggleTwice`).

## Model

| member | source | states |
|---|---|---|
| `JsText.Trim` | script.js:71-72 | `trim()` returns a contiguous slice of its input. Everything cut off before and after it is white space, and the result neither starts nor ends with white space. |
| `JsText.TrimEmptyIff` | script.js:74 | A trimmed string is empty exactly when the input is all white space. This is the boundary of the `if (name)` check and of the server's `!name.trim()` check. |
| `JsText.TrimIdempotent` | script.js:71-72 | Trimming an already trimmed string changes nothing. |
| `Client.RemoveAt` | script.js:85 | `splice(index, 1)` with an index in range shortens the list by one. Items before the index stay where they are, items after it move down by one, and an index past the end changes nothing. |
| `Client.RepairFollowsItem` | script.js:84-90 | After a delete, a valid selection is still null or a valid position of the new list. It is cleared when the selected item was the one deleted. Otherwise it lands on an item equal to the one selected before, at the position `RepairSelection` fixes. |
| `Client.RepairSelection` | script.js:86-90 | After the item at `index` is spliced out, the selection becomes null exactly when it was null or that index. A selection after the index moves down by one, and one before it keeps its position. |
| `Client.Toggle` | script.js:95-100 | The new selection is null exactly when the clicked index was selected. Otherwise it is exactly the clicked index. |
| `Client.ToggleTwice` | script.js:95-100 | Two clicks on the same index restore the earlier selection if it was null or that index. If another index was selected, they leave none selected. |
| `Client.ToggleThenOther` | script.js:95-100 | A click on `i` followed by a click on a different `j` leaves exactly `j` selected, whatever was selected before. |
| `Client.TodoList.constructor` | script.js:1-8 | The page starts with the two default tasks ('todo 1', 'todo 2', empty descriptions) and no selection. |
| `Client.TodoList.AddTodo` | script.js:70-81 | If the name is blank after trimming, the list and the selection are unchanged. Otherwise exactly one item holding the trimmed name and description is appended, earlier items are unchanged and the selection is cleared. The selection invariant is kept. |
| `Client.TodoList.DeleteTodo` | script.js:84-92 | The list loses exactly the item at the index. The selection is repaired by the rule above, stays valid, and keeps showing the same item unless that item was deleted. |
| `Client.TodoList.ToggleDescription` | script.js:95-102 | The list is unchanged and the selection toggles. Toggling a position of the list keeps the selection valid. |
| `Client.TodoList.RenderTodos` | script.js:16-42 | One row per task, in order, each with the task's name. A description appears exactly at the selected position, and there it is the task's description. |
| `Client.AtMostOneDescription` | script.js:37-41 | A rendered list shows at most one description. |
| `Client.SelectionScenario` | script.js:84-100 | With three tasks and the third expanded, deleting the second leaves selection 1, the same task. Deleting that task then clears the selection, and the remaining list renders with no description. |
| `Server.MaxId` | server.js:55 | `Math.max` over the ids of a non-empty list, reading a missing id as 0, is at least every such id and equal to one of them. |
| `Server.NextId` | server.js:52-56 | `getNextId` is 1 for an empty store. Otherwise it is one more than the largest id, so it is strictly greater than every id in the store. |
| `Server.RemoveId` | server.js:100 | The filter keeps exactly the records whose id differs from the requested one. It is shorter exactly when some record has that id, and otherwise it is the list itself. |
| `Server.RemoveIdConcat` | server.js:100 | The filter distributes over concatenation, so the records it keeps stay in their original order. |
| `Server.RemoveIdUnique` | server.js:98-106 | Filtering a list with unique ids yields a list with unique ids. |
| `Server.AppendNextIdUnique` | server.js:79-86 | Appending a record carrying `getNextId` to a list with unique ids keeps them unique. |
| `Server.IdReusedAfterDeletingMax` | server.js:55 | The default store hands out id 3. After the record with id 2 is deleted, it hands out id 2 again. |
| `Server.NameIsMissingIff` | server.js:75-77 | `!name || !name.trim()` rejects a name exactly when it is falsy or a string made only of white space. This is what `NameIsMissing` decides. |
| `Server.TodoStore.ReadTodos` | server.js:30-38 | `readTodos` gives the stored list, or `[]` when the file is missing or cannot be parsed. |
| `Server.TrimmedOrEmpty` | server.js:82-83 | Trimming a field, with `''` standing in for a falsy value, gives the trimmed text for a string and `''` for a falsy value. It throws exactly for a truthy non-string. |
| `Server.TodoStore.InitializeDataFile` | server.js:16-27 | A missing file is created holding the two default records with ids 1 and 2. An existing file is left alone. |
| `Server.TodoStore.WriteTodos` | server.js:41-49 | The file holds the list when the write succeeds and is unchanged otherwise. The result says which happened. |
| `Server.TodoStore.GetTodos` | server.js:61-68 | GET answers 200 with the stored list, or with `[]` when the file cannot be read. |
| `Server.TodoStore.CreateTodo` | server.js:71-93 | A missing, falsy or blank name gives 400 'Todo name is required' and leaves the file unchanged. A truthy non-string name or description gives 500 'Failed to create todo' and leaves the file unchanged. Otherwise the answer is 201 with `{id: nextId, name: trim(name), description: trim(description or '')}`, and that record is appended after the unchanged earlier records if the write succeeds. Unique ids stay unique. |
| `Server.TodoStore.DeleteTodo` | server.js:96-111 | If no record has the id, the answer is 404 'Todo not found' and nothing is written. Otherwise the answer is 200 `{success: true}`, and the filtered list is stored if the write succeeds. Unique ids stay unique. |
| `Server.CreateFirst` | server.js:71-93 | In an empty store, any name that is not blank after trimming is stored as the single record `{id: 1, name: trim(name), description: trim(description)}`, and the answer is 201 with that record. |
| `Server.EndToEnd` | server.js:61-111 | On an empty store: creating a task answers 201 with id 1, listing shows exactly that task, and deleting id 1 answers 200. Listing then shows `[]`, and deleting id 1 again answers 404. This holds for any non-empty name and any description, both without white space at either end, for instance "buy milk" and "2%". |

## Left out

- DOM construction, CSS classes, event-listener wiring, `stopPropagation` (script.js:20-65) and the Enter-key handler (script.js:105-114). These are UI glue. The click handlers pass the `forEach` index, which is why `DeleteTodo` and `ToggleDescription` take a `nat`.
- Clearing the two input boxes after a successful add (script.js:76-77). The inputs are parameters of `AddTodo`, not state.
- `deleteTodo` with a negative index, where `splice` counts from the end: the only caller passes a non-negative list index, so negative indices are not modelled.
- The description fallback `todo.description || ''` (script.js:40): client descriptions are always strings, so the fallback never applies. It is written in `RenderTodos` but is the identity there.
- Express setup, CORS, JSON body parsing, static serving, `app.listen` and logging (server.js:1-13, 113-121). These are framework plumbing.
- File I/O and JSON (de)serialisation (server.js:16-49). The file is the field `file`, and the outcome of a write is the parameter `writeOk`. A file whose contents parse to something other than an array of records, and ids that are not integers, are not modelled.
- Server.NextId: ids are unbounded integers, not IEEE doubles. From a largest id of 2^53 on, `Math.max(...) + 1` (server.js:55) gives that same id again, so the appended record would duplicate it. `NextId`, `AppendNextIdUnique` and the uniqueness clause of `CreateTodo` hold only while every id is below 2^53. The spread `Math.max(...todos.map(...))` also throws a RangeError for lists longer than the engine's argument limit, which POST answers with 500 (server.js:90-92). The model has no such limit and answers 201.
- A failed write in `initializeDataFile`, which stops the server from starting, is not modelled.
- `parseInt` of the URL parameter (server.js:98). The id is an `int` parameter, so a non-numeric parameter (`NaN`, which matches nothing and gives 404) is not modelled.
- A request without a parsed body (`req.body` undefined, which throws and gives 500) is not modelled. The body is always an object whose two fields are absent, a string, or some other JSON value with its truthiness.
- Async/await and the race between the two file reads in POST (server.js:79, 81). The model is sequential, so both reads see the same file. Concurrent requests are not modelled.
- `JsText.IsWhitespace` works on Dafny `char`s, which are Unicode scalar values. Strings holding lone UTF-16 surrogates cannot be expressed.
