/**
 * The server's task store: the JSON file of tasks, the next-id rule, and the
 * bodies of the GET, POST and DELETE `/api/todos` handlers as
 * read-modify-write steps on that file.
 */
module Server {
  import opened Options
  import opened JsText

  /** A stored task. A record read back from the file may lack its id. */
  datatype Todo = Todo(id: Option<int>, name: string, description: string)

  /** What `todos.json` currently holds. */
  datatype FileState =
    | Missing                 // the file does not exist
    | Unreadable              // it exists but cannot be read or parsed
    | Stored(todos: seq<Todo>)

  /** A field of a JSON request body, as far as the handlers care. */
  datatype JsonValue =
    | Absent                  // `undefined` or `null`
    | Text(text: string)
    | NonText(truthy: bool)   // a number, boolean, array or object

  datatype CreateRequest = CreateRequest(name: JsonValue, description: JsonValue)

  datatype Body =
    | TodoJson(todo: Todo)
    | TodoArray(todos: seq<Todo>)
    | SuccessJson             // `{ success: true }`
    | ErrorJson(error: string)

  datatype Response = Response(status: int, body: Body)

  const NameRequired := "Todo name is required"
  const CreateFailed := "Failed to create todo"
  const NotFound := "Todo not found"

  /** The contents `initializeDataFile` writes when the file is missing. */
  const DefaultTodos: seq<Todo> := [Todo(Some(1), "todo 1", ""), Todo(Some(2), "todo 2", "")]

  /** `t.id || 0`. */
  function IdOrZero(t: Todo): int {
    match t.id
    case Some(n) => n
    case None => 0
  }

  /** `Math.max(...todos.map(t => t.id || 0))` on a non-empty list. */
  function MaxId(todos: seq<Todo>): (m: int)
    requires |todos| > 0
    ensures forall i :: 0 <= i < |todos| ==> IdOrZero(todos[i]) <= m
    ensures exists i :: 0 <= i < |todos| && IdOrZero(todos[i]) == m
  {
    if |todos| == 1 then
      IdOrZero(todos[0])
    else
      var rest := MaxId(todos[1..]);
      assert forall i :: 1 <= i < |todos| ==> todos[1..][i - 1] == todos[i];
      if IdOrZero(todos[0]) >= rest then IdOrZero(todos[0]) else rest
  }

  /**
   * `getNextId`: 1 for an empty store, otherwise one more than the largest
   * id; in both cases above every id in the store.
   */
  function NextId(todos: seq<Todo>): (r: int)
    ensures |todos| == 0 ==> r == 1
    ensures forall i :: 0 <= i < |todos| ==> IdOrZero(todos[i]) < r
    ensures |todos| > 0 ==> exists i :: 0 <= i < |todos| && IdOrZero(todos[i]) == r - 1
  {
    if |todos| == 0 then 1 else MaxId(todos) + 1
  }

  /** No two records carry the same id. */
  predicate UniqueIds(todos: seq<Todo>) {
    forall i, j :: 0 <= i < j < |todos| && todos[i].id.Some? ==> todos[i].id != todos[j].id
  }

  /**
   * `r` is what `todos.filter(todo => todo.id !== id)` may return: it keeps
   * exactly the records whose id differs, it is shorter exactly when some
   * record has the id, and otherwise it is the list itself.
   */
  ghost predicate IsIdFilter(todos: seq<Todo>, id: int, r: seq<Todo>) {
    && |r| <= |todos|
    && (forall t :: t in r ==> t in todos && t.id != Some(id))
    && (forall t :: t in todos && t.id != Some(id) ==> t in r)
    && (|r| == |todos| <==> forall i :: 0 <= i < |todos| ==> todos[i].id != Some(id))
    && (|r| == |todos| ==> r == todos)
  }

  /** `todos.filter(todo => todo.id !== id)`. */
  function RemoveId(todos: seq<Todo>, id: int): (r: seq<Todo>)
    ensures IsIdFilter(todos, id, r)
  {
    if |todos| == 0 then
      []
    else
      var rest := RemoveId(todos[1..], id);
      RemoveIdStep(todos, id, rest);
      if todos[0].id != Some(id) then [todos[0]] + rest else rest
  }

  /** Filtering a list is filtering its tail and then deciding on its head. */
  lemma RemoveIdStep(todos: seq<Todo>, id: int, rest: seq<Todo>)
    requires |todos| > 0 && IsIdFilter(todos[1..], id, rest)
    ensures IsIdFilter(todos, id, if todos[0].id != Some(id) then [todos[0]] + rest else rest)
  {
    var tail := todos[1..];
    assert todos == [todos[0]] + tail;
    assert forall t :: t in todos <==> t == todos[0] || t in tail;
    assert (forall i :: 0 <= i < |todos| ==> todos[i].id != Some(id)) <==>
           todos[0].id != Some(id) && forall i :: 0 <= i < |tail| ==> tail[i].id != Some(id) by {
      assert forall i :: 0 < i < |todos| ==> todos[i] == tail[i - 1];
    }
  }

  /** The filter distributes over concatenation: the kept records stay in their order. */
  lemma {:induction false} RemoveIdConcat(a: seq<Todo>, b: seq<Todo>, id: int)
    ensures RemoveId(a + b, id) == RemoveId(a, id) + RemoveId(b, id)
  {
    if |a| == 0 {
      assert a + b == b;
    } else {
      assert (a + b)[0] == a[0] && (a + b)[1..] == a[1..] + b;
      RemoveIdConcat(a[1..], b, id);
    }
  }

  /** On a one-record list the filter keeps the record exactly when its id differs. */
  lemma RemoveIdSingle(t: Todo, id: int)
    ensures RemoveId([t], id) == if t.id == Some(id) then [] else [t]
  {
    assert [t][1..] == [];
  }

  /** Appending a record with the next id keeps ids unique. */
  lemma AppendNextIdUnique(todos: seq<Todo>, name: string, description: string)
    requires UniqueIds(todos)
    ensures UniqueIds(todos + [Todo(Some(NextId(todos)), name, description)])
  {
    var s := todos + [Todo(Some(NextId(todos)), name, description)];
    forall i, j | 0 <= i < j < |s| && s[i].id.Some?
      ensures s[i].id != s[j].id
    {
      if j == |todos| {
        assert IdOrZero(s[i]) == s[i].id.value < NextId(todos);
      }
    }
  }

  /** A list whose head's id appears nowhere in its unique tail has unique ids. */
  lemma ConsUnique(x: Todo, rest: seq<Todo>)
    requires UniqueIds(rest)
    requires x.id.Some? ==> forall t :: t in rest ==> t.id != x.id
    ensures UniqueIds([x] + rest)
  {
    var s := [x] + rest;
    forall i, j | 0 <= i < j < |s| && s[i].id.Some?
      ensures s[i].id != s[j].id
    {
      if i == 0 {
        assert s[j] == rest[j - 1];
      } else {
        assert s[i] == rest[i - 1] && s[j] == rest[j - 1];
      }
    }
  }

  /** The tail of a list with unique ids has unique ids, none equal to the head's. */
  lemma UniqueTail(todos: seq<Todo>)
    requires |todos| > 0 && UniqueIds(todos)
    ensures UniqueIds(todos[1..])
    ensures todos[0].id.Some? ==> forall t :: t in todos[1..] ==> t.id != todos[0].id
  {
    var tail := todos[1..];
    forall i, j | 0 <= i < j < |tail| && tail[i].id.Some?
      ensures tail[i].id != tail[j].id
    {
      assert tail[i] == todos[i + 1] && tail[j] == todos[j + 1];
    }
    forall t | t in tail && todos[0].id.Some?
      ensures t.id != todos[0].id
    {
      var k :| 0 <= k < |tail| && tail[k] == t;
      assert todos[k + 1] == t;
    }
  }

  /** Filtering out an id keeps ids unique. */
  lemma {:induction false} RemoveIdUnique(todos: seq<Todo>, id: int)
    requires UniqueIds(todos)
    ensures UniqueIds(RemoveId(todos, id))
  {
    if |todos| > 0 {
      UniqueTail(todos);
      RemoveIdUnique(todos[1..], id);
      if todos[0].id != Some(id) {
        ConsUnique(todos[0], RemoveId(todos[1..], id));
      }
    }
  }

  /** The next id depends on the largest id only, so deleting that record lets its id be handed out again. */
  lemma IdReusedAfterDeletingMax()
    ensures NextId(DefaultTodos) == 3
    ensures NextId(RemoveId(DefaultTodos, 2)) == 2
  {
    assert RemoveId(DefaultTodos, 2) == [DefaultTodos[0]] + RemoveId(DefaultTodos[1..], 2);
    assert RemoveId(DefaultTodos[1..], 2) == [];
  }

  /** `!v`: JavaScript's falsiness of a request field. */
  predicate IsFalsy(v: JsonValue) {
    match v
    case Absent => true
    case Text(s) => s == ""
    case NonText(truthy) => !truthy
  }

  /** The name check of the POST handler fails. */
  predicate NameIsMissing(v: JsonValue) {
    v.Absent? || (v.Text? && Trim(v.text) == []) || v == NonText(false)
  }

  /** The name is rejected exactly when it is falsy or a string of white space only. */
  lemma NameIsMissingIff(v: JsonValue)
    ensures NameIsMissing(v) <==> IsFalsy(v) || (v.Text? && AllWhitespace(v.text))
  {
    if v.Text? {
      TrimEmptyIff(v.text);
    }
  }

  /** `(v || '').trim()`, or None when `.trim` is not a function on the value and throws. */
  function TrimmedOrEmpty(v: JsonValue): (r: Option<string>)
    ensures r == None <==> v == NonText(true)
    ensures v.Text? ==> r == Some(Trim(v.text))
    ensures IsFalsy(v) ==> r == Some("")
  {
    if IsFalsy(v) then Some("")
    else match v
      case Text(s) => Some(Trim(s))
      case _ => None
  }

  class TodoStore {
    var file: FileState

    constructor (initial: FileState)
      ensures file == initial
    {
      file := initial;
    }

    /** `readTodos`: the stored list, or `[]` when the file cannot be read. */
    function ReadTodos(): (todos: seq<Todo>)
      reads this
      ensures file.Stored? ==> todos == file.todos
      ensures !file.Stored? ==> todos == []
    {
      if file.Stored? then file.todos else []
    }

    /** `initializeDataFile`: create the file with the default tasks if it does not exist. */
    method InitializeDataFile()
      modifies this
      ensures file == if old(file) == Missing then Stored(DefaultTodos) else old(file)
    {
      if file == Missing {
        file := Stored(DefaultTodos);
      }
    }

    /** `writeTodos`: `writeOk` says whether the file system accepts the write. */
    method WriteTodos(todos: seq<Todo>, writeOk: bool) returns (ok: bool)
      modifies this
      ensures ok == writeOk
      ensures file == if writeOk then Stored(todos) else old(file)
    {
      if writeOk {
        file := Stored(todos);
      }
      ok := writeOk;
    }

    /** GET `/api/todos`: always 200 with what `readTodos` yields. */
    method GetTodos() returns (res: Response)
      ensures res.status == 200
      ensures file.Stored? ==> res.body == TodoArray(file.todos)
      ensures !file.Stored? ==> res.body == TodoArray([])
    {
      res := Response(200, TodoArray(ReadTodos()));
    }

    /**
     * POST `/api/todos`: 400 without a usable name, 500 when a field is a
     * non-string that cannot be trimmed; otherwise a record with the next id
     * and the trimmed fields is appended and returned with 201, whether or
     * not the write succeeded.
     */
    method CreateTodo(request: CreateRequest, writeOk: bool) returns (res: Response)
      modifies this
      ensures NameIsMissing(request.name) ==>
                res == Response(400, ErrorJson(NameRequired)) && file == old(file)
      ensures !NameIsMissing(request.name) &&
              (request.name == NonText(true) || request.description == NonText(true)) ==>
                res == Response(500, ErrorJson(CreateFailed)) && file == old(file)
      ensures request.name.Text? && Trim(request.name.text) != [] && request.description != NonText(true) ==>
                var created := Todo(Some(NextId(old(ReadTodos()))), Trim(request.name.text),
                                    TrimmedOrEmpty(request.description).value);
                res == Response(201, TodoJson(created)) &&
                file == if writeOk then Stored(old(ReadTodos()) + [created]) else old(file)
      ensures old(UniqueIds(ReadTodos())) ==> UniqueIds(ReadTodos())
    {
      var name := request.name;
      if IsFalsy(name) || (name.Text? && Trim(name.text) == []) {
        return Response(400, ErrorJson(NameRequired));
      }
      var todos := ReadTodos();
      var id := NextId(ReadTodos());
      var trimmedName := TrimmedOrEmpty(name);
      var description := TrimmedOrEmpty(request.description);
      if trimmedName == None || description == None {
        return Response(500, ErrorJson(CreateFailed));
      }
      var created := Todo(Some(id), trimmedName.value, description.value);
      if UniqueIds(todos) {
        AppendNextIdUnique(todos, created.name, created.description);
      }
      todos := todos + [created];
      var _ := WriteTodos(todos, writeOk);
      res := Response(201, TodoJson(created));
    }

    /**
     * DELETE `/api/todos/:id`: 404 and no write when no record has the id;
     * otherwise every record with that id is filtered out and 200
     * `{ success: true }` is returned, whether or not the write succeeded.
     */
    method DeleteTodo(id: int, writeOk: bool) returns (res: Response)
      modifies this
      ensures (forall i :: 0 <= i < |old(ReadTodos())| ==> old(ReadTodos())[i].id != Some(id)) ==>
                res == Response(404, ErrorJson(NotFound)) && file == old(file)
      ensures (exists i :: 0 <= i < |old(ReadTodos())| && old(ReadTodos())[i].id == Some(id)) ==>
                res == Response(200, SuccessJson) &&
                file == if writeOk then Stored(RemoveId(old(ReadTodos()), id)) else old(file)
      ensures old(UniqueIds(ReadTodos())) ==> UniqueIds(ReadTodos())
    {
      var todos := ReadTodos();
      var filtered := RemoveId(todos, id);
      if |filtered| == |todos| {
        return Response(404, ErrorJson(NotFound));
      }
      if UniqueIds(todos) {
        RemoveIdUnique(todos, id);
      }
      var _ := WriteTodos(filtered, writeOk);
      res := Response(200, SuccessJson);
    }
  }

  /** Creating a task with a non-blank name in an empty, writable store. */
  method CreateFirst(store: TodoStore, name: string, description: string) returns (created: Response)
    requires store.file == Stored([])
    requires Trim(name) != []
    modifies store
    ensures created == Response(201, TodoJson(Todo(Some(1), Trim(name), Trim(description))))
    ensures store.file == Stored([Todo(Some(1), Trim(name), Trim(description))])
  {
    var task := Todo(Some(1), Trim(name), Trim(description));
    assert NextId(store.ReadTodos()) == 1;
    created := store.CreateTodo(CreateRequest(Text(name), Text(description)), true);
    assert [] + [task] == [task];
  }

  /**
   * A fresh, empty store: create a task (say "buy milk" with "2%"), list it,
   * delete it, list again and delete it a second time.
   */
  method EndToEnd(name: string, description: string)
    returns (created: Response, listed: Response, deleted: Response,
             listedAfter: Response, deletedAgain: Response)
    requires name != [] && NoOuterWhitespace(name) && NoOuterWhitespace(description)
    ensures created == Response(201, TodoJson(Todo(Some(1), name, description)))
    ensures listed == Response(200, TodoArray([Todo(Some(1), name, description)]))
    ensures deleted == Response(200, SuccessJson)
    ensures listedAfter == Response(200, TodoArray([]))
    ensures deletedAgain == Response(404, ErrorJson(NotFound))
  {
    TrimOfTrimmed(name);
    TrimOfTrimmed(description);
    var store := new TodoStore(Stored([]));
    var task := Todo(Some(1), name, description);
    created := CreateFirst(store, name, description);
    listed := store.GetTodos();
    assert store.ReadTodos()[0].id == Some(1);
    deleted := store.DeleteTodo(1, true);
    RemoveIdSingle(task, 1);
    listedAfter := store.GetTodos();
    assert |store.ReadTodos()| == 0;
    deletedAgain := store.DeleteTodo(1, true);
  }
}
