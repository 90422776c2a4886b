/**
 * The browser client's in-memory list controller: the `todos` list, the
 * `expandedTodoIndex` selection, and the add, delete, toggle and render
 * operations over them.
 */
module Client {
  import opened Options
  import opened JsText

  /** A client-side task: the client keeps no id. */
  datatype Item = Item(name: string, description: string)

  /** One rendered list entry: the name, and the description when expanded. */
  datatype Row = Row(name: string, description: Option<string>)

  /** The list the page starts with. */
  const DefaultItems: seq<Item> := [Item("todo 1", ""), Item("todo 2", "")]

  /** The selection is absent or a position of the list. */
  predicate ValidSelection<T>(todos: seq<T>, selection: Option<nat>) {
    selection.Some? ==> selection.value < |todos|
  }

  /** `todos.splice(index, 1)`: removes the element at `index`, or nothing when `index` is past the end. */
  function RemoveAt<T>(s: seq<T>, index: nat): (r: seq<T>)
    ensures index < |s| ==> |r| == |s| - 1
    ensures index < |s| ==> forall k :: 0 <= k < index ==> r[k] == s[k]
    ensures index < |s| ==> forall k :: index <= k < |r| ==> r[k] == s[k + 1]
    ensures index >= |s| ==> r == s
  {
    if index < |s| then s[..index] + s[index + 1..] else s
  }

  /** The selection after the item at `index` was spliced out. */
  function RepairSelection(selection: Option<nat>, index: nat): (r: Option<nat>)
    ensures r == None <==> selection == None || selection == Some(index)
    ensures r.Some? ==> r.value + (if selection.value > index then 1 else 0) == selection.value
  {
    if selection == Some(index) then None
    else if selection.Some? && selection.value > index then Some(selection.value - 1)
    else selection
  }

  /** The selection after a click on the item at `index`. */
  function Toggle(selection: Option<nat>, index: nat): (r: Option<nat>)
    ensures r == None <==> selection == Some(index)
    ensures r != None ==> r == Some(index)
  {
    if selection == Some(index) then None else Some(index)
  }

  /**
   * Repairing the selection after a delete keeps it a valid position, clears
   * it when the selected item was the one deleted, and otherwise leaves it
   * on the very same item.
   */
  lemma RepairFollowsItem<T>(s: seq<T>, selection: Option<nat>, index: nat)
    requires ValidSelection(s, selection)
    ensures ValidSelection(RemoveAt(s, index), RepairSelection(selection, index))
    ensures selection == Some(index) ==> RepairSelection(selection, index) == None
    ensures selection.Some? && selection.value != index ==>
              RepairSelection(selection, index).Some? &&
              RemoveAt(s, index)[RepairSelection(selection, index).value] == s[selection.value]
  {
  }

  /**
   * Clicking the same item twice restores the selection when nothing or that
   * item was expanded; if another item was expanded, it ends collapsed.
   */
  lemma ToggleTwice(selection: Option<nat>, index: nat)
    ensures selection == None || selection == Some(index) ==>
              Toggle(Toggle(selection, index), index) == selection
    ensures selection.Some? && selection != Some(index) ==>
              Toggle(Toggle(selection, index), index) == None
  {
  }

  /** Clicking one item and then another leaves exactly the latter selected. */
  lemma ToggleThenOther(selection: Option<nat>, i: nat, j: nat)
    requires i != j
    ensures Toggle(Toggle(selection, i), j) == Some(j)
  {
  }

  class TodoList {
    var todos: seq<Item>
    /** `expandedTodoIndex`: the item whose description is shown, if any. */
    var selection: Option<nat>

    ghost predicate Valid()
      reads this
    {
      ValidSelection(todos, selection)
    }

    constructor ()
      ensures todos == DefaultItems && selection == None
      ensures Valid()
    {
      todos := DefaultItems;
      selection := None;
    }

    /**
     * `addTodo` with the two input boxes' contents: a name that is empty
     * after trimming changes nothing; otherwise the trimmed item is appended
     * and the selection is cleared.
     */
    method AddTodo(nameInput: string, descriptionInput: string)
      modifies this
      ensures Trim(nameInput) == [] ==> todos == old(todos) && selection == old(selection)
      ensures Trim(nameInput) != [] ==>
                todos == old(todos) + [Item(Trim(nameInput), Trim(descriptionInput))] &&
                selection == None
      ensures old(Valid()) ==> Valid()
    {
      var name := Trim(nameInput);
      var description := Trim(descriptionInput);
      if name != [] {
        todos := todos + [Item(name, description)];
        selection := None;
      }
    }

    /**
     * `deleteTodo(index)`: splice out the item at `index` and repair the
     * selection so that it still shows the same item, or nothing if that
     * item is gone.
     */
    method DeleteTodo(index: nat)
      modifies this
      ensures todos == RemoveAt(old(todos), index)
      ensures selection == RepairSelection(old(selection), index)
      ensures old(Valid()) ==> Valid()
      ensures old(Valid()) && old(selection).Some? && old(selection).value != index ==>
                selection.Some? && todos[selection.value] == old(todos)[old(selection).value]
    {
      if Valid() {
        RepairFollowsItem(todos, selection, index);
      }
      todos := RemoveAt(todos, index);
      if selection == Some(index) {
        selection := None;
      } else if selection.Some? && selection.value > index {
        selection := Some(selection.value - 1);
      }
    }

    /** `toggleDescription(index)`: collapse the item if it is expanded, else expand it alone. */
    method ToggleDescription(index: nat)
      modifies this
      ensures todos == old(todos)
      ensures selection == Toggle(old(selection), index)
      ensures old(Valid()) && index < |todos| ==> Valid()
    {
      if selection == Some(index) {
        selection := None;
      } else {
        selection := Some(index);
      }
    }

    /**
     * The projection inside `renderTodos`: every name is shown, in order, and
     * the description only at the selected position.
     */
    method RenderTodos() returns (view: seq<Row>)
      ensures |view| == |todos|
      ensures forall i :: 0 <= i < |todos| ==> view[i].name == todos[i].name
      ensures forall i :: 0 <= i < |todos| ==>
                view[i].description == if selection == Some(i) then Some(todos[i].description) else None
    {
      view := [];
      for index := 0 to |todos|
        invariant |view| == index
        invariant forall i :: 0 <= i < index ==> view[i].name == todos[i].name
        invariant forall i :: 0 <= i < index ==>
                    view[i].description == if selection == Some(i) then Some(todos[i].description) else None
      {
        var todo := todos[index];
        var description := None;
        if selection == Some(index) {
          // `todo.description || ''`: an empty description shows as ''.
          description := Some(if todo.description == "" then "" else todo.description);
        }
        view := view + [Row(todo.name, description)];
      }
    }
  }

  /** A rendered list shows at most one description. */
  lemma AtMostOneDescription(todos: seq<Item>, selection: Option<nat>, view: seq<Row>)
    requires |view| == |todos|
    requires forall i :: 0 <= i < |todos| ==>
               view[i].description == if selection == Some(i) then Some(todos[i].description) else None
    ensures forall i, j ::
              0 <= i < |view| && 0 <= j < |view| && view[i].description.Some? && view[j].description.Some?
              ==> i == j
  {
  }

  /**
   * Three items, the third expanded: deleting the second keeps the third
   * expanded at its new position; deleting the expanded one collapses.
   */
  method SelectionScenario() returns (afterOther: Option<nat>, afterSelf: Option<nat>, shown: seq<Row>)
    ensures afterOther == Some(1)
    ensures afterSelf == None
    ensures shown == [Row("todo 1", None)]
  {
    var list := new TodoList();
    TrimOfTrimmed("todo 3");
    TrimOfTrimmed("third");
    list.AddTodo("todo 3", "third");
    list.ToggleDescription(2);
    list.DeleteTodo(1);
    afterOther := list.selection;
    assert list.todos[1] == Item("todo 3", "third");
    list.DeleteTodo(1);
    afterSelf := list.selection;
    shown := list.RenderTodos();
  }
}
