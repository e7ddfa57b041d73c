/**
 * The to-do component: two state cells (the list and the pending input), the
 * handlers that replace them, the initial load, and the save that follows
 * every change of the list (the effect that depends on `todos`).
 *
 * The id (crypto.randomUUID), the clock (Date.now) and whether the store
 * rejects a write are parameters of the handlers.
 */
module TodoApp {
  import opened Storage
  import opened TodoList

  class App {
    /** The `todos` state cell. */
    var todos: seq<Todo>
    /** The `input` state cell: the value of the text field. */
    var input: string
    /** The store the list is loaded from and saved to. */
    const store: LocalStorage

    /** The store holds the text of the current list under the key. */
    ghost predicate Persisted()
      reads this, store
    {
      StorageKey in store.items && store.items[StorageKey] == Encode(todos)
    }

    /**
     * Mount: the list starts from the stored list and the input empty; the
     * effect then runs once for the initial list and saves it. A stored value
     * that is not a list of records gives the empty list (LoadedTodos).
     */
    constructor (store: LocalStorage, writeFails: bool)
      modifies store
      ensures this.store == store && input == ""
      ensures todos == LoadedTodos(old(store.items))
      ensures store.items == Saved(old(store.items), todos, writeFails)
    {
      this.store := store;
      input := "";
      var loaded := store.LoadTodos();
      var initial := TodosFromJson(loaded);
      todos := if initial.Some? then initial.value else [];
      new;
      store.SaveTodos(todos, writeFails);
    }

    /** onChange of the text field: setInput(value). The list, and so the store, stay as they are. */
    method SetInput(value: string)
      modifies this
      ensures input == value && todos == old(todos)
    {
      input := value;
    }

    /**
     * handleAdd: a blank input (empty once trimmed) changes nothing, not even
     * the input; otherwise one new item with the trimmed text and
     * `completed == false` is appended, the input is cleared and the list saved.
     */
    method HandleAdd(id: string, now: int, writeFails: bool)
      modifies this, store
      ensures Trim(old(input)) == [] ==>
        todos == old(todos) && input == old(input) && store.items == old(store.items)
      ensures Trim(old(input)) != [] ==>
        && todos == old(todos) + [Todo(id, Trim(old(input)), now, false)]
        && input == ""
        && store.items == Saved(old(store.items), todos, writeFails)
      ensures Trim(old(input)) != [] && !writeFails ==> Persisted()
      ensures ListInvariant(old(todos)) && id !in Ids(old(todos)) ==> ListInvariant(todos)
    {
      var trimmed := Trim(input);
      if trimmed == [] {
        return;
      }
      var item := NewTodo(input, id, now);
      if ListInvariant(todos) && id !in Ids(todos) {
        AppendKeepsInvariant(todos, item);
      }
      todos := todos + [item];
      input := "";
      store.SaveTodos(todos, writeFails);
    }

    /** handleKeyDown: Enter adds, as the Add button does; any other key changes nothing. */
    method HandleKeyDown(key: string, id: string, now: int, writeFails: bool)
      modifies this, store
      ensures key != "Enter" ==>
        todos == old(todos) && input == old(input) && store.items == old(store.items)
      ensures key == "Enter" && Trim(old(input)) == [] ==>
        todos == old(todos) && input == old(input) && store.items == old(store.items)
      ensures key == "Enter" && Trim(old(input)) != [] ==>
        && todos == old(todos) + [Todo(id, Trim(old(input)), now, false)]
        && input == ""
        && store.items == Saved(old(store.items), todos, writeFails)
    {
      if key == "Enter" {
        HandleAdd(id, now, writeFails);
      }
    }

    /** toggleComplete: flips `completed` on the items with this id, then saves. */
    method ToggleComplete(id: string, writeFails: bool)
      modifies this, store
      ensures todos == Toggled(old(todos), id) && input == old(input)
      ensures store.items == Saved(old(store.items), todos, writeFails)
      ensures !writeFails ==> Persisted()
      ensures ListInvariant(old(todos)) ==> ListInvariant(todos)
    {
      if ListInvariant(todos) {
        ToggledKeepsInvariant(todos, id);
      }
      todos := Toggled(todos, id);
      store.SaveTodos(todos, writeFails);
    }

    /** handleDelete: drops the items with this id, then saves. */
    method HandleDelete(id: string, writeFails: bool)
      modifies this, store
      ensures todos == Deleted(old(todos), id) && input == old(input)
      ensures store.items == Saved(old(store.items), todos, writeFails)
      ensures !writeFails ==> Persisted()
      ensures ListInvariant(old(todos)) ==> ListInvariant(todos)
    {
      if ListInvariant(todos) {
        DeletedKeepsInvariant(todos, id);
      }
      todos := Deleted(todos, id);
      store.SaveTodos(todos, writeFails);
    }

    /** handleClearAll: the list becomes empty whatever it held, then is saved. */
    method HandleClearAll(writeFails: bool)
      modifies this, store
      ensures todos == [] && input == old(input)
      ensures store.items == Saved(old(store.items), [], writeFails)
      ensures !writeFails ==> Persisted()
    {
      todos := [];
      store.SaveTodos(todos, writeFails);
    }
  }

  /**
   * Add an item, complete it, reload: a second component mounted on the same
   * store shows the item, still completed, with its trimmed text, id and
   * timestamp. A blank text adds nothing, and the reloaded list is empty.
   */
  method CompletionSurvivesReload(text: string, id: string, now: int) returns (shown: seq<Todo>)
    ensures !AllSpace(text) ==> shown == [Todo(id, Trim(text), now, true)]
    ensures AllSpace(text) ==> shown == []
  {
    var store := new LocalStorage(map[]);
    var app := new App(store, false);
    assert app.todos == [];
    app.SetInput(text);
    app.HandleAdd(id, now, false);
    app.ToggleComplete(id, false);
    if !AllSpace(text) {
      assert app.todos[0] == Todo(id, Trim(text), now, true);
    }
    LoadAfterSave(store.items, app.todos);
    var reloaded := new App(store, false);
    shown := reloaded.todos;
  }
}
