/**
 * The persistence adapter: the to-do record, the fixed storage key, and
 * `loadTodos`/`saveTodos` over a synchronous key-value store (the browser's
 * localStorage). The store is a map from keys to strings; the list is kept
 * under one key as the JSON text of an array of records.
 */
module Storage {
  import opened Wrappers
  import opened Json

  /** The one key the list is kept under. */
  const StorageKey: string := "todos"

  /** One to-do item. `createdAt` is a timestamp in milliseconds. */
  datatype Todo = Todo(id: string, text: string, createdAt: int, completed: bool)

  // ---------------------------------------------------------------------
  // The JSON form of the list

  /** The object JSON.stringify writes for a record: its four members, in declaration order. */
  function TodoToJson(t: Todo): Json {
    JObj([
      Field("id", JStr(t.id)),
      Field("text", JStr(t.text)),
      Field("createdAt", JNum(t.createdAt)),
      Field("completed", JBool(t.completed))
    ])
  }

  /** The array JSON.stringify writes for a list: one record per item, in order. */
  function TodosToJson(todos: seq<Todo>): Json {
    JArr(seq(|todos|, i requires 0 <= i < |todos| => TodoToJson(todos[i])))
  }

  /**
   * Reads a parsed value as a record. The source performs no such check:
   * None only says that the value is not a record of this model. A value
   * that is read as a record is exactly that record's JSON form.
   */
  function TodoFromJson(j: Json): (r: Option<Todo>)
    ensures r.Some? ==> j == TodoToJson(r.value)
  {
    match j
    case JObj(fs) =>
      if && |fs| == 4
         && fs[0].key == "id" && fs[0].value.JStr?
         && fs[1].key == "text" && fs[1].value.JStr?
         && fs[2].key == "createdAt" && fs[2].value.JNum?
         && fs[3].key == "completed" && fs[3].value.JBool?
      then
        var t := Todo(fs[0].value.s, fs[1].value.s, fs[2].value.n, fs[3].value.b);
        assert fs == TodoToJson(t).fields;
        Some(t)
      else None
    case _ => None
  }

  function ItemsToTodos(items: seq<Json>): (r: Option<seq<Todo>>)
    ensures r.Some? ==> |r.value| == |items|
    ensures r.Some? ==> forall i :: 0 <= i < |items| ==> items[i] == TodoToJson(r.value[i])
  {
    if items == [] then Some([])
    else
      match (TodoFromJson(items[0]), ItemsToTodos(items[1..]))
      case (Some(t), Some(ts)) =>
        assert forall i :: 1 <= i < |items| ==> items[i] == items[1..][i - 1];
        Some([t] + ts)
      case _ => None
  }

  /**
   * Reads a parsed value as a list of records; None where it is not one. A
   * value that is read as a list is exactly that list's JSON form.
   */
  function TodosFromJson(j: Json): (r: Option<seq<Todo>>)
    ensures r.Some? ==> j == TodosToJson(r.value)
  {
    match j
    case JArr(items) =>
      var r := ItemsToTodos(items);
      assert r.Some? ==> items == TodosToJson(r.value).items;
      r
    case _ => None
  }

  /**
   * The text saveTodos writes: JSON.stringify(todos). It is never empty (it
   * starts with `[`), so the falsy check in loadTodos never discards it, and
   * JSON.parse reads the list's JSON form back from it.
   */
  function Encode(todos: seq<Todo>): (r: string)
    ensures r != [] && r[0] == '['
    ensures Parse(r) == Some(TodosToJson(todos))
  {
    RoundTrip(TodosToJson(todos));
    Serialize(TodosToJson(todos))
  }

  lemma {:induction false} RecordsRoundTrip(todos: seq<Todo>)
    ensures ItemsToTodos(TodosToJson(todos).items) == Some(todos)
  {
    if todos != [] {
      var items := TodosToJson(todos).items;
      assert items[1..] == TodosToJson(todos[1..]).items;
      RecordsRoundTrip(todos[1..]);
      assert [todos[0]] + todos[1..] == todos;
    }
  }

  /** Parsing the stored text and reading it as a list gives back the list, in order and field by field. */
  lemma {:induction false} DecodeEncode(todos: seq<Todo>)
    ensures Parse(Encode(todos)).Some?
    ensures TodosFromJson(Parse(Encode(todos)).value) == Some(todos)
  {
    RecordsRoundTrip(todos);
  }

  // ---------------------------------------------------------------------
  // loadTodos and saveTodos as functions of the store's contents

  /**
   * The value loadTodos returns for a store: `[]` when the key is absent or
   * its text is empty (a falsy string) or fails to parse, and otherwise the
   * parsed value as it is. The falsy check hides no text that parses.
   */
  function Loaded(items: map<string, string>): (r: Json)
    ensures r == JArr([]) || (StorageKey in items && Parse(items[StorageKey]) == Some(r))
    ensures StorageKey in items && Parse(items[StorageKey]).Some? ==> r == Parse(items[StorageKey]).value
  {
    if StorageKey !in items || items[StorageKey] == "" then JArr([])
    else
      match Parse(items[StorageKey])
      case None => JArr([])
      case Some(j) => j
  }

  /**
   * The store after saveTodos: the key set to the list's text, or unchanged
   * when the write fails. Other keys are never touched, and after a
   * successful write loadTodos reads the list back.
   */
  function Saved(items: map<string, string>, todos: seq<Todo>, writeFails: bool): (r: map<string, string>)
    ensures writeFails ==> r == items
    ensures forall k :: k != StorageKey ==> (k in r <==> k in items)
    ensures forall k :: k != StorageKey && k in r ==> r[k] == items[k]
    ensures !writeFails ==> TodosFromJson(Loaded(r)) == Some(todos)
  {
    if writeFails then items
    else
      var r := items[StorageKey := Encode(todos)];
      LoadAfterSave(r, todos);
      r
  }

  /** Reload after a successful save: loadTodos returns the saved list, in order and field by field. */
  lemma {:induction false} LoadAfterSave(items: map<string, string>, todos: seq<Todo>)
    requires StorageKey in items && items[StorageKey] == Encode(todos)
    ensures Loaded(items) == TodosToJson(todos)
    ensures TodosFromJson(Loaded(items)) == Some(todos)
    ensures LoadedTodos(items) == todos
  {
    DecodeEncode(todos);
  }

  /** Whatever else the store holds does not change what loadTodos returns. */
  lemma {:induction false} LoadReadsOnlyItsKey(items: map<string, string>, key: string, value: string)
    requires key != StorageKey
    ensures Loaded(items[key := value]) == Loaded(items)
  {
    assert StorageKey in items[key := value] <==> StorageKey in items;
  }

  /**
   * The list a component should start from: the stored list when the stored
   * value is a list of records, and `[]` for anything else, as for text that
   * does not parse. loadTodos as written hands any parsed value on unchecked
   * (NullLoadsAsIs); this is the load the component is modelled with.
   */
  function LoadedTodos(items: map<string, string>): (r: seq<Todo>)
    ensures TodosFromJson(Loaded(items)).None? ==> r == []
    ensures TodosFromJson(Loaded(items)).Some? ==> TodosToJson(r) == Loaded(items)
  {
    match TodosFromJson(Loaded(items))
    case Some(todos) => todos
    case None => []
  }

  /**
   * Stored text `null` parses, so loadTodos returns null, not a list: the
   * component's first render then calls `map` on null. The corrected load
   * starts from the empty list instead.
   */
  lemma {:induction false} NullLoadsAsIs()
    ensures Loaded(map[StorageKey := "null"]) == JNull
    ensures LoadedTodos(map[StorageKey := "null"]) == []
  {
    var s := "null";
    assert SkipWs(s) == s;
    assert s[..4] == "null" && s[4..] == [];
    assert ParseValue(s) == Some((JNull, []));
  }

  // ---------------------------------------------------------------------
  // The store

  /** The browser's key-value store, holding strings under string keys. */
  class LocalStorage {
    var items: map<string, string>

    constructor (initial: map<string, string>)
      ensures items == initial
    {
      items := initial;
    }

    /** loadTodos: reads the key; never writes, never fails. */
    method LoadTodos() returns (j: Json)
      ensures StorageKey !in items ==> j == JArr([])
      ensures StorageKey in items && items[StorageKey] == "" ==> j == JArr([])
      ensures StorageKey in items && Parse(items[StorageKey]).None? ==> j == JArr([])
      ensures StorageKey in items && items[StorageKey] != "" && Parse(items[StorageKey]).Some? ==>
                j == Parse(items[StorageKey]).value
      ensures j == Loaded(items)
    {
      if StorageKey !in items {
        return JArr([]);
      }
      var stored := items[StorageKey];
      if stored == "" {
        return JArr([]);
      }
      match Parse(stored)
      case None =>
        j := JArr([]);
      case Some(v) =>
        j := v;
    }

    /**
     * saveTodos: writes the list's text under the key. When the store rejects
     * the write (`writeFails`: quota exceeded, storage unavailable) nothing
     * changes and no error reaches the caller.
     */
    method SaveTodos(todos: seq<Todo>, writeFails: bool)
      modifies this
      ensures writeFails ==> items == old(items)
      ensures !writeFails ==> StorageKey in items && items[StorageKey] == Encode(todos)
      ensures forall k :: k != StorageKey ==> (k in items <==> k in old(items))
      ensures forall k :: k != StorageKey && k in items ==> items[k] == old(items)[k]
      ensures items == Saved(old(items), todos, writeFails)
    {
      if !writeFails {
        items := items[StorageKey := Encode(todos)];
      }
    }
  }
}
