/**
 * The list transformations of the to-do component: the trimming of the
 * pending input, and the new list each handler passes to setTodos (append,
 * toggle by id, delete by id, clear).
 */
module TodoList {
  import opened Storage

  // ---------------------------------------------------------------------
  // input.trim()

  /**
   * The characters String.prototype.trim removes: ECMAScript's WhiteSpace
   * (tab, vertical tab, form feed, space, no-break space, byte order mark and
   * the other space separators) and LineTerminator (LF, CR, U+2028, U+2029).
   */
  predicate IsSpace(c: char) {
    || c == '\t' || c == '\n' || c as int == 0x0B || c as int == 0x0C || c == '\r' || c == ' '
    || c as int == 0xA0 || c as int == 0x1680 || 0x2000 <= c as int <= 0x200A
    || c as int == 0x2028 || c as int == 0x2029 || c as int == 0x202F || c as int == 0x205F
    || c as int == 0x3000 || c as int == 0xFEFF
  }

  predicate AllSpace(s: string) {
    forall i :: 0 <= i < |s| ==> IsSpace(s[i])
  }

  /** The first index at or after i that does not hold whitespace (|s| if there is none). */
  function SkipLeading(s: string, i: nat): (k: nat)
    requires i <= |s|
    ensures i <= k <= |s|
    ensures forall j :: i <= j < k ==> IsSpace(s[j])
    ensures k < |s| ==> !IsSpace(s[k])
    decreases |s| - i
  {
    if i < |s| && IsSpace(s[i]) then SkipLeading(s, i + 1) else i
  }

  /** The end of s[lo..hi] once its trailing whitespace is dropped. */
  function SkipTrailing(s: string, lo: nat, hi: nat): (e: nat)
    requires lo <= hi <= |s|
    ensures lo <= e <= hi
    ensures forall j :: e <= j < hi ==> IsSpace(s[j])
    ensures lo < e ==> !IsSpace(s[e - 1])
    decreases hi
  {
    if lo < hi && IsSpace(s[hi - 1]) then SkipTrailing(s, lo, hi - 1) else hi
  }

  /**
   * s without its leading and trailing whitespace: the part of s that lies
   * between two runs of whitespace and neither starts nor ends with whitespace.
   */
  function Trim(s: string): (r: string)
    ensures r == [] <==> AllSpace(s)
    ensures r != [] ==> !IsSpace(r[0]) && !IsSpace(r[|r| - 1])
    ensures var a := SkipLeading(s, 0);
      && a + |r| <= |s| && r == s[a..a + |r|]
      && (forall j :: 0 <= j < a ==> IsSpace(s[j]))
      && (forall j :: a + |r| <= j < |s| ==> IsSpace(s[j]))
  {
    var a := SkipLeading(s, 0);
    var e := SkipTrailing(s, a, |s|);
    assert AllSpace(s) ==> a == |s|;
    s[a..e]
  }

  /** Trim leaves s as it is exactly when s neither starts nor ends with whitespace. */
  lemma {:induction false} TrimUnchanged(s: string)
    ensures Trim(s) == s <==> s == [] || (!IsSpace(s[0]) && !IsSpace(s[|s| - 1]))
  {
    if s != [] && !IsSpace(s[0]) && !IsSpace(s[|s| - 1]) {
      assert SkipLeading(s, 0) == 0;
      assert SkipTrailing(s, 0, |s|) == |s|;
      assert s[0..|s|] == s;
    }
  }

  lemma {:induction false} TrimIdempotent(s: string)
    ensures Trim(Trim(s)) == Trim(s)
  {
    TrimUnchanged(Trim(s));
  }

  // ---------------------------------------------------------------------
  // Ids and the list invariant

  function Ids(todos: seq<Todo>): set<string> {
    set t | t in todos :: t.id
  }

  /** No two items share an id (the React key of each row). */
  predicate UniqueIds(todos: seq<Todo>) {
    forall i, j :: 0 <= i < j < |todos| ==> todos[i].id != todos[j].id
  }

  /**
   * A stored text is non-empty and already trimmed: it neither starts nor
   * ends with whitespace (TrimUnchanged: then Trim gives it back unchanged).
   */
  predicate Tidy(t: Todo) {
    t.text != [] && !IsSpace(t.text[0]) && !IsSpace(t.text[|t.text| - 1])
  }

  /** The invariant of a list built by the handlers: unique ids and tidy texts. */
  predicate ListInvariant(todos: seq<Todo>) {
    UniqueIds(todos) && forall i :: 0 <= i < |todos| ==> Tidy(todos[i])
  }

  // ---------------------------------------------------------------------
  // handleAdd: [...todos, newTodo]

  /** The item handleAdd creates from the pending input, an id and the clock. */
  function NewTodo(input: string, id: string, now: int): (t: Todo)
    ensures t.id == id && t.createdAt == now && !t.completed
    ensures t.text == Trim(input)
    ensures t.text == [] <==> AllSpace(input)
    ensures t.text != [] ==> Tidy(t) && Trim(t.text) == t.text
  {
    TrimIdempotent(input);
    Todo(id, Trim(input), now, false)
  }

  lemma {:induction false} AppendKeepsInvariant(todos: seq<Todo>, t: Todo)
    requires ListInvariant(todos) && Tidy(t) && t.id !in Ids(todos)
    ensures ListInvariant(todos + [t])
  {
    var r := todos + [t];
    forall i, j | 0 <= i < j < |r|
      ensures r[i].id != r[j].id
    {
      if j == |todos| {
        assert r[i] in todos;
      }
    }
  }

  // ---------------------------------------------------------------------
  // toggleComplete: todos.map(todo => todo.id === id ? {...todo, completed: !todo.completed} : todo)

  function ToggledItem(t: Todo, id: string): Todo {
    if t.id == id then t.(completed := !t.completed) else t
  }

  /** The list toggleComplete(id) sets: every item whose id matches has its flag flipped. */
  function Toggled(todos: seq<Todo>, id: string): (r: seq<Todo>)
    ensures |r| == |todos|
    ensures forall i :: 0 <= i < |todos| ==>
      && r[i].id == todos[i].id && r[i].text == todos[i].text && r[i].createdAt == todos[i].createdAt
      && r[i].completed == (todos[i].completed != (todos[i].id == id))
  {
    if todos == [] then [] else [ToggledItem(todos[0], id)] + Toggled(todos[1..], id)
  }

  /** Toggling the same id twice gives back the original list. */
  lemma {:induction false} ToggleTwice(todos: seq<Todo>, id: string)
    ensures Toggled(Toggled(todos, id), id) == todos
  {
    var r := Toggled(Toggled(todos, id), id);
    assert forall i :: 0 <= i < |todos| ==> r[i] == todos[i];
  }

  /** Toggling an id that no item has changes nothing. */
  lemma {:induction false} ToggleMissing(todos: seq<Todo>, id: string)
    requires id !in Ids(todos)
    ensures Toggled(todos, id) == todos
  {
    var r := Toggled(todos, id);
    forall i | 0 <= i < |todos|
      ensures r[i] == todos[i]
    {
      assert todos[i] in todos;
    }
  }

  /** With unique ids, toggling flips the one item that has the id and nothing else. */
  lemma {:induction false} ToggleOne(todos: seq<Todo>, k: nat)
    requires UniqueIds(todos) && k < |todos|
    ensures Toggled(todos, todos[k].id) == todos[k := todos[k].(completed := !todos[k].completed)]
  {
    var r := Toggled(todos, todos[k].id);
    assert forall i :: 0 <= i < |todos| && i != k ==> todos[i].id != todos[k].id;
  }

  lemma {:induction false} ToggledKeepsInvariant(todos: seq<Todo>, id: string)
    requires ListInvariant(todos)
    ensures ListInvariant(Toggled(todos, id)) && Ids(Toggled(todos, id)) == Ids(todos)
  {
    var r := Toggled(todos, id);
    assert forall i :: 0 <= i < |todos| ==> r[i].text == todos[i].text;
    forall x | x in Ids(r)
      ensures x in Ids(todos)
    {
      var i :| 0 <= i < |r| && r[i].id == x;
      assert todos[i] in todos;
    }
    forall x | x in Ids(todos)
      ensures x in Ids(r)
    {
      var i :| 0 <= i < |todos| && todos[i].id == x;
      assert r[i] in r;
    }
  }

  // ---------------------------------------------------------------------
  // handleDelete: todos.filter(todo => todo.id !== id)

  /** The list handleDelete(id) sets: the items whose id differs, in their order. */
  function Deleted(todos: seq<Todo>, id: string): (r: seq<Todo>)
    ensures |r| <= |todos|
    ensures forall t :: t in r <==> t in todos && t.id != id
  {
    if todos == [] then []
    else (if todos[0].id == id then [] else [todos[0]]) + Deleted(todos[1..], id)
  }

  /** Deleting works item by item: it commutes with concatenation, so the kept items keep their order. */
  lemma {:induction false} DeletedAppend(a: seq<Todo>, b: seq<Todo>, id: string)
    ensures Deleted(a + b, id) == Deleted(a, id) + Deleted(b, id)
  {
    if a != [] {
      assert (a + b)[1..] == a[1..] + b;
      DeletedAppend(a[1..], b, id);
    } else {
      assert a + b == b;
    }
  }

  /** Deleting an id that no item has changes nothing. */
  lemma {:induction false} DeleteMissing(todos: seq<Todo>, id: string)
    requires id !in Ids(todos)
    ensures Deleted(todos, id) == todos
  {
    if todos != [] {
      assert todos[0] in todos;
      assert Ids(todos[1..]) <= Ids(todos) by {
        forall x | x in Ids(todos[1..]) ensures x in Ids(todos) {
          var t :| t in todos[1..] && t.id == x;
          assert t in todos;
        }
      }
      DeleteMissing(todos[1..], id);
      assert [todos[0]] + todos[1..] == todos;
    }
  }

  /** With unique ids, deleting removes exactly the one item that has the id. */
  lemma {:induction false} DeleteOne(todos: seq<Todo>, k: nat)
    requires UniqueIds(todos) && k < |todos|
    ensures Deleted(todos, todos[k].id) == todos[..k] + todos[k + 1..]
  {
    var id := todos[k].id;
    var pre, post := todos[..k], todos[k + 1..];
    OthersHaveOtherIds(todos, k);
    assert todos == pre + ([todos[k]] + post);
    assert Deleted([todos[k]], id) == [] by {
      assert [todos[k]][1..] == [];
    }
    calc {
      Deleted(todos, id);
      { DeletedAppend(pre, [todos[k]] + post, id); }
      Deleted(pre, id) + Deleted([todos[k]] + post, id);
      { DeletedAppend([todos[k]], post, id); }
      Deleted(pre, id) + ([] + Deleted(post, id));
      { DeleteMissing(pre, id); DeleteMissing(post, id); }
      pre + ([] + post);
      { assert [] + post == post; }
      pre + post;
    }
  }

  /** With unique ids, the items before and after position k do not have its id. */
  lemma {:induction false} OthersHaveOtherIds(todos: seq<Todo>, k: nat)
    requires UniqueIds(todos) && k < |todos|
    ensures todos[k].id !in Ids(todos[..k]) && todos[k].id !in Ids(todos[k + 1..])
  {
    forall t | t in todos[..k]
      ensures t.id != todos[k].id
    {
      var i :| 0 <= i < k && todos[..k][i] == t;
    }
    forall t | t in todos[k + 1..]
      ensures t.id != todos[k].id
    {
      var i :| 0 <= i < |todos| - k - 1 && todos[k + 1..][i] == t;
      assert todos[k + 1 + i] == t;
    }
  }

  lemma {:induction false} DeletedKeepsInvariant(todos: seq<Todo>, id: string)
    requires ListInvariant(todos)
    ensures ListInvariant(Deleted(todos, id)) && Ids(Deleted(todos, id)) <= Ids(todos)
  {
    DeletedUnique(todos, id);
    DeletedIds(todos, id);
    var r := Deleted(todos, id);
    forall i | 0 <= i < |r|
      ensures Tidy(r[i])
    {
      assert r[i] in todos;
    }
  }

  /** Deleting keeps ids unique: the kept items keep their order and no two of them shared an id. */
  lemma {:induction false} DeletedUnique(todos: seq<Todo>, id: string)
    requires UniqueIds(todos)
    ensures UniqueIds(Deleted(todos, id))
  {
    if todos != [] {
      var rest := todos[1..];
      assert UniqueIds(rest) by {
        forall i, j | 0 <= i < j < |rest| ensures rest[i].id != rest[j].id {
          assert rest[i] == todos[i + 1] && rest[j] == todos[j + 1];
        }
      }
      DeletedUnique(rest, id);
      if todos[0].id != id {
        OthersHaveOtherIds(todos, 0);
        DeletedIds(rest, id);
        ConsUnique(todos[0], Deleted(rest, id));
      }
    }
  }

  lemma {:induction false} DeletedIds(todos: seq<Todo>, id: string)
    ensures Ids(Deleted(todos, id)) <= Ids(todos)
  {
    forall x | x in Ids(Deleted(todos, id))
      ensures x in Ids(todos)
    {
      var t :| t in Deleted(todos, id) && t.id == x;
      assert t in todos;
    }
  }

  /** An item whose id is not yet in a list of unique ids can go in front of it. */
  lemma {:induction false} ConsUnique(t: Todo, todos: seq<Todo>)
    requires UniqueIds(todos) && t.id !in Ids(todos)
    ensures UniqueIds([t] + todos)
  {
    var r := [t] + todos;
    forall i, j | 0 <= i < j < |r|
      ensures r[i].id != r[j].id
    {
      assert r[j] == todos[j - 1];
      if i == 0 {
        assert todos[j - 1] in todos;
      } else {
        assert r[i] == todos[i - 1];
      }
    }
  }
}
