# To-do list with local persistence — a Dafny model

This project models the core of a single-page to-do app. The app is a React component, `App`, with two state cells:

- `todos`: the list of items.
- `input`: the pending text of the input field.

Each handler replaces the list with a new one:

- add: append an item with the trimmed text;
- toggle: flip `completed` on the item with a given id;
- delete: drop the items with a given id;
- clear all: empty the list.

An effect saves the list to the browser's `localStorage` whenever the list changes, including once after the first render. On mount the list is read back with `loadTodos`. The persistence adapter keeps the list under the fixed key `"todos"` as the JSON text of an array of records `{id, text, createdAt, completed}`:

- `loadTodos` returns `[]` when the key is absent, holds an empty string, or does not parse.
- `saveTodos` swallows a failed write.

The model has four modules, one file each:

- `json.dfy`, module `Json`: a JSON value type with a serializer that follows `JSON.stringify` and a parser for the `JSON.parse` subset the stored text uses. The round trip `Parse(Serialize(j)) == Some(j)` is proved for every value.
- `storage.dfy`, module `Storage`:
  - the `Todo` record and the storage key;
  - the JSON form of a list, and the reading of a parsed value back as a list;
  - `Loaded` and `Saved`, which describe what `loadTodos` returns for a store and what a store holds after `saveTodos`;
  - `LoadedTodos`, the load the component is modelled with (see "## Findings");
  - the class `LocalStorage`, a map from keys to strings, whose methods `LoadTodos` and `SaveTodos` are proved against `Loaded` and `Saved`.
- `todo_list.dfy`, module `TodoList`: `String.prototype.trim` (the ECMAScript whitespace set) and the list transformations the handlers pass to `setTodos`. Each transformation comes with lemmas:
  - toggling twice is the identity;
  - a missing id changes nothing;
  - with unique ids, toggle and delete touch exactly one position;
  - they keep the invariant "ids unique, texts non-empty and trimmed".
- `app.dfy`, module `TodoApp`: the class `App` with the `todos` and `input` fields, the mount (load, then save) and the handlers. Every handler that calls `setTodos` ends with the save, as the effect does. The method `CompletionSurvivesReload` proves one scenario for every text, id and time: add, complete, then remount on the same store, and the item is still completed.

Inputs from outside the component are parameters:

- `id`: the value of `crypto.randomUUID()`;
- `now`: the value of `Date.now()`;
- `writeFails`: whether `localStorage.setItem` throws.

Three points about the code as it stands:

- **No shape check on load.** `loadTodos` returns any text that parses as it is, whatever its shape (src/storage.ts:13). "## Findings" shows what that does to the component.
- **Clear All always shown.** Clear All is always rendered (src/App.tsx:67-69), so clearing an empty list still saves `[]`.
- **No completed counter.** src/App.test.tsx:223-301 expects a `completed-count` element, but src/App.tsx never renders one.

## Model

| member | source | states |
|---|---|---|
| Json.Serialize | src/storage.ts:21 | the text `JSON.stringify` writes is never empty and never starts with whitespace; its first character tells which kind of value it is (literal, number, string, array or object) |
| Json.Parse | src/storage.ts:13-16 | text made of JSON whitespace alone, the empty text included, is rejected, as `JSON.parse` throws on it and `loadTodos` falls back to `[]` |
| Json.RoundTrip | src/storage.ts:13-21 | parsing the text `JSON.stringify` writes for any value gives that value back |
| Json.ValueRoundTrip | src/storage.ts:13-21 | a serialized value followed by text that is empty or does not start with a digit parses back to the value, leaving exactly that text |
| Json.StringRoundTrip | src/storage.ts:13-21 | an escaped string (quotes, backslashes, control characters) followed by a closing quote parses back to the original string |
| Json.IntRoundTrip | src/storage.ts:13-21 | the decimal text of an integer timestamp, negative ones included, parses back to the same number, when what follows does not start with a digit |
| Json.NatText | src/storage.ts:21 | the text of a number is a non-empty run of digits with no leading zero unless the number is 0 |
| Storage.TodoFromJson | src/storage.ts:3-8 | a parsed value is read as a record only when it is exactly that record's JSON form |
| Storage.TodosFromJson | src/App.tsx:6 | a parsed value is read as a list of records only when it is exactly that list's JSON form, records in order |
| Storage.RecordsRoundTrip | src/storage.ts:3-8 | reading the records of a list's JSON form back as to-do items gives the list |
| Storage.Encode | src/storage.ts:21 | the saved text is never empty (it starts with `[`), so the falsy check in `loadTodos` never discards a saved list; `JSON.parse` reads the list's JSON form back from it |
| Storage.DecodeEncode | src/storage.ts:13-21 | the saved text parses, and the parsed value reads back as the same list, field by field |
| Storage.Loaded | src/storage.ts:10-17 | `loadTodos` returns either `[]` or exactly the parse of the stored text; whenever the stored text parses, it returns that parse (the falsy check hides no text that parses) |
| Storage.Saved | src/storage.ts:19-25 | a failed write leaves the store as it was; other keys are never touched; after a successful write `loadTodos` reads the list back |
| Storage.LoadAfterSave | src/storage.ts:10-21 | after a successful save, `loadTodos` returns exactly the saved list, and so does the corrected load |
| Storage.LoadReadsOnlyItsKey | src/storage.ts:1-12 | writing any other key of the store does not change what `loadTodos` returns |
| Storage.LoadedTodos | src/storage.ts:10-17 | the corrected load: a stored value that is not a list of records gives `[]`; a stored value that is a list of records loads as exactly that list, records in order |
| Storage.NullLoadsAsIs | src/storage.ts:13 | stored text `null` makes `loadTodos` return null, not a list, while the corrected load gives `[]` |
| Storage.LocalStorage.LoadTodos | src/storage.ts:10-17 | `[]` when the key is absent, its text is empty or the text does not parse; otherwise the parsed value as it is; the store is not written |
| Storage.LocalStorage.SaveTodos | src/storage.ts:19-25 | on success the key holds `JSON.stringify(todos)`; a failed write leaves the store unchanged and raises nothing; other keys never change |
| TodoList.Trim | src/App.tsx:15 | the result is empty exactly when the input is all whitespace; otherwise it neither starts nor ends with whitespace; it is the slice of the input between a whitespace prefix and a whitespace suffix |
| TodoList.TrimUnchanged | src/App.tsx:15 | trimming leaves a text unchanged exactly when the text is empty or neither starts nor ends with whitespace |
| TodoList.TrimIdempotent | src/App.tsx:15 | trimming twice is the same as trimming once |
| TodoList.NewTodo | src/App.tsx:15-23 | the new item has the given id and timestamp and is not completed; its text is the trimmed input; that text is empty exactly when the input is all whitespace, and otherwise is non-empty and already trimmed |
| TodoList.AppendKeepsInvariant | src/App.tsx:18-25 | appending a tidy item with a fresh id keeps ids unique and texts tidy |
| TodoList.Toggled | src/App.tsx:35-41 | same length; every item keeps its id, text and timestamp; `completed` flips exactly on the items whose id matches |
| TodoList.ToggleTwice | src/App.tsx:35-41 | toggling the same id twice gives the original list back |
| TodoList.ToggleMissing | src/App.tsx:35-41 | toggling an id no item has leaves the list as it is |
| TodoList.ToggleOne | src/App.tsx:35-41 | with unique ids, toggling the id at position k changes only position k, flipping its `completed` |
| TodoList.ToggledKeepsInvariant | src/App.tsx:35-41 | toggling keeps ids unique, texts tidy and the set of ids the same |
| TodoList.Deleted | src/App.tsx:43-45 | an item is in the result exactly when it was in the list and its id differs; the list never grows |
| TodoList.DeletedAppend | src/App.tsx:43-45 | deleting from a concatenation deletes from each part, order preserved |
| TodoList.DeleteMissing | src/App.tsx:43-45 | deleting an id no item has leaves the list as it is |
| TodoList.DeleteOne | src/App.tsx:43-45 | with unique ids, deleting the id at position k removes exactly position k and keeps the rest in order |
| TodoList.DeletedKeepsInvariant | src/App.tsx:43-45 | deleting keeps ids unique and texts tidy, and adds no id |
| TodoApp.App.constructor | src/App.tsx:6-12 | the input starts empty; the list starts as the corrected load of the store; the effect's first run then saves it |
| TodoApp.App.SetInput | src/App.tsx:59 | the input becomes the typed value; the list and the store stay as they are |
| TodoApp.App.HandleAdd | src/App.tsx:14-27 | a blank input changes nothing; otherwise one item with the trimmed text, the given id and timestamp and `completed == false` is appended, the input is cleared and the list is saved; the invariant is kept for a fresh id |
| TodoApp.App.HandleKeyDown | src/App.tsx:29-33 | Enter behaves exactly like Add; any other key changes nothing |
| TodoApp.App.ToggleComplete | src/App.tsx:35-41 | the list becomes its toggled form, the input stays, the store then holds the new list unless the write fails, and the invariant is kept |
| TodoApp.App.HandleDelete | src/App.tsx:43-45 | the list loses the items with that id, the input stays, the store then holds the new list unless the write fails, and the invariant is kept |
| TodoApp.App.HandleClearAll | src/App.tsx:47-49 | the list becomes empty whatever it held, and `[]` is saved unless the write fails |
| TodoApp.CompletionSurvivesReload | src/App.test.tsx:421-445 | for every text, id and time: after add, toggle and a remount on the same store, the list shown is the one item with the trimmed text, completed; for a blank text it is empty |

## Findings

| source | as written | input that shows it | evidently intended | confidence | as-written member | corrected member |
|---|---|---|---|---|---|---|
| src/storage.ts:13 | `loadTodos` returns whatever `JSON.parse` yields. src/App.tsx:6 keeps it as the list, and the first render calls `todos.map` on it (src/App.tsx:73) | stored text `null` (also `{}`, `42`, `"x"`; `[null]` fails at `todo.id`, src/App.tsx:75) | a stored value that is not a list of to-do records loads as `[]`, as text that does not parse does (src/storage.ts:14-15, src/App.test.tsx:458-467) | not executed; high | Storage.NullLoadsAsIs | Storage.LoadedTodos |

## Left out

- **Rendering:** the JSX, styles, the list markup and the empty-state text are not modelled.
- **Effect scheduling:** React's state batching and effect scheduling are not modelled. Each handler that calls `setTodos` saves at its end, which is when the effect runs for the new list.
- **Outside inputs:** `crypto.randomUUID()` and `Date.now()` are not modelled. Their values are the handler parameters `id` and `now`, so nothing is proved about ids being fresh. Uniqueness is proved for a fresh id only.
- **Storage errors:** the kinds of `localStorage` failure (quota, disabled storage, a throwing `getItem`) are not modelled. A write failure is the `writeFails` flag. Reads do not fail in the model.
- **JSON numbers:** the parser accepts integers only, with no fraction and no exponent. That covers the stored timestamps. `JSON.stringify`'s exponent form for magnitudes of 1e21 and above and the rounding of numbers above 2^53 are not modelled.
- **Strings:** strings are sequences of Unicode scalar values, not UTF-16 code units. A `\u` escape that names a surrogate is rejected rather than paired.
- **JSON grammar:** the parser skips JSON whitespace between tokens. Inputs that only the full grammar would accept, such as fractions and surrogate pairs, parse as failures.
- **Json.Parse** keeps an object's members in text order, repeated keys included. `JSON.parse` instead keeps only the last value of a repeated key and puts integer-like keys first. So for stored text with repeated or reordered keys, **Storage.Loaded** is not the value src/storage.ts:13 returns. For example, a record with `"completed":false,"completed":true` is a completed item in the source but no record in the model.
- **TodoApp.App.constructor:** it starts from the corrected load (see "## Findings"), not from the value `loadTodos` returns.
  - Where the stored value parses but is not an array, or the array holds `null`, or an element's `text` is a non-null object (or an array holding one), the source's first render throws, and nothing is committed or saved. The object case throws because React refuses a plain object as the child of the `<span>` at src/App.tsx:98. The model starts from `[]` and saves it.
  - Where the stored value is an array of non-null values that are not exactly this model's records, the source keeps and re-saves it. The model starts from `[]`. Such an array could hold primitive values such as `[1]` or `["a"]` (where `todo.id` reads as `undefined` and nothing throws), objects with other member orders, extra or missing members, or fields of other types whose `text` React can render (a string, number, boolean, `null`, or an array of those).
- **Storage.TodosFromJson:** it accepts a record only with exactly the four members in the order `JSON.stringify` writes them. A hand-written store with other member orders or extra members is read as "not a list of records".
- **Completed counter:** not modelled, because the component has none.
- **Clear All visibility:** not modelled, because the button is always rendered.
