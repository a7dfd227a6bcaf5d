# Todo CLI store and CSV codec, modelled in Dafny

This project models the in-memory core of a command-line todo-list manager
written in Rust. The model covers:

- The application's store, `TodoApp` over a `Vec<Todo>` (`src/todo_app/todo.rs`). It does id
  allocation (largest id plus one), insert, status toggle, soft delete and
  restore, hard delete, seeding and count.
- The same store's CSV export (`export_to_csv`) and the line decoder of `load_from_file`.
- The earlier store in `src/todo.rs`. Its ids are the length plus one, and an id it cannot parse counts as 0.
- The two `Choice::try_from` menu decoders.

Each store is a `class` whose field `todos: seq<Todo>` the methods reassign,
as `push`, `iter_mut().find` and `remove` do in the source. Every method's
`ensures` ties the new `todos` to a specification function of the old one
(`Toggled`, `WithDeletedAt`, `Removed`, `Seeded`, `Encode`, `Decode`). The
properties are lemmas about those functions. Lookups by id go through one
loop, `Search.FindIndex`, which is proved to stop at the first match
(`Search.IndexOf`).

Inputs read from stdin are method parameters holding the line as
`read_line` returns it. The model parses each line the way the code does:
`trim` (Unicode whitespace) then `parse::<usize>()`, which takes an optional
`+`, needs ASCII digits and refuses values above 2^64-1. Other modelling
choices:

- Clock readings (`Utc::now()`) are a `now` parameter.
- The file's contents are an `Option<string>` parameter.
- The process-ending `unwrap` panics of `load_from_file` are `Err(LoadError)`
  results, and the store is then left as it was.

Timestamps (`DateTime<Utc>`) are modelled as a tick count. Their text is the
decimal tick count and their parser reads such text back (`Timestamps`).
What the codec relies on is proved rather than assumed:

- the text is never empty;
- it holds no comma and no line break;
- parsing inverts rendering.

The decoder accepts a line with more than six fields and ignores the extra
ones. It re-reads `deleted_at` from the fifth (UpdatedAt) column (see
"## Findings").

## Model

| member | source | states |
|---|---|---|
| Search.IndexOf | src/todo_app/todo.rs:187 | the first index holding the id, none before it holds it; None exactly when no element holds it |
| Search.FindIndex | src/todo_app/todo.rs:109 | the linear scan returns exactly the first match `IndexOf` describes |
| Text.IsWhitespace | src/todo_app/todo.rs:82 | definition, no contract: the characters `char::is_whitespace` accepts, i.e. Unicode White_Space |
| Text.Trim | src/todo_app/todo.rs:82 | the result is a stretch of the input with only whitespace before and after it (`WhitespaceAround`), and it neither starts nor ends with whitespace; an input with no whitespace at either end is returned as is |
| Text.TrimStart | src/todo_app/todo.rs:101 | drops exactly the leading whitespace (a suffix of the input) |
| Text.TrimEnd | src/todo_app/todo.rs:101 | drops exactly the trailing whitespace (a prefix of the input) |
| Text.Split | src/todo_app/todo.rs:300 | at least one piece, and no piece holds the separator |
| Text.JoinSplit | src/todo_app/todo.rs:300 | joining the pieces back with the separator gives the input: splitting loses nothing |
| Text.SplitJoin | src/todo_app/todo.rs:300 | splitting a join of separator-free pieces gives back those pieces |
| Text.SplitConcat | src/todo_app/todo.rs:300 | splitting `a + sep + b` is splitting `a` followed by splitting `b` |
| Text.SplitJoinCount | src/todo_app/todo.rs:300 | a join splits into at least as many pieces, and into more when one piece holds the separator |
| Text.Lines | src/todo_app/todo.rs:297 | no line holds a line feed; no lines exactly for the empty text |
| Text.LinesFirst | src/todo_app/todo.rs:297 | a line terminated by a line feed (and not ending in a carriage return) is the first line, the rest follow |
| Text.JoinLast | src/todo_app/todo.rs:263-264 | a join ends with the separator and the last piece |
| Text.JoinAvoids | src/todo_app/todo.rs:263-264 | joining introduces no character other than the separator |
| Text.JoinSix | src/todo_app/todo.rs:263-264 | the join of six fields spelled out |
| Decimal.ToDecimal | src/todo_app/todo.rs:265 | `{}` of a number: non-empty digits, with a leading zero only for zero |
| Decimal.ValueOfToDecimal | src/todo_app/todo.rs:265 | the digits printed denote the number printed |
| Decimal.ParseUsize | src/todo_app/todo.rs:101 | succeeds only on an optional `+` then digits, with a value of at most 2^64-1; on digits, with or without one leading `+`, it succeeds exactly when the value fits and then returns the value of the digits |
| Decimal.ParseUsizeToDecimal | src/todo_app/todo.rs:302 | parsing a printed id that fits in a `usize` gives the id back |
| Timestamps.Render | src/todo_app/todo.rs:268-269 | a timestamp's text is non-empty digits: no comma, no line break |
| Timestamps.Parse | src/todo_app/todo.rs:309-310 | succeeds exactly on non-empty digit strings |
| Timestamps.ParseRender | src/todo_app/todo.rs:309-310 | parsing inverts rendering |
| TodoData.Flip | src/todo_app/todo.rs:110-117 | the update swaps Draft and Completed (the result always differs) |
| TodoData.StatusText | src/todo_app/todo.rs:15-19 | the text is "Draft" exactly for Draft |
| CsvCodec.Header | src/todo_app/todo.rs:260 | definition, no contract: the header line naming the six columns |
| CsvCodec.HeaderIsOneLine | src/todo_app/todo.rs:260 | the header is a single line not ending in a carriage return |
| CsvCodec.DeletedField | src/todo_app/todo.rs:270-273 | the last column is empty exactly when the task is not soft-deleted |
| CsvCodec.Fields | src/todo_app/todo.rs:263-274 | six columns, the second the title, the last empty exactly for an active task |
| CsvCodec.Row | src/todo_app/todo.rs:263-274 | definition, no contract: a task's line, its six columns joined with commas (spelled out by `RowText`) |
| CsvCodec.RowText | src/todo_app/todo.rs:263-274 | a line is id, title, status, created, updated and deleted columns separated by commas, with no quoting |
| CsvCodec.Rows | src/todo_app/todo.rs:262-276 | definition, no contract: each task's line followed by a line feed, in store order |
| CsvCodec.Encode | src/todo_app/todo.rs:260-276 | definition, no contract: the header, a line feed, then the tasks' lines (properties in `EncodeSnoc`, `BodyOfEncode`, `LoadAfterExport`) |
| CsvCodec.EncodeSnoc | src/todo_app/todo.rs:262-276 | exporting one more task appends exactly its line and a line feed |
| CsvCodec.RowsSnoc | src/todo_app/todo.rs:262-276 | the body grows by the new task's line at the end: store order is kept |
| CsvCodec.RowFields | src/todo_app/todo.rs:263-274 | with no comma in the title a line splits into exactly its six columns; the last is empty exactly when `deleted_at` is None |
| CsvCodec.CommaInTitleAddsFields | src/todo_app/todo.rs:263-274 | a comma in the title gives the line more than six fields |
| CsvCodec.RowIsOneLine | src/todo_app/todo.rs:263-264 | with no line feed in the title a line is one line, not ending in a carriage return |
| CsvCodec.IdOrZero | src/todo_app/todo.rs:302 | an id column that does not parse as `usize` becomes 0 |
| CsvCodec.DecodeLine | src/todo_app/todo.rs:299-317 | fails for fewer than six fields or a malformed timestamp in column 4 or 5, and only then; on success: title from field 2, Draft exactly for the text "Draft", `deleted_at` present exactly when field 6 is non-empty and then equal to `updated_at` |
| CsvCodec.DecodeLineIntended | src/todo_app/todo.rs:311-315 | corrected decoder: on success there are at least six fields, `deleted_at` is absent exactly when field 6 is empty, and otherwise it is field 6 parsed |
| CsvCodec.DecodeRows | src/todo_app/todo.rs:299-318 | succeeds exactly when every line decodes, then yields one task per line in order |
| CsvCodec.Body | src/todo_app/todo.rs:297-298 | all lines but the header |
| CsvCodec.Reloaded | src/todo_app/todo.rs:311-315 | a reloaded task is soft-deleted exactly when the exported one was |
| CsvCodec.DecodeRow | src/todo_app/todo.rs:299-317 | a task's own line decodes to that task, with `deleted_at` replaced by `updated_at` (corrected decoder: the task itself) |
| CsvCodec.LinesOfRows | src/todo_app/todo.rs:297 | the exported body has exactly one line per task, in order |
| CsvCodec.BodyOfEncode | src/todo_app/todo.rs:297-298 | after skipping the header, the exported text's lines are the tasks' lines |
| CsvCodec.Decode | src/todo_app/todo.rs:295-318 | definition, no contract: `DecodeRows` with `DecodeLine` over the lines after the header |
| CsvCodec.DecodeIntended | src/todo_app/todo.rs:295-318 | definition, no contract: the same with the corrected `DecodeLineIntended` |
| CsvCodec.LoadAfterExport | src/todo_app/todo.rs:259-323 | loading an export of tasks with comma-free, single-line titles and `usize` ids gives the same tasks in the same order, with `deleted_at` replaced by `updated_at` where present |
| CsvCodec.LoadIntendedAfterExport | src/todo_app/todo.rs:311-312 | with the corrected decoder the load gives back exactly the exported tasks |
| CsvCodec.LoadLosesDeletionInstant | src/todo_app/todo.rs:311-312 | as written, a task soft-deleted at an instant other than its `updated_at` does not come back as exported |
| CsvCodec.CommaInTitleDoesNotRoundTrip | src/todo_app/todo.rs:263-264 | a title holding a comma never comes back: the load fails or yields another title |
| TodoStore.MaxId | src/todo_app/todo.rs:65 | the largest id: held by some task and not exceeded by any |
| TodoStore.NextId | src/todo_app/todo.rs:64-70 | 1 for an empty store, otherwise some id plus one and larger than every id |
| TodoStore.NewTodo | src/todo_app/todo.rs:80-87 | definition, no contract: a Draft, active task created and updated at `now` |
| TodoStore.ParseNumberInput | src/todo_app/todo.rs:101 | definition, no contract: `trim().parse::<usize>()` of a typed line, i.e. `ParseUsize(Trim(line))` |
| TodoStore.Toggled | src/todo_app/todo.rs:109-118 | only the first task with the id changes, and only its status, which flips; no match leaves the store as it was |
| TodoStore.WithDeletedAt | src/todo_app/todo.rs:141-146 | only the first task with the id changes, and only its `deleted_at`; no match leaves the store as it was |
| TodoStore.Removed | src/todo_app/todo.rs:187-192 | the first task with the id is cut out and the rest keep their order; length drops by one; no match changes nothing |
| TodoStore.Seeded | src/todo_app/todo.rs:243-254 | n-1 tasks (none for n at most 1), the i-th with id i, title "Todo list i", Draft, not deleted |
| TodoStore.SeedTitle | src/todo_app/todo.rs:246 | definition, no contract: "Todo list " followed by the number in decimal |
| TodoStore.SeedTitleIsPlain | src/todo_app/todo.rs:246 | seeded titles hold no comma and no line feed |
| TodoStore.InsertKeepsIdsUnique | src/todo_app/todo.rs:80-89 | appending a task with the next id keeps the ids distinct |
| TodoStore.UpdateTwiceRestores | src/todo_app/todo.rs:109-118 | toggling the same id twice gives back the original store |
| TodoStore.SoftDeleteThenRestore | src/todo_app/todo.rs:141-169 | soft delete then restore gives back the original store when the task was active |
| TodoStore.DeleteKeepsIdsUnique | src/todo_app/todo.rs:187-188 | with distinct ids, hard delete removes the id and keeps the rest distinct |
| TodoStore.DeleteHighestThenInsertReusesId | src/todo_app/todo.rs:64-70 | with ids 1..n, deleting id n makes n the next id again |
| TodoStore.SeedCanDuplicateIds | src/todo_app/todo.rs:243-254 | seeding a store that holds id 1 with a count above 1 duplicates an id |
| TodoStore.SeedSurvivesExportAndLoad | src/todo_app/todo.rs:243-254 | seeded tasks come back unchanged from an export and a load |
| TodoStore.TodoApp.constructor | src/todo_app/todo.rs:52-54 | a new store is empty |
| TodoStore.TodoApp.AddTodo | src/todo_app/todo.rs:56-58 | appends the task as given |
| TodoStore.TodoApp.TodosLen | src/todo_app/todo.rs:60-62 | the number of tasks, soft-deleted ones included |
| TodoStore.TodoApp.InsertTodo | src/todo_app/todo.rs:72-92 | appends one Draft, active task with the next id and the trimmed line as title; earlier tasks unchanged |
| TodoStore.TodoApp.UpdateTodo | src/todo_app/todo.rs:94-124 | unparseable id: nothing changes; otherwise the store becomes `Toggled` and success is reported even with no match |
| TodoStore.TodoApp.SoftDeleteTodo | src/todo_app/todo.rs:126-147 | unparseable id: nothing changes; otherwise `deleted_at` of the first match becomes `now`, reported as done or as missing |
| TodoStore.TodoApp.RestoreTodo | src/todo_app/todo.rs:149-170 | unparseable id: nothing changes; otherwise `deleted_at` of the first match is cleared, reported as done or as missing |
| TodoStore.TodoApp.DeleteTodo | src/todo_app/todo.rs:172-193 | unparseable id: nothing changes; otherwise the store becomes `Removed`, reported as done or as missing |
| TodoStore.TodoApp.SeedTodos | src/todo_app/todo.rs:228-257 | unparseable count: nothing changes; otherwise the tasks `Seeded(n)` describes are appended after the existing ones |
| TodoStore.TodoApp.AppendSeeded | src/todo_app/todo.rs:243-254 | the loop appends exactly the tasks `Seeded(n)` describes, ids 1 to n-1 in order, after the existing ones |
| TodoStore.TodoApp.ExportToCsv | src/todo_app/todo.rs:259-276 | the text built line by line is `Encode` of the store |
| TodoStore.TodoApp.LoadFromFile | src/todo_app/todo.rs:294-324 | unreadable file or failed decode: an error and the store unchanged; an empty decode changes nothing; otherwise the decoded tasks replace the store |
| TodoStore.SeedExportLoad | src/todo_app/todo.rs:228-257 | seeding 5 on a new store, exporting and loading gives four Draft tasks with ids 1 to 4 and the seeded titles |
| LegacyTodo.Flip | src/todo.rs:64-71 | the update swaps Draft and Completed |
| LegacyTodo.RequestedId | src/todo.rs:58-61 | the parsed id, or 0 when the input does not parse |
| LegacyTodo.Toggled | src/todo.rs:63-72 | only the first task with the id changes, and only its status; no match changes nothing |
| LegacyTodo.Removed | src/todo.rs:92-94 | the first task with the id is cut out, the rest keep their order; no match changes nothing |
| LegacyTodo.UpdateTwiceRestores | src/todo.rs:63-72 | toggling the same id twice gives back the original list |
| LegacyTodo.InsertAfterDeleteCanDuplicate | src/todo.rs:41 | with ids 1..n, deleting any but the last task and inserting reuses an id still held |
| LegacyTodo.TodoApp.constructor | src/todo.rs:27-29 | a store holding the given tasks |
| LegacyTodo.TodoApp.InsertTodo | src/todo.rs:32-49 | appends a Draft task with id = old length + 1 and the line, untrimmed, as title; earlier tasks unchanged |
| LegacyTodo.TodoApp.UpdateTodo | src/todo.rs:51-78 | the list becomes `Toggled` for the requested id (0 when unparseable); success is always reported |
| LegacyTodo.TodoApp.DeleteTodo | src/todo.rs:80-100 | the list becomes `Removed` for the requested id (0 when unparseable); deletion is always reported |
| AppMenu.Discriminant | src/todo_app/menu.rs:16-28 | each choice's implicit discriminant, its position in the menu (0 to 10) |
| AppMenu.TryFrom | src/todo_app/menu.rs:33-48 | Ok exactly for 0 to 10, with the choice of that discriminant; every other byte gives "Invalid value: {v}" |
| AppMenu.TryFromDiscriminant | src/todo_app/menu.rs:34-45 | every choice is decoded from its own number |
| AppMenu.ZeroIsExit | src/todo_app/menu.rs:35 | 0 decodes to Exit |
| AppMenu.TryFromInjective | src/todo_app/menu.rs:34-45 | distinct accepted numbers decode to distinct choices |
| LegacyMenu.Discriminant | src/menu.rs:11-18 | the explicit discriminants, Exit = 0 to DisplayMenu = 5 |
| LegacyMenu.TryFrom | src/menu.rs:23-33 | Ok exactly for 0 to 5, with the choice whose declared discriminant is the value; every other byte gives "Invalid value: {v}" |
| LegacyMenu.TryFromDiscriminant | src/menu.rs:24-30 | every choice is decoded from its declared discriminant |
| LegacyMenu.TryFromInjective | src/menu.rs:24-30 | distinct accepted numbers decode to distinct choices |

## Left out

- Console I/O: prompts, `println!`/`eprintln!` messages and `read_line` are not modelled. Inputs are parameters and messages are `Report` values. A failing `read_line` (`expect`) is not modelled.
- `list_todos` in both stores and the `display_menu` printers: display only, through the `cli_table` library.
- File I/O: `export_to_csv` returns the text it would write; failures to create or write todos.csv only print and change nothing. `load_from_file` receives the file's contents, or None when it cannot be read.
- Chrono's date-time text format: timestamps are tick counts written in decimal. Only what the codec needs is kept: non-empty text without commas or line breaks, and a parser that inverts the renderer.
- Clock readings: each operation receives one `now`. The code reads `Utc::now()` separately for `created_at` and `updated_at`, so those two may differ by a few nanoseconds there.
- Panics: a `load_from_file` panic (unreadable file, missing field, malformed timestamp) is `Err(LoadError)` with the store unchanged. The program itself ends at that point.
- TodoStore.NextId: ids are unbounded naturals, so the overflow of `max_id + 1` at the largest `usize` (a panic or a wrap to 0) is not modelled. Such an id can only come from a loaded file.
- LegacyTodo.TodoApp.constructor: `src/todo.rs` has no constructor; the model builds the store from a list as the struct literal does.
- The dispatch loops of `src/main.rs` and `src/todo_app.rs` are not part of this model. They do not build against the menus shown: `src/todo_app.rs:45` uses `Choice::CountTodo`, which `src/todo_app/menu.rs` does not declare, and `src/main.rs` calls `new`, `seed_todos` and `export_to_csv`, which `src/todo.rs` lacks.

## Findings

| source | as written | input that shows it | evidently intended | confidence | as-written member | corrected member |
|---|---|---|---|---|---|---|
| src/todo_app/todo.rs:311-312 | a non-empty DeletedAt column is reloaded by parsing the UpdatedAt column (`fields[4]`) | a task with `updated_at` = 1 and `deleted_at` = Some(2), exported then loaded, comes back with `deleted_at` = Some(1) | parse `fields[5]`, so an exported store reloads unchanged | high for the discrepancy, medium that it is unintended; not executed | CsvCodec.LoadLosesDeletionInstant | CsvCodec.LoadIntendedAfterExport |

`TodoStore.TodoApp.LoadFromFile` keeps the decoder as written, because it
models what the program does. The corrected `CsvCodec.DecodeLineIntended`
differs only in the column it reads, and `CsvCodec.DecodeRow` proves its
exact round trip line by line.
