/** The todo store of the application (`TodoApp` over a `Vec<Todo>`): id
    allocation, insert, status update, soft delete and restore, hard delete,
    seeding, count, export to CSV text and load from it. */
module TodoStore {
  import opened Wrappers
  import opened Search
  import opened Text
  import opened Decimal
  import opened Timestamps
  import opened TodoData
  import opened CsvCodec

  /** The largest id held, as `iter().map(|todo| todo.id).max()` finds it. */
  function MaxId(s: seq<Todo>): (m: nat)
    requires s != []
    ensures forall i :: 0 <= i < |s| ==> s[i].id <= m
    ensures exists i :: 0 <= i < |s| && s[i].id == m
  {
    if |s| == 1 then s[0].id
    else
      var m := MaxId(s[1..]);
      assert forall i :: 1 <= i < |s| ==> s[i] == s[1..][i - 1];
      if s[0].id >= m then s[0].id else m
  }

  /** `generate_id`: 1 for an empty store, else one more than the largest id,
      so it is larger than every id in the store. */
  function NextId(s: seq<Todo>): (id: nat)
    ensures id >= 1
    ensures forall i :: 0 <= i < |s| ==> s[i].id < id
    ensures s == [] ==> id == 1
    ensures s != [] ==> exists i :: 0 <= i < |s| && s[i].id + 1 == id
  {
    if s == [] then 1 else MaxId(s) + 1
  }

  /** A fresh task: Draft, created and updated `now`, not deleted. */
  function NewTodo(id: nat, title: string, now: Timestamp): Todo
  {
    Todo(id, title, Draft, now, now, None)
  }

  /** Record `j` is the one `iter_mut().find(|item| item.id == id)` stops at. */
  predicate IsFirstMatch(s: seq<Todo>, id: nat, j: int)
  {
    0 <= j < |s| && s[j].id == id && forall k :: 0 <= k < j ==> s[k].id != id
  }

  /** `update_todo` on the store: the status of the first task with the id is
      flipped; every other task, and every other field, stays as it was. */
  function Toggled(s: seq<Todo>, id: nat): (r: seq<Todo>)
    ensures |r| == |s|
    ensures forall j :: 0 <= j < |s| ==>
      r[j] == if IsFirstMatch(s, id, j) then s[j].(status := Flip(s[j].status)) else s[j]
    ensures id !in Ids(s) ==> r == s
  {
    match IndexOf(Ids(s), id)
    case None => s
    case Some(i) => s[i := s[i].(status := Flip(s[i].status))]
  }

  /** Soft delete (`Some(now)`) and restore (`None`): `deletedAt` of the
      first task with the id is set; nothing else changes. */
  function WithDeletedAt(s: seq<Todo>, id: nat, d: Option<Timestamp>): (r: seq<Todo>)
    ensures |r| == |s|
    ensures forall j :: 0 <= j < |s| ==>
      r[j] == if IsFirstMatch(s, id, j) then s[j].(deletedAt := d) else s[j]
    ensures id !in Ids(s) ==> r == s
  {
    match IndexOf(Ids(s), id)
    case None => s
    case Some(i) => s[i := s[i].(deletedAt := d)]
  }

  /** `delete_todo` on the store: the first task with the id is removed and
      the others keep their order; with no such task nothing changes. */
  function Removed(s: seq<Todo>, id: nat): (r: seq<Todo>)
    ensures id !in Ids(s) ==> r == s
    ensures forall j :: IsFirstMatch(s, id, j) ==> r == s[..j] + s[j + 1..]
    ensures id in Ids(s) ==> |r| == |s| - 1
  {
    match IndexOf(Ids(s), id)
    case None => s
    case Some(i) => s[..i] + s[i + 1..]
  }

  function SeedTitle(i: nat): string
  {
    "Todo list " + ToDecimal(i)
  }

  lemma SeedTitleIsPlain(i: nat)
    ensures ',' !in SeedTitle(i) && '\n' !in SeedTitle(i)
  {
    var prefix := "Todo list ";
    assert forall k :: 0 <= k < |prefix| ==> prefix[k] != ',' && prefix[k] != '\n';
    var digits := ToDecimal(i);
    assert SeedTitle(i) == prefix + digits;
  }

  /** What `seed_todos` appends for the count `n`: the tasks with ids
      1 to n-1 in order (none for n <= 1), titled "Todo list {i}". */
  function Seeded(n: nat, now: Timestamp): (r: seq<Todo>)
    ensures |r| == if n >= 1 then n - 1 else 0
    ensures forall i :: 0 <= i < |r| ==> r[i] == NewTodo(i + 1, SeedTitle(i + 1), now)
  {
    if n <= 1 then [] else Seeded(n - 1, now) + [NewTodo(n - 1, SeedTitle(n - 1), now)]
  }

  /** Insert keeps the ids distinct: the new id is above all old ones. */
  lemma InsertKeepsIdsUnique(s: seq<Todo>, title: string, now: Timestamp)
    requires UniqueIds(s)
    ensures UniqueIds(s + [NewTodo(NextId(s), title, now)])
  {
    var r := s + [NewTodo(NextId(s), title, now)];
    forall i, j | 0 <= i < j < |r|
      ensures r[i].id != r[j].id
    {
      if j == |s| {
        assert r[i] == s[i];
      }
    }
  }

  /** Updating the same id twice gives back the original store. */
  lemma {:induction false} UpdateTwiceRestores(s: seq<Todo>, id: nat)
    ensures Toggled(Toggled(s, id), id) == s
  {
    var t := Toggled(s, id);
    var u := Toggled(t, id);
    forall j | 0 <= j < |s|
      ensures u[j] == s[j]
    {
      assert IsFirstMatch(t, id, j) <==> IsFirstMatch(s, id, j) by {
        assert forall k :: 0 <= k < |s| ==> t[k].id == s[k].id;
      }
    }
  }

  /** Soft delete then restore gives back the original store, provided the
      task was not soft-deleted before. */
  lemma {:induction false} SoftDeleteThenRestore(s: seq<Todo>, id: nat, now: Timestamp)
    requires forall j :: IsFirstMatch(s, id, j) ==> s[j].deletedAt.None?
    ensures WithDeletedAt(WithDeletedAt(s, id, Some(now)), id, None) == s
  {
    var t := WithDeletedAt(s, id, Some(now));
    var u := WithDeletedAt(t, id, None);
    forall j | 0 <= j < |s|
      ensures u[j] == s[j]
    {
      assert IsFirstMatch(t, id, j) <==> IsFirstMatch(s, id, j) by {
        assert forall k :: 0 <= k < |s| ==> t[k].id == s[k].id;
      }
    }
  }

  /** With distinct ids, hard delete removes the id from the store and keeps
      the remaining ids distinct. */
  lemma DeleteKeepsIdsUnique(s: seq<Todo>, id: nat)
    requires UniqueIds(s)
    ensures UniqueIds(Removed(s, id))
    ensures id !in Ids(Removed(s, id))
  {
    var r := Removed(s, id);
    match IndexOf(Ids(s), id)
    case None =>
    case Some(i) =>
      assert IsFirstMatch(s, id, i);
      assert r == s[..i] + s[i + 1..];
      assert forall k :: 0 <= k < |r| ==> r[k] == if k < i then s[k] else s[k + 1];
  }

  /** With ids 1..n in order, deleting the highest and inserting again hands
      out the deleted id once more: ids are not reserved after deletion. */
  lemma DeleteHighestThenInsertReusesId(s: seq<Todo>)
    requires s != []
    requires forall i :: 0 <= i < |s| ==> s[i].id == i + 1
    ensures NextId(Removed(s, |s|)) == |s|
  {
    assert IsFirstMatch(s, |s|, |s| - 1);
    var r := Removed(s, |s|);
    assert r == s[..|s| - 1];
    if r != [] {
      assert r[|r| - 1].id == |s| - 1;
    }
  }

  /** Seeding ignores the ids already present: a store holding id 1 has a
      duplicate id after seeding any count above 1. */
  lemma SeedCanDuplicateIds(s: seq<Todo>, n: nat, now: Timestamp)
    requires 1 in Ids(s)
    requires n >= 2
    ensures !UniqueIds(s + Seeded(n, now))
  {
    var j :| 0 <= j < |s| && Ids(s)[j] == 1;
    var r := s + Seeded(n, now);
    assert r[j].id == 1 && r[|s|].id == 1;
  }

  /** The seeded tasks survive an export and a load unchanged. */
  lemma SeedSurvivesExportAndLoad(n: nat, now: Timestamp)
    requires n <= USIZE_MAX
    ensures Decode(Encode(Seeded(n, now))) == Ok(Seeded(n, now))
  {
    var s := Seeded(n, now);
    forall i | 0 <= i < |s|
      ensures CsvSafe(s[i]) && Reloaded(s[i]) == s[i]
    {
      SeedTitleIsPlain(i + 1);
    }
    LoadAfterExport(s);
    var r := Decode(Encode(s)).value;
    assert forall i :: 0 <= i < |s| ==> r[i] == s[i];
    assert r == s;
  }

  /** `stdin` text for an id or a count, as `trim().parse::<usize>()` reads it. */
  function ParseNumberInput(line: string): Option<nat>
  {
    ParseUsize(Trim(line))
  }

  /** What each operation reports on the console. */
  datatype Report =
    | Added                  // the todo has been added
    | InvalidId              // the id typed was not a number
    | StatusUpdated(id: nat) // reported whether or not a task matched
    | SoftDeleted(id: nat)
    | Restored(id: nat)
    | Deleted(id: nat)
    | NoSuchTodo(id: nat)    // no task has the id
    | SeededTodos
    | InvalidCount           // the count typed was not a number

  class TodoApp {
    var todos: seq<Todo>

    /** `TodoApp::new`: an empty store. */
    constructor ()
      ensures todos == []
    {
      todos := [];
    }

    /** `add_todo`: appends the task as given. */
    method AddTodo(todo: Todo)
      modifies this
      ensures todos == old(todos) + [todo]
    {
      todos := todos + [todo];
    }

    /** `todos_len`: the number of tasks, soft-deleted ones included. */
    method TodosLen() returns (n: nat)
      ensures n == |todos|
    {
      n := |todos|;
    }

    /** `insert_todo`: appends a Draft task with the next id and the trimmed
        input line as its title. */
    method InsertTodo(line: string, now: Timestamp) returns (report: Report)
      modifies this
      ensures todos == old(todos) + [NewTodo(NextId(old(todos)), Trim(line), now)]
      ensures report == Added
    {
      var todo := NewTodo(NextId(todos), Trim(line), now);
      todos := todos + [todo];
      report := Added;
    }

    /** `update_todo`: flips the status of the first task with the typed id. */
    method UpdateTodo(line: string) returns (report: Report)
      modifies this
      ensures ParseNumberInput(line).None? ==> report == InvalidId && todos == old(todos)
      ensures ParseNumberInput(line).Some? ==>
        var id := ParseNumberInput(line).value;
        report == StatusUpdated(id) && todos == Toggled(old(todos), id)
    {
      match ParseNumberInput(line)
      case None =>
        report := InvalidId;
      case Some(id) =>
        var pos := FindIndex(Ids(todos), id);
        if pos.Some? {
          var i := pos.value;
          todos := todos[i := todos[i].(status := Flip(todos[i].status))];
        }
        report := StatusUpdated(id);
    }

    /** `soft_delete_todo`: stamps the first task with the typed id as deleted. */
    method SoftDeleteTodo(line: string, now: Timestamp) returns (report: Report)
      modifies this
      ensures ParseNumberInput(line).None? ==> report == InvalidId && todos == old(todos)
      ensures ParseNumberInput(line).Some? ==>
        var id := ParseNumberInput(line).value;
        && todos == WithDeletedAt(old(todos), id, Some(now))
        && report == if id in Ids(old(todos)) then SoftDeleted(id) else NoSuchTodo(id)
    {
      match ParseNumberInput(line)
      case None =>
        report := InvalidId;
      case Some(id) =>
        var pos := FindIndex(Ids(todos), id);
        if pos.Some? {
          var i := pos.value;
          todos := todos[i := todos[i].(deletedAt := Some(now))];
          report := SoftDeleted(id);
        } else {
          report := NoSuchTodo(id);
        }
    }

    /** `restore_todo`: clears the deletion stamp of the first task with the
        typed id. */
    method RestoreTodo(line: string) returns (report: Report)
      modifies this
      ensures ParseNumberInput(line).None? ==> report == InvalidId && todos == old(todos)
      ensures ParseNumberInput(line).Some? ==>
        var id := ParseNumberInput(line).value;
        && todos == WithDeletedAt(old(todos), id, None)
        && report == if id in Ids(old(todos)) then Restored(id) else NoSuchTodo(id)
    {
      match ParseNumberInput(line)
      case None =>
        report := InvalidId;
      case Some(id) =>
        var pos := FindIndex(Ids(todos), id);
        if pos.Some? {
          var i := pos.value;
          todos := todos[i := todos[i].(deletedAt := None)];
          report := Restored(id);
        } else {
          report := NoSuchTodo(id);
        }
    }

    /** `delete_todo`: removes the first task with the typed id. */
    method DeleteTodo(line: string) returns (report: Report)
      modifies this
      ensures ParseNumberInput(line).None? ==> report == InvalidId && todos == old(todos)
      ensures ParseNumberInput(line).Some? ==>
        var id := ParseNumberInput(line).value;
        && todos == Removed(old(todos), id)
        && report == if id in Ids(old(todos)) then Deleted(id) else NoSuchTodo(id)
    {
      match ParseNumberInput(line)
      case None =>
        report := InvalidId;
      case Some(id) =>
        var pos := FindIndex(Ids(todos), id);
        if pos.Some? {
          var i := pos.value;
          todos := todos[..i] + todos[i + 1..];
          report := Deleted(id);
        } else {
          report := NoSuchTodo(id);
        }
    }

    /** `seed_todos`: for the typed count n, appends the tasks 1 to n-1. */
    method SeedTodos(line: string, now: Timestamp) returns (report: Report)
      modifies this
      ensures ParseNumberInput(line).None? ==> report == InvalidCount && todos == old(todos)
      ensures ParseNumberInput(line).Some? ==>
        report == SeededTodos && todos == old(todos) + Seeded(ParseNumberInput(line).value, now)
    {
      match ParseNumberInput(line)
      case None =>
        report := InvalidCount;
      case Some(n) =>
        AppendSeeded(n, now);
        report := SeededTodos;
    }

    /** The `for i in 1..n` loop of `seed_todos`: one `add_todo` per step. */
    method AppendSeeded(n: nat, now: Timestamp)
      modifies this
      ensures todos == old(todos) + Seeded(n, now)
    {
      var i := 1;
      while i < n
        invariant 1 <= i <= if n >= 1 then n else 1
        invariant todos == old(todos) + Seeded(i, now)
      {
        var t := NewTodo(i, SeedTitle(i), now);
        AddTodo(t);
        assert Seeded(i + 1, now) == Seeded(i, now) + [t];
        Reassociate(old(todos), Seeded(i, now), [t]);
        i := i + 1;
      }
      assert Seeded(i, now) == Seeded(n, now);
    }

    /** The text `export_to_csv` writes to todos.csv: the header line, then
        each task's line in store order. */
    method ExportToCsv() returns (csv: string)
      ensures csv == Encode(todos)
    {
      csv := Header + "\n";
      var i := 0;
      while i < |todos|
        invariant 0 <= i <= |todos|
        invariant csv == Encode(todos[..i])
      {
        EncodeSnoc(todos[..i], todos[i]);
        assert todos[..i + 1] == todos[..i] + [todos[i]];
        csv := csv + Row(todos[i]) + "\n";
        i := i + 1;
      }
      assert todos[..i] == todos;
    }

    /** `load_from_file` given the file's contents (None when it cannot be
        read). A decode that fails leaves the store as it was (the program
        panics there); an empty decode changes nothing; otherwise the decoded
        tasks replace the whole store. `Ok(true)` reports a replacement. */
    method LoadFromFile(file: Option<string>) returns (r: Result<bool, LoadError>)
      modifies this
      ensures file.None? ==> r == Err(Unreadable) && todos == old(todos)
      ensures file.Some? && Decode(file.value).Err? ==>
        r == Err(Decode(file.value).error) && todos == old(todos)
      ensures file.Some? && Decode(file.value).Ok? ==>
        var loaded := Decode(file.value).value;
        && r == Ok(loaded != [])
        && todos == if loaded != [] then loaded else old(todos)
    {
      match file
      case None =>
        r := Err(Unreadable);
      case Some(text) =>
        match Decode(text)
        case Err(e) =>
          r := Err(e);
        case Ok(loaded) =>
          if |loaded| > 0 {
            todos := loaded;
          }
          r := Ok(loaded != []);
    }
  }

  /** Seeding five on a new store, exporting and loading the export gives four
      Draft tasks with ids 1 to 4 and the seeded titles. */
  method SeedExportLoad(now: Timestamp) returns (loaded: seq<Todo>, r: Result<bool, LoadError>)
    ensures r == Ok(true)
    ensures |loaded| == 4
    ensures forall i :: 0 <= i < 4 ==>
      loaded[i].id == i + 1 && loaded[i].status == Draft && loaded[i].title == SeedTitle(i + 1)
  {
    FiveTyped();
    var app := new TodoApp();
    var _ := app.SeedTodos("5\n", now);
    ghost var seeded := app.todos;
    assert seeded == Seeded(5, now);
    var csv := app.ExportToCsv();
    SeedSurvivesExportAndLoad(5, now);
    assert Decode(csv) == Ok(seeded);
    r := app.LoadFromFile(Some(csv));
    loaded := app.todos;
    assert loaded == seeded;
  }

  lemma FiveTyped()
    ensures ParseNumberInput("5\n") == Some(5)
  {
    var typed, digit := "5\n", "5";
    assert typed[0] == '5' && typed[1] == '\n' && typed[..1] == digit;
    assert TrimStart(typed) == typed;
    assert TrimEnd(typed) == TrimEnd(digit) == digit;
    assert Trim(typed) == digit;
    assert AllDigits(digit) && ValueOf(digit) == 5;
  }
}
