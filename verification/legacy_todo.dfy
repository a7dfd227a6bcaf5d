/** The earlier todo store (`src/todo.rs`): insert, status update and delete
    over a `Vec<Todo>` of id, title and status. Its ids are the length plus
    one at insertion time, and an id it cannot parse counts as 0. */
module LegacyTodo {
  import opened Wrappers
  import opened Search
  import opened Text
  import opened Decimal

  datatype Status = Draft | Completed

  function Flip(st: Status): (r: Status)
    ensures r != st
  {
    match st
    case Draft => Completed
    case Completed => Draft
  }

  datatype Todo = Todo(id: nat, title: string, status: Status)

  function Ids(s: seq<Todo>): (r: seq<nat>)
    ensures |r| == |s|
    ensures forall i :: 0 <= i < |s| ==> r[i] == s[i].id
  {
    seq(|s|, i requires 0 <= i < |s| => s[i].id)
  }

  predicate UniqueIds(s: seq<Todo>)
  {
    forall i, j :: 0 <= i < j < |s| ==> s[i].id != s[j].id
  }

  predicate IsFirstMatch(s: seq<Todo>, id: nat, j: int)
  {
    0 <= j < |s| && s[j].id == id && forall k :: 0 <= k < j ==> s[k].id != id
  }

  /** The id typed for update and delete: what `trim().parse::<usize>()`
      reads, and 0 when that fails. */
  function RequestedId(line: string): (id: nat)
    ensures ParseUsize(Trim(line)).None? ==> id == 0
    ensures ParseUsize(Trim(line)).Some? ==> id == ParseUsize(Trim(line)).value
  {
    match ParseUsize(Trim(line))
    case Some(n) => n
    case None => 0
  }

  /** The status of the first task with the id flipped; all else unchanged. */
  function Toggled(s: seq<Todo>, id: nat): (r: seq<Todo>)
    ensures |r| == |s|
    ensures forall j :: 0 <= j < |s| ==>
      r[j] == if IsFirstMatch(s, id, j) then s[j].(status := Flip(s[j].status)) else s[j]
    ensures id !in Ids(s) ==> r == s
  {
    match IndexOf(Ids(s), id)
    case None => s
    case Some(i) => s[i := s[i].(status := Flip(s[i].status))]
  }

  /** The first task with the id removed, the others in their order. */
  function Removed(s: seq<Todo>, id: nat): (r: seq<Todo>)
    ensures id !in Ids(s) ==> r == s
    ensures forall j :: IsFirstMatch(s, id, j) ==> r == s[..j] + s[j + 1..]
    ensures id in Ids(s) ==> |r| == |s| - 1
  {
    match IndexOf(Ids(s), id)
    case None => s
    case Some(i) => s[..i] + s[i + 1..]
  }

  /** Updating the same id twice gives back the original list. */
  lemma {:induction false} UpdateTwiceRestores(s: seq<Todo>, id: nat)
    ensures Toggled(Toggled(s, id), id) == s
  {
    var t := Toggled(s, id);
    var u := Toggled(t, id);
    forall j | 0 <= j < |s|
      ensures u[j] == s[j]
    {
      assert IsFirstMatch(t, id, j) <==> IsFirstMatch(s, id, j) by {
        assert forall k :: 0 <= k < |s| ==> t[k].id == s[k].id;
      }
    }
  }

  /** With ids 1..n in order, deleting any task but the last and then
      inserting hands out an id that is still in use. */
  lemma InsertAfterDeleteCanDuplicate(s: seq<Todo>, k: nat, title: string)
    requires forall i :: 0 <= i < |s| ==> s[i].id == i + 1
    requires 1 <= k < |s|
    ensures !UniqueIds(Removed(s, k) + [Todo(|Removed(s, k)| + 1, title, Draft)])
  {
    assert IsFirstMatch(s, k, k - 1);
    assert s[|s| - 1].id == |s|;
    InsertClashesWithLast(s, k, k - 1, title);
  }

  /** Once the first task with `id` (not the last) is gone, the next insert
      takes the id of the old last task when that id is the old length. */
  lemma InsertClashesWithLast(s: seq<Todo>, id: nat, j: nat, title: string)
    requires IsFirstMatch(s, id, j) && j < |s| - 1
    requires s[|s| - 1].id == |s|
    ensures !UniqueIds(Removed(s, id) + [Todo(|Removed(s, id)| + 1, title, Draft)])
  {
    var r := Removed(s, id);
    LastSurvives(s, id, j);
    DuplicateAt(r + [Todo(|r| + 1, title, Draft)], |r| - 1, |r|);
  }

  /** Removing a task other than the last keeps the last one last. */
  lemma LastSurvives(s: seq<Todo>, id: nat, j: nat)
    requires IsFirstMatch(s, id, j) && j < |s| - 1
    ensures |Removed(s, id)| == |s| - 1
    ensures Removed(s, id)[|s| - 2] == s[|s| - 1]
  {
    var r := Removed(s, id);
    assert r == s[..j] + s[j + 1..];
    assert r[|s| - 2] == s[j + 1..][|s| - 2 - j];
  }

  /** Two tasks sharing an id break uniqueness. */
  lemma DuplicateAt(t: seq<Todo>, i: nat, j: nat)
    requires i < j < |t| && t[i].id == t[j].id
    ensures !UniqueIds(t)
  {
  }

  /** What the store prints; update and delete report success whether or
      not a task matched. */
  datatype Report = Added | StatusUpdated(id: nat) | Deleted(id: nat)

  class TodoApp {
    var todos: seq<Todo>

    /** The struct literal `TodoApp { todos }`. */
    constructor (todos: seq<Todo>)
      ensures this.todos == todos
    {
      this.todos := todos;
    }

    /** `insert_todo`: appends a Draft task whose id is the length plus one
        and whose title is the input line exactly as read. */
    method InsertTodo(line: string) returns (report: Report)
      modifies this
      ensures todos == old(todos) + [Todo(|old(todos)| + 1, line, Draft)]
      ensures report == Added
    {
      todos := todos + [Todo(|todos| + 1, line, Draft)];
      report := Added;
    }

    /** `update_todo`: flips the status of the first task with the id. */
    method UpdateTodo(line: string) returns (report: Report)
      modifies this
      ensures todos == Toggled(old(todos), RequestedId(line))
      ensures report == StatusUpdated(RequestedId(line))
    {
      var id := RequestedId(line);
      var pos := FindIndex(Ids(todos), id);
      if pos.Some? {
        var i := pos.value;
        todos := todos[i := todos[i].(status := Flip(todos[i].status))];
      }
      report := StatusUpdated(id);
    }

    /** `delete_todo`: removes the first task with the id. */
    method DeleteTodo(line: string) returns (report: Report)
      modifies this
      ensures todos == Removed(old(todos), RequestedId(line))
      ensures report == Deleted(RequestedId(line))
    {
      var id := RequestedId(line);
      var pos := FindIndex(Ids(todos), id);
      if pos.Some? {
        var i := pos.value;
        todos := todos[..i] + todos[i + 1..];
      }
      report := Deleted(id);
    }
  }
}
