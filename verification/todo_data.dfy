/** The records of the todo store: `Status` and `Todo`. */
module TodoData {
  import opened Wrappers
  import opened Timestamps

  datatype Status = Draft | Completed

  /** The status update swaps in: Draft becomes Completed and back. */
  function Flip(st: Status): (r: Status)
    ensures r != st
  {
    match st
    case Draft => Completed
    case Completed => Draft
  }

  /** `Display` for `Status`, which writes the variant's name. */
  function StatusText(st: Status): (s: string)
    ensures s == "Draft" <==> st == Draft
  {
    match st
    case Draft => "Draft"
    case Completed => "Completed"
  }

  /** One task. `deletedAt` is None while the task is active and the instant
      of its soft deletion otherwise. */
  datatype Todo = Todo(
    id: nat,
    title: string,
    status: Status,
    createdAt: Timestamp,
    updatedAt: Timestamp,
    deletedAt: Option<Timestamp>)

  /** The ids of the records, in store order. */
  function Ids(s: seq<Todo>): (r: seq<nat>)
    ensures |r| == |s|
    ensures forall i :: 0 <= i < |s| ==> r[i] == s[i].id
  {
    seq(|s|, i requires 0 <= i < |s| => s[i].id)
  }

  predicate UniqueIds(s: seq<Todo>)
  {
    forall i, j :: 0 <= i < j < |s| ==> s[i].id != s[j].id
  }
}
