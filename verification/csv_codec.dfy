/** The CSV text the store exports (`export_to_csv`) and the decoder of
    `load_from_file`. Fields are joined with commas and never quoted. */
module CsvCodec {
  import opened Wrappers
  import opened Text
  import opened Decimal
  import opened Timestamps
  import opened TodoData

  /** The header line, naming the six columns in the order every line
      lists its fields. */
  const Header: string := "ID," + "Title," + "Status," + "CreatedAt," + "UpdatedAt," + "DeletedAt"

  lemma HeaderIsOneLine()
    ensures '\n' !in Header && Header[|Header| - 1] != '\r'
  {
    assert '\n' !in "ID," && '\n' !in "Title,";
    assert '\n' !in "Status," && '\n' !in "CreatedAt,";
    assert '\n' !in "UpdatedAt," && '\n' !in "DeletedAt";
  }

  /** The last column: empty for an active task. */
  function DeletedField(d: Option<Timestamp>): (s: string)
    ensures s == "" <==> d.None?
  {
    match d
    case None => ""
    case Some(t) => Render(t)
  }

  /** The six columns of a task, in header order. */
  function Fields(t: Todo): (f: seq<string>)
    ensures |f| == 6 && f[1] == t.title
    ensures f[5] == "" <==> t.deletedAt.None?
  {
    [ToDecimal(t.id), t.title, StatusText(t.status), Render(t.createdAt),
     Render(t.updatedAt), DeletedField(t.deletedAt)]
  }

  /** One exported line, without its line feed: the six columns separated by
      commas, nothing quoted or escaped. */
  function Row(t: Todo): string
  {
    Join(Fields(t), ',')
  }

  /** The line spelled out, as the `format!` call writes it. */
  lemma RowText(t: Todo)
    ensures Row(t) ==
      ToDecimal(t.id) + "," + t.title + "," + StatusText(t.status) + ","
      + Render(t.createdAt) + "," + Render(t.updatedAt) + "," + DeletedField(t.deletedAt)
  {
    var f := Fields(t);
    JoinSix(f[0], f[1], f[2], f[3], f[4], f[5], ',');
  }

  /** The exported lines of `ts`, each followed by a line feed, in store order. */
  function Rows(ts: seq<Todo>): string
  {
    if ts == [] then "" else Row(ts[0]) + "\n" + Rows(ts[1..])
  }

  /** The whole exported text: the header line, then one line per task. */
  function Encode(ts: seq<Todo>): string
  {
    Header + "\n" + Rows(ts)
  }

  /** Exporting one more task appends its line to the text. */
  lemma EncodeSnoc(ts: seq<Todo>, t: Todo)
    ensures Encode(ts + [t]) == Encode(ts) + Row(t) + "\n"
  {
    RowsSnoc(ts, t);
  }

  lemma {:induction false} RowsSnoc(ts: seq<Todo>, t: Todo)
    ensures Rows(ts + [t]) == Rows(ts) + Row(t) + "\n"
  {
    if ts != [] {
      var a, x, r := Row(ts[0]) + "\n", Rows(ts[1..]), Row(t);
      calc {
        Rows(ts + [t]);
      == { assert (ts + [t])[0] == ts[0]; assert (ts + [t])[1..] == ts[1..] + [t]; }
        a + Rows(ts[1..] + [t]);
      == { RowsSnoc(ts[1..], t); }
        a + (x + r + "\n");
      == { Reassociate(a, x + r, "\n"); Reassociate(a, x, r); }
        a + x + r + "\n";
      }
    } else {
      assert Rows([t][1..]) == "";
    }
  }

  /** What a task needs for its line to read back: no comma and no line feed
      in the title, and an id a `usize` can hold. */
  predicate CsvSafe(t: Todo)
  {
    ',' !in t.title && '\n' !in t.title && t.id <= USIZE_MAX
  }

  /** Each exported line of a task without a comma in its title splits into
      exactly its six columns; the last is empty exactly for active tasks. */
  lemma RowFields(t: Todo)
    requires ',' !in t.title
    ensures Split(Row(t), ',') == Fields(t)
    ensures |Split(Row(t), ',')| == 6
    ensures Split(Row(t), ',')[5] == "" <==> t.deletedAt.None?
  {
    var f := Fields(t);
    forall i | 0 <= i < 6
      ensures ',' !in f[i]
    {
    }
    SplitJoin(f, ',');
  }

  /** A comma in the title adds columns to the line: the row no longer has
      exactly six fields. */
  lemma CommaInTitleAddsFields(t: Todo)
    requires ',' in t.title
    ensures |Split(Row(t), ',')| > 6
  {
    SplitJoinCount(Fields(t), ',', 1);
  }

  /** The line an exported task occupies never spans two lines and never
      ends in a carriage return. */
  lemma RowIsOneLine(t: Todo)
    requires '\n' !in t.title
    ensures '\n' !in Row(t)
    ensures Row(t) != [] && Row(t)[|Row(t)| - 1] != '\r'
  {
    var f := Fields(t);
    forall i | 0 <= i < |f|
      ensures '\n' !in f[i]
    {
      if i != 1 && i != 2 {
        assert AllDigits(f[i]);
      }
    }
    JoinAvoids(f, ',', '\n');
    JoinLast(f, ',');
  }

  /** Why loading failed: the code unwraps, so each of these ends the program. */
  datatype LoadError =
    | Unreadable            // reading todos.csv failed
    | MissingField(index: nat)  // the line has no field at `index`
    | BadTimestamp(index: nat)  // the field at `index` is not a timestamp

  function IdOrZero(s: string): (id: nat)
    ensures ParseUsize(s).None? ==> id == 0
    ensures ParseUsize(s).Some? ==> id == ParseUsize(s).value
  {
    match ParseUsize(s)
    case Some(n) => n
    case None => 0
  }

  /** The decoder `load_from_file` maps over the lines, taking its steps in the
      order the struct's fields are evaluated: the id (0 when unparseable),
      the title, the status (Draft only for the exact text "Draft"), the two
      timestamps, and `deletedAt`, which is present when the sixth field is
      non-empty and then holds the instant of the fifth (UpdatedAt) field. */
  function DecodeLine(line: string): (r: Result<Todo, LoadError>)
    ensures |Split(line, ',')| < 6 ==> r.Err?
    ensures r.Err? <==>
      var f := Split(line, ',');
      |f| < 6 || Parse(f[3]).None? || Parse(f[4]).None?
    ensures r.Ok? ==>
      var f := Split(line, ',');
      var t := r.value;
      && t.id == IdOrZero(f[0])
      && t.title == f[1]
      && (t.status == Draft <==> f[2] == "Draft")
      && Parse(f[3]) == Some(t.createdAt)
      && Parse(f[4]) == Some(t.updatedAt)
      && (t.deletedAt.Some? <==> f[5] != "")
      && (t.deletedAt.Some? ==> t.deletedAt.value == t.updatedAt)
  {
    var f := Split(line, ',');
    var id := IdOrZero(f[0]);
    if |f| < 2 then Err(MissingField(1))
    else if |f| < 3 then Err(MissingField(2))
    else if |f| < 4 then Err(MissingField(3))
    else match Parse(f[3])
      case None => Err(BadTimestamp(3))
      case Some(created) =>
        if |f| < 5 then Err(MissingField(4))
        else match Parse(f[4])
          case None => Err(BadTimestamp(4))
          case Some(updated) =>
            if |f| < 6 then Err(MissingField(5))
            else
              var status := if f[2] == "Draft" then Draft else Completed;
              var deleted := if f[5] != "" then Some(updated) else None;
              Ok(Todo(id, f[1], status, created, updated, deleted))
  }

  /** The decoder as it was evidently meant: `deletedAt` read from the sixth
      (DeletedAt) field, failing like the other timestamps when malformed. */
  function DecodeLineIntended(line: string): (r: Result<Todo, LoadError>)
    ensures r.Ok? ==>
      var f := Split(line, ',');
      |f| >= 6 && (r.value.deletedAt.None? <==> f[5] == "")
      && (f[5] != "" ==> Parse(f[5]) == r.value.deletedAt)
  {
    match DecodeLine(line)
    case Err(e) => Err(e)
    case Ok(t) =>
      var f := Split(line, ',');
      if f[5] == "" then Ok(t)
      else match Parse(f[5])
        case None => Err(BadTimestamp(5))
        case Some(deleted) => Ok(t.(deletedAt := Some(deleted)))
  }

  /** `map` then `collect` into a `Vec`: every line decoded in order; the first
      line that fails ends the whole decode. */
  function DecodeRows(lines: seq<string>, decode: string -> Result<Todo, LoadError>): (r: Result<seq<Todo>, LoadError>)
    ensures r.Ok? <==> forall i :: 0 <= i < |lines| ==> decode(lines[i]).Ok?
    ensures r.Ok? ==> |r.value| == |lines|
    ensures r.Ok? ==> forall i :: 0 <= i < |lines| ==> decode(lines[i]) == Ok(r.value[i])
  {
    if lines == [] then Ok([])
    else match decode(lines[0])
      case Err(e) => Err(e)
      case Ok(t) =>
        match DecodeRows(lines[1..], decode)
        case Err(e) =>
          Err(e)
        case Ok(ts) =>
          assert forall i :: 1 <= i < |lines| ==> lines[i] == lines[1..][i - 1];
          Ok([t] + ts)
  }

  /** The lines after the first (the header), as `lines().skip(1)` gives them. */
  function Body(text: string): (ls: seq<string>)
    ensures |ls| == if Lines(text) == [] then 0 else |Lines(text)| - 1
  {
    var ls := Lines(text);
    if ls == [] then [] else ls[1..]
  }

  /** The records `load_from_file` builds from the file's text. */
  function Decode(text: string): Result<seq<Todo>, LoadError>
  {
    DecodeRows(Body(text), DecodeLine)
  }

  function DecodeIntended(text: string): Result<seq<Todo>, LoadError>
  {
    DecodeRows(Body(text), DecodeLineIntended)
  }

  /** A task as it comes back from its own exported line: every field as it
      was, except that a soft-deletion instant is replaced by `updatedAt`. */
  function Reloaded(t: Todo): (r: Todo)
    ensures r.deletedAt.Some? <==> t.deletedAt.Some?
  {
    t.(deletedAt := if t.deletedAt.Some? then Some(t.updatedAt) else None)
  }

  lemma DecodeRow(t: Todo)
    requires CsvSafe(t)
    ensures DecodeLine(Row(t)) == Ok(Reloaded(t))
    ensures DecodeLineIntended(Row(t)) == Ok(t)
  {
    RowFields(t);
    ParseUsizeToDecimal(t.id);
    ParseRender(t.createdAt);
    ParseRender(t.updatedAt);
    if t.deletedAt.Some? {
      ParseRender(t.deletedAt.value);
    }
  }

  lemma {:induction false} LinesOfRows(ts: seq<Todo>)
    requires forall i :: 0 <= i < |ts| ==> '\n' !in ts[i].title
    ensures |Lines(Rows(ts))| == |ts|
    ensures forall i :: 0 <= i < |ts| ==> Lines(Rows(ts))[i] == Row(ts[i])
  {
    if ts != [] {
      RowIsOneLine(ts[0]);
      LinesFirst(Row(ts[0]), Rows(ts[1..]));
      LinesOfRows(ts[1..]);
    }
  }

  lemma BodyOfEncode(ts: seq<Todo>)
    requires forall i :: 0 <= i < |ts| ==> '\n' !in ts[i].title
    ensures |Body(Encode(ts))| == |ts|
    ensures forall i :: 0 <= i < |ts| ==> Body(Encode(ts))[i] == Row(ts[i])
  {
    HeaderIsOneLine();
    LinesFirst(Header, Rows(ts));
    LinesOfRows(ts);
  }

  /** Loading what was exported gives back the same tasks in the same order,
      with the same ids, titles, statuses and creation and update instants;
      a soft-deleted task stays soft-deleted, but its deletion instant comes
      back as its update instant. */
  lemma LoadAfterExport(ts: seq<Todo>)
    requires forall i :: 0 <= i < |ts| ==> CsvSafe(ts[i])
    ensures Decode(Encode(ts)).Ok?
    ensures |Decode(Encode(ts)).value| == |ts|
    ensures forall i :: 0 <= i < |ts| ==> Decode(Encode(ts)).value[i] == Reloaded(ts[i])
  {
    BodyOfEncode(ts);
    forall i | 0 <= i < |ts|
      ensures DecodeLine(Body(Encode(ts))[i]) == Ok(Reloaded(ts[i]))
    {
      DecodeRow(ts[i]);
    }
  }

  /** The corrected decoder gives back exactly what was exported. */
  lemma LoadIntendedAfterExport(ts: seq<Todo>)
    requires forall i :: 0 <= i < |ts| ==> CsvSafe(ts[i])
    ensures DecodeIntended(Encode(ts)) == Ok(ts)
  {
    BodyOfEncode(ts);
    var body := Body(Encode(ts));
    forall i | 0 <= i < |ts|
      ensures DecodeLineIntended(body[i]) == Ok(ts[i])
    {
      DecodeRow(ts[i]);
    }
    var r := DecodeRows(body, DecodeLineIntended);
    assert r.Ok?;
    assert |r.value| == |ts|;
    assert forall i :: 0 <= i < |ts| ==> r.value[i] == ts[i];
    assert r.value == ts;
  }

  /** As written, a soft-deleted task whose deletion instant differs from its
      update instant does not come back as it was exported. */
  lemma LoadLosesDeletionInstant(t: Todo)
    requires CsvSafe(t)
    requires t.deletedAt.Some? && t.deletedAt.value != t.updatedAt
    ensures Decode(Encode([t])) != Ok([t])
  {
    LoadAfterExport([t]);
  }

  /** A title with a comma never comes back: the load either fails or
      returns a different title. */
  lemma CommaInTitleDoesNotRoundTrip(t: Todo)
    requires ',' in t.title && '\n' !in t.title
    ensures Decode(Encode([t])).Ok? ==>
      |Decode(Encode([t])).value| == 1 && Decode(Encode([t])).value[0].title != t.title
  {
    BodyOfEncode([t]);
    var f := Split(Row(t), ',');
    if Decode(Encode([t])).Ok? {
      assert DecodeLine(Row(t)) == Ok(Decode(Encode([t])).value[0]);
      assert ',' !in f[1];
    }
  }
}
