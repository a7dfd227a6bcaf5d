/** The menu choices of the application (`src/todo_app/menu.rs`) and their
    decoder from the number typed. */
module AppMenu {
  import opened Wrappers
  import opened Decimal

  type U8 = x: int | 0 <= x < 256

  /** Declared in menu order, so each variant's implicit discriminant is
      the number the menu prints for it. */
  datatype Choice =
    | Exit
    | DisplayMenu
    | Insert
    | Update
    | SoftDelete
    | Restore
    | Delete
    | List
    | ExportToCsv
    | SeedTodo
    | LoadFromFile

  function Discriminant(c: Choice): (v: U8)
    ensures v <= 10
  {
    match c
    case Exit => 0
    case DisplayMenu => 1
    case Insert => 2
    case Update => 3
    case SoftDelete => 4
    case Restore => 5
    case Delete => 6
    case List => 7
    case ExportToCsv => 8
    case SeedTodo => 9
    case LoadFromFile => 10
  }

  /** `Choice::try_from`: 0 to 10 name the choice with that discriminant;
      every other byte is refused with "Invalid value: {value}". */
  function TryFrom(value: U8): (r: Result<Choice, string>)
    ensures r.Ok? <==> value <= 10
    ensures r.Ok? ==> Discriminant(r.value) == value
    ensures r.Err? ==> r.error == "Invalid value: " + ToDecimal(value)
  {
    match value
    case 0 => Ok(Exit)
    case 1 => Ok(DisplayMenu)
    case 2 => Ok(Insert)
    case 3 => Ok(Update)
    case 4 => Ok(SoftDelete)
    case 5 => Ok(Restore)
    case 6 => Ok(Delete)
    case 7 => Ok(List)
    case 8 => Ok(ExportToCsv)
    case 9 => Ok(SeedTodo)
    case 10 => Ok(LoadFromFile)
    case _ => Err("Invalid value: " + ToDecimal(value))
  }

  /** Every choice is reached from its own number. */
  lemma TryFromDiscriminant(c: Choice)
    ensures TryFrom(Discriminant(c)) == Ok(c)
  {
  }

  lemma ZeroIsExit()
    ensures TryFrom(0) == Ok(Exit)
  {
  }

  /** Distinct accepted numbers name distinct choices. */
  lemma TryFromInjective(a: U8, b: U8)
    requires TryFrom(a).Ok? && TryFrom(a) == TryFrom(b)
    ensures a == b
  {
  }
}
