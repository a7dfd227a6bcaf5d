/** The menu choices of the earlier program (`src/menu.rs`), whose variants
    carry explicit discriminants, and their decoder. */
module LegacyMenu {
  import opened Wrappers
  import opened Decimal

  type U8 = x: int | 0 <= x < 256

  datatype Choice = Exit | Insert | Update | Delete | List | DisplayMenu

  /** The explicit discriminants `Exit = 0` to `DisplayMenu = 5`. */
  function Discriminant(c: Choice): (v: U8)
    ensures v <= 5
  {
    match c
    case Exit => 0
    case Insert => 1
    case Update => 2
    case Delete => 3
    case List => 4
    case DisplayMenu => 5
  }

  /** `Choice::try_from`: 0 to 5 name the choice with that discriminant;
      every other byte is refused with "Invalid value: {value}". */
  function TryFrom(value: U8): (r: Result<Choice, string>)
    ensures r.Ok? <==> value <= 5
    ensures r.Ok? ==> Discriminant(r.value) == value
    ensures r.Err? ==> r.error == "Invalid value: " + ToDecimal(value)
  {
    match value
    case 0 => Ok(Exit)
    case 1 => Ok(Insert)
    case 2 => Ok(Update)
    case 3 => Ok(Delete)
    case 4 => Ok(List)
    case 5 => Ok(DisplayMenu)
    case _ => Err("Invalid value: " + ToDecimal(value))
  }

  /** Every choice is reached from its own discriminant. */
  lemma TryFromDiscriminant(c: Choice)
    ensures TryFrom(Discriminant(c)) == Ok(c)
  {
  }

  /** Distinct accepted numbers name distinct choices. */
  lemma TryFromInjective(a: U8, b: U8)
    requires TryFrom(a).Ok? && TryFrom(a) == TryFrom(b)
    ensures a == b
  {
  }
}
