/** A stand-in for chrono's `DateTime<Utc>`: an instant counted in ticks, whose
    text form (`to_string`) is its decimal tick count and whose parser
    (`parse::<DateTime<Utc>>`) reads such a text back. */
module Timestamps {
  import opened Wrappers
  import opened Decimal

  datatype Timestamp = Timestamp(ticks: nat)

  /** The text form of an instant: never empty, digits only (so no comma and
      no line break). */
  function Render(t: Timestamp): (s: string)
    ensures s != [] && AllDigits(s)
  {
    ToDecimal(t.ticks)
  }

  /** Reads an instant; fails (None) on any text that is not a digit string. */
  function Parse(s: string): (r: Option<Timestamp>)
    ensures r.Some? <==> s != [] && AllDigits(s)
  {
    if s != [] && AllDigits(s) then Some(Timestamp(ValueOf(s))) else None
  }

  /** The parser inverts the renderer. */
  lemma ParseRender(t: Timestamp)
    ensures Parse(Render(t)) == Some(t)
  {
    ValueOfToDecimal(t.ticks);
  }
}
