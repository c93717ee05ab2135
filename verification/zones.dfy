/** Momentum zones, alert directions and the leverage display format. */
module Zones {
  import opened Wrappers
  import Text

  datatype Zone = Green | Grey | Red

  datatype Direction = Bullish | Bearish | Neutral

  /** Lowest score classified GREEN. */
  const GreenFloor: int := 71

  /** Highest score classified RED. */
  const RedCeiling: int := 30

  /** `_get_zone`: both boundaries are inclusive, 31..70 is GREY. */
  function ZoneOf(score: Option<int>): (z: Option<Zone>)
    ensures z.None? <==> score.None?
    ensures z == Some(Green) <==> score.Some? && score.value >= GreenFloor
    ensures z == Some(Red) <==> score.Some? && score.value <= RedCeiling
    ensures z == Some(Grey) <==> score.Some? && RedCeiling < score.value < GreenFloor
  {
    match score
    case None => None
    case Some(s) =>
      if s >= GreenFloor then Some(Green)
      else if s <= RedCeiling then Some(Red)
      else Some(Grey)
  }

  /** Zones ordered by strength. */
  function Rank(z: Zone): nat
  {
    match z
    case Red => 0
    case Grey => 1
    case Green => 2
  }

  /** A higher score never lands in a weaker zone. */
  lemma ZoneMonotone(s: int, t: int)
    requires s <= t
    ensures Rank(ZoneOf(Some(s)).value) <= Rank(ZoneOf(Some(t)).value)
  {
  }

  /** The boundary values the source's tests pin down. */
  lemma ZoneBoundaries()
    ensures ZoneOf(Some(0)) == Some(Red) && ZoneOf(Some(30)) == Some(Red)
    ensures ZoneOf(Some(31)) == Some(Grey) && ZoneOf(Some(50)) == Some(Grey)
    ensures ZoneOf(Some(70)) == Some(Grey)
    ensures ZoneOf(Some(71)) == Some(Green) && ZoneOf(Some(100)) == Some(Green)
    ensures ZoneOf(None) == None
  {
  }

  /** Alert direction from the zone the symbol has moved into. */
  function DirectionOf(current: Option<Zone>): (d: Direction)
    ensures d == Bullish <==> current == Some(Green)
    ensures d == Bearish <==> current == Some(Red)
    ensures d == Neutral <==> current != Some(Green) && current != Some(Red)
  {
    if current == Some(Green) then Bullish
    else if current == Some(Red) then Bearish
    else Neutral
  }

  /** `_format_leverage`: `None` stays `None`, `n` becomes `"<n>X"`. */
  function FormatLeverage(v: Option<int>): (r: Option<string>)
    ensures r.None? <==> v.None?
    ensures r.Some? ==> |r.value| >= 2 && r.value[|r.value| - 1] == 'X'
  {
    match v
    case None => None
    case Some(n) => Some(Text.IntToString(n) + "X")
  }

  /** Reads a displayed leverage back to its integer. */
  function ParseLeverage(s: string): Option<int>
  {
    if |s| >= 1 && s[|s| - 1] == 'X' then Text.ParseInt(s[..|s| - 1]) else None
  }

  /** The display string determines the leverage it was made from. */
  lemma LeverageRoundTrip(n: int)
    ensures ParseLeverage(FormatLeverage(Some(n)).value) == Some(n)
  {
    var s := FormatLeverage(Some(n)).value;
    assert s[..|s| - 1] == Text.IntToString(n);
    Text.IntRoundTrip(n);
  }

  /** The leverage pair of the chart tests: 2 is shown as "2X", 3 as "3X". */
  lemma LeverageExamples()
    ensures FormatLeverage(Some(2)) == Some("2X")
    ensures FormatLeverage(Some(3)) == Some("3X")
    ensures FormatLeverage(None) == None
  {
    assert Text.DigitChar(2) == '2' && Text.DigitChar(3) == '3';
    assert Text.IntToString(2) == "2" && Text.IntToString(3) == "3";
    assert "2" + "X" == "2X" && "3" + "X" == "3X";
  }
}
