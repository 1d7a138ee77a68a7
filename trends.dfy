/**
 * The trend badge shared by the ranking table and the rank cards: the
 * previous rank minus the current rank, shown as "up", "down" or "flat"
 * with the size of the move.
 */
module Trends {
  /** `{ direction, value }` of a trend badge; `size` is the size of the move. */
  datatype Trend = Up(size: real) | Down(size: real) | Flat

  /** The signed rank change a badge stands for (up is positive). */
  function Signed(t: Trend): real {
    match t
    case Up(size) => size
    case Down(size) => -size
    case Flat => 0.0
  }

  /**
   * `delta = prev - curr`: a positive delta is "up" by delta, a negative one
   * "down" by its absolute value, and zero "flat" with value 0.
   */
  function Classify(prev: real, curr: real): (t: Trend)
    ensures t.Up? <==> prev > curr
    ensures t.Down? <==> prev < curr
    ensures t.Flat? <==> prev == curr
    ensures !t.Flat? ==> t.size > 0.0
  {
    var delta := prev - curr;
    if delta > 0.0 then Up(delta)
    else if delta < 0.0 then Down(-delta)
    else Flat
  }

  /** A badge loses nothing: the signed change it shows is exactly `prev - curr`. */
  lemma ClassifySigned(prev: real, curr: real)
    ensures Signed(Classify(prev, curr)) == prev - curr
  {
  }

  /** Conversely, the badge of a move is determined by the move alone. */
  lemma ClassifyByDelta(prev: real, curr: real, prev': real, curr': real)
    requires prev - curr == prev' - curr'
    ensures Classify(prev, curr) == Classify(prev', curr')
  {
  }
}
