/** The snake's heading and the four direction keys that change it. */
module Heading {
  import opened Geometry

  /** The four direction controls (w/a/s/d and the arrow keys). */
  datatype Direction = Up | Left | Down | Right

  /** The unit vector, as a (row, column) delta, a key sets the heading to. */
  function Delta(d: Direction): Pos
  {
    match d
    case Up => (-1, 0)
    case Left => (0, -1)
    case Down => (1, 0)
    case Right => (0, 1)
  }

  /** The heading under which a key is ignored, written as the handlers
      write it (a literal vector per key). */
  function Blocked(d: Direction): Pos
  {
    match d
    case Up => (1, 0)
    case Left => (0, 1)
    case Down => (-1, 0)
    case Right => (0, -1)
  }

  /** The opposite heading. */
  function Reverse(h: Pos): Pos
  {
    (-h.0, -h.1)
  }

  /** One of the four unit headings. */
  predicate IsUnit(h: Pos)
  {
    h == (-1, 0) || h == (0, -1) || h == (1, 0) || h == (0, 1)
  }

  /** The heading after pressing `d` while the heading is `cur`: the key is
      ignored exactly when it asks for the reverse of the current heading,
      and otherwise takes effect at once. Unit headings stay unit, and a
      single press never reverses the snake. */
  function Turn(cur: Pos, d: Direction): (r: Pos)
    ensures r == (if cur == Reverse(Delta(d)) then cur else Delta(d))
    ensures IsUnit(cur) ==> IsUnit(r) && r != Reverse(cur)
  {
    if cur != Blocked(d) then Delta(d) else cur
  }

  /** The guard is applied to the heading as it is when the key is pressed,
      not once per tick: from any unit heading, two presses made before the
      next step reverse the snake. */
  lemma TwoPressesReverse(cur: Pos)
    requires IsUnit(cur)
    ensures exists d1, d2 :: Turn(Turn(cur, d1), d2) == Reverse(cur)
  {
    if cur == (0, 1) {
      assert Turn(Turn(cur, Up), Left) == Reverse(cur);
    } else if cur == (0, -1) {
      assert Turn(Turn(cur, Up), Right) == Reverse(cur);
    } else if cur == (1, 0) {
      assert Turn(Turn(cur, Left), Up) == Reverse(cur);
    } else {
      assert Turn(Turn(cur, Left), Down) == Reverse(cur);
    }
  }
}
