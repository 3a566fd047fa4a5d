/** The five headings of the walker: four unit steps on the grid and the
    zero offset `None` that only the walk's initial state carries. */
module Directions {

  datatype Direction = Up | Right | Down | Left | None {

    /** Row offset of one step in this direction. */
    function Row(): int {
      match this
      case Up => -1
      case Right => 0
      case Down => 1
      case Left => 0
      case None => 0
    }

    /** Column offset of one step in this direction. */
    function Col(): int {
      match this
      case Up => 0
      case Right => 1
      case Down => 0
      case Left => -1
      case None => 0
    }

    predicate IsVertical() {
      this == Up || this == Down
    }

    predicate IsHorizontal() {
      this == Left || this == Right
    }
  }

  /** The four directions a step can actually be taken in. */
  const Cardinals: seq<Direction> := [Up, Right, Down, Left]

  /** Dot product of the offsets: zero exactly for perpendicular headings. */
  function Dot(d: Direction, e: Direction): int {
    d.Row() * e.Row() + d.Col() * e.Col()
  }

  /** The heading that undoes a step in `d`. */
  function Reverse(d: Direction): (r: Direction)
    ensures r.Row() == -d.Row() && r.Col() == -d.Col()
  {
    match d
    case Up => Down
    case Down => Up
    case Left => Right
    case Right => Left
    case None => None
  }

  function Abs(x: int): nat {
    if x < 0 then -x else x
  }

  /** Each heading carries the offset it is declared with. */
  lemma OffsetTable()
    ensures Up.Row() == -1 && Up.Col() == 0
    ensures Right.Row() == 0 && Right.Col() == 1
    ensures Down.Row() == 1 && Down.Col() == 0
    ensures Left.Row() == 0 && Left.Col() == -1
    ensures None.Row() == 0 && None.Col() == 0
  {
  }

  /** The four cardinal headings are unit steps; `None` is the zero offset. */
  lemma UnitSteps(d: Direction)
    ensures d != None <==> Abs(d.Row()) + Abs(d.Col()) == 1
    ensures d == None <==> d.Row() == 0 && d.Col() == 0
  {
  }

  /** Up/Down and Left/Right negate each other; vertical headings never move
      sideways and horizontal ones never move up or down. */
  lemma Orientation(d: Direction)
    ensures d.IsVertical() ==> d.Col() == 0 && Reverse(d).IsVertical() && Reverse(d) != d
    ensures d.IsHorizontal() ==> d.Row() == 0 && Reverse(d).IsHorizontal() && Reverse(d) != d
    ensures Reverse(Reverse(d)) == d
  {
  }

  /** Two cardinal headings are perpendicular exactly when one is vertical and
      the other horizontal; a heading is never perpendicular to itself or to
      its reverse. */
  lemma Perpendicular(d: Direction, e: Direction)
    requires d != None && e != None
    ensures Dot(d, e) == 0 <==> (d.IsVertical() <==> e.IsHorizontal())
    ensures Dot(d, d) == 1 && Dot(d, Reverse(d)) == -1
  {
  }

  /** Every cardinal heading is listed in `Cardinals`, and `None` is not. */
  lemma CardinalsComplete(d: Direction)
    ensures d in Cardinals <==> d != None
  {
  }
}
