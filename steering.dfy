/** The direction rules of the walk: when a new direction has to be chosen,
    which directions are offered, and which one is taken. */
module Steering {
  import opened Directions
  import opened PipeMap

  /** Stepping from `p` in direction `d` lands on the map. */
  predicate Open(grid: Grid, p: Position, d: Direction) {
    IsValidPosition(grid, Next(p, d))
  }

  /** The directions offered when the heading changes: all four at the start,
      otherwise the two perpendicular ones. */
  function AllowedDirectionChange(d: Direction): (r: seq<Direction>)
    ensures |r| == if d == None then 4 else 2
    ensures None !in r
  {
    match d
    case Up => [Left, Right]
    case Down => [Left, Right]
    case Left => [Up, Down]
    case Right => [Up, Down]
    case None => [Up, Right, Down, Left]
  }

  /** The offered directions are exactly the cardinal headings perpendicular
      to `d` (every one of them when `d` is `None`), each offered once; so the
      current heading and its reverse are never offered. */
  lemma AllowedAreThePerpendiculars(d: Direction)
    ensures forall e :: e in AllowedDirectionChange(d) <==> e != None && Dot(e, d) == 0
    ensures Distinct(AllowedDirectionChange(d))
    ensures d != None ==> d !in AllowedDirectionChange(d) && Reverse(d) !in AllowedDirectionChange(d)
  {
  }

  /** A new heading is needed at the start, on every `+`, and wherever going
      straight would leave the map; when none is needed, going straight is safe. */
  function CheckShouldChangeDirection(grid: Grid, p: Position, d: Direction): (r: bool)
    requires InGrid(grid, p)
    ensures d == None || At(grid, p) == '+' ==> r
    ensures d != None && At(grid, p) != '+' ==> (r <==> !Open(grid, p, d))
    ensures !r ==> d != None && Open(grid, p, d)
  {
    d == None || grid[p.row][p.col] == '+' || !IsValidPosition(grid, Next(p, d))
  }

  /** The candidates, in order, whose neighbour of `p` is on the map: the
      stream filter of `getNewDirectionOrThrow`. */
  function ValidDirections(grid: Grid, p: Position, candidates: seq<Direction>): (r: seq<Direction>)
    ensures r != [] ==> r[0] in candidates && Open(grid, p, r[0])
  {
    if candidates == [] then []
    else
      var rest := ValidDirections(grid, p, candidates[1..]);
      if Open(grid, p, candidates[0]) then [candidates[0]] + rest else rest
  }

  /** The filter keeps exactly the open candidates, and keeps distinct
      candidates distinct. */
  lemma {:induction false} ValidDirectionsFilter(grid: Grid, p: Position, candidates: seq<Direction>)
    ensures forall e :: e in ValidDirections(grid, p, candidates) <==> e in candidates && Open(grid, p, e)
    ensures Distinct(candidates) ==> Distinct(ValidDirections(grid, p, candidates))
  {
    if candidates != [] {
      ValidDirectionsFilter(grid, p, candidates[1..]);
      assert Distinct(candidates) ==> candidates[0] !in candidates[1..];
      assert candidates == [candidates[0]] + candidates[1..];
    }
  }

  /** The one offered direction that leads onto the map; none, or more than
      one, is an invalid map, reported at `p`. */
  function GetNewDirectionOrThrow(grid: Grid, p: Position, d: Direction): (r: Outcome<Direction>)
    ensures r.Ok? ==> r.value != None && Open(grid, p, r.value)
    ensures r.Err? ==> r.error == NoValidDirections(p.row, p.col) || r.error == MultipleValidDirections(p.row, p.col)
  {
    var valid := ValidDirections(grid, p, AllowedDirectionChange(d));
    if |valid| == 0 then Err(NoValidDirections(p.row, p.col))
    else if |valid| > 1 then Err(MultipleValidDirections(p.row, p.col))
    else
      Ok(valid[0])
  }

  /** `getNewDirectionOrThrow` as a decision: it throws "no valid directions"
      exactly when no offered direction is open, "multiple valid directions"
      exactly when two are, and otherwise returns the only open one. */
  lemma NewDirectionMeaning(grid: Grid, p: Position, d: Direction)
    ensures var r := GetNewDirectionOrThrow(grid, p, d);
      r.Ok? ==>
        r.value in AllowedDirectionChange(d) &&
        forall e :: e in AllowedDirectionChange(d) && Open(grid, p, e) ==> e == r.value
    ensures GetNewDirectionOrThrow(grid, p, d) == Err(NoValidDirections(p.row, p.col)) <==>
      forall e :: e in AllowedDirectionChange(d) ==> !Open(grid, p, e)
    ensures GetNewDirectionOrThrow(grid, p, d) == Err(MultipleValidDirections(p.row, p.col)) <==>
      exists e1, e2 :: e1 in AllowedDirectionChange(d) && e2 in AllowedDirectionChange(d) && e1 != e2 &&
        Open(grid, p, e1) && Open(grid, p, e2)
  {
    var valid := ValidDirections(grid, p, AllowedDirectionChange(d));
    ValidDirectionsFilter(grid, p, AllowedDirectionChange(d));
    AllowedAreThePerpendiculars(d);
    if |valid| > 1 {
      assert valid[0] != valid[1] && valid[0] in valid && valid[1] in valid;
    } else if |valid| == 1 {
      assert valid[0] in valid;
    }
  }

  /** A chosen heading never turns back: at the start it is any cardinal
      heading, later one perpendicular to the current heading. */
  lemma TurnNeverReverses(grid: Grid, p: Position, d: Direction)
    requires GetNewDirectionOrThrow(grid, p, d).Ok?
    ensures var e := GetNewDirectionOrThrow(grid, p, d).value;
      e != d && e != Reverse(d) && (d != None ==> (d.IsVertical() <==> e.IsHorizontal()))
  {
    var e := GetNewDirectionOrThrow(grid, p, d).value;
    NewDirectionMeaning(grid, p, d);
    AllowedAreThePerpendiculars(d);
    if d != None {
      Perpendicular(d, e);
    }
  }
}
