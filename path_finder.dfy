/** The walk: from the start cell, collect each cell's character, stop at the
    first `x`, otherwise choose a heading when one is needed and step on. */
module PathFinder {
  import opened Directions
  import opened PipeMap
  import opened MapValidation
  import opened Steering

  /** A growable string, as the walk's two `StringBuilder`s. */
  class StringBuilder {
    var chars: string

    constructor ()
      ensures chars == []
    {
      chars := [];
    }

    method Append(c: char)
      modifies this
      ensures chars == old(chars) + [c]
    {
      chars := chars + [c];
    }
  }

  /** The state of the walk loop between two iterations. */
  datatype Walker = Walker(pos: Position, dir: Direction, visited: set<Position>, path: string, letters: string)

  /** How a walk ends: a result, a thrown map error, or still walking when the
      fuel ran out (the source's loop has no bound; `fuel` stands in for one). */
  datatype Walk = Done(result: Result) | Thrown(error: MapError) | Walking(walker: Walker)

  /** What `collect` makes of the two strings so far: the character always
      goes to the path, and to the letters only when it is an upper-case letter
      seen for the first time. */
  function Collected(c: char, isVisited: bool, sofar: Result): (r: Result)
    ensures r.path == sofar.path + [c]
    ensures r.letters == sofar.letters || r.letters == sofar.letters + [c]
    ensures r.letters != sofar.letters <==> IsUpper(c) && !isVisited
  {
    var letters := if c >= 'A' && c <= 'Z' && !isVisited then sofar.letters + [c] else sofar.letters;
    Result(sofar.path + [c], letters)
  }

  method Collect(c: char, isVisited: bool, path: StringBuilder, letters: StringBuilder)
    requires path != letters
    modifies path, letters
    ensures Result(path.chars, letters.chars) == Collected(c, isVisited, Result(old(path.chars), old(letters.chars)))
  {
    path.Append(c);
    if c >= 'A' && c <= 'Z' && !isVisited {
      letters.Append(c);
    }
  }

  function StartWalker(start: Position): Walker {
    Walker(start, None, {}, "", "")
  }

  /** One iteration of the walk loop: collect the cell's character and mark
      the cell visited; stop on an `x`; otherwise take a new heading if one is
      due and step on. A walk that goes on stands on the map again. */
  function Step(grid: Grid, w: Walker): (r: Walk)
    requires IsValidPosition(grid, w.pos)
    ensures r.Walking? ==> IsValidPosition(grid, r.walker.pos)
  {
    var c := At(grid, w.pos);
    var sofar := Collected(c, w.pos in w.visited, Result(w.path, w.letters));
    var visited := w.visited + {w.pos};
    if c == 'x' then Done(sofar)
    else if CheckShouldChangeDirection(grid, w.pos, w.dir) then
      match GetNewDirectionOrThrow(grid, w.pos, w.dir)
      case Err(e) => Thrown(e)
      case Ok(d) => Walking(Walker(Next(w.pos, d), d, visited, sofar.path, sofar.letters))
    else Walking(Walker(Next(w.pos, w.dir), w.dir, visited, sofar.path, sofar.letters))
  }

  /** An iteration returns exactly on an `x`, and throws only when no single
      new heading exists at the current cell. */
  lemma StepOutcome(grid: Grid, w: Walker)
    requires IsValidPosition(grid, w.pos)
    ensures Step(grid, w).Done? <==> At(grid, w.pos) == 'x'
    ensures Step(grid, w).Thrown? ==>
      Step(grid, w).error == NoValidDirections(w.pos.row, w.pos.col) ||
      Step(grid, w).error == MultipleValidDirections(w.pos.row, w.pos.col)
  {
  }

  /** Every iteration that does not throw collects the current cell's
      character, and one that goes on marks the cell visited. */
  lemma StepCollects(grid: Grid, w: Walker)
    requires IsValidPosition(grid, w.pos)
    ensures var r := Step(grid, w);
      r.Done? ==> r.result == Collected(At(grid, w.pos), w.pos in w.visited, Result(w.path, w.letters))
    ensures var r := Step(grid, w);
      r.Walking? ==>
        r.walker.visited == w.visited + {w.pos} &&
        Result(r.walker.path, r.walker.letters) == Collected(At(grid, w.pos), w.pos in w.visited, Result(w.path, w.letters))
  {
  }

  /** An iteration that goes on moves one step in a real heading, which is the
      old heading unless a change was due. */
  lemma StepMoves(grid: Grid, w: Walker)
    requires IsValidPosition(grid, w.pos)
    ensures var r := Step(grid, w);
      r.Walking? ==> r.walker.dir != None && r.walker.pos == Next(w.pos, r.walker.dir)
    ensures var r := Step(grid, w);
      r.Walking? && !CheckShouldChangeDirection(grid, w.pos, w.dir) ==> r.walker.dir == w.dir
  {
  }

  /** At most `fuel` iterations of the walk loop from `w`. */
  function Run(grid: Grid, w: Walker, fuel: nat): (r: Walk)
    requires IsValidPosition(grid, w.pos)
    ensures r.Walking? ==> IsValidPosition(grid, r.walker.pos)
    decreases fuel, 0
  {
    if fuel == 0 then Walking(w) else Resume(grid, w, fuel - 1)
  }

  /** One iteration of the walk loop from `w`, then at most `fuel` more. */
  function Resume(grid: Grid, w: Walker, fuel: nat): (r: Walk)
    requires IsValidPosition(grid, w.pos)
    ensures r.Walking? ==> IsValidPosition(grid, r.walker.pos)
    decreases fuel, 1
  {
    match Step(grid, w)
    case Walking(next) => Run(grid, next, fuel)
    case finished => finished
  }

  lemma RunUnfold(grid: Grid, w: Walker, fuel: nat)
    requires IsValidPosition(grid, w.pos) && fuel > 0
    ensures Step(grid, w).Walking? ==> Run(grid, w, fuel) == Run(grid, Step(grid, w).walker, fuel - 1)
    ensures !Step(grid, w).Walking? ==> Run(grid, w, fuel) == Step(grid, w)
  {
  }

  /** `Run` under a non-recursive name, used to state the invariant of the
      `findPath` loop: what is left of the walk once the loop stands at `w`
      with `fuel` iterations to go. Each use of it unrolls `Run` once only. */
  function LoopRest(grid: Grid, w: Walker, fuel: nat): Walk
    requires IsValidPosition(grid, w.pos)
  {
    Run(grid, w, fuel)
  }

  /** `findPath` with at most `fuel` iterations of its loop. */
  function FindPathWithin(grid: Grid, fuel: nat): Walk {
    match StartPosition(grid)
    case Err(e) => Thrown(e)
    case Ok(start) => Run(grid, StartWalker(start), fuel)
  }

  /** `findPath`: validate, then walk from the start until the first `x` is
      collected or a map error is thrown; `fuel` bounds the iterations of the
      loop, which the source leaves unbounded. */
  method FindPath(grid: Grid, fuel: nat) returns (r: Walk)
    ensures r == FindPathWithin(grid, fuel)
  {
    var start := GetStartPositionOrThrow(grid);
    if start.Err? {
      return Thrown(start.error);
    }
    r := WalkFrom(grid, start.value, fuel);
  }

  /** The loop of `findPath`, from the start cell. */
  method WalkFrom(grid: Grid, start: Position, fuel: nat) returns (r: Walk)
    requires IsValidPosition(grid, start)
    ensures r == Run(grid, StartWalker(start), fuel)
  {
    var path := new StringBuilder();
    var letters := new StringBuilder();
    var visitedPositions: set<Position> := {};
    var position := start;
    var direction := None;
    var remaining: nat := fuel;
    ghost var goal := Run(grid, StartWalker(start), fuel);
    while remaining > 0
      invariant IsValidPosition(grid, position)
      invariant LoopRest(grid, Walker(position, direction, visitedPositions, path.chars, letters.chars), remaining) == goal
      decreases remaining
    {
      ghost var w := Walker(position, direction, visitedPositions, path.chars, letters.chars);
      RunUnfold(grid, w, remaining);
      var c := grid[position.row][position.col];
      Collect(c, position in visitedPositions, path, letters);
      visitedPositions := visitedPositions + {position};
      if c == 'x' {
        assert Step(grid, w) == Done(Result(path.chars, letters.chars));
        return Done(Result(path.chars, letters.chars));
      }
      if CheckShouldChangeDirection(grid, position, direction) {
        var turn := GetNewDirectionOrThrow(grid, position, direction);
        if turn.Err? {
          assert Step(grid, w) == Thrown(turn.error);
          return Thrown(turn.error);
        }
        direction := turn.value;
      }
      position := Next(position, direction);
      assert Step(grid, w) == Walking(Walker(position, direction, visitedPositions, path.chars, letters.chars));
      remaining := remaining - 1;
    }
    r := Walking(Walker(position, direction, visitedPositions, path.chars, letters.chars));
  }
}
