/** Concrete maps: a straight corridor, and a map that passes validation but
    whose walk circles forever without reaching its `x`. */
module Examples {
  import Wrappers
  import opened Directions
  import opened PipeMap
  import opened MapValidation
  import opened Steering
  import opened PathFinder

  /** A closed ring of pipes reached from the start, with the `x` off the ring. */
  const LoopMap: Grid := [" +-+", " | |", "@+-+", "    x"]

  /** The states of the walk on `LoopMap` after its first step: the cell and
      the heading it arrived with. */
  predicate OnRing(w: Walker) {
    var p, d := w.pos, w.dir;
    (p == Position(2, 1) && d == Right) || (p == Position(1, 1) && d == Up) ||
    (p == Position(0, 1) && d == Up) || (p == Position(0, 2) && d == Right) ||
    (p == Position(0, 3) && d == Right) || (p == Position(1, 3) && d == Down) ||
    (p == Position(2, 3) && d == Down) || (p == Position(2, 2) && d == Left) ||
    (p == Position(2, 1) && d == Left)
  }

  /** Which cells around the ring are on the map. */
  lemma RingCells()
    ensures IsValidPosition(LoopMap, Position(2, 0)) && IsValidPosition(LoopMap, Position(2, 1))
    ensures IsValidPosition(LoopMap, Position(1, 1)) && IsValidPosition(LoopMap, Position(0, 1))
    ensures IsValidPosition(LoopMap, Position(0, 2)) && IsValidPosition(LoopMap, Position(0, 3))
    ensures IsValidPosition(LoopMap, Position(1, 3)) && IsValidPosition(LoopMap, Position(2, 3))
    ensures IsValidPosition(LoopMap, Position(2, 2))
    ensures !IsValidPosition(LoopMap, Position(1, 0)) && !IsValidPosition(LoopMap, Position(3, 0))
    ensures !IsValidPosition(LoopMap, Position(3, 1)) && !IsValidPosition(LoopMap, Position(0, 0))
    ensures !IsValidPosition(LoopMap, Position(-1, 3)) && !IsValidPosition(LoopMap, Position(2, 4))
  {
  }

  /** On the ring every iteration goes on, and stays on the ring. */
  lemma RingStep(w: Walker)
    requires OnRing(w)
    ensures IsValidPosition(LoopMap, w.pos)
    ensures Step(LoopMap, w).Walking? && OnRing(Step(LoopMap, w).walker)
  {
    RingCells();
    var p, d := w.pos, w.dir;
    if p == Position(2, 1) && d == Right {
      TurnAt(LoopMap, w, Up, Down);
    } else if p == Position(1, 1) && d == Up {
      GoOn(LoopMap, w);
    } else if p == Position(0, 1) && d == Up {
      TurnAt(LoopMap, w, Right, Left);
    } else if p == Position(0, 2) && d == Right {
      GoOn(LoopMap, w);
    } else if p == Position(0, 3) && d == Right {
      TurnAt(LoopMap, w, Down, Up);
    } else if p == Position(1, 3) && d == Down {
      GoOn(LoopMap, w);
    } else if p == Position(2, 3) && d == Down {
      TurnAt(LoopMap, w, Left, Right);
    } else if p == Position(2, 2) && d == Left {
      GoOn(LoopMap, w);
    } else {
      TurnAt(LoopMap, w, Up, Down);
    }
  }

  /** An iteration on a `+` whose offered headings are `open` and `shut`, in
      either order, of which only `open` leads onto the map. */
  lemma TurnAt(grid: Grid, w: Walker, open: Direction, shut: Direction)
    requires IsValidPosition(grid, w.pos) && grid[w.pos.row][w.pos.col] == '+'
    requires AllowedDirectionChange(w.dir) == [open, shut] || AllowedDirectionChange(w.dir) == [shut, open]
    requires Open(grid, w.pos, open) && !Open(grid, w.pos, shut)
    ensures Step(grid, w).Walking? && Step(grid, w).walker.pos == Next(w.pos, open)
    ensures Step(grid, w).walker.dir == open
  {
    NewDirectionMeaning(grid, w.pos, w.dir);
    assert open in AllowedDirectionChange(w.dir) && shut in AllowedDirectionChange(w.dir);
  }

  /** A `+` always forces a turn, so a path cannot cross itself there: a `+`
      whose two perpendicular neighbours are both on the map is rejected. */
  lemma PlusCrossingThrows(grid: Grid, w: Walker)
    requires IsValidPosition(grid, w.pos) && grid[w.pos.row][w.pos.col] == '+'
    requires w.dir != None
    requires forall e :: e in AllowedDirectionChange(w.dir) ==> Open(grid, w.pos, e)
    ensures Step(grid, w) == Thrown(MultipleValidDirections(w.pos.row, w.pos.col))
  {
    NewDirectionMeaning(grid, w.pos, w.dir);
    var offered := AllowedDirectionChange(w.dir);
    assert offered[0] in offered && offered[1] in offered && offered[0] != offered[1];
  }

  /** An iteration that goes straight on. */
  lemma GoOn(grid: Grid, w: Walker)
    requires IsValidPosition(grid, w.pos) && grid[w.pos.row][w.pos.col] in "-|"
    requires w.dir != None && Open(grid, w.pos, w.dir)
    ensures Step(grid, w).Walking? && Step(grid, w).walker.pos == Next(w.pos, w.dir)
    ensures Step(grid, w).walker.dir == w.dir
  {
  }

  /** The walk on `LoopMap` stands at its start or on the ring. */
  predicate Circling(w: Walker) {
    OnRing(w) || (w.pos == Position(2, 0) && w.dir == None)
  }

  /** The walk on `LoopMap` stands on the map. */
  lemma CirclingOnMap(w: Walker)
    requires Circling(w)
    ensures IsValidPosition(LoopMap, w.pos)
  {
    RingCells();
  }

  /** From the start or the ring, an iteration goes on, onto the ring. */
  lemma CirclingStep(w: Walker)
    requires Circling(w)
    ensures IsValidPosition(LoopMap, w.pos)
    ensures Step(LoopMap, w).Walking? && OnRing(Step(LoopMap, w).walker)
  {
    if OnRing(w) {
      RingStep(w);
    } else {
      LeaveStart(w);
    }
  }

  /** From the start or the ring the walk never ends, however much fuel it
      is given. */
  lemma {:induction false} RingRuns(w: Walker, fuel: nat)
    requires Circling(w)
    ensures IsValidPosition(LoopMap, w.pos) && LoopRest(LoopMap, w, fuel).Walking?
    decreases fuel, 0
  {
    CirclingOnMap(w);
    if fuel > 0 {
      RingResumes(w, fuel - 1);
      assert LoopRest(LoopMap, w, fuel) == Resume(LoopMap, w, fuel - 1);
    }
  }

  /** `RingRuns` for a walk that makes at least one iteration. */
  lemma {:induction false} RingResumes(w: Walker, fuel: nat)
    requires Circling(w)
    ensures IsValidPosition(LoopMap, w.pos) && Resume(LoopMap, w, fuel).Walking?
    decreases fuel, 1
  {
    CirclingStep(w);
    var next := Step(LoopMap, w).walker;
    RingRuns(next, fuel);
    assert Resume(LoopMap, w, fuel) == LoopRest(LoopMap, next, fuel);
  }

  /** The first iteration leaves the start eastwards, onto the ring: of the
      four headings offered at the start, only `Right` leads onto the map. */
  lemma LeaveStart(w: Walker)
    requires w.pos == Position(2, 0) && w.dir == None
    ensures IsValidPosition(LoopMap, w.pos)
    ensures Step(LoopMap, w).Walking? && OnRing(Step(LoopMap, w).walker)
  {
    RingCells();
    assert LoopMap[2][0] == '@';
    StartTurn(LoopMap, w, Right);
  }

  /** The first iteration, on a map where exactly one heading `e` leads from
      the start onto the map, takes that heading. */
  lemma StartTurn(grid: Grid, w: Walker, e: Direction)
    requires IsValidPosition(grid, w.pos) && w.dir == None && grid[w.pos.row][w.pos.col] != 'x'
    requires e != None && Open(grid, w.pos, e)
    requires forall d :: d != None && d != e ==> !Open(grid, w.pos, d)
    ensures Step(grid, w).Walking? && Step(grid, w).walker.pos == Next(w.pos, e)
    ensures Step(grid, w).walker.dir == e
  {
    NewDirectionMeaning(grid, w.pos, None);
    AllowedAreThePerpendiculars(None);
    assert e in AllowedDirectionChange(None);
  }

  /** The start-up scan of `LoopMap`, row by row: all characters are valid,
      the one `@` is on row 2, the one `x` on row 3. */
  lemma LoopMapScan()
    ensures StartPosition(LoopMap) == Ok(Position(2, 0))
  {
    var found := Tally(1, 0, Wrappers.Some(Position(2, 0)));
    assert ScanFrom(LoopMap, 3, 0, found) == Scanned(Tally(1, 1, Wrappers.Some(Position(2, 0))));
    assert ScanFrom(LoopMap, 2, 0, NoCells) == ScanFrom(LoopMap, 3, 0, found);
    assert ScanFrom(LoopMap, 1, 0, NoCells) == ScanFrom(LoopMap, 2, 0, NoCells);
    assert ScanFrom(LoopMap, 0, 0, NoCells) == ScanFrom(LoopMap, 1, 0, NoCells);
  }

  /** `LoopMap` passes validation with its start at row 2, column 0, yet
      `findPath` never returns or throws on it. */
  lemma LoopNeverEnds(fuel: nat)
    ensures StartPosition(LoopMap) == Ok(Position(2, 0))
    ensures FindPathWithin(LoopMap, fuel).Walking?
  {
    LoopMapScan();
    RingRuns(StartWalker(Position(2, 0)), fuel);
  }

  const Corridor: Grid := ["@Ax"]

  /** Which cells around the corridor are on the map. */
  lemma CorridorCells()
    ensures !IsValidPosition(Corridor, Position(-1, 0)) && !IsValidPosition(Corridor, Position(1, 0))
    ensures !IsValidPosition(Corridor, Position(0, -1)) && IsValidPosition(Corridor, Position(0, 0))
    ensures IsValidPosition(Corridor, Position(0, 1)) && IsValidPosition(Corridor, Position(0, 2))
    ensures At(Corridor, Position(0, 0)) == '@' && At(Corridor, Position(0, 1)) == 'A'
    ensures At(Corridor, Position(0, 2)) == 'x'
  {
  }

  /** The first iteration on `Corridor` leaves the start eastwards: of the
      four headings offered, only `Right` leads onto the map. */
  lemma CorridorStart(w: Walker)
    requires w.pos == Position(0, 0) && w.dir == None
    ensures IsValidPosition(Corridor, w.pos)
    ensures Step(Corridor, w) == Walking(Walker(Position(0, 1), Right, w.visited + {w.pos}, w.path + "@", w.letters))
  {
    CorridorCells();
    StartTurn(Corridor, w, Right);
  }

  /** The second iteration keeps straight on over the letter, seen first. */
  lemma CorridorLetter(w: Walker)
    requires w.pos == Position(0, 1) && w.dir == Right && w.pos !in w.visited
    ensures IsValidPosition(Corridor, w.pos)
    ensures Step(Corridor, w) == Walking(Walker(Position(0, 2), Right, w.visited + {w.pos}, w.path + "A", w.letters + "A"))
  {
    CorridorCells();
  }

  /** The third iteration ends the walk on the `x`. */
  lemma CorridorEnd(w: Walker)
    requires w.pos == Position(0, 2)
    ensures IsValidPosition(Corridor, w.pos)
    ensures Step(Corridor, w) == Done(Result(w.path + "x", w.letters))
  {
    CorridorCells();
  }

  /** From the `x` of `Corridor` the walk returns at once. */
  lemma CorridorRunEnd(w: Walker, fuel: nat)
    requires w.pos == Position(0, 2) && fuel >= 1
    ensures IsValidPosition(Corridor, w.pos)
    ensures LoopRest(Corridor, w, fuel) == Done(Result(w.path + "x", w.letters))
  {
    CorridorEnd(w);
    RunUnfold(Corridor, w, fuel);
  }

  /** From the letter of `Corridor`, not yet visited, the walk returns after
      two iterations. */
  lemma CorridorRunLetter(w: Walker, fuel: nat)
    requires w.pos == Position(0, 1) && w.dir == Right && w.pos !in w.visited && fuel >= 2
    ensures IsValidPosition(Corridor, w.pos)
    ensures LoopRest(Corridor, w, fuel) == Done(Result(w.path + "A" + "x", w.letters + "A"))
  {
    CorridorLetter(w);
    RunUnfold(Corridor, w, fuel);
    CorridorRunEnd(Step(Corridor, w).walker, fuel - 1);
  }

  /** The first iteration, as a step of the walk. */
  lemma CorridorLeave(w: Walker, next: Walker, fuel: nat)
    requires w.pos == Position(0, 0) && w.dir == None && fuel >= 1
    requires next == Walker(Position(0, 1), Right, w.visited + {w.pos}, w.path + "@", w.letters)
    ensures IsValidPosition(Corridor, w.pos) && IsValidPosition(Corridor, next.pos)
    ensures LoopRest(Corridor, w, fuel) == LoopRest(Corridor, next, fuel - 1)
  {
    CorridorStart(w);
    RunUnfold(Corridor, w, fuel);
  }

  /** From its start, with nothing visited, the walk on `Corridor` returns
      after three iterations, adding every character to the path and the one
      letter to the letters. */
  lemma CorridorRun(w: Walker, fuel: nat)
    requires w.pos == Position(0, 0) && w.dir == None && w.visited == {} && fuel >= 3
    ensures IsValidPosition(Corridor, w.pos)
    ensures LoopRest(Corridor, w, fuel) == Done(Result(w.path + "@" + "A" + "x", w.letters + "A"))
  {
    var next := Walker(Position(0, 1), Right, w.visited + {w.pos}, w.path + "@", w.letters);
    CorridorLeave(w, next, fuel);
    CorridorRunLetter(next, fuel - 1);
  }

  /** On `Corridor` the walk returns the whole row as its path and the one
      letter as its letters, given fuel for its three iterations. */
  lemma CorridorExample(fuel: nat)
    requires fuel >= 3
    ensures FindPathWithin(Corridor, fuel) == Done(Result("@Ax", "A"))
  {
    assert StartPosition(Corridor) == Ok(Position(0, 0));
    CorridorRun(StartWalker(Position(0, 0)), fuel);
    assert [] + "@" + "A" + "x" == "@Ax" && [] + "A" == "A";
  }
}
