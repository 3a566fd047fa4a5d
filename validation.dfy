/** The pass over the whole map that runs before any walking: every character
    must belong to the alphabet, there must be exactly one start `@` and at
    least one end `x`; the result is the start cell. */
module MapValidation {
  import opened Wrappers
  import opened PipeMap

  /** The counters of the scan: how many `@` and `x` cells were seen, and the
      most recent `@` (`None` before the first one, where the source holds null). */
  datatype Tally = Tally(starts: int, ends: int, start: Option<Position>)

  /** A scan either stops at an invalid character or runs to the end. */
  datatype Scan = Stopped(c: char, at: Position) | Scanned(tally: Tally)

  const NoCells: Tally := Tally(0, 0, None)

  /** `(i, j)` is a cursor of the row-major scan: a cell, the end of a row, or
      the end of the map. */
  predicate IsCursor(grid: Grid, i: nat, j: nat) {
    i <= |grid| && (i < |grid| ==> j <= |grid[i]|)
  }

  /** `q` comes at or after the cursor `(i, j)` in row-major order. */
  predicate NotBefore(q: Position, i: int, j: int) {
    q.row > i || (q.row == i && q.col >= j)
  }

  /** `p` comes strictly before `q` in row-major order. */
  predicate Before(p: Position, q: Position) {
    p.row < q.row || (p.row == q.row && p.col < q.col)
  }

  /** Cell `q` exists and holds `c`. */
  predicate Holds(grid: Grid, q: Position, c: char) {
    InGrid(grid, q) && At(grid, q) == c
  }

  ghost predicate AllValid(grid: Grid) {
    forall q :: InGrid(grid, q) ==> IsValidCharacter(At(grid, q))
  }

  ghost predicate Has(grid: Grid, c: char) {
    exists q :: Holds(grid, q, c)
  }

  /** No two distinct cells hold `c`. */
  ghost predicate AtMostOne(grid: Grid, c: char) {
    forall p, q :: Holds(grid, p, c) && Holds(grid, q, c) ==> p == q
  }

  /** `p` is the first cell in row-major order whose character is not allowed. */
  ghost predicate FirstInvalid(grid: Grid, p: Position, c: char) {
    Holds(grid, p, c) && !IsValidCharacter(c) &&
    forall q :: InGrid(grid, q) && Before(q, p) ==> IsValidCharacter(At(grid, q))
  }

  /** The tally after one more cell holding `c` at `p`. */
  function Counted(t: Tally, c: char, p: Position): Tally {
    if c == '@' then Tally(t.starts + 1, t.ends, Some(p))
    else if c == 'x' then Tally(t.starts, t.ends + 1, t.start)
    else t
  }

  /** The scan from cursor `(i, j)` on, in row-major order, with tally `t` so far. */
  function ScanFrom(grid: Grid, i: nat, j: nat, t: Tally): (r: Scan)
    requires IsCursor(grid, i, j)
    ensures r.Scanned? ==> r.tally.starts >= t.starts && r.tally.ends >= t.ends
    ensures r.Scanned? && (t.starts == 0 || t.start.Some?) ==> r.tally.starts == 0 || r.tally.start.Some?
    ensures r.Scanned? && r.tally.start.Some? && (t.start.Some? ==> Holds(grid, t.start.value, '@')) ==>
      Holds(grid, r.tally.start.value, '@')
    decreases |grid| - i, if i < |grid| then |grid[i]| - j else 0
  {
    if i == |grid| then Scanned(t)
    else if j == |grid[i]| then ScanFrom(grid, i + 1, 0, t)
    else
      var c := grid[i][j];
      if !IsValidCharacter(c) then Stopped(c, Position(i, j))
      else ScanFrom(grid, i, j + 1, Counted(t, c, Position(i, j)))
  }

  /** How many cells from cursor `(i, j)` on hold `c`. */
  function CountFrom(grid: Grid, i: nat, j: nat, c: char): nat
    requires IsCursor(grid, i, j)
    decreases |grid| - i, if i < |grid| then |grid[i]| - j else 0
  {
    if i == |grid| then 0
    else if j == |grid[i]| then CountFrom(grid, i + 1, 0, c)
    else (if grid[i][j] == c then 1 else 0) + CountFrom(grid, i, j + 1, c)
  }

  /** What `getStartPositionOrThrow` returns or throws: the first invalid
      character wins over every count; then a missing start, several starts,
      a missing end, in that order. */
  function StartPosition(grid: Grid): (r: Outcome<Position>)
    ensures r.Ok? ==> Holds(grid, r.value, '@')
  {
    match ScanFrom(grid, 0, 0, NoCells)
    case Stopped(c, p) => Err(InvalidCharacter(c, p.row, p.col))
    case Scanned(t) =>
      if t.starts == 0 then Err(MissingStart)
      else if t.starts > 1 then Err(MultipleStarts)
      else if t.ends == 0 then Err(MissingEnd)
      else Ok(t.start.value)
  }

  /** The two loops of `getStartPositionOrThrow`: row by row, cell by cell,
      throwing at the first invalid character and counting `@` and `x`. */
  method GetStartPositionOrThrow(grid: Grid) returns (r: Outcome<Position>)
    ensures r == StartPosition(grid)
    ensures r.Ok? ==> Holds(grid, r.value, '@') && AtMostOne(grid, '@') && Has(grid, 'x')
  {
    ghost var whole := ScanFrom(grid, 0, 0, NoCells);
    var start: Option<Position> := None;
    var startCount, endCount := 0, 0;
    for i := 0 to |grid|
      invariant startCount == 0 || start.Some?
      invariant ScanFrom(grid, i, 0, Tally(startCount, endCount, start)) == whole
    {
      for j := 0 to |grid[i]|
        invariant startCount == 0 || start.Some?
        invariant ScanFrom(grid, i, j, Tally(startCount, endCount, start)) == whole
      {
        var c := grid[i][j];
        if !IsValidCharacter(c) {
          return Err(InvalidCharacter(c, i, j));
        }
        ScanCell(grid, i, j, Tally(startCount, endCount, start));
        if c == '@' {
          startCount := startCount + 1;
          start := Some(Position(i, j));
        } else if c == 'x' {
          endCount := endCount + 1;
        }
      }
    }
    assert whole == Scanned(Tally(startCount, endCount, start));
    if startCount == 0 {
      r := Err(MissingStart);
    } else if startCount > 1 {
      r := Err(MultipleStarts);
    } else if endCount == 0 {
      r := Err(MissingEnd);
    } else {
      r := Ok(start.value);
      StartFound(grid);
    }
  }

  /** One cell of the scan, for a valid character. */
  lemma ScanCell(grid: Grid, i: nat, j: nat, t: Tally)
    requires i < |grid| && j < |grid[i]| && IsValidCharacter(grid[i][j])
    ensures ScanFrom(grid, i, j, t) == ScanFrom(grid, i, j + 1, Counted(t, grid[i][j], Position(i, j)))
  {
  }

  /** A start position returned is the map's only `@`, and the map has an `x`. */
  lemma StartFound(grid: Grid)
    requires StartPosition(grid).Ok?
    ensures Holds(grid, StartPosition(grid).value, '@') && AtMostOne(grid, '@') && Has(grid, 'x')
  {
    StartPositionMeaning(grid);
  }

  /** What the scan finds from cursor `(i, j)` on: the first invalid cell, or,
      when every cell is valid, the number of `@` and `x` cells and the last `@`. */
  lemma {:induction false} ScanMeaning(grid: Grid, i: nat, j: nat, t: Tally)
    requires IsCursor(grid, i, j)
    ensures var r := ScanFrom(grid, i, j, t);
      r.Stopped? ==>
        Holds(grid, r.at, r.c) && NotBefore(r.at, i, j) && !IsValidCharacter(r.c) &&
        forall q :: InGrid(grid, q) && NotBefore(q, i, j) && Before(q, r.at) ==> IsValidCharacter(At(grid, q))
    ensures var r := ScanFrom(grid, i, j, t);
      r.Scanned? ==>
        (forall q :: InGrid(grid, q) && NotBefore(q, i, j) ==> IsValidCharacter(At(grid, q))) &&
        r.tally.starts == t.starts + CountFrom(grid, i, j, '@') &&
        r.tally.ends == t.ends + CountFrom(grid, i, j, 'x') &&
        (CountFrom(grid, i, j, '@') == 0 ==> r.tally.start == t.start) &&
        (CountFrom(grid, i, j, '@') > 0 ==>
           r.tally.start.Some? && Holds(grid, r.tally.start.value, '@') && NotBefore(r.tally.start.value, i, j))
    decreases |grid| - i, if i < |grid| then |grid[i]| - j else 0
  {
    if i == |grid| {
    } else if j == |grid[i]| {
      ScanMeaning(grid, i + 1, 0, t);
    } else {
      var c := grid[i][j];
      if IsValidCharacter(c) {
        ScanMeaning(grid, i, j + 1, Counted(t, c, Position(i, j)));
        assert At(grid, Position(i, j)) == c;
      }
    }
  }

  /** No cell from the cursor on holds `c` exactly when the count is zero. */
  lemma {:induction false} CountZero(grid: Grid, i: nat, j: nat, c: char)
    requires IsCursor(grid, i, j)
    ensures CountFrom(grid, i, j, c) == 0 <==> forall q :: Holds(grid, q, c) ==> !NotBefore(q, i, j)
    decreases |grid| - i, if i < |grid| then |grid[i]| - j else 0
  {
    if i == |grid| {
    } else if j == |grid[i]| {
      CountZero(grid, i + 1, 0, c);
    } else {
      CountZero(grid, i, j + 1, c);
      assert Holds(grid, Position(i, j), grid[i][j]);
    }
  }

  /** At most one cell from the cursor on holds `c` exactly when the count is
      at most one. */
  lemma {:induction false} CountAtMostOne(grid: Grid, i: nat, j: nat, c: char)
    requires IsCursor(grid, i, j)
    ensures CountFrom(grid, i, j, c) <= 1 <==>
      forall p, q :: Holds(grid, p, c) && Holds(grid, q, c) && NotBefore(p, i, j) && NotBefore(q, i, j) ==> p == q
    decreases |grid| - i, if i < |grid| then |grid[i]| - j else 0
  {
    if i == |grid| {
    } else if j == |grid[i]| {
      CountAtMostOne(grid, i + 1, 0, c);
    } else {
      CountAtMostOne(grid, i, j + 1, c);
      CountZero(grid, i, j + 1, c);
      var here := Position(i, j);
      assert At(grid, here) == grid[i][j];
      if grid[i][j] == c && CountFrom(grid, i, j + 1, c) > 0 {
        var q :| Holds(grid, q, c) && NotBefore(q, i, j + 1);
        assert Holds(grid, here, c) && NotBefore(here, i, j) && NotBefore(q, i, j) && here != q;
      }
    }
  }

  /** `getStartPositionOrThrow`, stated cell by cell: an invalid character
      anywhere is reported at the first one in row-major order; otherwise a
      missing `@`, then a second `@`, then a missing `x` is reported; and the
      position returned holds the one and only `@` of a map with an `x`. */
  lemma StartPositionMeaning(grid: Grid)
    ensures var r := StartPosition(grid);
      (r.Err? && r.error.InvalidCharacter?) <==> !AllValid(grid)
    ensures var r := StartPosition(grid);
      r.Err? && r.error.InvalidCharacter? ==> FirstInvalid(grid, Position(r.error.row, r.error.col), r.error.c)
    ensures StartPosition(grid) == Err(MissingStart) <==> AllValid(grid) && !Has(grid, '@')
    ensures StartPosition(grid) == Err(MultipleStarts) <==> AllValid(grid) && Has(grid, '@') && !AtMostOne(grid, '@')
    ensures StartPosition(grid) == Err(MissingEnd) <==>
      AllValid(grid) && Has(grid, '@') && AtMostOne(grid, '@') && !Has(grid, 'x')
    ensures StartPosition(grid).Ok? <==> AllValid(grid) && Has(grid, '@') && AtMostOne(grid, '@') && Has(grid, 'x')
    ensures StartPosition(grid).Ok? ==> Holds(grid, StartPosition(grid).value, '@')
  {
    ScanMeaning(grid, 0, 0, NoCells);
    CountZero(grid, 0, 0, '@');
    CountZero(grid, 0, 0, 'x');
    CountAtMostOne(grid, 0, 0, '@');
    assert forall q :: InGrid(grid, q) ==> NotBefore(q, 0, 0);
    var r := ScanFrom(grid, 0, 0, NoCells);
    if r.Stopped? {
      assert !IsValidCharacter(At(grid, r.at));
    }
  }
}
