/** The grid a pipe map is drawn on, the positions on it, and the values the
    path finder hands back: a `Result` or an `InvalidMapException`. */
module PipeMap {
  import opened Directions

  /** The map as given: rows of characters, possibly of different lengths.
      The path finder only ever reads it. */
  type Grid = seq<seq<char>>

  datatype Position = Position(row: int, col: int)

  /** What a successful walk returns: every character visited, in order, and
      the letters collected on first visits. */
  datatype Result = Result(path: string, letters: string)

  /** The conditions under which `InvalidMapException` is thrown, with the
      character and coordinates its message reports. */
  datatype MapError =
    | InvalidCharacter(c: char, row: int, col: int)
    | MissingStart
    | MultipleStarts
    | MissingEnd
    | NoValidDirections(row: int, col: int)
    | MultipleValidDirections(row: int, col: int)

  /** A value, or the exception thrown instead of returning it. */
  datatype Outcome<T> = Ok(value: T) | Err(error: MapError)

  /** No element of `s` occurs twice. */
  predicate Distinct<T(==)>(s: seq<T>) {
    forall i, j :: 0 <= i < j < |s| ==> s[i] != s[j]
  }

  /** Every character a map may contain. */
  const Alphabet: string := "@x-|+ ABCDEFGHIJKLMNOPQRSTUVWXYZ"

  predicate IsUpper(c: char) {
    'A' <= c <= 'Z'
  }

  /** Whether `c` may appear in a map at all. */
  predicate IsValidCharacter(c: char) {
    c == '@' || c == 'x' || c == '-' || c == '|' || c == '+' || c == ' ' || IsUpper(c)
  }

  /** The characters accepted are exactly those of the alphabet. */
  lemma ValidCharacterAlphabet(c: char)
    ensures IsValidCharacter(c) <==> c in Alphabet
  {
  }

  /** `p` addresses a cell of `grid`: rows may be ragged, so the column bound
      is the length of that particular row. */
  predicate InGrid(grid: Grid, p: Position) {
    0 <= p.row < |grid| && 0 <= p.col < |grid[p.row]|
  }

  function At(grid: Grid, p: Position): char
    requires InGrid(grid, p)
  {
    grid[p.row][p.col]
  }

  /** A cell is part of the map when it exists and is not blank: a short row
      and a blank cell are both off the map. */
  predicate IsValidPosition(grid: Grid, p: Position)
    ensures IsValidPosition(grid, p) <==> InGrid(grid, p) && At(grid, p) != ' '
  {
    p.row >= 0 && p.col >= 0 && p.row < |grid| && p.col < |grid[p.row]| && grid[p.row][p.col] != ' '
  }

  /** The neighbour of `p` one step in direction `d`. */
  function Next(p: Position, d: Direction): Position {
    Position(p.row + d.Row(), p.col + d.Col())
  }

  /** Cells `p` and `q` are grid neighbours: one step apart, across or down. */
  predicate Adjacent(p: Position, q: Position) {
    Abs(p.row - q.row) + Abs(p.col - q.col) == 1
  }

  /** A step in a cardinal direction reaches a grid neighbour (at distance one);
      a step by `None` stays put; a step is undone by its reverse. */
  lemma NextIsNeighbour(p: Position, d: Direction)
    ensures d != None ==> Adjacent(Next(p, d), p)
    ensures d == None <==> Next(p, d) == p
    ensures Next(Next(p, d), Reverse(d)) == p
  {
    UnitSteps(d);
  }
}
