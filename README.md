# Pipe-map path finder, modelled in Dafny

The repository is a small interpreter for ASCII "pipe maps". A map is a
ragged grid of characters. It holds exactly one start `@`, at least one end
`x`, straight pipes `-` and `|`, corners `+`, upper-case letters, and
blanks. A `+` always forces a turn, so a `+` with both perpendicular
neighbours on the map is rejected as "multiple valid directions"; a path can
cross itself only on `-`, `|` or a letter. `PathFinder.findPath` does two
things:

- It validates the whole map and locates the start.
- It walks from the start. At every cell it appends the character to `path`.
  It appends an upper-case letter to `letters` only on the first visit to
  that cell.

The walk stops at the first `x` it reaches. It takes a new heading at the
start, on every `+`, and wherever going straight would leave the map. A new
heading must be the one open choice among the allowed ones, or the map is
rejected.

The model follows the source's own structure:

- `Directions` is the `Direction` enum and its offsets.
- `PipeMap` holds the grid, positions, `isValidCharacter`, `isValidPosition`
  and `next`, plus the result and error values.
- `MapValidation` is `getStartPositionOrThrow`. It is a method with the
  source's two nested loops, proved against a row-major scan function.
- `Steering` holds `allowedDirectionChange`, `checkShouldChangeDirection` and
  `getNewDirectionOrThrow`.
- `PathFinder` is `findPath` and `collect`. The loop is a method over two
  `StringBuilder` objects and a visited set, proved equal to `Run`, which
  iterates one step of the loop.
- `WalkFacts` states what a finished walk returns, in terms of the sequence
  of cells it visited.
- `Examples` holds four facts about a single iteration on any map (taking
  the one open heading at the start, turning on a `+`, going straight on, and
  the rejection of a `+` used as a crossing) and two concrete maps. On the
  first, a one-row corridor, the walk returns a result. On the second, a map
  that passes validation, the walk circles forever.

Nothing in `findPath` bounds its loop, and a map that passes validation
need not lead to an `x`. `Examples.LoopNeverEnds` exhibits one: a validated
map on which the walk never reaches its `x`: it neither returns a result nor
throws an `InvalidMapException`.

## Model

| member | source | states |
|---|---|---|
| Directions.Reverse | src/main/java/com/codechallenge/pathfinder/Direction.java:5-8 | the reverse heading has the negated row and column offsets |
| Directions.OffsetTable | src/main/java/com/codechallenge/pathfinder/Direction.java:5-25 | `row()`/`col()` return exactly UP=(-1,0), RIGHT=(0,1), DOWN=(1,0), LEFT=(0,-1), NONE=(0,0) |
| Directions.UnitSteps | src/main/java/com/codechallenge/pathfinder/Direction.java:5-9 | a heading is cardinal iff its offset has length one; NONE iff its offset is zero |
| Directions.Orientation | src/main/java/com/codechallenge/pathfinder/Direction.java:5-8 | vertical headings have column offset 0, horizontal ones row offset 0; reversing keeps the orientation, changes the heading, and is an involution |
| Directions.Perpendicular | src/main/java/com/codechallenge/pathfinder/Direction.java:5-8 | two cardinal headings are perpendicular (dot product 0) iff one is vertical and the other horizontal; never with itself or its reverse |
| Directions.CardinalsComplete | src/main/java/com/codechallenge/pathfinder/Direction.java:5-9 | the four cardinal headings are exactly the headings other than NONE |
| PipeMap.ValidCharacterAlphabet | src/main/java/com/codechallenge/pathfinder/PathFinder.java:114-122 | a character is accepted iff it is one of `@ x - \| +`, blank, or `A`..`Z` |
| PipeMap.IsValidPosition | src/main/java/com/codechallenge/pathfinder/PathFinder.java:106-112 | a position is valid iff it addresses a cell of its own (possibly short) row and that cell is not blank |
| PipeMap.NextIsNeighbour | src/main/java/com/codechallenge/pathfinder/PathFinder.java:102-104 | a cardinal step reaches a grid neighbour at distance one, a NONE step stays put, and the reverse step undoes it |
| Steering.AllowedDirectionChange | src/main/java/com/codechallenge/pathfinder/PathFinder.java:94-100 | four headings are offered at the start and two otherwise, never NONE |
| Steering.AllowedAreThePerpendiculars | src/main/java/com/codechallenge/pathfinder/PathFinder.java:94-100 | a heading is offered iff it is cardinal and perpendicular to the current one; each is offered once; the current heading and its reverse never are |
| Steering.CheckShouldChangeDirection | src/main/java/com/codechallenge/pathfinder/PathFinder.java:71-75 | a new heading is due at the start and on `+`; otherwise it is due iff going straight leaves the map; when none is due, going straight stays on the map |
| Steering.ValidDirections | src/main/java/com/codechallenge/pathfinder/PathFinder.java:78-81 | the first kept candidate is an offered candidate whose neighbour is on the map |
| Steering.ValidDirectionsFilter | src/main/java/com/codechallenge/pathfinder/PathFinder.java:78-81 | the filter keeps exactly the candidates whose neighbour is on the map, and keeps distinct candidates distinct |
| Steering.GetNewDirectionOrThrow | src/main/java/com/codechallenge/pathfinder/PathFinder.java:77-92 | a returned heading is cardinal and leads onto the map; an error is "no valid directions" or "multiple valid directions" at the current cell |
| Steering.NewDirectionMeaning | src/main/java/com/codechallenge/pathfinder/PathFinder.java:77-92 | "no valid directions" iff no offered heading is open; "multiple" iff two distinct offered headings are open; otherwise the result is the only open offered heading |
| Steering.TurnNeverReverses | src/main/java/com/codechallenge/pathfinder/PathFinder.java:77-100 | a chosen heading is neither the current heading nor its reverse, and after the start it switches between vertical and horizontal |
| MapValidation.ScanFrom | src/main/java/com/codechallenge/pathfinder/PathFinder.java:43-58 | the counts only grow along the scan, and a start is recorded, at an `@` cell, whenever one was counted |
| MapValidation.StartPosition | src/main/java/com/codechallenge/pathfinder/PathFinder.java:39-69 | a returned start holds `@` |
| MapValidation.GetStartPositionOrThrow | src/main/java/com/codechallenge/pathfinder/PathFinder.java:39-69 | the nested loops return the scan's verdict; a returned start is the map's only `@`, and the map has an `x` |
| MapValidation.ScanCell | src/main/java/com/codechallenge/pathfinder/PathFinder.java:45-56 | one valid cell advances the scan by counting an `@` (recording its position) or an `x` |
| MapValidation.StartFound | src/main/java/com/codechallenge/pathfinder/PathFinder.java:60-68 | success means the start holds the only `@` and an `x` exists |
| MapValidation.ScanMeaning | src/main/java/com/codechallenge/pathfinder/PathFinder.java:43-58 | the scan stops at the first invalid cell in row-major order; otherwise every cell is valid, the counts are the numbers of `@` and `x` cells, and the recorded start holds `@` |
| MapValidation.CountZero | src/main/java/com/codechallenge/pathfinder/PathFinder.java:51-56 | the count of a character is zero iff no remaining cell holds it |
| MapValidation.CountAtMostOne | src/main/java/com/codechallenge/pathfinder/PathFinder.java:51-53 | the count of a character is at most one iff no two distinct remaining cells hold it |
| MapValidation.StartPositionMeaning | src/main/java/com/codechallenge/pathfinder/PathFinder.java:39-69 | an invalid character anywhere is reported at the first one; otherwise missing start, then multiple starts, then missing end, each iff its condition; success iff the map is valid with exactly one `@` and some `x` |
| PathFinder.StringBuilder.constructor | src/main/java/com/codechallenge/pathfinder/PathFinder.java:11-12 | a new builder is empty |
| PathFinder.StringBuilder.Append | src/main/java/com/codechallenge/pathfinder/PathFinder.java:33 | appending adds exactly one character at the end |
| PathFinder.Collected | src/main/java/com/codechallenge/pathfinder/PathFinder.java:32-37 | the path always gains the character; the letters gain it iff it is upper-case and the cell was not visited |
| PathFinder.Collect | src/main/java/com/codechallenge/pathfinder/PathFinder.java:32-37 | the two builders end up as `Collected` of their old contents |
| PathFinder.Step | src/main/java/com/codechallenge/pathfinder/PathFinder.java:18-28 | an iteration that goes on lands on a valid position, so the read at line 18 never fails |
| PathFinder.StepOutcome | src/main/java/com/codechallenge/pathfinder/PathFinder.java:21-27 | an iteration returns iff the cell is `x`, and throws only the two direction errors at the current cell |
| PathFinder.StepCollects | src/main/java/com/codechallenge/pathfinder/PathFinder.java:18-23 | every iteration that does not throw collects the cell's character, and one that goes on marks the cell visited |
| PathFinder.StepMoves | src/main/java/com/codechallenge/pathfinder/PathFinder.java:25-28 | an iteration that goes on moves one step in a heading that is not NONE, and that heading is unchanged when no change was due |
| PathFinder.Run | src/main/java/com/codechallenge/pathfinder/PathFinder.java:17-29 | a walk still under way stands on a valid position |
| PathFinder.Resume | src/main/java/com/codechallenge/pathfinder/PathFinder.java:17-29 | as `Run`, after one iteration |
| PathFinder.RunUnfold | src/main/java/com/codechallenge/pathfinder/PathFinder.java:17-29 | a walk with fuel left is its first iteration, followed by the rest of the walk |
| PathFinder.FindPath | src/main/java/com/codechallenge/pathfinder/PathFinder.java:10-30 | validation and then the loop give exactly `FindPathWithin` |
| PathFinder.WalkFrom | src/main/java/com/codechallenge/pathfinder/PathFinder.java:11-29 | the loop over the builders and the visited set gives exactly the walk `Run` from the start, keeping the position valid |
| WalkFacts.TraceUnfold | src/main/java/com/codechallenge/pathfinder/PathFinder.java:17-29 | the cells visited are the current cell, then the cells of the rest of the walk |
| WalkFacts.TraceHead | src/main/java/com/codechallenge/pathfinder/PathFinder.java:14-18 | a walk with fuel reads first the cell it stands on |
| WalkFacts.TraceOnMap | src/main/java/com/codechallenge/pathfinder/PathFinder.java:14-28 | every visited cell is a valid position; there are no more cells than iterations, and the first is the walker's cell |
| WalkFacts.TraceAdjacent | src/main/java/com/codechallenge/pathfinder/PathFinder.java:25-28 | consecutive visited cells are grid neighbours |
| WalkFacts.TraceStopsAtX | src/main/java/com/codechallenge/pathfinder/PathFinder.java:21-23 | no visited cell before the last one holds `x` |
| WalkFacts.RunEndsOnX | src/main/java/com/codechallenge/pathfinder/PathFinder.java:21-23 | a walk that returns has visited at least one cell, and its last cell holds `x` |
| WalkFacts.RunPath | src/main/java/com/codechallenge/pathfinder/PathFinder.java:19 | a returned path is the path so far, followed by one character per visited cell, in order |
| WalkFacts.RunLetters | src/main/java/com/codechallenge/pathfinder/PathFinder.java:19-20 | returned letters are the letters so far, followed by the letters of the first visits to letter cells |
| WalkFacts.ResumeLetters | src/main/java/com/codechallenge/pathfinder/PathFinder.java:19-20 | as `RunLetters`, after one iteration |
| WalkFacts.LettersCons | src/main/java/com/codechallenge/pathfinder/PathFinder.java:34-36 | collecting one cell and then the first visits of the rest yields the first visits of the whole |
| WalkFacts.FirstVisitsMembers | src/main/java/com/codechallenge/pathfinder/PathFinder.java:34 | a cell is a first visit iff it is visited, was not seen before, and holds an upper-case letter |
| WalkFacts.FirstVisitsDistinct | src/main/java/com/codechallenge/pathfinder/PathFinder.java:34 | no cell is a first visit twice |
| WalkFacts.RunMoreFuel | src/main/java/com/codechallenge/pathfinder/PathFinder.java:17 | once a walk has returned or thrown, more fuel changes nothing |
| WalkFacts.FindPathMoreFuel | src/main/java/com/codechallenge/pathfinder/PathFinder.java:10-17 | the same for `findPath` as a whole |
| WalkFacts.FindPathResult | src/main/java/com/codechallenge/pathfinder/PathFinder.java:10-30 | a returned result is the characters of the visited cells, from the `@` to the first `x`, and the letters of the first visits, each letter cell once and all upper-case |
| Examples.StartTurn | src/main/java/com/codechallenge/pathfinder/PathFinder.java:25-28 | at the start, the one heading leading onto the map is taken |
| Examples.TurnAt | src/main/java/com/codechallenge/pathfinder/PathFinder.java:25-28 | on a `+`, the one offered heading leading onto the map is taken |
| Examples.PlusCrossingThrows | src/main/java/com/codechallenge/pathfinder/PathFinder.java:72-99 | on a `+` reached with a heading, if both perpendicular neighbours are on the map the walk throws "multiple valid directions" at that cell: a `+` is never a crossing |
| Examples.GoOn | src/main/java/com/codechallenge/pathfinder/PathFinder.java:25-28 | on a straight pipe, with the way ahead open, the heading is kept |
| Examples.LoopNeverEnds | src/main/java/com/codechallenge/pathfinder/PathFinder.java:17-29 | a map passing validation on which the walk never reaches its `x`: for any bound it neither returns a result nor throws an `InvalidMapException` |
| Examples.CorridorExample | src/main/java/com/codechallenge/pathfinder/PathFinder.java:10-30 | on `@Ax`, `findPath` returns path `@Ax` and letters `A` |

## Left out

- PathFinder.FindPath: the loop takes a `fuel` bound and returns `Walking` when the bound runs out. The source loops without any bound. Lemmas `RunMoreFuel` and `FindPathMoreFuel` show that the bound never changes a result that is reached.
- The text of the `InvalidMapException` messages is not modelled. Only the kind of error is kept, with the character and coordinates that the message reports.
- The `Position`, `Result` and `InvalidMapException` classes are not part of this model. They are modelled only as plain values of their evident shape.
- Java's `Stream`, `List.of` and `getFirst` become a sequence filter. `HashSet` hashing becomes a Dafny `set`.
- MapValidation.GetStartPositionOrThrow: `int` overflow is not modelled. In the source `startCount` and `endCount` are 32-bit and wrap, while the model (and `MapValidation.StartPosition`) counts exactly. The verdicts differ whenever the wrapped and the true count fall on different sides of 0 or 1. With 2^31 `@` cells the source returns the last `@` and the model reports multiple starts. With 2^32 `x` cells the source reports a missing end and the model accepts. Coordinates are unbounded integers as well.
- Java's `char` is a UTF-16 code unit, which may be a lone surrogate and cannot hold a character above U+FFFF. The model's `char` is a Unicode scalar value. Only the character reported by an invalid-character error can differ.
- `path` and `letters` are unbounded strings. In the source they are `StringBuilder`s of at most about 2^31 characters, so a walk that never ends, as on `LoopMap`, ends in the source with an `OutOfMemoryError`, while the model stays `Walking`.
- A `null` map or a `null` row, which would make the source throw `NullPointerException`, is not modelled. The grid is a sequence of sequences.
- `StringBuilder.toString` is not modelled. The builder's contents are the string itself.
