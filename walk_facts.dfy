/** What the walk loop guarantees, stated over the sequence of cells it
    visits: every visited cell is on the map, consecutive cells are grid
    neighbours, the walk stops at the first `x`, `path` holds one character
    per visited cell, and `letters` holds each upper-case letter cell once, at
    its first visit. */
module WalkFacts {
  import opened Directions
  import opened PipeMap
  import opened MapValidation
  import opened PathFinder

  /** The cells whose characters the loop collects, in order, when it runs at
      most `fuel` iterations from `w`. */
  ghost function Trace(grid: Grid, w: Walker, fuel: nat): seq<Position>
    requires IsValidPosition(grid, w.pos)
    decreases fuel, 0
  {
    if fuel == 0 then [] else TraceOn(grid, w, fuel - 1)
  }

  /** The cells of one iteration from `w` and at most `fuel` more. */
  ghost function TraceOn(grid: Grid, w: Walker, fuel: nat): seq<Position>
    requires IsValidPosition(grid, w.pos)
    decreases fuel, 1
  {
    match Step(grid, w)
    case Walking(next) => [w.pos] + Trace(grid, next, fuel)
    case _ => [w.pos]
  }

  lemma TraceUnfold(grid: Grid, w: Walker, fuel: nat)
    requires IsValidPosition(grid, w.pos) && fuel > 0
    ensures Step(grid, w).Walking? ==> Trace(grid, w, fuel) == [w.pos] + Trace(grid, Step(grid, w).walker, fuel - 1)
    ensures !Step(grid, w).Walking? ==> Trace(grid, w, fuel) == [w.pos]
  {
  }

  /** A trace with fuel left starts where the walker stands. */
  lemma TraceHead(grid: Grid, w: Walker, fuel: nat)
    requires IsValidPosition(grid, w.pos)
    ensures fuel > 0 ==> |Trace(grid, w, fuel)| > 0 && Trace(grid, w, fuel)[0] == w.pos
  {
    if fuel > 0 {
      TraceUnfold(grid, w, fuel);
    }
  }

  ghost predicate OnMap(grid: Grid, t: seq<Position>) {
    forall k :: 0 <= k < |t| ==> IsValidPosition(grid, t[k])
  }

  /** The character of cell `p`, read as blank off the map. */
  function Glyph(grid: Grid, p: Position): char {
    if InGrid(grid, p) then At(grid, p) else ' '
  }

  /** The characters of the cells of `t`, in order. */
  function Glyphs(grid: Grid, t: seq<Position>): (s: string)
    ensures |s| == |t|
  {
    if t == [] then [] else [Glyph(grid, t[0])] + Glyphs(grid, t[1..])
  }

  /** Character `k` of the glyphs is the character of cell `k`. */
  lemma {:induction false} GlyphsAt(grid: Grid, t: seq<Position>)
    ensures forall k :: 0 <= k < |t| ==> Glyphs(grid, t)[k] == Glyph(grid, t[k])
  {
    if t != [] {
      GlyphsAt(grid, t[1..]);
    }
  }

  /** The glyphs of two runs of cells, one after the other. */
  lemma {:induction false} GlyphsAppend(grid: Grid, a: seq<Position>, b: seq<Position>)
    ensures Glyphs(grid, a + b) == Glyphs(grid, a) + Glyphs(grid, b)
  {
    if a != [] {
      GlyphsAppend(grid, a[1..], b);
      assert (a + b)[1..] == a[1..] + b;
    } else {
      assert a + b == b;
    }
  }

  /** The cells of `t` that hold an upper-case letter and are neither in `seen`
      nor met earlier in `t`, in the order they are first met. */
  function FirstVisits(grid: Grid, t: seq<Position>, seen: set<Position>): seq<Position> {
    if t == [] then []
    else
      var met := if IsUpper(Glyph(grid, t[0])) && t[0] !in seen then [t[0]] else [];
      met + FirstVisits(grid, t[1..], seen + {t[0]})
  }

  /** The trace stays on the map, starts where the walker stands, and is no
      longer than the fuel. */
  lemma {:induction false} TraceOnMap(grid: Grid, w: Walker, fuel: nat)
    requires IsValidPosition(grid, w.pos)
    ensures var t := Trace(grid, w, fuel);
      OnMap(grid, t) && |t| <= fuel && (fuel > 0 ==> |t| > 0 && t[0] == w.pos)
    decreases fuel
  {
    if fuel > 0 {
      TraceUnfold(grid, w, fuel);
      if Step(grid, w).Walking? {
        var next := Step(grid, w).walker;
        TraceOnMap(grid, next, fuel - 1);
        var rest := Trace(grid, next, fuel - 1);
        var t := Trace(grid, w, fuel);
        assert forall k :: 1 <= k < |t| ==> t[k] == rest[k - 1];
      }
    }
  }

  /** The trace moves one grid step at a time. */
  lemma {:induction false} TraceAdjacent(grid: Grid, w: Walker, fuel: nat)
    requires IsValidPosition(grid, w.pos)
    ensures var t := Trace(grid, w, fuel);
      forall k :: 0 <= k < |t| - 1 ==> Adjacent(t[k], t[k + 1])
    decreases fuel
  {
    if fuel > 0 {
      TraceUnfold(grid, w, fuel);
      if Step(grid, w).Walking? {
        var next := Step(grid, w).walker;
        TraceHead(grid, next, fuel - 1);
        TraceAdjacent(grid, next, fuel - 1);
        var rest := Trace(grid, next, fuel - 1);
        var t := Trace(grid, w, fuel);
        if |rest| > 0 {
          assert Adjacent(t[0], t[1]) by {
            StepMoves(grid, w);
            NextIsNeighbour(w.pos, next.dir);
          }
        }
        forall k | 1 <= k < |t| - 1 ensures Adjacent(t[k], t[k + 1]) {
          assert t[k] == rest[k - 1] && t[k + 1] == rest[k];
        }
      }
    }
  }

  /** The trace meets no `x` before its last cell. */
  lemma {:induction false} TraceStopsAtX(grid: Grid, w: Walker, fuel: nat)
    requires IsValidPosition(grid, w.pos)
    ensures var t := Trace(grid, w, fuel);
      forall k :: 0 <= k < |t| - 1 ==> Glyph(grid, t[k]) != 'x'
    decreases fuel
  {
    if fuel > 0 {
      TraceUnfold(grid, w, fuel);
      if Step(grid, w).Walking? {
        var next := Step(grid, w).walker;
        TraceStopsAtX(grid, next, fuel - 1);
        var rest := Trace(grid, next, fuel - 1);
        var t := Trace(grid, w, fuel);
        assert Glyph(grid, t[0]) != 'x';
        forall k | 1 <= k < |t| - 1 ensures Glyph(grid, t[k]) != 'x' {
          assert t[k] == rest[k - 1];
        }
      }
    }
  }

  /** A walk that ends with a result ends on an `x`. */
  lemma {:induction false} RunEndsOnX(grid: Grid, w: Walker, fuel: nat)
    requires IsValidPosition(grid, w.pos)
    ensures Run(grid, w, fuel).Done? ==>
      var t := Trace(grid, w, fuel);
      |t| > 0 && IsValidPosition(grid, t[|t| - 1]) && At(grid, t[|t| - 1]) == 'x'
    decreases fuel
  {
    if fuel > 0 {
      RunUnfold(grid, w, fuel);
      TraceUnfold(grid, w, fuel);
      if Step(grid, w).Walking? {
        var next := Step(grid, w).walker;
        RunEndsOnX(grid, next, fuel - 1);
        var rest := Trace(grid, next, fuel - 1);
        var t := Trace(grid, w, fuel);
        if Run(grid, w, fuel).Done? {
          assert t[|t| - 1] == rest[|rest| - 1];
        }
      } else {
        StepOutcome(grid, w);
      }
    }
  }

  /** The path a finished walk returns is the path so far followed by the
      characters of the trace. */
  lemma {:induction false} RunPath(grid: Grid, w: Walker, fuel: nat)
    requires IsValidPosition(grid, w.pos)
    ensures Run(grid, w, fuel).Done? ==>
      Run(grid, w, fuel).result.path == w.path + Glyphs(grid, Trace(grid, w, fuel))
    decreases fuel
  {
    if fuel > 0 {
      RunUnfold(grid, w, fuel);
      TraceUnfold(grid, w, fuel);
      StepCollects(grid, w);
      var t := Trace(grid, w, fuel);
      if Step(grid, w).Walking? {
        var next := Step(grid, w).walker;
        RunPath(grid, next, fuel - 1);
        var rest := Trace(grid, next, fuel - 1);
        assert t[1..] == rest;
        assert Glyphs(grid, t) == [At(grid, w.pos)] + Glyphs(grid, rest);
        assert next.path == w.path + [At(grid, w.pos)];
      } else {
        assert Glyphs(grid, t) == [At(grid, w.pos)];
      }
    }
  }

  /** The letters of the first visits of a trace that starts with cell `p`:
      its own letter when it is a new letter cell, then those of the rest. */
  lemma FirstVisitsCons(grid: Grid, p: Position, rest: seq<Position>, seen: set<Position>)
    ensures Glyphs(grid, FirstVisits(grid, [p] + rest, seen)) ==
      (if IsUpper(Glyph(grid, p)) && p !in seen then [Glyph(grid, p)] else []) +
      Glyphs(grid, FirstVisits(grid, rest, seen + {p}))
  {
    assert ([p] + rest)[1..] == rest;
    var met := if IsUpper(Glyph(grid, p)) && p !in seen then [p] else [];
    GlyphsAppend(grid, met, FirstVisits(grid, rest, seen + {p}));
  }

  /** The letters a finished walk returns are the letters so far followed by
      the characters of the trace's first visits to letter cells. */
  lemma {:induction false} RunLetters(grid: Grid, w: Walker, fuel: nat)
    requires IsValidPosition(grid, w.pos)
    ensures Run(grid, w, fuel).Done? ==>
      Run(grid, w, fuel).result.letters == w.letters + Glyphs(grid, FirstVisits(grid, Trace(grid, w, fuel), w.visited))
    decreases fuel, 0
  {
    if fuel > 0 {
      ResumeLetters(grid, w, fuel - 1);
    }
  }

  /** `RunLetters` for a walk that makes at least one iteration. */
  lemma {:induction false} ResumeLetters(grid: Grid, w: Walker, fuel: nat)
    requires IsValidPosition(grid, w.pos)
    ensures Resume(grid, w, fuel).Done? ==>
      Resume(grid, w, fuel).result.letters == w.letters + Glyphs(grid, FirstVisits(grid, TraceOn(grid, w, fuel), w.visited))
    decreases fuel, 1
  {
    StepCollects(grid, w);
    if Step(grid, w).Walking? {
      var next := Step(grid, w).walker;
      RunLetters(grid, next, fuel);
      LettersCons(grid, w.pos, w.visited, Result(w.path, w.letters), Trace(grid, next, fuel));
    } else {
      LettersCons(grid, w.pos, w.visited, Result(w.path, w.letters), []);
    }
  }

  /** One collected cell `p` followed by the cells `rest`: the letters after
      `p`, extended by the first visits of `rest`, are the letters before `p`
      extended by the first visits of the whole. */
  lemma LettersCons(grid: Grid, p: Position, seen: set<Position>, sofar: Result, rest: seq<Position>)
    requires InGrid(grid, p)
    ensures Collected(At(grid, p), p in seen, sofar).letters + Glyphs(grid, FirstVisits(grid, rest, seen + {p})) ==
      sofar.letters + Glyphs(grid, FirstVisits(grid, [p] + rest, seen))
  {
    FirstVisitsCons(grid, p, rest, seen);
  }

  /** A cell is a first visit exactly when it is an upper-case letter cell of
      the trace that was not seen before it. */
  lemma {:induction false} FirstVisitsMembers(grid: Grid, t: seq<Position>, seen: set<Position>)
    ensures forall p :: p in FirstVisits(grid, t, seen) <==> p in t && p !in seen && IsUpper(Glyph(grid, p))
  {
    if t != [] {
      var rest := t[1..];
      FirstVisitsMembers(grid, rest, seen + {t[0]});
      assert t == [t[0]] + rest;
    }
  }

  /** No cell is a first visit twice. */
  lemma {:induction false} FirstVisitsDistinct(grid: Grid, t: seq<Position>, seen: set<Position>)
    ensures Distinct(FirstVisits(grid, t, seen))
  {
    if t != [] {
      var rest := t[1..];
      FirstVisitsDistinct(grid, rest, seen + {t[0]});
      var tail := FirstVisits(grid, rest, seen + {t[0]});
      if IsUpper(Glyph(grid, t[0])) && t[0] !in seen {
        FirstVisitsMembers(grid, rest, seen + {t[0]});
        var f := FirstVisits(grid, t, seen);
        assert f == [t[0]] + tail;
        forall i, j | 0 <= i < j < |f| ensures f[i] != f[j] {
          assert f[j] == tail[j - 1];
          if i > 0 {
            assert f[i] == tail[i - 1];
          } else {
            assert f[j] in tail;
          }
        }
      }
    }
  }

  /** A run that has ended ends the same way with more fuel: the fuel only
      bounds the loop, it never changes its outcome. */
  lemma {:induction false} RunMoreFuel(grid: Grid, w: Walker, n: nat, m: nat)
    requires IsValidPosition(grid, w.pos)
    requires n <= m && !Run(grid, w, n).Walking?
    ensures Run(grid, w, m) == Run(grid, w, n)
    decreases n
  {
    RunUnfold(grid, w, n);
    RunUnfold(grid, w, m);
    if Step(grid, w).Walking? {
      RunMoreFuel(grid, Step(grid, w).walker, n - 1, m - 1);
    }
  }

  /** `findPath` with more fuel returns or throws the same as with less, once
      it has returned or thrown at all. */
  lemma FindPathMoreFuel(grid: Grid, n: nat, m: nat)
    requires n <= m && !FindPathWithin(grid, n).Walking?
    ensures FindPathWithin(grid, m) == FindPathWithin(grid, n)
  {
    if StartPosition(grid).Ok? {
      StartFound(grid);
      RunMoreFuel(grid, StartWalker(StartPosition(grid).value), n, m);
    }
  }

  /** The cells `findPath` collects when it runs at most `fuel` iterations. */
  ghost function FindPathTrace(grid: Grid, fuel: nat): seq<Position>
    requires StartPosition(grid).Ok?
  {
    Trace(grid, StartWalker(StartPosition(grid).value), fuel)
  }

  /** `findPath`, when it returns, returns the characters of the cells it
      walked from the `@` to the first `x` it reached, and the letters of its
      first visits to letter cells, each cell's letter once. */
  lemma FindPathResult(grid: Grid, fuel: nat)
    requires FindPathWithin(grid, fuel).Done?
    ensures StartPosition(grid).Ok?
    ensures var t := FindPathTrace(grid, fuel); var res := FindPathWithin(grid, fuel).result;
      OnMap(grid, t) && |t| > 0 && t[0] == StartPosition(grid).value &&
      res.path == Glyphs(grid, t) &&
      res.letters == Glyphs(grid, FirstVisits(grid, t, {})) &&
      Distinct(FirstVisits(grid, t, {}))
    ensures var res := FindPathWithin(grid, fuel).result;
      |res.path| > 0 && res.path[0] == '@' && res.path[|res.path| - 1] == 'x' &&
      (forall k :: 0 <= k < |res.path| - 1 ==> res.path[k] != 'x') &&
      (forall k :: 0 <= k < |res.letters| ==> IsUpper(res.letters[k]))
  {
    StartFound(grid);
    var w := StartWalker(StartPosition(grid).value);
    var t := Trace(grid, w, fuel);
    RunEndsOnX(grid, w, fuel);
    RunPath(grid, w, fuel);
    RunLetters(grid, w, fuel);
    TraceOnMap(grid, w, fuel);
    TraceStopsAtX(grid, w, fuel);
    FirstVisitsMembers(grid, t, {});
    FirstVisitsDistinct(grid, t, {});
    GlyphsAt(grid, t);
    var f := FirstVisits(grid, t, {});
    GlyphsAt(grid, f);
    forall k | 0 <= k < |f| ensures IsUpper(Glyphs(grid, f)[k]) {
      assert f[k] in f;
    }
  }
}
