/** The match detector: runs of three or more same-type tiles in a row or a column. */
module Matches {
  import opened Types

  /** Three cells all hold tiles, and the tiles share one type. */
  predicate Same3(x: Cell, y: Cell, z: Cell)
  {
    x.Some? && y.Some? && z.Some? && x.value.kind == y.value.kind && y.value.kind == z.value.kind
  }

  /** The horizontal window of three cells starting at (r, c) is a run. */
  predicate HRun(b: Board, r: int, c: int)
  {
    0 <= r < GRID_SIZE && 0 <= c <= GRID_SIZE - 3 && Same3(At(b, r, c), At(b, r, c + 1), At(b, r, c + 2))
  }

  /** The vertical window of three cells starting at (r, c) is a run. */
  predicate VRun(b: Board, r: int, c: int)
  {
    0 <= c < GRID_SIZE && 0 <= r <= GRID_SIZE - 3 && Same3(At(b, r, c), At(b, r + 1, c), At(b, r + 2, c))
  }

  /** (r, c) lies in some horizontal window that is a run. */
  predicate HMatched(b: Board, r: int, c: int)
  {
    HRun(b, r, c - 2) || HRun(b, r, c - 1) || HRun(b, r, c)
  }

  /** (r, c) lies in some vertical window that is a run. */
  predicate VMatched(b: Board, r: int, c: int)
  {
    VRun(b, r - 2, c) || VRun(b, r - 1, c) || VRun(b, r, c)
  }

  predicate Matched(b: Board, r: int, c: int)
  {
    HMatched(b, r, c) || VMatched(b, r, c)
  }

  /** The set of matched coordinates: what the detector is meant to report. */
  function MatchSet(b: Board): (s: set<Coord>)
    ensures forall p :: p in s <==> Matched(b, p.row, p.col)
  {
    set r, c | 0 <= r < GRID_SIZE && 0 <= c < GRID_SIZE && Matched(b, r, c) :: Coord(r, c)
  }

  predicate NoDup<T(==)>(s: seq<T>)
  {
    forall i, j :: 0 <= i < j < |s| ==> s[i] != s[j]
  }

  /** Adding to the detector's set of seen coordinates, which keeps first-insertion order. */
  function Add(ms: seq<Coord>, p: Coord): (r: seq<Coord>)
    ensures forall q :: q in r <==> q in ms || q == p
    ensures NoDup(ms) ==> NoDup(r)
  {
    if p in ms then ms else ms + [p]
  }

  /** Window (i, j) comes before window (I, J) when windows are scanned in the order (i, j). */
  predicate Before(i: int, j: int, I: int, J: int)
  {
    i < I || (i == I && j < J)
  }

  /** (r, c) lies in a horizontal run whose window the row-by-row scan has passed before (R, C). */
  predicate HScanned(b: Board, R: int, C: int, r: int, c: int)
  {
    (HRun(b, r, c - 2) && Before(r, c - 2, R, C)) ||
    (HRun(b, r, c - 1) && Before(r, c - 1, R, C)) ||
    (HRun(b, r, c) && Before(r, c, R, C))
  }

  /** (r, c) lies in a vertical run whose window the column-by-column scan has passed before column C, row R. */
  predicate VScanned(b: Board, C: int, R: int, r: int, c: int)
  {
    (VRun(b, r - 2, c) && Before(c, r - 2, C, R)) ||
    (VRun(b, r - 1, c) && Before(c, r - 1, C, R)) ||
    (VRun(b, r, c) && Before(c, r, C, R))
  }

  lemma {:induction false} NoDupCardinality<T>(s: seq<T>)
    requires NoDup(s)
    ensures |set x | x in s| == |s|
  {
    if s != [] {
      var t := s[..|s| - 1];
      assert NoDup(t);
      NoDupCardinality(t);
      assert s == t + [s[|s| - 1]];
      assert (set x | x in s) == (set x | x in t) + {s[|s| - 1]};
      assert s[|s| - 1] !in t;
    }
  }

  /** Passing horizontal window (r, c) adds exactly its three cells when it is a run. */
  lemma HStep(b: Board, r: int, c: int)
    requires WellShaped(b) && 0 <= r < GRID_SIZE && 0 <= c < GRID_SIZE - 2
    ensures HRun(b, r, c) <==> Same3(b[r][c], b[r][c + 1], b[r][c + 2])
    ensures forall p: Coord :: HScanned(b, r, c + 1, p.row, p.col) <==>
      HScanned(b, r, c, p.row, p.col) || (HRun(b, r, c) && (p == Coord(r, c) || p == Coord(r, c + 1) || p == Coord(r, c + 2)))
  {
  }

  /** Passing vertical window (r, c) adds exactly its three cells when it is a run. */
  lemma VStep(b: Board, c: int, r: int)
    requires WellShaped(b) && 0 <= c < GRID_SIZE && 0 <= r < GRID_SIZE - 2
    ensures VRun(b, r, c) <==> Same3(b[r][c], b[r + 1][c], b[r + 2][c])
    ensures forall p: Coord :: VScanned(b, c, r + 1, p.row, p.col) <==>
      VScanned(b, c, r, p.row, p.col) || (VRun(b, r, c) && (p == Coord(r, c) || p == Coord(r + 1, c) || p == Coord(r + 2, c)))
  {
  }

  /** The last window of a line is the one at GRID_SIZE - 3, so the scan may move on to the next line. */
  lemma LineEnd(b: Board, k: int)
    ensures forall p: Coord :: HScanned(b, k, GRID_SIZE - 2, p.row, p.col) <==> HScanned(b, k + 1, 0, p.row, p.col)
    ensures forall p: Coord :: VScanned(b, k, GRID_SIZE - 2, p.row, p.col) <==> VScanned(b, k + 1, 0, p.row, p.col)
  {
  }

  /** Once every window has been passed, the scanned cells are the matched ones. */
  lemma ScanComplete(b: Board)
    ensures forall p: Coord :: HScanned(b, GRID_SIZE, 0, p.row, p.col) || VScanned(b, GRID_SIZE, 0, p.row, p.col) <==> p in MatchSet(b)
    ensures forall p: Coord :: !HScanned(b, 0, 0, p.row, p.col) && !VScanned(b, 0, 0, p.row, p.col)
  {
  }

  /**
   * Scans every horizontal window, then every vertical one, and records each
   * coordinate of a window of three same-type tiles once.
   */
  method FindMatches(b: Board) returns (ms: seq<Coord>)
    requires WellShaped(b)
    ensures NoDup(ms)
    ensures forall p :: p in ms <==> p in MatchSet(b)
    ensures forall i :: 0 <= i < |ms| ==> InGrid(ms[i].row, ms[i].col)
    ensures |ms| == |MatchSet(b)| == MatchCount(b)
  {
    ScanComplete(b);
    ms := [];
    for r := 0 to GRID_SIZE
      invariant NoDup(ms)
      invariant forall p :: p in ms <==> HScanned(b, r, 0, p.row, p.col)
    {
      for c := 0 to GRID_SIZE - 2
        invariant NoDup(ms)
        invariant forall p :: p in ms <==> HScanned(b, r, c, p.row, p.col)
      {
        HStep(b, r, c);
        var t1, t2, t3 := b[r][c], b[r][c + 1], b[r][c + 2];
        if Same3(t1, t2, t3) {
          ms := Add(Add(Add(ms, Coord(r, c)), Coord(r, c + 1)), Coord(r, c + 2));
        }
      }
      LineEnd(b, r);
    }
    for c := 0 to GRID_SIZE
      invariant NoDup(ms)
      invariant forall p :: p in ms <==> HScanned(b, GRID_SIZE, 0, p.row, p.col) || VScanned(b, c, 0, p.row, p.col)
    {
      for r := 0 to GRID_SIZE - 2
        invariant NoDup(ms)
        invariant forall p :: p in ms <==> HScanned(b, GRID_SIZE, 0, p.row, p.col) || VScanned(b, c, r, p.row, p.col)
      {
        VStep(b, c, r);
        var t1, t2, t3 := b[r][c], b[r + 1][c], b[r + 2][c];
        if Same3(t1, t2, t3) {
          ms := Add(Add(Add(ms, Coord(r, c)), Coord(r + 1, c)), Coord(r + 2, c));
        }
      }
      LineEnd(b, c);
    }
    assert (set p | p in ms) == MatchSet(b);
    NoDupCardinality(ms);
    MatchCountIsSize(b);
  }

  /** What a cell shows apart from identity and position: empty, or the type of its tile. */
  function KindOf(x: Cell): Option<TileType>
  {
    if x.Some? then Some(x.value.kind) else None
  }

  /** Matches depend only on which cells hold tiles and what types they are. */
  lemma SameKindsSameMatches(b1: Board, b2: Board)
    requires WellShaped(b1) && WellShaped(b2)
    requires forall r, c :: InGrid(r, c) ==> KindOf(b1[r][c]) == KindOf(b2[r][c])
    ensures MatchSet(b1) == MatchSet(b2)
  {
    forall r, c
      ensures KindOf(At(b1, r, c)) == KindOf(At(b2, r, c))
    {
      if InGrid(r, c) {
        assert At(b1, r, c) == b1[r][c] && At(b2, r, c) == b2[r][c];
      }
    }
    forall r, c
      ensures HRun(b1, r, c) == HRun(b2, r, c) && VRun(b1, r, c) == VRun(b2, r, c)
    {
      assert KindOf(At(b1, r, c + 1)) == KindOf(At(b2, r, c + 1));
      assert KindOf(At(b1, r, c + 2)) == KindOf(At(b2, r, c + 2));
      assert KindOf(At(b1, r + 1, c)) == KindOf(At(b2, r + 1, c));
      assert KindOf(At(b1, r + 2, c)) == KindOf(At(b2, r + 2, c));
    }
  }

  /** A window that is a run puts its three cells among the matches. */
  lemma RunCells(b: Board, r: int, c: int)
    ensures HRun(b, r, c) ==> |MatchSet(b)| >= 3
    ensures VRun(b, r, c) ==> |MatchSet(b)| >= 3
  {
    if HRun(b, r, c) {
      assert HMatched(b, r, c) && HMatched(b, r, c + 1) && HMatched(b, r, c + 2);
      var w := {Coord(r, c), Coord(r, c + 1), Coord(r, c + 2)};
      assert w <= MatchSet(b);
      assert |w| == 3;
      SubsetCard(w, MatchSet(b));
    } else if VRun(b, r, c) {
      assert VMatched(b, r, c) && VMatched(b, r + 1, c) && VMatched(b, r + 2, c);
      var w := {Coord(r, c), Coord(r + 1, c), Coord(r + 2, c)};
      assert w <= MatchSet(b);
      assert |w| == 3;
      SubsetCard(w, MatchSet(b));
    }
  }

  lemma SubsetCard<T>(a: set<T>, b: set<T>)
    requires a <= b
    ensures |a| <= |b|
  {
    assert b == a + (b - a);
  }

  /** Matches come at least three at a time. */
  lemma AtLeastThree(b: Board)
    ensures MatchSet(b) != {} ==> |MatchSet(b)| >= 3
  {
    if MatchSet(b) != {} {
      var p :| p in MatchSet(b);
      var r, c := p.row, p.col;
      RunCells(b, r, c - 2);
      RunCells(b, r, c - 1);
      RunCells(b, r, c);
      RunCells(b, r - 2, c);
      RunCells(b, r - 1, c);
    }
  }

  /** Matched cells among cells k, k + 1, ... in reading order. */
  function CountFrom(b: Board, k: nat): nat
    decreases GRID_SIZE * GRID_SIZE - k
  {
    if k >= GRID_SIZE * GRID_SIZE then 0
    else (if Matched(b, k / GRID_SIZE, k % GRID_SIZE) then 1 else 0) + CountFrom(b, k + 1)
  }

  /** The number of matched cells. */
  function MatchCount(b: Board): nat
  {
    CountFrom(b, 0)
  }

  function MatchedFrom(b: Board, k: nat): set<Coord>
  {
    set i | k <= i < GRID_SIZE * GRID_SIZE && Matched(b, i / GRID_SIZE, i % GRID_SIZE) :: Coord(i / GRID_SIZE, i % GRID_SIZE)
  }

  lemma DivModInjective(i: nat, k: nat)
    ensures i / GRID_SIZE == k / GRID_SIZE && i % GRID_SIZE == k % GRID_SIZE ==> i == k
  {
    assert i == i / GRID_SIZE * GRID_SIZE + i % GRID_SIZE;
    assert k == k / GRID_SIZE * GRID_SIZE + k % GRID_SIZE;
  }

  /** Cell k is matched or not, and the later cells do not include it. */
  lemma MatchedFromSplit(b: Board, k: nat)
    requires k < GRID_SIZE * GRID_SIZE
    ensures var here := Coord(k / GRID_SIZE, k % GRID_SIZE);
      MatchedFrom(b, k) == (if Matched(b, k / GRID_SIZE, k % GRID_SIZE) then {here} else {}) + MatchedFrom(b, k + 1) &&
      here !in MatchedFrom(b, k + 1)
  {
    var here := Coord(k / GRID_SIZE, k % GRID_SIZE);
    forall i | k + 1 <= i < GRID_SIZE * GRID_SIZE
      ensures Coord(i / GRID_SIZE, i % GRID_SIZE) != here
    {
      DivModInjective(i, k);
    }
  }

  lemma {:induction false} CountFromCard(b: Board, k: nat)
    ensures |MatchedFrom(b, k)| == CountFrom(b, k)
    decreases GRID_SIZE * GRID_SIZE - k
  {
    if k < GRID_SIZE * GRID_SIZE {
      CountFromCard(b, k + 1);
      MatchedFromSplit(b, k);
    } else {
      assert MatchedFrom(b, k) == {};
    }
  }

  /** The count agrees with the size of the set of matched cells. */
  lemma MatchCountIsSize(b: Board)
    ensures MatchCount(b) == |MatchSet(b)|
    ensures MatchCount(b) == 0 <==> MatchSet(b) == {}
  {
    CountFromCard(b, 0);
    forall p | p in MatchSet(b)
      ensures p in MatchedFrom(b, 0)
    {
      var i := p.row * GRID_SIZE + p.col;
      assert i / GRID_SIZE == p.row && i % GRID_SIZE == p.col;
    }
    assert MatchSet(b) == MatchedFrom(b, 0);
  }

  /** A board with any match has at least three matched cells. */
  lemma CountAtLeastThree(b: Board)
    ensures MatchCount(b) != 0 ==> MatchCount(b) >= 3
  {
    MatchCountIsSize(b);
    AtLeastThree(b);
  }
}
