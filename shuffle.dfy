/** The reshuffle: collect the tiles, permute them, lay them out again in reading order. */
module Shuffle {
  import opened Types

  /** The cells of a board in row-major order. */
  function Cells(b: seq<seq<Cell>>): seq<Cell>
  {
    if b == [] then [] else Cells(b[..|b| - 1]) + b[|b| - 1]
  }

  /** The tiles of a board in row-major order, empty cells skipped. */
  function Collect(b: Board): seq<Tile>
  {
    TilesOf(Cells(b))
  }

  /** A tile with its position dropped: what identifies it apart from where it sits. */
  function Unplaced(t: Tile): Tile
  {
    Relocate(t, 0, 0)
  }

  function UnplacedAll(ts: seq<Tile>): (us: seq<Tile>)
    ensures |us| == |ts| && forall k :: 0 <= k < |ts| ==> us[k] == Unplaced(ts[k])
  {
    seq(|ts|, k requires 0 <= k < |ts| => Unplaced(ts[k]))
  }

  function Swap<T>(s: seq<T>, i: int, j: int): (r: seq<T>)
    requires 0 <= i < |s| && 0 <= j < |s|
    ensures |r| == |s|
  {
    s[i := s[j]][j := s[i]]
  }

  /**
   * The Fisher-Yates steps i, i - 1, ..., 1 applied to `ts`; in step i the tile at
   * i trades places with the one at `choose(i) % (i + 1)`.
   */
  function Steps(ts: seq<Tile>, choose: nat -> nat, i: int): (r: seq<Tile>)
    requires i < |ts|
    ensures |r| == |ts|
    decreases i
  {
    if i <= 0 then ts else Steps(Swap(ts, i, choose(i) % (i + 1)), choose, i - 1)
  }

  function FisherYates(ts: seq<Tile>, choose: nat -> nat): (r: seq<Tile>)
    ensures |r| == |ts|
  {
    Steps(ts, choose, |ts| - 1)
  }

  /** The cell (r, c) of a layout of `ts` in reading order. */
  function LaidCell(ts: seq<Tile>, r: int, c: int): Cell
    requires 0 <= r && 0 <= c
  {
    if r * GRID_SIZE + c < |ts| then Some(Relocate(ts[r * GRID_SIZE + c], r, c)) else None
  }

  function Layout(ts: seq<Tile>): (b: Board)
    ensures WellShaped(b)
  {
    seq(GRID_SIZE, r requires 0 <= r < GRID_SIZE => seq(GRID_SIZE, c requires 0 <= c < GRID_SIZE => LaidCell(ts, r, c)))
  }

  /** The board after a reshuffle that draws its swap partners from `choose`. */
  function ShuffledBoard(b: Board, choose: nat -> nat): (s: Board)
    ensures WellShaped(s)
  {
    Layout(FisherYates(Collect(b), choose))
  }

  function EmptyBoard(): (b: Board)
    ensures WellShaped(b) && forall r, c :: InGrid(r, c) ==> b[r][c] == None
  {
    seq(GRID_SIZE, r => seq(GRID_SIZE, c => None))
  }

  lemma TilesOfSnoc(s: seq<Cell>, x: Cell)
    ensures TilesOf(s + [x]) == TilesOf(s) + (if x.Some? then [x.value] else [])
  {
    TilesOfConcat(s, [x]);
    assert [x][1..] == [];
  }

  /** The row-by-row collection of the board's tiles. */
  method CollectTiles(b: Board) returns (tiles: seq<Tile>)
    requires WellShaped(b)
    ensures tiles == Collect(b)
  {
    tiles := [];
    for r := 0 to GRID_SIZE
      invariant tiles == TilesOf(Cells(b[..r]))
    {
      assert Cells(b[..r]) + b[r][..0] == Cells(b[..r]);
      for c := 0 to GRID_SIZE
        invariant tiles == TilesOf(Cells(b[..r]) + b[r][..c])
      {
        assert Cells(b[..r]) + b[r][..c + 1] == (Cells(b[..r]) + b[r][..c]) + [b[r][c]];
        TilesOfSnoc(Cells(b[..r]) + b[r][..c], b[r][c]);
        if b[r][c].Some? {
          tiles := tiles + [b[r][c].value];
        }
      }
      assert b[..r + 1][..r] == b[..r];
      assert b[r][..GRID_SIZE] == b[r];
    }
    assert b[..GRID_SIZE] == b;
  }

  /** The in-place Fisher-Yates pass, from the last index down to 1. */
  method ShuffleInPlace(a: array<Tile>, choose: nat -> nat)
    modifies a
    ensures a[..] == FisherYates(old(a[..]), choose)
  {
    var i := a.Length - 1;
    while i > 0
      invariant -1 <= i < a.Length
      invariant Steps(a[..], choose, i) == FisherYates(old(a[..]), choose)
    {
      var j := choose(i) % (i + 1);
      ghost var before := a[..];
      a[i], a[j] := a[j], a[i];
      assert a[..] == Swap(before, i, j);
      i := i - 1;
    }
  }

  /** Lays the tiles out from the top-left cell in reading order; later cells stay empty. */
  method LayOut(a: array<Tile>) returns (nb: Board)
    ensures nb == Layout(a[..])
  {
    nb := EmptyBoard();
    var index := 0;
    for r := 0 to GRID_SIZE
      invariant WellShaped(nb)
      invariant index == if r * GRID_SIZE < a.Length then r * GRID_SIZE else a.Length
      invariant forall i, j :: InGrid(i, j) ==> nb[i][j] == if i < r then LaidCell(a[..], i, j) else None
    {
      for c := 0 to GRID_SIZE
        invariant WellShaped(nb)
        invariant index == if r * GRID_SIZE + c < a.Length then r * GRID_SIZE + c else a.Length
        invariant forall i, j :: InGrid(i, j) ==>
          nb[i][j] == if i < r || (i == r && j < c) then LaidCell(a[..], i, j) else None
      {
        if index < a.Length {
          nb := Put(nb, r, c, Some(Relocate(a[index], r, c)));
          index := index + 1;
        }
      }
    }
    BoardsEqual(nb, Layout(a[..]));
  }

  /**
   * Collects the tiles row by row, shuffles them in place, and lays them out
   * again from the top-left cell, leaving the remaining cells empty.
   */
  method ShuffleBoard(b: Board, choose: nat -> nat) returns (nb: Board)
    requires WellShaped(b)
    ensures nb == ShuffledBoard(b, choose)
  {
    var tiles := CollectTiles(b);
    var a := new Tile[|tiles|](k requires 0 <= k < |tiles| => tiles[k]);
    assert a[..] == tiles;
    ShuffleInPlace(a, choose);
    nb := LayOut(a);
  }

  /** Each Fisher-Yates step only trades two tiles, so the tiles are a permutation of the input. */
  lemma {:induction false} StepsPermutes(ts: seq<Tile>, choose: nat -> nat, i: int)
    requires i < |ts|
    ensures multiset(Steps(ts, choose, i)) == multiset(ts)
    ensures UnplacedAll(Steps(ts, choose, i)) == Steps(UnplacedAll(ts), choose, i)
    decreases i
  {
    if i > 0 {
      var j := choose(i) % (i + 1);
      StepsPermutes(Swap(ts, i, j), choose, i - 1);
      assert UnplacedAll(Swap(ts, i, j)) == Swap(UnplacedAll(ts), i, j);
    }
  }

  /** The row-major cells of a well-shaped board, indexed by r * GRID_SIZE + c. */
  lemma {:induction false} CellsIndex(b: Board, n: int)
    requires WellShaped(b) && 0 <= n <= GRID_SIZE
    ensures |Cells(b[..n])| == n * GRID_SIZE
    ensures forall r, c :: 0 <= r < n && 0 <= c < GRID_SIZE ==> Cells(b[..n])[r * GRID_SIZE + c] == b[r][c]
  {
    if n > 0 {
      assert b[..n][..n - 1] == b[..n - 1];
      CellsIndex(b, n - 1);
    } else {
      assert b[..n] == [];
    }
  }

  /** The tiles of a line whose first m cells hold tiles and whose other cells are empty. */
  lemma {:induction false} TilesOfPrefix(s: seq<Cell>, m: int)
    requires 0 <= m <= |s|
    requires forall k :: 0 <= k < |s| ==> (s[k].Some? <==> k < m)
    ensures |TilesOf(s)| == m && forall k :: 0 <= k < m ==> TilesOf(s)[k] == s[k].value
  {
    assert s == s[..m] + s[m..];
    TilesOfConcat(s[..m], s[m..]);
    TilesOfNoEmpty(s[..m]);
    NoTiles(s[m..]);
  }

  lemma {:induction false} NoTiles(s: seq<Cell>)
    requires forall k :: 0 <= k < |s| ==> s[k].None?
    ensures TilesOf(s) == []
  {
    if s != [] {
      NoTiles(s[1..]);
    }
  }

  /** Reading a layout back yields the laid-out tiles in order, each at its new cell. */
  lemma CollectLayout(ts: seq<Tile>)
    requires |ts| <= GRID_SIZE * GRID_SIZE
    ensures UnplacedAll(Collect(Layout(ts))) == UnplacedAll(ts)
  {
    var L := Layout(ts);
    CellsIndex(L, GRID_SIZE);
    assert L[..GRID_SIZE] == L;
    var s := Cells(L);
    forall k | 0 <= k < |s|
      ensures (s[k].Some? <==> k < |ts|) && (k < |ts| ==> Unplaced(s[k].value) == Unplaced(ts[k]))
    {
      var r, c := k / GRID_SIZE, k % GRID_SIZE;
      assert k == r * GRID_SIZE + c;
      assert s[k] == L[r][c] == LaidCell(ts, r, c);
    }
    TilesOfPrefix(s, |ts|);
  }

  /** A board holds at most GRID_SIZE * GRID_SIZE tiles, exactly that many when full. */
  lemma CollectCount(b: Board)
    requires WellShaped(b)
    ensures |Collect(b)| <= GRID_SIZE * GRID_SIZE
    ensures Full(b) ==> |Collect(b)| == GRID_SIZE * GRID_SIZE
  {
    CellsIndex(b, GRID_SIZE);
    assert b[..GRID_SIZE] == b;
    if Full(b) {
      var s := Cells(b);
      forall k | 0 <= k < |s|
        ensures s[k].Some?
      {
        var r, c := k / GRID_SIZE, k % GRID_SIZE;
        assert k == r * GRID_SIZE + c;
        assert s[k] == b[r][c] == At(b, r, c);
      }
      TilesOfNoEmpty(s);
    }
  }

  /** The reshuffled board holds the same tiles, ids and types kept, as the board it came from. */
  lemma ShuffleKeepsTiles(b: Board, choose: nat -> nat)
    requires WellShaped(b)
    ensures multiset(UnplacedAll(Collect(ShuffledBoard(b, choose)))) == multiset(UnplacedAll(Collect(b)))
  {
    var ts := Collect(b);
    CollectCount(b);
    CollectLayout(FisherYates(ts, choose));
    StepsPermutes(ts, choose, |ts| - 1);
    StepsPermutes(UnplacedAll(ts), choose, |ts| - 1);
  }

  /**
   * The reshuffled board fills the first k cells in reading order, k the number
   * of tiles, leaves the rest empty, and records each tile's new cell in it.
   */
  lemma ShuffleLayout(b: Board, choose: nat -> nat)
    ensures Positioned(ShuffledBoard(b, choose))
    ensures forall r, c :: InGrid(r, c) ==>
      (ShuffledBoard(b, choose)[r][c].Some? <==> r * GRID_SIZE + c < |Collect(b)|)
  {
  }

  /** A full board reshuffles to a full board. */
  lemma ShuffleFull(b: Board, choose: nat -> nat)
    requires WellShaped(b) && Full(b)
    ensures Full(ShuffledBoard(b, choose)) && Positioned(ShuffledBoard(b, choose))
  {
    CollectCount(b);
    ShuffleLayout(b, choose);
    forall r, c | InGrid(r, c)
      ensures At(ShuffledBoard(b, choose), r, c).Some?
    {
      assert r * GRID_SIZE + c < GRID_SIZE * GRID_SIZE;
    }
  }
}
