/** The gravity resolver: each column settles downward and fresh tiles fill the top. */
module Gravity {
  import opened Types
  import opened Generate

  /** Column c of the board, top to bottom. */
  function Column(b: Board, c: int): (col: seq<Cell>)
    ensures |col| == GRID_SIZE
  {
    seq(GRID_SIZE, r => At(b, r, c))
  }

  /** Cells holding `ts` from row `top` downward in column c, each tile moved to its new cell. */
  function Placed(ts: seq<Tile>, top: int, c: int): (cells: seq<Cell>)
    ensures |cells| == |ts|
    ensures forall k :: 0 <= k < |ts| ==> cells[k] == Some(Relocate(ts[k], top + k, c))
  {
    seq(|ts|, k requires 0 <= k < |ts| => Some(Relocate(ts[k], top + k, c)))
  }

  /** The top n cells of column c, each holding a fresh tile generated for it. */
  function FreshTiles(n: nat, c: int, refill: Refill): (cells: seq<Cell>)
    ensures |cells| == n
    ensures forall i :: 0 <= i < n ==> cells[i] == Some(GenerateTile(i, c, refill(i, c)))
  {
    seq(n, i => Some(GenerateTile(i, c, refill(i, c))))
  }

  function Empties(n: nat): (cells: seq<Cell>)
    ensures |cells| == n && forall i :: 0 <= i < n ==> cells[i] == None
  {
    seq(n, i => None)
  }

  /**
   * Column c after gravity: the column's tiles keep their order and sit at the
   * bottom, and one fresh tile fills each cell left above them.
   */
  function SettledColumn(b: Board, refill: Refill, c: int): (col: seq<Cell>)
    ensures |col| == GRID_SIZE
  {
    var survivors := TilesOf(Column(b, c));
    var gap := GRID_SIZE - |survivors|;
    FreshTiles(gap, c, refill) + Placed(survivors, gap, c)
  }

  /** The board after gravity. */
  function Settle(b: Board, refill: Refill): (s: Board)
    ensures WellShaped(s) && Full(s) && Positioned(s)
  {
    seq(GRID_SIZE, r requires 0 <= r < GRID_SIZE => seq(GRID_SIZE, c => SettledColumn(b, refill, c)[r]))
  }

  /** Taking one more cell into a suffix of a column. */
  lemma TilesOfCons(col: seq<Cell>, r: int)
    requires 0 <= r < |col|
    ensures TilesOf(col[r..]) == (if col[r].Some? then [col[r].value] else []) + TilesOf(col[r + 1..])
  {
    assert col[r..][1..] == col[r + 1..];
  }

  /** Lowest free cell of column `col` once the cells below row r have been scanned. */
  function ScanFloor(col: seq<Cell>, r: int): int
    requires -1 <= r < |col|
  {
    |col| - 1 - |TilesOf(col[r + 1..])|
  }

  /**
   * Column `col` once the upward scan has passed the cells below row r: the
   * cells up to r untouched, then empty cells, then the tiles met so far.
   */
  function Scanned(col: seq<Cell>, r: int, c: int): (s: seq<Cell>)
    requires -1 <= r < |col|
    ensures |s| == |col|
  {
    var ts := TilesOf(col[r + 1..]);
    var floor := |col| - 1 - |ts|;
    col[..r + 1] + Empties(floor - r) + Placed(ts, floor + 1, c)
  }

  /** One step of the scan: an empty cell changes nothing, a tile drops to the floor. */
  lemma ScanStep(col: seq<Cell>, r: int, c: int)
    requires 0 <= r < |col|
    ensures col[r].None? ==> Scanned(col, r - 1, c) == Scanned(col, r, c)
    ensures col[r].Some? ==> ScanFloor(col, r - 1) == ScanFloor(col, r) - 1
    ensures col[r].Some? ==>
      (Scanned(col, r - 1, c) ==
       Scanned(col, r, c)[r := None][ScanFloor(col, r) := Some(Relocate(col[r].value, ScanFloor(col, r), c))])
  {
    TilesOfCons(col, r);
    var ts, ts' := TilesOf(col[r + 1..]), TilesOf(col[r..]);
    var floor := |col| - 1 - |ts|;
    var x, y := Scanned(col, r - 1, c), Scanned(col, r, c);
    if col[r].None? {
      forall i | 0 <= i < |col|
        ensures x[i] == y[i]
      {
        if i < r {
          assert x[i] == col[i] == y[i];
        }
      }
    } else {
      var z := y[r := None][floor := Some(Relocate(col[r].value, floor, c))];
      forall i | 0 <= i < |col|
        ensures x[i] == z[i]
      {
        if floor < i {
          assert x[i] == Some(Relocate(ts'[i - floor], i, c));
          assert y[i] == Some(Relocate(ts[i - floor - 1], i, c));
        }
      }
    }
  }

  lemma ColumnPut(b: Board, r: int, c: int, x: Cell)
    requires WellShaped(b) && InGrid(r, c)
    ensures Column(Put(b, r, c, x), c) == Column(b, c)[r := x]
    ensures forall j :: 0 <= j < GRID_SIZE && j != c ==> Column(Put(b, r, c, x), j) == Column(b, j)
  {
  }

  /**
   * The upward scan of one column: each tile found moves to the lowest free cell
   * `emptyRow`, which then rises by one.
   */
  method CompactColumn(b: Board, c: int) returns (nb: Board, emptyRow: int)
    requires WellShaped(b) && 0 <= c < GRID_SIZE
    ensures WellShaped(nb)
    ensures emptyRow == GRID_SIZE - 1 - |TilesOf(Column(b, c))|
    ensures Column(nb, c) == Empties(emptyRow + 1) + Placed(TilesOf(Column(b, c)), emptyRow + 1, c)
    ensures forall j :: 0 <= j < GRID_SIZE && j != c ==> Column(nb, j) == Column(b, j)
  {
    ghost var col := Column(b, c);
    nb := b;
    emptyRow := GRID_SIZE - 1;
    var r := GRID_SIZE - 1;
    assert col[..r + 1] == col;
    while r >= 0
      invariant -1 <= r < GRID_SIZE
      invariant WellShaped(nb)
      invariant emptyRow == ScanFloor(col, r)
      invariant Column(nb, c) == Scanned(col, r, c)
      invariant forall j :: 0 <= j < GRID_SIZE && j != c ==> Column(nb, j) == Column(b, j)
    {
      ScanStep(col, r, c);
      assert nb[r][c] == Column(nb, c)[r] == col[r];
      if nb[r][c] != None {
        var tile := nb[r][c].value;
        ColumnPut(nb, r, c, None);
        nb := Put(nb, r, c, None);
        ColumnPut(nb, emptyRow, c, Some(Relocate(tile, emptyRow, c)));
        nb := Put(nb, emptyRow, c, Some(Relocate(tile, emptyRow, c)));
        emptyRow := emptyRow - 1;
      }
      r := r - 1;
    }
    assert col[0..] == col;
  }

  /** Fills column c from `emptyRow` up to the top with fresh tiles. */
  method RefillColumn(b: Board, c: int, emptyRow: int, refill: Refill) returns (nb: Board)
    requires WellShaped(b) && 0 <= c < GRID_SIZE && -1 <= emptyRow < GRID_SIZE
    ensures WellShaped(nb)
    ensures Column(nb, c) == FreshTiles(emptyRow + 1, c, refill) + Column(b, c)[emptyRow + 1..]
    ensures forall j :: 0 <= j < GRID_SIZE && j != c ==> Column(nb, j) == Column(b, j)
  {
    nb := b;
    var r := emptyRow;
    while r >= 0
      invariant -1 <= r <= emptyRow
      invariant WellShaped(nb)
      invariant Column(nb, c) == Column(b, c)[..r + 1] + FreshTiles(emptyRow + 1, c, refill)[r + 1..] + Column(b, c)[emptyRow + 1..]
      invariant forall j :: 0 <= j < GRID_SIZE && j != c ==> Column(nb, j) == Column(b, j)
    {
      ColumnPut(nb, r, c, Some(GenerateTile(r, c, refill(r, c))));
      nb := Put(nb, r, c, Some(GenerateTile(r, c, refill(r, c))));
      r := r - 1;
    }
  }

  /** Works on a copy and settles the columns one after another. */
  method ApplyGravity(b: Board, refill: Refill) returns (nb: Board)
    requires WellShaped(b)
    ensures nb == Settle(b, refill)
  {
    nb := b;
    for c := 0 to GRID_SIZE
      invariant WellShaped(nb)
      invariant forall j :: 0 <= j < c ==> Column(nb, j) == SettledColumn(b, refill, j)
      invariant forall j :: c <= j < GRID_SIZE ==> Column(nb, j) == Column(b, j)
    {
      var emptyRow;
      nb, emptyRow := CompactColumn(nb, c);
      nb := RefillColumn(nb, c, emptyRow, refill);
    }
    forall r, j | InGrid(r, j)
      ensures nb[r][j] == Settle(b, refill)[r][j]
    {
      assert nb[r][j] == Column(nb, j)[r];
    }
    BoardsEqual(nb, Settle(b, refill));
  }

  /** The refill fills exactly the top NullCount cells; the column's tiles fill the rest, in order. */
  lemma GravityColumn(b: Board, refill: Refill, r: int, c: int)
    requires InGrid(r, c)
    ensures var col := Column(b, c);
      r < NullCount(col) ==> Settle(b, refill)[r][c] == Some(GenerateTile(r, c, refill(r, c)))
    ensures var col := Column(b, c);
      r >= NullCount(col) ==> Settle(b, refill)[r][c] == Some(Relocate(TilesOf(col)[r - NullCount(col)], r, c))
  {
    assert Settle(b, refill)[r][c] == SettledColumn(b, refill, c)[r];
  }

  /** The tile at (r, c) falls by the number of empty cells below it in its column. */
  lemma Landing(b: Board, refill: Refill, r: int, c: int)
    requires WellShaped(b) && InGrid(r, c) && b[r][c].Some?
    ensures r + NullCount(Column(b, c)[r + 1..]) < GRID_SIZE
    ensures var d := r + NullCount(Column(b, c)[r + 1..]);
      Settle(b, refill)[d][c] == Some(Relocate(b[r][c].value, d, c))
  {
    var col := Column(b, c);
    var d := r + NullCount(col[r + 1..]);
    assert col == col[..r] + [col[r]] + col[r + 1..];
    TilesOfConcat(col[..r] + [col[r]], col[r + 1..]);
    TilesOfConcat(col[..r], [col[r]]);
    assert TilesOf([col[r]]) == [col[r].value] by {
      assert [col[r]][1..] == [];
    }
    var k := |TilesOf(col[..r])|;
    assert TilesOf(col)[k] == b[r][c].value;
    assert d == NullCount(col) + k;
    GravityColumn(b, refill, d, c);
  }

  /** Gravity keeps the top-to-bottom order of the tiles of a column. */
  lemma OrderKept(b: Board, r1: int, r2: int, c: int)
    requires WellShaped(b) && InGrid(r1, c) && InGrid(r2, c) && r1 < r2 && b[r1][c].Some? && b[r2][c].Some?
    ensures r1 + NullCount(Column(b, c)[r1 + 1..]) < r2 + NullCount(Column(b, c)[r2 + 1..])
  {
    var col := Column(b, c);
    assert col[r1 + 1..] == col[r1 + 1..r2] + [col[r2]] + col[r2 + 1..];
    TilesOfConcat(col[r1 + 1..r2] + [col[r2]], col[r2 + 1..]);
    TilesOfConcat(col[r1 + 1..r2], [col[r2]]);
    assert NullCount([col[r2]]) == 0 by {
      assert [col[r2]][1..] == [];
    }
  }

  /** A column without empty cells whose tiles sit at their own cells comes out unchanged. */
  lemma FullColumnUnchanged(b: Board, refill: Refill, c: int)
    requires WellShaped(b) && 0 <= c < GRID_SIZE
    requires forall r :: 0 <= r < GRID_SIZE ==> b[r][c].Some? && b[r][c].value.row == r && b[r][c].value.col == c
    ensures forall r :: 0 <= r < GRID_SIZE ==> Settle(b, refill)[r][c] == b[r][c]
  {
    var col := Column(b, c);
    TilesOfNoEmpty(col);
    forall r | 0 <= r < GRID_SIZE
      ensures Settle(b, refill)[r][c] == b[r][c]
    {
      GravityColumn(b, refill, r, c);
    }
  }

  /** Gravity leaves a full, positioned board as it is. */
  lemma SettleFull(b: Board, refill: Refill)
    requires WellShaped(b) && Full(b) && Positioned(b)
    ensures Settle(b, refill) == b
  {
    forall r, c | InGrid(r, c)
      ensures Settle(b, refill)[r][c] == b[r][c]
    {
      assert forall i :: 0 <= i < GRID_SIZE ==> At(b, i, c) == b[i][c];
      FullColumnUnchanged(b, refill, c);
    }
    BoardsEqual(Settle(b, refill), b);
  }
}
