/** Tiles, boards, item inventories and the game's constants. */
module Types {

  /** Side length of the square board. */
  const GRID_SIZE: nat := 8

  /** Moves granted at the start of a game. */
  const MAX_MOVES: int := 30

  /** Moves added by one extra-moves item. */
  const EXTRA_MOVES: int := 5

  datatype TileType = Blue | Red | Green | Yellow | Purple | Orange

  /** The order in which a random draw indexes the tile types. */
  const TILE_TYPES: seq<TileType> := [Blue, Red, Green, Yellow, Purple, Orange]

  /** Stands for the timestamp-and-random string that names a tile. */
  type TileId = nat

  /** A tile; `row` and `col` are meant to equal the cell that holds it. */
  datatype Tile = Tile(id: TileId, kind: TileType, row: int, col: int, isMatched: bool)

  datatype Option<T> = None | Some(value: T)

  type Cell = Option<Tile>

  /** A board is indexed `b[row][col]`; row 0 is the top. */
  type Board = seq<seq<Cell>>

  datatype Coord = Coord(row: int, col: int)

  /** One draw from the random source: `pick` selects a tile type, `id` names the new tile. */
  datatype Draw = Draw(pick: nat, id: TileId)

  /** The random draws of one refill: the draw used for the tile generated at (row, col). */
  type Refill = (int, int) -> Draw

  /** The item inventory: area-clear hammers, reshuffles and extra-moves items. */
  datatype Items = Items(hammer: int, shuffle: int, extraMoves: int)

  const INITIAL_ITEMS: Items := Items(3, 2, 1)

  const NO_ITEMS: Items := Items(0, 0, 0)

  datatype GameStatus = Idle | Swapping | Resolving | GameOver

  function TypeAt(pick: nat): TileType
  {
    TILE_TYPES[pick % |TILE_TYPES|]
  }

  predicate InGrid(r: int, c: int)
  {
    0 <= r < GRID_SIZE && 0 <= c < GRID_SIZE
  }

  predicate WellShaped(b: Board)
  {
    |b| == GRID_SIZE && forall r :: 0 <= r < |b| ==> |b[r]| == GRID_SIZE
  }

  /** The cell at (r, c), read as empty outside the board. */
  function At(b: Board, r: int, c: int): Cell
  {
    if 0 <= r < |b| && 0 <= c < |b[r]| then b[r][c] else None
  }

  /** No cell of the board is empty. */
  ghost predicate Full(b: Board)
  {
    forall r, c :: InGrid(r, c) ==> At(b, r, c).Some?
  }

  /** Every tile's `row` and `col` equal the cell that holds it. */
  ghost predicate Positioned(b: Board)
  {
    forall r, c :: InGrid(r, c) && At(b, r, c).Some? ==> At(b, r, c).value.row == r && At(b, r, c).value.col == c
  }

  /** The board with cell (r, c) replaced by `x`. */
  function Put(b: Board, r: int, c: int, x: Cell): (nb: Board)
    requires WellShaped(b) && InGrid(r, c)
    ensures WellShaped(nb)
    ensures forall i, j :: InGrid(i, j) ==> nb[i][j] == if i == r && j == c then x else b[i][j]
  {
    b[r := b[r][c := x]]
  }

  /** Two well-shaped boards that agree on every cell are equal. */
  lemma BoardsEqual(x: Board, y: Board)
    requires WellShaped(x) && WellShaped(y)
    requires forall i, j :: InGrid(i, j) ==> x[i][j] == y[i][j]
    ensures x == y
  {
    assert forall i :: 0 <= i < GRID_SIZE ==> x[i] == y[i];
  }

  /** The tile moved to (r, c), keeping its id, type and matched flag. */
  function Relocate(t: Tile, r: int, c: int): Tile
  {
    t.(row := r, col := c)
  }

  /** Number of empty cells in a line of cells. */
  function NullCount(cells: seq<Cell>): nat
  {
    if cells == [] then 0 else (if cells[0].None? then 1 else 0) + NullCount(cells[1..])
  }

  /** The tiles of a line of cells, in order, empty cells skipped. */
  function TilesOf(cells: seq<Cell>): (ts: seq<Tile>)
    ensures |ts| + NullCount(cells) == |cells|
  {
    if cells == [] then [] else (if cells[0].Some? then [cells[0].value] else []) + TilesOf(cells[1..])
  }

  lemma {:induction false} TilesOfConcat(s: seq<Cell>, t: seq<Cell>)
    ensures TilesOf(s + t) == TilesOf(s) + TilesOf(t)
    ensures NullCount(s + t) == NullCount(s) + NullCount(t)
  {
    if s == [] {
      assert s + t == t;
    } else {
      assert (s + t)[1..] == s[1..] + t;
      TilesOfConcat(s[1..], t);
    }
  }

  /** A line without empty cells yields exactly its tiles, in place. */
  lemma {:induction false} TilesOfNoEmpty(s: seq<Cell>)
    requires forall i :: 0 <= i < |s| ==> s[i].Some?
    ensures |TilesOf(s)| == |s| && NullCount(s) == 0
    ensures forall i :: 0 <= i < |s| ==> TilesOf(s)[i] == s[i].value
  {
    if s != [] {
      TilesOfNoEmpty(s[1..]);
    }
  }
}
