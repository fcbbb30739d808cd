/** The tile factory and the board generator. */
module Generate {
  import opened Types
  import opened Matches

  /** A fresh tile at (r, c) whose type and id come from the draw `d`. */
  function GenerateTile(r: int, c: int, d: Draw): (t: Tile)
    ensures t.row == r && t.col == c && t.id == d.id && !t.isMatched
    ensures t.kind == TypeAt(d.pick)
  {
    Tile(d.id, TypeAt(d.pick), r, c, false)
  }

  /** Position of a type in TILE_TYPES. */
  function TypeIndex(k: TileType): (i: nat)
    ensures i < |TILE_TYPES| && TILE_TYPES[i] == k
  {
    match k
    case Blue => 0
    case Red => 1
    case Green => 2
    case Yellow => 3
    case Purple => 4
    case Orange => 5
  }

  /** Every tile type can come out of the factory. */
  lemma EveryTypeCanBeDrawn(r: int, c: int, k: TileType, id: TileId)
    ensures GenerateTile(r, c, Draw(TypeIndex(k), id)).kind == k
  {
  }

  /** Three draws in a row yield three different types. */
  lemma ConsecutiveTypesDiffer(p: nat)
    ensures TypeAt(p) != TypeAt(p + 1) && TypeAt(p + 1) != TypeAt(p + 2) && TypeAt(p) != TypeAt(p + 2)
  {
  }

  /** The draw used by the `attempt`-th retry for a cell: the next type in TILE_TYPES, cyclically. */
  function Retry(d: Draw, attempt: nat): Draw
  {
    Draw(d.pick + attempt, d.id)
  }

  /** Three tiles of one type: `Same3` on cells that all hold a tile. */
  predicate SameKind3(x: Tile, y: Tile, z: Tile)
  {
    Same3(Some(x), Some(y), Some(z))
  }

  /**
   * A type `k` for cell (r, c) would complete a run of three with the two cells
   * before it in its row or the two cells above it in its column; `rows` are the
   * finished rows and `row` the part of row r generated so far.
   */
  predicate CompletesRun(rows: seq<seq<Tile>>, row: seq<Tile>, r: int, c: int, k: TileType)
    requires r == |rows| && c == |row| && c < GRID_SIZE
    requires forall i :: 0 <= i < |rows| ==> |rows[i]| == GRID_SIZE
  {
    (c >= 2 && row[c - 1].kind == k && row[c - 2].kind == k) ||
    (r >= 2 && rows[r - 1][c].kind == k && rows[r - 2][c].kind == k)
  }

  /** A grid of tiles seen as a board. */
  function Lift(g: seq<seq<Tile>>): (b: Board)
    ensures |b| == |g| && forall r :: 0 <= r < |g| ==> |b[r]| == |g[r]|
    ensures forall r, c :: 0 <= r < |g| && 0 <= c < |g[r]| ==> b[r][c] == Some(g[r][c])
  {
    seq(|g|, r requires 0 <= r < |g| => seq(|g[r]|, c requires 0 <= c < |g[r]| => Some(g[r][c])))
  }

  /** No row of the grid holds three same-type tiles in a row. */
  ghost predicate NoRowTriples(g: seq<seq<Tile>>)
  {
    forall i, j :: 0 <= i < |g| && 2 <= j < |g[i]| ==> !SameKind3(g[i][j - 2], g[i][j - 1], g[i][j])
  }

  /** No column of the grid holds three same-type tiles in a row. */
  ghost predicate NoColumnTriples(g: seq<seq<Tile>>)
    requires forall i :: 0 <= i < |g| ==> |g[i]| == GRID_SIZE
  {
    forall i, j {:trigger SameKind3(g[i - 2][j], g[i - 1][j], g[i][j])} ::
      2 <= i < |g| && 0 <= j < GRID_SIZE ==> !SameKind3(g[i - 2][j], g[i - 1][j], g[i][j])
  }

  /** In a grid with no triple along a row, no horizontal window is a run. */
  lemma NoRowRunAt(g: seq<seq<Tile>>, r: int, s: int)
    requires |g| == GRID_SIZE && forall i :: 0 <= i < |g| ==> |g[i]| == GRID_SIZE
    requires NoRowTriples(g)
    ensures !HRun(Lift(g), r, s)
  {
    var b := Lift(g);
    if 0 <= r < GRID_SIZE && 0 <= s <= GRID_SIZE - 3 {
      var j := s + 2;
      assert !SameKind3(g[r][j - 2], g[r][j - 1], g[r][j]);
      assert b[r][s] == Some(g[r][s]) && b[r][s + 1] == Some(g[r][s + 1]) && b[r][s + 2] == Some(g[r][s + 2]);
    }
  }

  /** In a grid with no triple along a column, no vertical window is a run. */
  lemma NoColumnRunAt(g: seq<seq<Tile>>, s: int, c: int)
    requires |g| == GRID_SIZE && forall i :: 0 <= i < |g| ==> |g[i]| == GRID_SIZE
    requires NoColumnTriples(g)
    ensures !VRun(Lift(g), s, c)
  {
    var b := Lift(g);
    if 0 <= c < GRID_SIZE && 0 <= s <= GRID_SIZE - 3 {
      var i := s + 2;
      assert !SameKind3(g[i - 2][c], g[i - 1][c], g[i][c]);
      assert b[s][c] == Some(g[s][c]) && b[s + 1][c] == Some(g[s + 1][c]) && b[s + 2][c] == Some(g[s + 2][c]);
    }
  }

  /** A grid with no triple along a row or a column has no match. */
  lemma NoTriplesNoMatches(g: seq<seq<Tile>>)
    requires |g| == GRID_SIZE && forall i :: 0 <= i < |g| ==> |g[i]| == GRID_SIZE
    requires NoRowTriples(g) && NoColumnTriples(g)
    ensures MatchSet(Lift(g)) == {}
  {
    forall p | p in MatchSet(Lift(g))
      ensures false
    {
      var r, c := p.row, p.col;
      NoRowRunAt(g, r, c - 2);
      NoRowRunAt(g, r, c - 1);
      NoRowRunAt(g, r, c);
      NoColumnRunAt(g, r - 2, c);
      NoColumnRunAt(g, r - 1, c);
      NoColumnRunAt(g, r, c);
    }
  }

  /**
   * The do-while of the generator: redraws the candidate for cell (r, c) while it
   * would complete a run of three. Retries walk through the types in turn and at
   * most two types are ruled out, so the third attempt at the latest succeeds.
   */
  method PickTile(rows: seq<seq<Tile>>, row: seq<Tile>, r: int, c: int, d: Draw) returns (tile: Tile, ghost attempt: nat)
    requires r == |rows| && c == |row| && 0 <= c < GRID_SIZE
    requires forall i :: 0 <= i < |rows| ==> |rows[i]| == GRID_SIZE
    ensures tile.row == r && tile.col == c && tile.id == d.id && !tile.isMatched
    ensures !CompletesRun(rows, row, r, c, tile.kind)
    ensures attempt <= 2 && tile == GenerateTile(r, c, Retry(d, attempt))
    ensures forall k :: 0 <= k < attempt ==> CompletesRun(rows, row, r, c, GenerateTile(r, c, Retry(d, k)).kind)
  {
    var tries: nat := 0;
    tile := GenerateTile(r, c, d);
    while CompletesRun(rows, row, r, c, tile.kind)
      invariant tries <= 2
      invariant tile == GenerateTile(r, c, Retry(d, tries))
      invariant forall k :: 0 <= k < tries ==> CompletesRun(rows, row, r, c, GenerateTile(r, c, Retry(d, k)).kind)
      invariant tries >= 1 ==> CompletesRun(rows, row, r, c, TypeAt(d.pick))
      invariant tries >= 2 ==> CompletesRun(rows, row, r, c, TypeAt(d.pick + 1))
      decreases 2 - tries
    {
      ConsecutiveTypesDiffer(d.pick);
      tries := tries + 1;
      tile := GenerateTile(r, c, Retry(d, tries));
    }
    attempt := tries;
  }

  /** The tile is what the factory makes at (r, c) from `d` or from one of its first two retries. */
  ghost predicate Redrawn(t: Tile, r: int, c: int, d: Draw)
  {
    exists k :: 0 <= k <= 2 && t == GenerateTile(r, c, Retry(d, k))
  }

  /** Each tile sits at its indices and carries the id drawn for its cell. */
  ghost predicate Drawn(g: seq<seq<Tile>>, supply: Refill)
  {
    forall i, j :: 0 <= i < |g| && 0 <= j < |g[i]| ==>
      g[i][j].row == i && g[i][j].col == j && g[i][j].id == supply(i, j).id && !g[i][j].isMatched
  }

  /** Each tile is what the factory makes from its cell's draw or one of its first two retries. */
  ghost predicate DrawnKinds(g: seq<seq<Tile>>, supply: Refill)
  {
    forall i, j :: 0 <= i < |g| && 0 <= j < |g[i]| ==> Redrawn(g[i][j], i, j, supply(i, j))
  }

  /** Appending a redrawn tile to the last row keeps every tile redrawn. */
  lemma AppendKind(rows: seq<seq<Tile>>, row: seq<Tile>, r: int, c: int, tile: Tile, supply: Refill)
    requires r == |rows| && c == |row|
    requires DrawnKinds(rows + [row], supply) && Redrawn(tile, r, c, supply(r, c))
    ensures DrawnKinds(rows + [row + [tile]], supply)
  {
    var g, g' := rows + [row], rows + [row + [tile]];
    forall i, j | 0 <= i < |g'| && 0 <= j < |g'[i]|
      ensures Redrawn(g'[i][j], i, j, supply(i, j))
    {
      if i < r {
        assert g'[i] == g[i];
      } else if j < c {
        assert g'[i][j] == g[i][j];
      }
    }
  }

  /** Appending a tile that completes no run keeps the partial row and grid free of triples. */
  lemma AppendTile(rows: seq<seq<Tile>>, row: seq<Tile>, r: int, c: int, tile: Tile, supply: Refill)
    requires r == |rows| && c == |row| && 0 <= c < GRID_SIZE
    requires forall i :: 0 <= i < |rows| ==> |rows[i]| == GRID_SIZE
    requires Drawn(rows + [row], supply) && NoRowTriples([row])
    requires r >= 2 ==> forall j :: 0 <= j < c ==> !SameKind3(rows[r - 2][j], rows[r - 1][j], row[j])
    requires tile.row == r && tile.col == c && tile.id == supply(r, c).id && !tile.isMatched
    requires !CompletesRun(rows, row, r, c, tile.kind)
    ensures Drawn(rows + [row + [tile]], supply) && NoRowTriples([row + [tile]])
    ensures r >= 2 ==> forall j :: 0 <= j < c + 1 ==> !SameKind3(rows[r - 2][j], rows[r - 1][j], (row + [tile])[j])
  {
    var row' := row + [tile];
    forall i, j | 0 <= i < |rows + [row']| && 0 <= j < |(rows + [row'])[i]|
      ensures (rows + [row'])[i][j].row == i && (rows + [row'])[i][j].col == j
      ensures (rows + [row'])[i][j].id == supply(i, j).id && !(rows + [row'])[i][j].isMatched
    {
      if i < r {
        assert (rows + [row'])[i] == (rows + [row])[i];
      } else if j < c {
        assert (rows + [row'])[i][j] == (rows + [row])[i][j];
      }
    }
    forall i, j | 0 <= i < 1 && 2 <= j < |[row'][i]|
      ensures !SameKind3([row'][i][j - 2], [row'][i][j - 1], [row'][i][j])
    {
      if j < c {
        assert [row'][i][j - 2] == [row][i][j - 2] && [row'][i][j - 1] == [row][i][j - 1] && [row'][i][j] == [row][i][j];
      }
    }
  }

  /** Appending a finished row keeps the grid free of triples. */
  lemma AppendRow(rows: seq<seq<Tile>>, row: seq<Tile>, supply: Refill)
    requires |row| == GRID_SIZE && forall i :: 0 <= i < |rows| ==> |rows[i]| == GRID_SIZE
    requires Drawn(rows + [row], supply)
    requires NoRowTriples(rows) && NoColumnTriples(rows) && NoRowTriples([row])
    requires |rows| >= 2 ==> forall j :: 0 <= j < GRID_SIZE ==> !SameKind3(rows[|rows| - 2][j], rows[|rows| - 1][j], row[j])
    ensures forall i :: 0 <= i < |rows + [row]| ==> |(rows + [row])[i]| == GRID_SIZE
    ensures NoRowTriples(rows + [row]) && NoColumnTriples(rows + [row])
  {
    var g := rows + [row];
    forall i, j | 0 <= i < |g| && 2 <= j < |g[i]|
      ensures !SameKind3(g[i][j - 2], g[i][j - 1], g[i][j])
    {
      if i < |rows| {
        assert g[i] == rows[i];
      } else {
        assert g[i] == [row][0];
      }
    }
    forall i, j {:trigger SameKind3(g[i - 2][j], g[i - 1][j], g[i][j])} | 2 <= i < |g| && 0 <= j < GRID_SIZE
      ensures !SameKind3(g[i - 2][j], g[i - 1][j], g[i][j])
    {
      if i < |rows| {
        assert g[i - 2] == rows[i - 2] && g[i - 1] == rows[i - 1] && g[i] == rows[i];
      }
    }
  }

  /** Fills the board in row-major order with tiles that complete no run of three. */
  method CreateBoard(supply: Refill) returns (b: Board)
    ensures WellShaped(b) && Full(b) && Positioned(b)
    ensures forall r, c :: InGrid(r, c) ==> b[r][c].value.id == supply(r, c).id && !b[r][c].value.isMatched
    ensures forall r, c :: InGrid(r, c) ==> Redrawn(b[r][c].value, r, c, supply(r, c))
    ensures MatchSet(b) == {}
  {
    var rows: seq<seq<Tile>> := [];
    for r := 0 to GRID_SIZE
      invariant |rows| == r
      invariant forall i :: 0 <= i < r ==> |rows[i]| == GRID_SIZE
      invariant Drawn(rows, supply) && DrawnKinds(rows, supply)
      invariant NoRowTriples(rows) && NoColumnTriples(rows)
    {
      var row: seq<Tile> := [];
      for c := 0 to GRID_SIZE
        invariant |row| == c
        invariant Drawn(rows + [row], supply) && DrawnKinds(rows + [row], supply)
        invariant NoRowTriples([row])
        invariant r >= 2 ==> forall j :: 0 <= j < c ==> !SameKind3(rows[r - 2][j], rows[r - 1][j], row[j])
      {
        var tile;
        ghost var attempt;
        tile, attempt := PickTile(rows, row, r, c, supply(r, c));
        assert Redrawn(tile, r, c, supply(r, c));
        AppendTile(rows, row, r, c, tile, supply);
        AppendKind(rows, row, r, c, tile, supply);
        row := row + [tile];
      }
      AppendRow(rows, row, supply);
      rows := rows + [row];
    }
    b := Lift(rows);
    NoTriplesNoMatches(rows);
  }
}
