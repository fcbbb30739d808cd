/**
 * The game screen's state and its handlers: a tile click (select, swap or
 * hammer), the reshuffle and extra-moves items, and a new game. Each handler
 * is one atomic step; the pauses between the frames of an animation are not
 * modelled.
 */
module App {
  import opened Types
  import opened Matches
  import opened Generate
  import opened Gravity
  import opened Shuffle
  import opened Adjacency
  import opened Resolution

  /** The board after the tiles at (r1, c1) and (r2, c2) trade places, each taking its new cell. */
  function Swapped(b: Board, r1: int, c1: int, r2: int, c2: int): (nb: Board)
    requires WellShaped(b) && InGrid(r1, c1) && InGrid(r2, c2)
    requires b[r1][c1].Some? && b[r2][c2].Some?
    ensures WellShaped(nb)
  {
    var t1, t2 := b[r1][c1].value, b[r2][c2].value;
    Put(Put(b, r1, c1, Some(Relocate(t2, r1, c1))), r2, c2, Some(Relocate(t1, r2, c2)))
  }

  /**
   * A swap of two different cells moves each tile, with its id and type, to the
   * other cell and leaves every other cell alone; a full board whose tiles record
   * their cells stays so.
   */
  lemma SwapExchanges(b: Board, r1: int, c1: int, r2: int, c2: int)
    requires WellShaped(b) && InGrid(r1, c1) && InGrid(r2, c2) && (r1 != r2 || c1 != c2)
    requires b[r1][c1].Some? && b[r2][c2].Some?
    ensures Swapped(b, r1, c1, r2, c2)[r1][c1].value.id == b[r2][c2].value.id
    ensures Swapped(b, r1, c1, r2, c2)[r1][c1].value.kind == b[r2][c2].value.kind
    ensures Swapped(b, r1, c1, r2, c2)[r2][c2].value.id == b[r1][c1].value.id
    ensures Swapped(b, r1, c1, r2, c2)[r2][c2].value.kind == b[r1][c1].value.kind
    ensures forall i, j :: InGrid(i, j) && (i != r1 || j != c1) && (i != r2 || j != c2) ==>
      Swapped(b, r1, c1, r2, c2)[i][j] == b[i][j]
    ensures Full(b) && Positioned(b) ==> Full(Swapped(b, r1, c1, r2, c2)) && Positioned(Swapped(b, r1, c1, r2, c2))
  {
  }

  /** Swapping the same two cells twice gives back a board whose tiles record their cells. */
  lemma SwapTwice(b: Board, r1: int, c1: int, r2: int, c2: int)
    requires WellShaped(b) && InGrid(r1, c1) && InGrid(r2, c2) && (r1 != r2 || c1 != c2)
    requires b[r1][c1].Some? && b[r2][c2].Some? && Positioned(b)
    ensures Swapped(Swapped(b, r1, c1, r2, c2), r1, c1, r2, c2) == b
  {
    var twice := Swapped(Swapped(b, r1, c1, r2, c2), r1, c1, r2, c2);
    assert At(b, r1, c1).value.row == r1 && At(b, r1, c1).value.col == c1;
    assert At(b, r2, c2).value.row == r2 && At(b, r2, c2).value.col == c2;
    BoardsEqual(twice, b);
  }

  /** The board put back after a swap without matches: both original tiles written to their own cells. */
  function Reverted(b: Board, r1: int, c1: int, r2: int, c2: int): (nb: Board)
    requires WellShaped(b) && InGrid(r1, c1) && InGrid(r2, c2)
    requires b[r1][c1].Some? && b[r2][c2].Some?
    ensures WellShaped(nb)
  {
    var t1, t2 := b[r1][c1].value, b[r2][c2].value;
    Put(Put(b, r1, c1, Some(Relocate(t1, r1, c1))), r2, c2, Some(Relocate(t2, r2, c2)))
  }

  /** Putting the tiles back restores the board exactly, since its tiles record their cells. */
  lemma RevertRestores(b: Board, r1: int, c1: int, r2: int, c2: int)
    requires WellShaped(b) && InGrid(r1, c1) && InGrid(r2, c2)
    requires b[r1][c1].Some? && b[r2][c2].Some? && Positioned(b)
    ensures Reverted(b, r1, c1, r2, c2) == b
  {
    assert At(b, r1, c1).value.row == r1 && At(b, r1, c1).value.col == c1;
    assert At(b, r2, c2).value.row == r2 && At(b, r2, c2).value.col == c2;
    BoardsEqual(Reverted(b, r1, c1, r2, c2), b);
  }

  /** The cascade the hammer at (r, c) starts: on the board settled after emptying that cell. */
  function HammerCascade(b: Board, r: int, c: int, refill: Refill, refills: nat -> Refill, fuel: nat): Resolution
    requires WellShaped(b) && InGrid(r, c)
  {
    Cascade(Settle(Put(b, r, c, None), refill), refills, fuel)
  }

  /** The status a finished cascade leaves: game over once no move is left. */
  function StatusAfter(moves: int): GameStatus
  {
    if moves <= 0 then GameOver else Idle
  }

  function LessHammer(a: Items): Items
  {
    a.(hammer := a.hammer - 1)
  }

  function LessShuffle(a: Items): Items
  {
    a.(shuffle := a.shuffle - 1)
  }

  /** One cascade step: empties the reported cells, then lets the tiles fall and refills. */
  method ClearAndSettle(b: Board, matches: seq<Coord>, refill: Refill) returns (nb: Board)
    requires WellShaped(b)
    requires forall i :: 0 <= i < |matches| ==> InGrid(matches[i].row, matches[i].col)
    requires forall p :: p in matches <==> p in MatchSet(b)
    ensures nb == Step(b, refill)
  {
    var cleared := ClearCells(b, matches);
    assert (set p | p in matches) == MatchSet(b);
    nb := ApplyGravity(cleared, refill);
  }

  /**
   * The cascade loop: while matches remain (and at most `fuel` times), score
   * them, award an item, clear them and let the tiles fall, refilling with the
   * draws `refills(k)` in step k.
   */
  method RunCascade(b: Board, refills: nat -> Refill, fuel: nat) returns (res: Resolution)
    requires WellShaped(b)
    ensures res == Cascade(b, refills, fuel)
  {
    var temp := b;
    var combo: nat := 0;
    var left: nat := fuel;
    var hasMatches := true;
    var points := 0;
    var awards := NO_ITEMS;
    while hasMatches && left > 0
      invariant WellShaped(temp) && combo + left == fuel
      invariant Resolve(Step, temp, refills, combo, left, points, awards) == Cascade(b, refills, fuel)
      invariant !hasMatches ==> MatchCount(temp) == 0
      decreases left, hasMatches
    {
      var matches := FindMatches(temp);
      if |matches| > 0 {
        ghost var temp0, combo0, left0, points0, awards0 := temp, combo, left, points, awards;
        var count := |matches|;
        combo := combo + 1;
        left := left - 1;
        points := points + Points(count, combo);
        awards := AddItems(awards, Award(count, combo));
        temp := ClearAndSettle(temp, matches, refills(combo));
        ResolveAdvance(Step, temp0, refills, combo0, left0, points0, awards0, temp, combo, left, points, awards);
      } else {
        hasMatches := false;
      }
    }
    ResolveStops(Step, temp, refills, combo, left, points, awards);
    res := Resolution(temp, points, awards, combo, left > 0);
  }

  /** The state behind the game screen. */
  class Game {
    var board: Board
    var score: int
    var moves: int
    var status: GameStatus
    /** The first cell of a swap, once clicked. */
    var selected: Option<Coord>
    var isResolving: bool
    var items: Items
    /** Whether the next click on a cell uses a hammer. */
    var hammerArmed: bool

    /** A full board whose tiles record their cells, a non-negative score and inventory. */
    ghost predicate Valid()
      reads this
    {
      WellShaped(board) && Full(board) && Positioned(board) &&
      score >= 0 && NonNegative(items) &&
      (selected.Some? ==> InGrid(selected.value.row, selected.value.col))
    }

    /** A new game: a fresh board with no match on it and the starting counters. */
    constructor(supply: Refill)
      ensures Valid() && MatchSet(board) == {}
      ensures forall r, c :: InGrid(r, c) ==> board[r][c].value.id == supply(r, c).id && Redrawn(board[r][c].value, r, c, supply(r, c))
      ensures score == 0 && moves == MAX_MOVES && status == Idle && selected == None
      ensures !isResolving && items == INITIAL_ITEMS && !hammerArmed
    {
      var initial := CreateBoard(supply);
      board := initial;
      score := 0;
      moves := MAX_MOVES;
      status := Idle;
      selected := None;
      isResolving := false;
      items := INITIAL_ITEMS;
      hammerArmed := false;
    }

    /**
     * Runs the cascade on the current board and shows its outcome: the final
     * board, the points and items won; then the screen is idle again, or over
     * when no move is left.
     */
    method ResolveBoard(refills: nat -> Refill, fuel: nat)
      requires Valid()
      modifies this
      ensures Valid()
      ensures board == Shown(old(board), Cascade(old(board), refills, fuel))
      ensures score == old(score) + Cascade(old(board), refills, fuel).points
      ensures items == AddItems(old(items), Cascade(old(board), refills, fuel).awards)
      ensures MatchSet(board) == {} || Cascade(old(board), refills, fuel).combo == fuel
      ensures !isResolving && status == StatusAfter(moves)
      ensures moves == old(moves) && selected == old(selected) && hammerArmed == old(hammerArmed)
    {
      isResolving := true;
      var res := RunCascade(board, refills, fuel);
      CascadeScore(board, refills, fuel);
      CascadeAwards(board, refills, fuel);
      CascadeBoard(board, refills, fuel);
      CascadeStable(board, refills, fuel);
      board := res.board;
      score := score + res.points;
      items := AddItems(items, res.awards);
      isResolving := false;
      status := Idle;
      if moves <= 0 {
        status := GameOver;
      }
    }

    /**
     * The hammer: empties the clicked cell, spends one hammer, disarms it,
     * shows the settled board and runs the cascade on it.
     */
    method HammerAt(r: int, c: int, refill: Refill, refills: nat -> Refill, fuel: nat)
      requires Valid() && InGrid(r, c) && items.hammer > 0
      modifies this
      ensures Valid()
      ensures board == HammerBoard(old(board), r, c, refill, refills, fuel)
      ensures score == old(score) + HammerCascade(old(board), r, c, refill, refills, fuel).points
      ensures items == AddItems(LessHammer(old(items)), HammerCascade(old(board), r, c, refill, refills, fuel).awards)
      ensures !hammerArmed && !isResolving && status == StatusAfter(moves)
      ensures moves == old(moves) && selected == old(selected)
    {
      board := ApplyGravity(Put(board, r, c, None), refill);
      items := LessHammer(items);
      hammerArmed := false;
      ResolveBoard(refills, fuel);
    }

    /**
     * A click without the hammer: the first click selects a cell; a click on a
     * neighbour of the selected cell swaps their tiles and spends a move, and the
     * cascade runs if the swap made a match, otherwise the tiles go back and the
     * move is refunded; a click elsewhere selects the clicked cell instead.
     */
    method SelectOrSwap(r: int, c: int, refills: nat -> Refill, fuel: nat)
      requires Valid() && InGrid(r, c)
      modifies this
      ensures Valid() && hammerArmed == old(hammerArmed)
      ensures old(selected).None? || !IsAdjacent(r, c, old(selected).value.row, old(selected).value.col) ==>
        selected == Some(Coord(r, c)) && board == old(board) && score == old(score) && moves == old(moves) &&
        items == old(items) && status == old(status) && isResolving == old(isResolving)
      ensures old(selected).Some? && IsAdjacent(r, c, old(selected).value.row, old(selected).value.col) ==>
        var sw := Swapped(old(board), old(selected).value.row, old(selected).value.col, r, c);
        var res := Cascade(sw, refills, fuel);
        selected == None &&
        (MatchSet(sw) != {} ==>
          board == Shown(sw, res) && score == old(score) + res.points && moves == old(moves) - 1 &&
          items == AddItems(old(items), res.awards) && status == StatusAfter(moves) && !isResolving) &&
        (MatchSet(sw) == {} ==>
          board == old(board) && score == old(score) && moves == old(moves) && items == old(items) &&
          status == old(status) && isResolving == old(isResolving))
    {
      if selected.None? {
        selected := Some(Coord(r, c));
        return;
      }
      var r1, c1 := selected.value.row, selected.value.col;
      if !IsAdjacent(r, c, r1, c1) {
        selected := Some(Coord(r, c));
        return;
      }
      assert At(board, r1, c1).Some? && At(board, r, c).Some?;
      var before := board;
      var tile1, tile2 := board[r1][c1], board[r][c];
      if tile1.Some? && tile2.Some? {
        SwapExchanges(before, r1, c1, r, c);
        board := Swapped(before, r1, c1, r, c);
        moves := moves - 1;
        selected := None;
        var matches := FindMatches(board);
        if |matches| > 0 {
          ResolveBoard(refills, fuel);
        } else {
          RevertRestores(before, r1, c1, r, c);
          board := Reverted(before, r1, c1, r, c);
          moves := moves + 1;
        }
      }
    }

    /**
     * A click on a cell. Nothing happens while the screen is not idle or a
     * cascade runs, nor with the hammer armed but none left; otherwise the
     * armed hammer strikes, or the click selects or swaps.
     */
    method HandleTileClick(r: int, c: int, refill: Refill, refills: nat -> Refill, fuel: nat)
      requires Valid() && InGrid(r, c)
      modifies this
      ensures Valid()
      ensures old(status) != Idle || old(isResolving) || (old(hammerArmed) && old(items).hammer <= 0) ==> unchanged(this)
      ensures old(status) == Idle && !old(isResolving) && old(hammerArmed) && old(items).hammer > 0 ==>
        board == HammerBoard(old(board), r, c, refill, refills, fuel) &&
        score == old(score) + HammerCascade(old(board), r, c, refill, refills, fuel).points &&
        items == AddItems(LessHammer(old(items)), HammerCascade(old(board), r, c, refill, refills, fuel).awards) &&
        !hammerArmed && moves == old(moves) && selected == old(selected) && status == StatusAfter(moves) &&
        !isResolving
      ensures old(status) == Idle && !old(isResolving) && !old(hammerArmed) ==>
        !hammerArmed && old(moves) - 1 <= moves <= old(moves) && score >= old(score)
    {
      if status != Idle || isResolving {
        return;
      }
      if hammerArmed {
        if items.hammer > 0 {
          HammerAt(r, c, refill, refills, fuel);
        }
        return;
      }
      SelectOrSwap(r, c, refills, fuel);
      if selected.None? {
        CascadeScore(Swapped(old(board), old(selected).value.row, old(selected).value.col, r, c), refills, fuel);
      }
    }

    /**
     * The reshuffle item: when one is left and the screen is idle, the tiles
     * are reshuffled, one item is spent and the cascade runs on the new board.
     */
    method UseShuffle(choose: nat -> nat, refills: nat -> Refill, fuel: nat)
      requires Valid()
      modifies this
      ensures Valid()
      ensures !(old(items).shuffle > 0 && old(status) == Idle && !old(isResolving)) ==> unchanged(this)
      ensures old(items).shuffle > 0 && old(status) == Idle && !old(isResolving) ==>
        var sb := ShuffledBoard(old(board), choose);
        board == Shown(sb, Cascade(sb, refills, fuel)) &&
        score == old(score) + Cascade(sb, refills, fuel).points &&
        items == AddItems(LessShuffle(old(items)), Cascade(sb, refills, fuel).awards) &&
        moves == old(moves) && selected == old(selected) && hammerArmed == old(hammerArmed) &&
        status == StatusAfter(moves) && !isResolving
    {
      if items.shuffle > 0 && status == Idle && !isResolving {
        ShuffleFull(board, choose);
        board := ShuffleBoard(board, choose);
        items := LessShuffle(items);
        ResolveBoard(refills, fuel);
      }
    }

    /**
     * The extra-moves item: when one is left it turns into five moves. The
     * moves held plus the moves still in the inventory never change.
     */
    method UseExtraMoves()
      requires Valid()
      modifies this
      ensures Valid()
      ensures old(items).extraMoves > 0 ==>
        moves == old(moves) + EXTRA_MOVES && items == old(items).(extraMoves := old(items).extraMoves - 1)
      ensures old(items).extraMoves <= 0 ==> moves == old(moves) && items == old(items)
      ensures moves + EXTRA_MOVES * items.extraMoves == old(moves) + EXTRA_MOVES * old(items).extraMoves
      ensures board == old(board) && score == old(score) && status == old(status) && selected == old(selected)
      ensures isResolving == old(isResolving) && hammerArmed == old(hammerArmed)
    {
      if items.extraMoves > 0 {
        moves := moves + EXTRA_MOVES;
        items := items.(extraMoves := items.extraMoves - 1);
      }
    }

    /** Arms the hammer; its button does nothing while no hammer is left. */
    method ArmHammer()
      requires Valid()
      modifies this
      ensures Valid()
      ensures hammerArmed == (old(hammerArmed) || old(items).hammer > 0)
      ensures board == old(board) && score == old(score) && moves == old(moves) && items == old(items)
      ensures status == old(status) && selected == old(selected) && isResolving == old(isResolving)
    {
      if items.hammer > 0 {
        hammerArmed := true;
      }
    }

    /** A new game on a fresh board; a cascade in progress is not interrupted. */
    method ResetGame(supply: Refill)
      requires Valid()
      modifies this
      ensures Valid() && MatchSet(board) == {}
      ensures forall r, c :: InGrid(r, c) ==> board[r][c].value.id == supply(r, c).id && Redrawn(board[r][c].value, r, c, supply(r, c))
      ensures score == 0 && moves == MAX_MOVES && items == INITIAL_ITEMS && status == Idle
      ensures selected == None && !hammerArmed && isResolving == old(isResolving)
    {
      board := CreateBoard(supply);
      score := 0;
      moves := MAX_MOVES;
      items := INITIAL_ITEMS;
      status := Idle;
      selected := None;
      hammerArmed := false;
    }
  }
}
