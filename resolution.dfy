/**
 * The cascade that follows every move: score the matches, award an item, clear
 * the matched cells, let the tiles fall, and repeat while matches remain.
 */
module Resolution {
  import opened Types
  import opened Matches
  import opened Generate
  import opened Gravity

  function AddItems(a: Items, d: Items): Items
  {
    Items(a.hammer + d.hammer, a.shuffle + d.shuffle, a.extraMoves + d.extraMoves)
  }

  predicate NonNegative(a: Items)
  {
    a.hammer >= 0 && a.shuffle >= 0 && a.extraMoves >= 0
  }

  function Total(a: Items): int
  {
    a.hammer + a.shuffle + a.extraMoves
  }

  /**
   * The item won by one cascade step that found `count` matched cells at combo
   * level `combo`: four cells win a hammer, else five or more win a reshuffle,
   * else the third combo level wins an extra-moves item.
   */
  function Award(count: int, combo: int): Items
  {
    if count == 4 then Items(1, 0, 0)
    else if count >= 5 then Items(0, 1, 0)
    else if combo == 3 then Items(0, 0, 1)
    else NO_ITEMS
  }

  /**
   * At most one item per step: a hammer exactly for four cells, a reshuffle
   * exactly for five or more, and extra moves exactly for a smaller match at
   * the third combo level.
   */
  lemma AwardRules(count: int, combo: int)
    ensures NonNegative(Award(count, combo)) && Total(Award(count, combo)) <= 1
    ensures Award(count, combo).hammer == 1 <==> count == 4
    ensures Award(count, combo).shuffle == 1 <==> count >= 5
    ensures Award(count, combo).extraMoves == 1 <==> count < 4 && combo == 3
  {
  }

  /** The board with every cell of `ms` emptied. */
  function Cleared(b: Board, ms: set<Coord>): (nb: Board)
    ensures WellShaped(nb)
  {
    seq(GRID_SIZE, r => seq(GRID_SIZE, c => if Coord(r, c) in ms then None else At(b, r, c)))
  }

  /** Clearing empties exactly the given cells and leaves every other cell as it was. */
  lemma ClearedCells(b: Board, ms: set<Coord>, r: int, c: int)
    requires WellShaped(b) && InGrid(r, c)
    ensures Cleared(b, ms)[r][c].None? <==> Coord(r, c) in ms || b[r][c].None?
    ensures Coord(r, c) !in ms ==> Cleared(b, ms)[r][c] == b[r][c]
  {
  }

  /** Empties the listed cells one after another. */
  method ClearCells(b: Board, ms: seq<Coord>) returns (nb: Board)
    requires WellShaped(b)
    requires forall i :: 0 <= i < |ms| ==> InGrid(ms[i].row, ms[i].col)
    ensures nb == Cleared(b, set p | p in ms)
  {
    nb := b;
    for i := 0 to |ms|
      invariant WellShaped(nb)
      invariant forall r, c :: InGrid(r, c) ==> nb[r][c] == if Coord(r, c) in ms[..i] then None else b[r][c]
    {
      nb := Put(nb, ms[i].row, ms[i].col, None);
      assert ms[..i + 1] == ms[..i] + [ms[i]];
    }
    assert ms[..|ms|] == ms;
    BoardsEqual(nb, Cleared(b, set p | p in ms));
  }

  /**
   * The outcome of a cascade: the final board, the points and items won, the
   * combo level reached, and whether it ended because no match was left
   * (rather than because the step budget ran out).
   */
  datatype Resolution = Resolution(board: Board, points: int, awards: Items, combo: nat, stable: bool)

  /** Points for `count` matched cells at combo level `level`. */
  function Points(count: int, level: int): (p: int)
    ensures count >= 3 && level >= 1 ==> p >= 30
  {
    assert count >= 3 && level >= 1 ==> count * 10 * level >= 3 * 10 * level >= 30;
    count * 10 * level
  }

  /** One cascade step: clear the matched cells, then let the tiles fall and refill. */
  function Step(b: Board, refill: Refill): (nb: Board)
    ensures WellShaped(nb) && Full(nb) && Positioned(nb)
  {
    Settle(Cleared(b, MatchSet(b)), refill)
  }

  /** Boards that `step` produces are full, and their tiles record their cells. */
  ghost predicate Refilling(step: (Board, Refill) -> Board)
  {
    forall b, refill :: WellShaped(step(b, refill)) && Full(step(b, refill)) && Positioned(step(b, refill))
  }

  /**
   * The cascade from `b` at combo level `combo` with `left` more steps allowed,
   * `points` and `awards` won so far, each step done by `step`. Step k (the
   * k-th matching board) scores ten points per matched cell times k and refills
   * from `refills(k)`.
   */
  function Resolve(step: (Board, Refill) -> Board, b: Board, refills: nat -> Refill, combo: nat, left: nat,
                   points: int, awards: Items): Resolution
    decreases left
  {
    if left == 0 then Resolution(b, points, awards, combo, false)
    else if MatchCount(b) == 0 then Resolution(b, points, awards, combo, true)
    else
      var count := MatchCount(b);
      Resolve(step, step(b, refills(combo + 1)), refills, combo + 1, left - 1,
        points + Points(count, combo + 1), AddItems(awards, Award(count, combo + 1)))
  }

  /** The whole cascade started on `b`, at most `fuel` steps long. */
  function Cascade(b: Board, refills: nat -> Refill, fuel: nat): Resolution
  {
    Resolve(Step, b, refills, 0, fuel, 0, NO_ITEMS)
  }

  lemma StepRefills()
    ensures Refilling(Step)
  {
  }

  /**
   * A cascade with budget left on a board with a match takes one step and goes
   * on from the board `next` that step produces, one level higher and one step
   * of budget less, with that step's points and item won.
   */
  lemma ResolveAdvance(step: (Board, Refill) -> Board, b: Board, refills: nat -> Refill, combo: nat, left: nat,
                       points: int, awards: Items, next: Board, combo': nat, left': nat, points': int, awards': Items)
    requires left > 0 && MatchCount(b) != 0
    requires combo' == combo + 1 && left' == left - 1 && next == step(b, refills(combo'))
    requires points' == points + Points(MatchCount(b), combo') && awards' == AddItems(awards, Award(MatchCount(b), combo'))
    ensures Resolve(step, b, refills, combo, left, points, awards) == Resolve(step, next, refills, combo', left', points', awards')
  {
  }

  /** A cascade out of budget, or on a board without matches, ends where it is. */
  lemma ResolveStops(step: (Board, Refill) -> Board, b: Board, refills: nat -> Refill, combo: nat, left: nat,
                     points: int, awards: Items)
    requires left == 0 || MatchCount(b) == 0
    ensures Resolve(step, b, refills, combo, left, points, awards) == Resolution(b, points, awards, combo, left > 0)
  {
  }

  /** Each step raises the combo level by one, and the budget bounds the number of steps. */
  lemma {:induction false} ResolveCombo(step: (Board, Refill) -> Board, b: Board, refills: nat -> Refill, combo: nat, left: nat,
                                        points: int, awards: Items)
    ensures combo <= Resolve(step, b, refills, combo, left, points, awards).combo <= combo + left
    decreases left
  {
    if left > 0 && MatchCount(b) != 0 {
      var count := MatchCount(b);
      ResolveCombo(step, step(b, refills(combo + 1)), refills, combo + 1, left - 1,
        points + Points(count, combo + 1), AddItems(awards, Award(count, combo + 1)));
    }
  }

  /**
   * A cascade with budget left takes no step exactly when the board has no
   * match, and then its board, points and items are the ones it started with.
   */
  lemma ResolveNoStep(step: (Board, Refill) -> Board, b: Board, refills: nat -> Refill, combo: nat, left: nat,
                      points: int, awards: Items)
    ensures var res := Resolve(step, b, refills, combo, left, points, awards);
      (left > 0 ==> (res.combo == combo <==> MatchCount(b) == 0)) &&
      (res.combo == combo ==> res.board == b && res.points == points && res.awards == awards)
  {
    if left > 0 && MatchCount(b) != 0 {
      var count := MatchCount(b);
      ResolveCombo(step, step(b, refills(combo + 1)), refills, combo + 1, left - 1,
        points + Points(count, combo + 1), AddItems(awards, Award(count, combo + 1)));
    }
  }

  /** Every step adds at least 30 points and at most one item, and no count goes negative. */
  lemma {:induction false} ResolveGains(step: (Board, Refill) -> Board, b: Board, refills: nat -> Refill, combo: nat, left: nat,
                                        points: int, awards: Items)
    requires NonNegative(awards)
    ensures var res := Resolve(step, b, refills, combo, left, points, awards);
      res.points >= points + 30 * (res.combo - combo) &&
      NonNegative(res.awards) && Total(res.awards) <= Total(awards) + (res.combo - combo)
    decreases left
  {
    if left > 0 && MatchCount(b) != 0 {
      var count := MatchCount(b);
      CountAtLeastThree(b);
      AwardRules(count, combo + 1);
      ResolveGains(step, step(b, refills(combo + 1)), refills, combo + 1, left - 1,
        points + Points(count, combo + 1), AddItems(awards, Award(count, combo + 1)));
    }
  }

  /** A cascade that took a step ends on a full board whose tiles record their cells. */
  lemma {:induction false} ResolveBoard(step: (Board, Refill) -> Board, b: Board, refills: nat -> Refill, combo: nat, left: nat,
                                        points: int, awards: Items)
    requires Refilling(step)
    ensures var res := Resolve(step, b, refills, combo, left, points, awards);
      res.combo > combo ==> WellShaped(res.board) && Full(res.board) && Positioned(res.board)
    decreases left
  {
    if left > 0 && MatchCount(b) != 0 {
      var count := MatchCount(b);
      var next := step(b, refills(combo + 1));
      var points', awards' := points + Points(count, combo + 1), AddItems(awards, Award(count, combo + 1));
      ResolveBoard(step, next, refills, combo + 1, left - 1, points', awards');
      ResolveNoStep(step, next, refills, combo + 1, left - 1, points', awards');
    }
  }

  /** A cascade stops on a board without matches, or because its step budget ran out. */
  lemma {:induction false} ResolveEnds(step: (Board, Refill) -> Board, b: Board, refills: nat -> Refill, combo: nat, left: nat,
                                       points: int, awards: Items)
    ensures var res := Resolve(step, b, refills, combo, left, points, awards);
      (res.stable <==> MatchCount(res.board) == 0 && res.combo < combo + left) &&
      (!res.stable ==> res.combo == combo + left)
    decreases left
  {
    if left > 0 && MatchCount(b) != 0 {
      var count := MatchCount(b);
      ResolveEnds(step, step(b, refills(combo + 1)), refills, combo + 1, left - 1,
        points + Points(count, combo + 1), AddItems(awards, Award(count, combo + 1)));
    }
  }

  /** The score a cascade adds is never negative, and zero exactly when nothing matched. */
  lemma CascadeScore(b: Board, refills: nat -> Refill, fuel: nat)
    ensures Cascade(b, refills, fuel).points >= 30 * Cascade(b, refills, fuel).combo >= 0
    ensures Cascade(b, refills, fuel).points == 0 <==> Cascade(b, refills, fuel).combo == 0
    ensures fuel > 0 ==> (Cascade(b, refills, fuel).combo == 0 <==> MatchSet(b) == {})
  {
    ResolveCombo(Step, b, refills, 0, fuel, 0, NO_ITEMS);
    ResolveGains(Step, b, refills, 0, fuel, 0, NO_ITEMS);
    ResolveNoStep(Step, b, refills, 0, fuel, 0, NO_ITEMS);
    MatchCountIsSize(b);
  }

  /** A cascade that did not run out of steps ends on a board with no match left. */
  lemma CascadeStable(b: Board, refills: nat -> Refill, fuel: nat)
    ensures Cascade(b, refills, fuel).stable <==> MatchSet(Cascade(b, refills, fuel).board) == {} && Cascade(b, refills, fuel).combo < fuel
    ensures Cascade(b, refills, fuel).combo <= fuel
    ensures !Cascade(b, refills, fuel).stable ==> Cascade(b, refills, fuel).combo == fuel
  {
    ResolveCombo(Step, b, refills, 0, fuel, 0, NO_ITEMS);
    ResolveEnds(Step, b, refills, 0, fuel, 0, NO_ITEMS);
    MatchCountIsSize(Cascade(b, refills, fuel).board);
  }

  /** At most one item per cascade step, and never a negative count. */
  lemma CascadeAwards(b: Board, refills: nat -> Refill, fuel: nat)
    ensures NonNegative(Cascade(b, refills, fuel).awards)
    ensures Total(Cascade(b, refills, fuel).awards) <= Cascade(b, refills, fuel).combo
  {
    ResolveGains(Step, b, refills, 0, fuel, 0, NO_ITEMS);
  }

  /** After at least one step the board is full and every tile sits where it says. */
  lemma CascadeBoard(b: Board, refills: nat -> Refill, fuel: nat)
    ensures Cascade(b, refills, fuel).combo == 0 ==> Cascade(b, refills, fuel).board == b
    ensures Cascade(b, refills, fuel).combo > 0 ==>
      WellShaped(Cascade(b, refills, fuel).board) && Full(Cascade(b, refills, fuel).board) && Positioned(Cascade(b, refills, fuel).board)
  {
    StepRefills();
    ResolveBoard(Step, b, refills, 0, fuel, 0, NO_ITEMS);
    ResolveNoStep(Step, b, refills, 0, fuel, 0, NO_ITEMS);
  }

  /** What a resolution leaves on screen: the board changes only when some step ran. */
  function Shown(before: Board, res: Resolution): Board
  {
    if res.combo == 0 then before else res.board
  }

  /** The hammer as written: the holed board is shown, then the cascade runs on its settled copy. */
  function HammerBoardAsWritten(b: Board, r: int, c: int, refill: Refill, refills: nat -> Refill, fuel: nat): (nb: Board)
    requires WellShaped(b) && InGrid(r, c)
    ensures WellShaped(nb)
  {
    var holed := Put(b, r, c, None);
    CascadeBoard(Settle(holed, refill), refills, fuel);
    Shown(holed, Cascade(Settle(holed, refill), refills, fuel))
  }

  /** The hammer as intended: the settled board is shown before the cascade runs on it. */
  function HammerBoard(b: Board, r: int, c: int, refill: Refill, refills: nat -> Refill, fuel: nat): (nb: Board)
    requires WellShaped(b) && InGrid(r, c)
    ensures WellShaped(nb) && Full(nb) && Positioned(nb)
  {
    var settled := Settle(Put(b, r, c, None), refill);
    CascadeBoard(settled, refills, fuel);
    Shown(settled, Cascade(settled, refills, fuel))
  }

  /**
   * On a board without matches (every fresh board is one), hammering a top cell
   * whose refill draws the same type starts no cascade, and the board as written
   * keeps the hole.
   */
  lemma HammerLeavesHole(b: Board, c: int, refill: Refill, refills: nat -> Refill, fuel: nat)
    requires WellShaped(b) && Full(b) && Positioned(b) && MatchSet(b) == {}
    requires 0 <= c < GRID_SIZE && TypeAt(refill(0, c).pick) == At(b, 0, c).value.kind
    ensures HammerBoardAsWritten(b, 0, c, refill, refills, fuel)[0][c] == None
    ensures !Full(HammerBoardAsWritten(b, 0, c, refill, refills, fuel))
    ensures Full(HammerBoard(b, 0, c, refill, refills, fuel))
  {
    var holed := Put(b, 0, c, None);
    var settled := Settle(holed, refill);
    HoleKeepsNoMatch(b, c, refill);
    CascadeScore(settled, refills, fuel);
    CascadeStable(settled, refills, fuel);
    assert HammerBoardAsWritten(b, 0, c, refill, refills, fuel) == holed;
    assert At(holed, 0, c).None?;
  }

  /** Refilling a top cell with a tile of the type it held leaves a match-free board match-free. */
  lemma HoleKeepsNoMatch(b: Board, c: int, refill: Refill)
    requires WellShaped(b) && Full(b) && Positioned(b) && MatchSet(b) == {}
    requires 0 <= c < GRID_SIZE && TypeAt(refill(0, c).pick) == At(b, 0, c).value.kind
    ensures MatchSet(Settle(Put(b, 0, c, None), refill)) == {}
  {
    var holed := Put(b, 0, c, None);
    var settled := Settle(holed, refill);
    forall i, j | InGrid(i, j)
      ensures KindOf(settled[i][j]) == KindOf(b[i][j])
    {
      if j == c {
        SettleHoleTop(b, c, refill, i);
      } else {
        assert forall k :: 0 <= k < GRID_SIZE ==> At(holed, k, j) == b[k][j] == At(b, k, j);
        FullColumnUnchanged(holed, refill, j);
      }
    }
    SameKindsSameMatches(settled, b);
  }

  /** A top cell emptied in a full column refills in place; the tiles below keep their cells. */
  lemma SettleHoleTop(b: Board, c: int, refill: Refill, i: int)
    requires WellShaped(b) && Full(b) && Positioned(b) && 0 <= c < GRID_SIZE && 0 <= i < GRID_SIZE
    ensures i == 0 ==> Settle(Put(b, 0, c, None), refill)[0][c] == Some(GenerateTile(0, c, refill(0, c)))
    ensures i > 0 ==> Settle(Put(b, 0, c, None), refill)[i][c] == b[i][c]
  {
    var holed := Put(b, 0, c, None);
    var col := Column(holed, c);
    var hole: seq<Cell> := [None];
    assert col == hole + col[1..];
    TilesOfConcat(hole, col[1..]);
    assert TilesOf(hole) == [] && NullCount(hole) == 1 by {
      assert hole[1..] == [];
    }
    forall k | 0 <= k < |col[1..]|
      ensures col[1..][k].Some?
    {
      assert col[1..][k] == At(b, k + 1, c);
    }
    TilesOfNoEmpty(col[1..]);
    GravityColumn(holed, refill, i, c);
    if i > 0 {
      assert col[i] == At(b, i, c) == b[i][c];
      assert TilesOf(col)[i - 1] == TilesOf(col[1..])[i - 1] == col[1..][i - 1].value == b[i][c].value;
      assert Relocate(b[i][c].value, i, c) == b[i][c].value;
    }
  }
}
