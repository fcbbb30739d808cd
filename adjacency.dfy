/** The neighbour test that decides whether two clicked cells may trade tiles. */
module Adjacency {
  import opened Types

  function Abs(x: int): (a: int)
    ensures a >= 0 && (a == x || a == -x)
  {
    if x < 0 then -x else x
  }

  /** Two cells are adjacent when their Manhattan distance is one. */
  function IsAdjacent(r1: int, c1: int, r2: int, c2: int): (adj: bool)
    ensures adj <==> (r1 == r2 && (c1 == c2 + 1 || c2 == c1 + 1)) || (c1 == c2 && (r1 == r2 + 1 || r2 == r1 + 1))
  {
    Abs(r1 - r2) + Abs(c1 - c2) == 1
  }

  lemma AdjacentSymmetric(r1: int, c1: int, r2: int, c2: int)
    ensures IsAdjacent(r1, c1, r2, c2) == IsAdjacent(r2, c2, r1, c1)
  {
  }

  /** A cell is not its own neighbour, and neither are its four diagonal neighbours. */
  lemma NotSelfNorDiagonal(r: int, c: int, dr: int, dc: int)
    requires (dr == 1 || dr == -1) && (dc == 1 || dc == -1)
    ensures !IsAdjacent(r, c, r, c)
    ensures !IsAdjacent(r, c, r + dr, c + dc)
  {
  }

  /** A cell has exactly the four orthogonal neighbours. */
  lemma FourNeighbours(r: int, c: int, r2: int, c2: int)
    ensures IsAdjacent(r, c, r2, c2) <==> Coord(r2, c2) in {Coord(r - 1, c), Coord(r + 1, c), Coord(r, c - 1), Coord(r, c + 1)}
  {
  }
}
