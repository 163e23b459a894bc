/**
 * The effect of one move, as a value: the player's move (a step, a combat or a rejected
 * click) and the AI's step. The game's methods perform these effects in place.
 */
module Rules {
  import opened Wrappers
  import opened Pieces
  import opened Arbitration
  import opened Board

  /**
   * What a player move leaves behind: the board, the winner if the game ended, whether the
   * turn passed to the AI, and the cell of the selected piece (None once it left the board).
   */
  datatype MoveResult = MoveResult(cells: Cells, winner: Option<Owner>, turnPasses: bool, selected: Option<nat>)

  /**
   * The selected piece at `from` is sent to cell `to`. Anything but one orthogonal step is
   * ignored. An occupied target is fought over and the attacker stays where it is; an empty
   * one receives the piece. A flag that steps into row 0 wins for the player. Otherwise,
   * unless combat ended the game, the turn passes to the AI.
   */
  function PlayerMove(b: Cells, from: nat, to: nat): (r: MoveResult)
    requires IsBoard(b) && from < CellCount && to < CellCount && b[from].Some?
    ensures IsBoard(r.cells)
    ensures !AdjacentCells(from, to) ==> r.cells == b && r.winner.None? && !r.turnPasses
    ensures r.turnPasses <==> AdjacentCells(from, to) && r.winner.None?
    ensures r.winner == Some(Player) ==> b[from].value.kind == Flag
    ensures r.winner == Some(AI) ==> b[to].Some? && b[to].value.kind == Flag
  {
    if !AdjacentCells(from, to) then MoveResult(b, None, false, Some(from))
    else if b[to].Some? then
      var v := Arbitrate(b[from].value.kind, b[to].value.kind);
      if v.Wins? then MoveResult(b, Some(v.winner), false, Some(from))
      else MoveResult(Combat(b, from, to, v), None, true, if AttackerSurvives(v) then Some(from) else None)
    else if b[from].value.kind == Flag && RowOf(to) == 0 then MoveResult(Relocate(b, from, to), Some(Player), false, Some(to))
    else MoveResult(Relocate(b, from, to), None, true, Some(to))
  }

  /** A target that is not exactly one orthogonal step away changes nothing, and the turn stays with the player. */
  lemma RejectedMoveChangesNothing(b: Cells, from: nat, to: nat)
    requires IsBoard(b) && from < CellCount && to < CellCount && b[from].Some?
    requires !AdjacentCells(from, to)
    ensures PlayerMove(b, from, to) == MoveResult(b, None, false, Some(from))
  {
  }

  /**
   * A step onto an empty cell moves the piece there and empties its old cell, and nothing
   * else changes; the turn passes unless a flag entered row 0, which wins for the player.
   */
  lemma StepOntoEmptyCell(b: Cells, from: nat, to: nat)
    requires IsBoard(b) && from < CellCount && to < CellCount && b[from].Some?
    requires AdjacentCells(from, to) && b[to].None?
    ensures PlayerMove(b, from, to).cells[to] == b[from] && PlayerMove(b, from, to).cells[from].None?
    ensures forall k :: 0 <= k < CellCount && k != from && k != to ==> PlayerMove(b, from, to).cells[k] == b[k]
    ensures PlayerMove(b, from, to).selected == Some(to)
    ensures PlayerMove(b, from, to).winner == (if b[from].value.kind == Flag && RowOf(to) == 0 then Some(Player) else None)
    ensures PlayerMove(b, from, to).turnPasses <==> PlayerMove(b, from, to).winner.None?
  {
    assert from != to;
  }

  /**
   * A move never adds a piece: a step keeps the count, a combat that does not end the game
   * takes one or two pieces off, and one that ends it takes none.
   */
  lemma PlayerMoveCount(b: Cells, from: nat, to: nat)
    requires IsBoard(b) && from < CellCount && to < CellCount && b[from].Some?
    ensures Count(PlayerMove(b, from, to).cells) <= Count(b)
    ensures AdjacentCells(from, to) && b[to].None? ==> Count(PlayerMove(b, from, to).cells) == Count(b)
    ensures AdjacentCells(from, to) && b[to].Some? && PlayerMove(b, from, to).winner.None? ==>
      Count(b) - 2 <= Count(PlayerMove(b, from, to).cells) <= Count(b) - 1
  {
    if AdjacentCells(from, to) {
      assert from != to;
      if b[to].Some? {
        CombatCount(b, from, to, Arbitrate(b[from].value.kind, b[to].value.kind));
      } else {
        RelocateKeepsCount(b, from, to);
      }
    }
  }

  /**
   * The attacker never enters the defender's cell: after combat the target holds its old
   * piece or nothing, and the attacker's cell holds the attacker or nothing.
   */
  lemma CombatNeverAdvances(b: Cells, from: nat, to: nat)
    requires IsBoard(b) && from < CellCount && to < CellCount && b[from].Some?
    requires AdjacentCells(from, to) && b[to].Some?
    ensures PlayerMove(b, from, to).cells[to] in {b[to], None}
    ensures PlayerMove(b, from, to).cells[from] in {b[from], None}
    ensures PlayerMove(b, from, to).winner.Some? ==> PlayerMove(b, from, to).cells == b
  {
    assert from != to;
    CombatCount(b, from, to, Arbitrate(b[from].value.kind, b[to].value.kind));
  }

  /**
   * A move keeps every piece unique, and the selection afterwards is the moved piece itself,
   * still on the board, or nothing.
   */
  lemma PlayerMoveKeepsPieces(b: Cells, from: nat, to: nat)
    requires IsBoard(b) && from < CellCount && to < CellCount && b[from].Some?
    requires Unique(b)
    ensures Unique(PlayerMove(b, from, to).cells)
    ensures PlayerMove(b, from, to).selected.Some? ==>
      PlayerMove(b, from, to).selected.value < CellCount &&
      PlayerMove(b, from, to).cells[PlayerMove(b, from, to).selected.value] == b[from]
  {
    if AdjacentCells(from, to) {
      assert from != to;
      if b[to].None? {
        RelocateKeepsUnique(b, from, to);
      } else {
        var r := PlayerMove(b, from, to).cells;
        CombatCount(b, from, to, Arbitrate(b[from].value.kind, b[to].value.kind));
        forall i, j | 0 <= i < j < |r| && r[i].Some? ensures r[i] != r[j] {
          assert r[i] == b[i];
        }
      }
    }
  }

  /** An AI piece that has at least one empty cell one step away. */
  predicate Mobile(b: Cells, i: nat)
    requires IsBoard(b)
  {
    i < CellCount && b[i].Some? && b[i].value.owner == AI && EmptyNeighbours(b, RowOf(i), ColOf(i)) != []
  }

  /** `after` is `b` with one mobile AI piece moved to one of its empty neighbouring cells. */
  ghost predicate AiStep(b: Cells, after: Cells)
    requires IsBoard(b)
    ensures AiStep(b, after) ==> Count(after) == Count(b) && (Unique(b) ==> Unique(after))
  {
    if exists from: nat, to: nat ::
      (Mobile(b, from) && to in EmptyNeighbours(b, RowOf(from), ColOf(from)) && after == Relocate(b, from, to))
    then
      var from: nat, to: nat :| Mobile(b, from) && to in EmptyNeighbours(b, RowOf(from), ColOf(from)) &&
        after == Relocate(b, from, to);
      AiStepKeepsPieces(b, from, to);
      true
    else false
  }

  /**
   * An AI step moves one AI piece exactly one orthogonal step onto an empty cell: the piece
   * count and uniqueness are kept, and every player piece stays where it was.
   */
  lemma AiStepKeepsPieces(b: Cells, from: nat, to: nat)
    requires IsBoard(b) && Mobile(b, from) && to in EmptyNeighbours(b, RowOf(from), ColOf(from))
    ensures to < CellCount && b[to].None? && AdjacentCells(from, to)
    ensures Count(Relocate(b, from, to)) == Count(b)
    ensures Unique(b) ==> Unique(Relocate(b, from, to))
    ensures forall k :: 0 <= k < CellCount && b[k].Some? && b[k].value.owner == Player ==> Relocate(b, from, to)[k] == b[k]
  {
    EmptyNeighboursExact(b, RowOf(from), ColOf(from), to);
    assert from != to;
    RelocateKeepsCount(b, from, to);
    if Unique(b) {
      RelocateKeepsUnique(b, from, to);
    }
  }

  /**
   * A player private one row below an AI spy attacks it: the spy is taken off, the private
   * stays on its own cell and remains selected, and the turn passes to the AI.
   */
  lemma PrivateAttacksSpy(b: Cells)
    requires IsBoard(b)
    requires b[Index(4, 2)] == Some(Piece(Private, Player)) && b[Index(3, 2)] == Some(Piece(Spy, AI))
    ensures PlayerMove(b, Index(4, 2), Index(3, 2)) ==
      MoveResult(b[Index(3, 2) := None], None, true, Some(Index(4, 2)))
  {
  }

  /** A player flag stepping from (1, 0) onto an empty (0, 0) wins the game for the player. */
  lemma FlagReachesRowZero(b: Cells)
    requires IsBoard(b)
    requires b[Index(1, 0)] == Some(Piece(Flag, Player)) && b[Index(0, 0)].None?
    ensures PlayerMove(b, Index(1, 0), Index(0, 0)).winner == Some(Player)
    ensures !PlayerMove(b, Index(1, 0), Index(0, 0)).turnPasses
  {
  }

  /** A player piece that captures the AI's flag ends the game, and the declared winner is AI. */
  lemma CapturingTheFlagDeclaresAI(b: Cells, from: nat, to: nat)
    requires IsBoard(b) && from < CellCount && to < CellCount && AdjacentCells(from, to)
    requires b[from].Some? && b[from].value.kind != Flag && b[to] == Some(Piece(Flag, AI))
    ensures PlayerMove(b, from, to).winner == Some(AI)
    ensures PlayerMove(b, from, to).cells == b
  {
  }
}
