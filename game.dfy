/**
 * The game engine: the board and the game's flags as one object, and the event handlers
 * (timer tick, start button, drag and drop during setup, cell clicks, the AI's turn) as
 * methods that update them in place.
 */
module Engine {
  import opened Wrappers
  import opened Pieces
  import opened Arbitration
  import opened Chance
  import opened Board
  import opened Setup
  import opened Rules

  /** The length of the setup countdown, in timer ticks (seconds). */
  const SetupSeconds: int := 30

  class Game {
    /** The 36 cells in row-major order, each empty or holding one piece. */
    var board: array<Option<Piece>>
    var playerTurn: bool
    var isSetupPhase: bool
    /** The cell of the selected piece, if a piece is selected. */
    var selected: Option<nat>
    var timeLeft: int
    /** Whether the setup countdown is still scheduled. */
    var timerRunning: bool
    /** The declared winner; once set, the game is over and later events change nothing. */
    var winner: Option<Owner>

    /**
     * The object invariant: no piece on two cells; the selection, if any, is a player piece
     * on the board; the countdown runs exactly during setup; and during setup the game is not
     * over, it is the player's turn and every piece keeps to its side's setup rows.
     */
    ghost predicate Valid()
      reads this, board
    {
      board.Length == CellCount &&
      Unique(board[..]) &&
      (selected.Some? ==>
        selected.value < CellCount && board[selected.value].Some? && board[selected.value].value.owner == Player) &&
      timerRunning == isSetupPhase &&
      0 <= timeLeft <= SetupSeconds &&
      (isSetupPhase ==> InSetupZones(board[..]) && winner.None? && playerTurn)
    }

    /** Creates the board and deals both sides' pieces, then waits in the setup phase. */
    constructor (playerRolls: seq<Roll>, aiRolls: seq<Roll>)
      requires |playerRolls| == |PieceTypes| && ValidRolls(playerRolls)
      requires |aiRolls| == |PieceTypes| && ValidRolls(aiRolls)
      ensures Valid() && fresh(board)
      ensures board[..] == InitialBoard(playerRolls, aiRolls)
      ensures isSetupPhase && timerRunning && playerTurn && timeLeft == SetupSeconds
      ensures selected.None? && winner.None?
    {
      playerTurn, isSetupPhase, selected := true, true, None;
      timeLeft, timerRunning, winner := SetupSeconds, true, None;
      board := new Option<Piece>[CellCount](i => None);
      new;
      assert board[..] == Blank(CellCount);
      PlacePieces(Player, playerRolls);
      PlacePieces(AI, aiRolls);
      InitialLayout(playerRolls, aiRolls);
    }

    /**
     * Deals one side's five pieces: for each kind in turn, a roll picks a position in the list
     * of that side's still-available cells, and the cell there is taken out and given the piece.
     */
    method PlacePieces(o: Owner, rolls: seq<Roll>)
      requires board.Length == CellCount
      requires |rolls| == |PieceTypes| && ValidRolls(rolls)
      modifies board
      ensures board[..] == Deal(old(board[..]), Dealt(o, rolls), PieceTypes, o)
    {
      ghost var b0 := board[..];
      ghost var cells := Dealt(o, rolls);
      var available := ZoneCells(o);
      var j := 0;
      while j < |PieceTypes|
        invariant 0 <= j <= |PieceTypes|
        invariant |available| == 2 * Size - j
        invariant Allocate(available, rolls[j..]) == cells[j..]
        invariant board[..] == Deal(b0, cells[..j], PieceTypes[..j], o)
      {
        AllocateStep(available, rolls, j);
        DealStep(b0, cells, PieceTypes, o, j);
        var i := Pick(rolls[j], |available|);
        var cell := available[i];
        assert cells[j..][0] == cells[j] == cell && cells[j..][1..] == cells[j + 1..];
        available := Splice(available, i);
        ghost var before := board[..];
        board[cell] := Some(Piece(PieceTypes[j], o));
        assert board[..] == before[cell := Some(Piece(PieceTypes[j], o))];
        j := j + 1;
      }
      assert cells[..j] == cells && PieceTypes[..j] == PieceTypes;
    }

    /**
     * One tick of the setup countdown: while it runs, a tick at zero starts the game and any
     * other tick takes a second off. Once the countdown is cleared, ticks no longer arrive.
     */
    method Tick()
      requires Valid()
      modifies this
      ensures Valid() && board == old(board)
      ensures !old(timerRunning) ==> isSetupPhase == old(isSetupPhase) && timerRunning == old(timerRunning) && timeLeft == old(timeLeft)
      ensures old(timerRunning) && old(timeLeft) <= 0 ==> !isSetupPhase && !timerRunning && timeLeft == old(timeLeft)
      ensures old(timerRunning) && old(timeLeft) > 0 ==> isSetupPhase && timerRunning && timeLeft == old(timeLeft) - 1
      ensures playerTurn == old(playerTurn) && selected == old(selected) && winner == old(winner)
    {
      if timerRunning {
        if timeLeft <= 0 {
          StartGame();
        } else {
          timeLeft := timeLeft - 1;
        }
      }
    }

    /**
     * The setup countdown left to itself: the interval fires once a second until it is
     * cleared. From a full countdown of 30 this takes 31 ticks, the last one starting the game.
     */
    method RunSetupTimer() returns (ticks: nat)
      requires Valid()
      modifies this
      ensures Valid() && board == old(board)
      ensures !isSetupPhase && !timerRunning
      ensures ticks == if old(timerRunning) then old(timeLeft) + 1 else 0
      ensures timeLeft == if old(timerRunning) then 0 else old(timeLeft)
      ensures playerTurn == old(playerTurn) && selected == old(selected) && winner == old(winner)
    {
      ticks := 0;
      while timerRunning
        invariant Valid() && board == old(board)
        invariant playerTurn == old(playerTurn) && selected == old(selected) && winner == old(winner)
        invariant timerRunning ==> old(timerRunning) && timeLeft + ticks == old(timeLeft)
        invariant !timerRunning ==> ticks == if old(timerRunning) then old(timeLeft) + 1 else 0
        invariant !timerRunning ==> timeLeft == if old(timerRunning) then 0 else old(timeLeft)
        decreases timeLeft + (if timerRunning then 1 else 0)
      {
        Tick();
        ticks := ticks + 1;
      }
    }

    /** Ends the setup phase and clears the countdown; a second call changes nothing. */
    method StartGame()
      requires Valid()
      modifies this
      ensures Valid() && board == old(board)
      ensures !isSetupPhase && !timerRunning
      ensures playerTurn == old(playerTurn) && selected == old(selected) && winner == old(winner) && timeLeft == old(timeLeft)
    {
      timerRunning := false;
      isSetupPhase := false;
    }

    /** Starting to drag one of the player's pieces selects it, during setup only. */
    method DragStart(i: nat)
      requires Valid() && i < CellCount
      requires board[i].Some? && board[i].value.owner == Player
      modifies this
      ensures Valid() && board == old(board)
      ensures selected == if old(isSetupPhase) then Some(i) else old(selected)
      ensures playerTurn == old(playerTurn) && isSetupPhase == old(isSetupPhase) && winner == old(winner)
      ensures timeLeft == old(timeLeft) && timerRunning == old(timerRunning)
    {
      if isSetupPhase {
        selected := Some(i);
      }
    }

    /**
     * Dropping on cell i during setup moves the selected piece there, but only onto an empty
     * cell of rows 4-5; any other drop leaves the board as it was.
     */
    method Drop(i: nat)
      requires Valid() && i < CellCount
      modifies this, board
      ensures Valid() && board == old(board)
      ensures old(isSetupPhase) && old(selected).Some? && RowOf(i) >= 4 && old(board[i]).None? ==>
        board[..] == Relocate(old(board[..]), old(selected).value, i) && selected == Some(i)
      ensures !(old(isSetupPhase) && old(selected).Some? && RowOf(i) >= 4 && old(board[i]).None?) ==>
        board[..] == old(board[..]) && selected == old(selected)
      ensures Count(board[..]) == old(Count(board[..]))
      ensures playerTurn == old(playerTurn) && isSetupPhase == old(isSetupPhase) && winner == old(winner)
      ensures timeLeft == old(timeLeft) && timerRunning == old(timerRunning)
    {
      if RowOf(i) >= 4 && isSetupPhase && selected.Some? && board[i].None? {
        ghost var b0 := board[..];
        var from := selected.value;
        board[i] := board[from];
        board[from] := None;
        selected := Some(i);
        assert board[..] == Relocate(b0, from, i);
        RelocateKeepsCount(b0, from, i);
        RelocateKeepsUnique(b0, from, i);
      }
    }

    /**
     * A click on cell i once the game has started: on the player's turn, a cell holding a
     * player piece selects it; any other cell is the target of a move of the selected piece.
     */
    method Click(i: nat)
      requires Valid() && i < CellCount
      modifies this, board
      ensures Valid() && board == old(board)
      ensures old(isSetupPhase) || old(winner).Some? || !old(playerTurn) ==>
        board[..] == old(board[..]) && selected == old(selected) && winner == old(winner) && playerTurn == old(playerTurn)
      ensures (!old(isSetupPhase) && old(winner).None? && old(playerTurn) &&
               old(board[i]).Some? && old(board[i]).value.owner == Player) ==>
        selected == Some(i) && board[..] == old(board[..]) && winner == old(winner) && playerTurn
      ensures (!old(isSetupPhase) && old(winner).None? && old(playerTurn) &&
               !(old(board[i]).Some? && old(board[i]).value.owner == Player) && old(selected).Some?) ==>
        var r := PlayerMove(old(board[..]), old(selected).value, i);
        board[..] == r.cells && winner == r.winner && selected == r.selected && playerTurn == !r.turnPasses
      ensures old(selected).None? && !(old(board[i]).Some? && old(board[i]).value.owner == Player) ==>
        board[..] == old(board[..]) && selected == old(selected) && playerTurn == old(playerTurn) && winner == old(winner)
      ensures board[..] != old(board[..]) ==> !(old(board[i]).Some? && old(board[i]).value.owner == Player)
      ensures isSetupPhase == old(isSetupPhase) && timeLeft == old(timeLeft) && timerRunning == old(timerRunning)
    {
      if !isSetupPhase && winner.None? {
        if board[i].Some? && board[i].value.owner == Player && playerTurn {
          SelectPiece(i);
        } else if selected.Some? && playerTurn {
          MovePiece(selected.value, i);
        }
      }
    }

    /** Selects the player's piece on cell i. */
    method SelectPiece(i: nat)
      requires Valid() && i < CellCount
      requires board[i].Some? && board[i].value.owner == Player
      modifies this
      ensures Valid() && board == old(board)
      ensures selected == Some(i)
      ensures playerTurn == old(playerTurn) && isSetupPhase == old(isSetupPhase) && winner == old(winner)
      ensures timeLeft == old(timeLeft) && timerRunning == old(timerRunning)
    {
      selected := Some(i);
    }

    /**
     * Sends the selected piece from cell `from` to cell `to`, as PlayerMove describes: only one
     * orthogonal step is accepted, an occupied target goes to the arbiter, an empty one receives
     * the piece; a flag stepping into row 0 wins, and otherwise the turn passes to the AI.
     */
    method MovePiece(from: nat, to: nat)
      requires Valid() && from < CellCount && to < CellCount
      requires selected == Some(from)
      requires !(board[to].Some? && board[to].value.owner == Player)
      requires !isSetupPhase && winner.None? && playerTurn
      modifies this, board
      ensures Valid() && board == old(board)
      ensures var r := PlayerMove(old(board[..]), from, to);
        board[..] == r.cells && winner == r.winner && selected == r.selected && playerTurn == !r.turnPasses
      ensures Count(board[..]) <= old(Count(board[..]))
      ensures isSetupPhase == old(isSetupPhase) && timeLeft == old(timeLeft) && timerRunning == old(timerRunning)
    {
      ghost var b0 := board[..];
      ghost var r := PlayerMove(b0, from, to);
      PlayerMoveCount(b0, from, to);
      PlayerMoveKeepsPieces(b0, from, to);
      var piece := board[from].value;
      var oldRow: int, oldCol: int, newRow: int, newCol: int := RowOf(from), ColOf(from), RowOf(to), ColOf(to);
      if (Abs(newRow - oldRow) == 1 && newCol == oldCol) || (Abs(newCol - oldCol) == 1 && newRow == oldRow) {
        assert AdjacentCells(from, to) && from != to;
        if board[to].Some? {
          Arbiter(from, to);
        } else {
          Step(from, to);
        }
        if winner.None? {
          if piece.kind == Flag && newRow == 0 {
            DeclareWinner(Player);
          } else {
            playerTurn := false;
          }
        }
      } else {
        assert r == MoveResult(b0, None, false, Some(from));
      }
    }

    /** The selected piece on cell `from` moves onto the empty cell `to`, and stays selected. */
    method Step(from: nat, to: nat)
      requires Valid() && from < CellCount && to < CellCount && from != to
      requires selected == Some(from) && board[to].None? && !isSetupPhase
      modifies this, board
      ensures Valid() && board == old(board)
      ensures board[..] == Relocate(old(board[..]), from, to) && selected == Some(to)
      ensures playerTurn == old(playerTurn) && isSetupPhase == old(isSetupPhase) && winner == old(winner)
      ensures timeLeft == old(timeLeft) && timerRunning == old(timerRunning)
    {
      ghost var b0 := board[..];
      board[to] := board[from];
      board[from] := None;
      selected := Some(to);
      assert board[..] == Relocate(b0, from, to);
      RelocateKeepsUnique(b0, from, to);
    }

    /**
     * Combat between the selected piece at `from` and the AI piece at `to`: the arbiter's
     * verdict declares a winner or takes the losing piece or pieces off the board. The
     * attacker never moves into the defender's cell.
     */
    method Arbiter(from: nat, to: nat)
      requires Valid() && from < CellCount && to < CellCount && from != to
      requires board[from].Some? && board[to].Some? && selected == Some(from)
      requires !isSetupPhase && winner.None?
      modifies this, board
      ensures Valid() && board == old(board)
      ensures var v := Arbitrate(old(board[from]).value.kind, old(board[to]).value.kind);
        board[..] == Combat(old(board[..]), from, to, v) &&
        winner == (if v.Wins? then Some(v.winner) else None) &&
        selected == (if AttackerSurvives(v) then Some(from) else None)
      ensures playerTurn == old(playerTurn) && isSetupPhase == old(isSetupPhase)
      ensures timeLeft == old(timeLeft) && timerRunning == old(timerRunning)
    {
      ghost var b0 := board[..];
      var v := Arbitrate(board[from].value.kind, board[to].value.kind);
      match v
      case Wins(w) =>
        DeclareWinner(w);
      case DefenderRemoved =>
        board[to] := None;
      case AttackerRemoved =>
        board[from] := None;
        selected := None;
      case BothRemoved =>
        board[from] := None;
        board[to] := None;
        selected := None;
      assert board[..] == Combat(b0, from, to, v);
      CombatCount(b0, from, to, v);
    }

    /** Ends the game with the given winner; no later event changes the game. */
    method DeclareWinner(w: Owner)
      requires Valid() && !isSetupPhase
      modifies this
      ensures Valid() && board == old(board)
      ensures winner == Some(w)
      ensures playerTurn == old(playerTurn) && selected == old(selected) && isSetupPhase == old(isSetupPhase)
      ensures timeLeft == old(timeLeft) && timerRunning == old(timerRunning)
    {
      winner := Some(w);
    }

    /**
     * The cells the piece at (row, col) could step to: the in-bounds empty cells one step
     * up, down, left and right, tried in that order.
     */
    method PossibleMoves(row: int, col: int) returns (moves: seq<nat>)
      requires board.Length == CellCount
      ensures moves == EmptyNeighbours(board[..], row, col)
    {
      moves := [];
      var k := 0;
      while k < |Directions|
        invariant 0 <= k <= |Directions|
        invariant moves == Targets(board[..], row, col, Directions[..k])
      {
        var d := Directions[k];
        var newRow, newCol := row + d.dr, col + d.dc;
        if InBounds(newRow, newCol) && board[Index(newRow, newCol)].None? {
          moves := moves + [Index(newRow, newCol)];
        }
        assert Directions[..k + 1][..k] == Directions[..k];
        k := k + 1;
      }
      assert Directions[..k] == Directions;
    }

    /**
     * The AI's turn. Starting from all AI pieces in board order, a roll picks one; if it has
     * an empty neighbouring cell, a second roll picks one of those, the piece moves there and
     * the turn passes to the player; otherwise the piece is dropped from the candidates and
     * another is picked. If no AI piece can move, nothing changes and the turn stays with
     * the AI.
     */
    method AiMove(rolls: seq<Roll>)
      requires Valid() && !isSetupPhase && winner.None? && !playerTurn
      requires ValidRolls(rolls) && |rolls| > |CellsOf(board[..], AI)|
      modifies this, board
      ensures Valid() && board == old(board)
      ensures (exists i :: Mobile(old(board[..]), i)) ==> AiStep(old(board[..]), board[..]) && playerTurn
      ensures !(exists i :: Mobile(old(board[..]), i)) ==> board[..] == old(board[..]) && !playerTurn
      ensures Count(board[..]) == old(Count(board[..]))
      ensures selected == old(selected) && isSetupPhase == old(isSetupPhase) && winner == old(winner)
      ensures timeLeft == old(timeLeft) && timerRunning == old(timerRunning)
    {
      ghost var b0 := board[..];
      ghost var pieceFrom: nat, pieceTo: nat := 0, 0;
      var aiPieces: seq<nat> := CellsOf(board[..], AI);
      var moved := false;
      var used := 0;
      while !moved && |aiPieces| > 0
        invariant board == old(board) && IsBoard(b0)
        invariant selected == old(selected) && isSetupPhase == old(isSetupPhase) && winner == old(winner)
        invariant timeLeft == old(timeLeft) && timerRunning == old(timerRunning)
        invariant forall k :: 0 <= k < |aiPieces| ==> aiPieces[k] < CellCount && b0[aiPieces[k]].Some? && b0[aiPieces[k]].value.owner == AI
        invariant !moved ==> board[..] == b0 && !playerTurn && used + |aiPieces| == |CellsOf(b0, AI)|
        invariant !moved ==> forall i :: Mobile(b0, i) ==> i in aiPieces
        invariant moved ==> Mobile(b0, pieceFrom) && pieceTo in EmptyNeighbours(b0, RowOf(pieceFrom), ColOf(pieceFrom))
        invariant moved ==> board[..] == Relocate(b0, pieceFrom, pieceTo) && playerTurn
        decreases |aiPieces| + (if moved then 0 else 1)
      {
        var randomIndex := Pick(rolls[used], |aiPieces|);
        used := used + 1;
        var cell := aiPieces[randomIndex];
        var possibleMoves := PossibleMoves(RowOf(cell), ColOf(cell));
        if |possibleMoves| > 0 {
          var target := possibleMoves[Pick(rolls[used], |possibleMoves|)];
          used := used + 1;
          board[target] := board[cell];
          board[cell] := None;
          pieceFrom, pieceTo := cell, target;
          moved := true;
          playerTurn := true;
        } else {
          forall i | Mobile(b0, i) ensures i in Splice(aiPieces, randomIndex) {
            SpliceKeeps(aiPieces, randomIndex, i);
          }
          forall k | 0 <= k < |aiPieces| - 1
            ensures Splice(aiPieces, randomIndex)[k] < CellCount && b0[Splice(aiPieces, randomIndex)[k]].Some?
            ensures b0[Splice(aiPieces, randomIndex)[k]].value.owner == AI
          {
            SpliceKeeps(aiPieces, randomIndex, Splice(aiPieces, randomIndex)[k]);
          }
          aiPieces := Splice(aiPieces, randomIndex);
        }
      }
      if moved {
        AiStepKeepsPieces(b0, pieceFrom, pieceTo);
      }
    }
  }
}
