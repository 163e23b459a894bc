/**
 * The 6x6 board as a value: the 36 cells in row-major order (the order in which the cells
 * are created and listed), each empty or holding one piece. Holding at most one piece per
 * cell is built into this representation. The game's operations are specified by the
 * functions here, and the lemmas state what those operations keep.
 */
module Board {
  import opened Wrappers
  import opened Pieces
  import opened Arbitration

  const Size: nat := 6
  const CellCount: nat := 36

  type Cells = seq<Option<Piece>>

  predicate IsBoard(b: Cells)
  {
    |b| == CellCount
  }

  predicate InBounds(row: int, col: int)
  {
    0 <= row < Size && 0 <= col < Size
  }

  /** The position of cell (row, col) in the row-major list. */
  function Index(row: int, col: int): (i: nat)
    requires InBounds(row, col)
    ensures i < CellCount && RowOf(i) == row && ColOf(i) == col
  {
    Size * row + col
  }

  function RowOf(i: nat): nat
  {
    i / Size
  }

  function ColOf(i: nat): nat
  {
    i % Size
  }

  /** Every cell index is the index of its own row and column. */
  lemma IndexOfRowCol(i: nat)
    requires i < CellCount
    ensures InBounds(RowOf(i), ColOf(i)) && Index(RowOf(i), ColOf(i)) == i
  {
  }

  function Abs(x: int): nat
  {
    if x < 0 then -x else x
  }

  /** Exactly one orthogonal step: one row apart in the same column, or one column apart in the same row. */
  predicate Adjacent(row0: int, col0: int, row1: int, col1: int)
  {
    (Abs(row1 - row0) == 1 && col1 == col0) || (Abs(col1 - col0) == 1 && row1 == row0)
  }

  predicate AdjacentCells(i: nat, j: nat)
  {
    Adjacent(RowOf(i), ColOf(i), RowOf(j), ColOf(j))
  }

  /** A step direction, as a row offset and a column offset. */
  datatype Direction = Direction(dr: int, dc: int)

  /** The directions the opponent tries, in order: up, down, left, right. */
  const Directions: seq<Direction> := [Direction(-1, 0), Direction(1, 0), Direction(0, -1), Direction(0, 1)]

  /**
   * The in-bounds, empty cells one step from (row, col) in the given directions, in the order
   * the directions are listed: a cell off the board, or one holding a piece, is skipped.
   */
  function Targets(b: Cells, row: int, col: int, dirs: seq<Direction>): (r: seq<nat>)
    requires IsBoard(b)
    ensures |r| <= |dirs|
    ensures forall k :: 0 <= k < |r| ==> r[k] < CellCount && b[r[k]].None?
    decreases |dirs|
  {
    if dirs == [] then []
    else
      var prev := Targets(b, row, col, dirs[..|dirs| - 1]);
      var d := dirs[|dirs| - 1];
      if InBounds(row + d.dr, col + d.dc) && b[Index(row + d.dr, col + d.dc)].None?
      then prev + [Index(row + d.dr, col + d.dc)]
      else prev
  }

  /** The cells a piece at (row, col) may step to without combat, in the order up, down, left, right. */
  function EmptyNeighbours(b: Cells, row: int, col: int): (r: seq<nat>)
    requires IsBoard(b)
    ensures |r| <= 4
    ensures forall k :: 0 <= k < |r| ==> r[k] < CellCount
  {
    Targets(b, row, col, Directions)
  }

  /** A cell is among a direction list's targets exactly when it is in bounds, empty and one of those steps away. */
  lemma {:induction false} TargetsExact(b: Cells, row: int, col: int, dirs: seq<Direction>, j: nat)
    requires IsBoard(b)
    ensures j in Targets(b, row, col, dirs) <==>
      j < CellCount && b[j].None? &&
      exists d :: d in dirs && InBounds(row + d.dr, col + d.dc) && j == Index(row + d.dr, col + d.dc)
    decreases |dirs|
  {
    if dirs != [] {
      var init := dirs[..|dirs| - 1];
      TargetsExact(b, row, col, init, j);
      assert dirs == init + [dirs[|dirs| - 1]];
    }
  }

  /**
   * The opponent's candidate targets from an on-board cell are exactly the empty cells one
   * orthogonal step away.
   */
  lemma EmptyNeighboursExact(b: Cells, row: int, col: int, j: nat)
    requires IsBoard(b) && InBounds(row, col)
    ensures j in EmptyNeighbours(b, row, col) <==>
      j < CellCount && b[j].None? && Adjacent(row, col, RowOf(j), ColOf(j))
  {
    TargetsExact(b, row, col, Directions, j);
    if j < CellCount && b[j].None? && Adjacent(row, col, RowOf(j), ColOf(j)) {
      IndexOfRowCol(j);
      var d := Direction(RowOf(j) - row, ColOf(j) - col);
      assert d in Directions;
    }
  }

  /** Moves the piece at `from` to `to`, leaving `from` empty; no other cell changes. */
  function Relocate(b: Cells, from: nat, to: nat): (r: Cells)
    requires IsBoard(b) && from < CellCount && to < CellCount
    ensures IsBoard(r)
    ensures from != to ==> r[to] == b[from] && r[from].None?
    ensures forall k :: 0 <= k < CellCount && k != from && k != to ==> r[k] == b[k]
  {
    b[to := b[from]][from := None]
  }

  /** The board after combat between the attacker at `from` and the defender at `to`: the attacker never moves. */
  function Combat(b: Cells, from: nat, to: nat, v: Verdict): (r: Cells)
    requires IsBoard(b) && from < CellCount && to < CellCount
    ensures IsBoard(r)
    ensures from != to ==> r[from] == (if AttackerSurvives(v) then b[from] else None)
    ensures from != to ==> r[to] == (if DefenderSurvives(v) then b[to] else None)
    ensures forall k :: 0 <= k < CellCount && k != from && k != to ==> r[k] == b[k]
  {
    match v
    case Wins(_) => b
    case DefenderRemoved => b[to := None]
    case AttackerRemoved => b[from := None]
    case BothRemoved => b[from := None][to := None]
  }

  /** A row of n empty cells; the board as created, before any piece is placed, is Blank(CellCount). */
  function Blank(n: nat): (b: Cells)
    ensures |b| == n && forall i :: 0 <= i < n ==> b[i].None?
  {
    if n == 0 then [] else Blank(n - 1) + [None]
  }

  /** An empty board holds no piece. */
  lemma {:induction false} BlankCount(n: nat)
    ensures Count(Blank(n)) == 0
  {
    if n > 0 {
      BlankCount(n - 1);
      assert Blank(n)[..n - 1] == Blank(n - 1);
    }
  }

  /** How many cells hold a piece. */
  function Count(b: Cells): nat
  {
    if b == [] then 0 else Count(b[..|b| - 1]) + Weight(b[|b| - 1])
  }

  /** One for a cell holding a piece, zero for an empty one. */
  function Weight(c: Option<Piece>): nat
  {
    if c.Some? then 1 else 0
  }

  /** Overwriting one cell changes the piece count by the difference of what the cell held. */
  lemma {:induction false} CountUpdate(b: Cells, i: nat, x: Option<Piece>)
    requires i < |b|
    ensures Count(b[i := x]) + Weight(b[i]) == Count(b) + Weight(x)
    decreases |b|
  {
    var n := |b| - 1;
    if i < n {
      CountUpdate(b[..n], i, x);
      assert b[i := x][..n] == b[..n][i := x];
    } else {
      assert b[i := x][..n] == b[..n];
    }
  }

  /** A move onto an empty cell keeps the number of pieces. */
  lemma RelocateKeepsCount(b: Cells, from: nat, to: nat)
    requires IsBoard(b) && from < CellCount && to < CellCount
    requires from != to && b[from].Some? && b[to].None?
    ensures Count(Relocate(b, from, to)) == Count(b)
  {
    CountUpdate(b, to, b[from]);
    CountUpdate(b[to := b[from]], from, None);
  }

  /** How many pieces a verdict takes off the board. */
  function Removed(v: Verdict): nat
  {
    match v
    case Wins(_) => 0
    case DefenderRemoved => 1
    case AttackerRemoved => 1
    case BothRemoved => 2
  }

  /**
   * Combat between two pieces on distinct cells takes exactly the verdict's number of
   * pieces off the board and adds none; the cells it does not name are untouched, and the
   * attacker's cell and the defender's cell hold their own piece or nothing.
   */
  lemma CombatCount(b: Cells, from: nat, to: nat, v: Verdict)
    requires IsBoard(b) && from < CellCount && to < CellCount
    requires from != to && b[from].Some? && b[to].Some?
    ensures Count(Combat(b, from, to, v)) + Removed(v) == Count(b)
    ensures !v.Wins? ==> 1 <= Removed(v) <= 2
    ensures Combat(b, from, to, v)[from] == (if AttackerSurvives(v) then b[from] else None)
    ensures Combat(b, from, to, v)[to] == (if DefenderSurvives(v) then b[to] else None)
    ensures forall k :: 0 <= k < CellCount && k != from && k != to ==> Combat(b, from, to, v)[k] == b[k]
  {
    match v
    case Wins(_) =>
    case DefenderRemoved => CountUpdate(b, to, None);
    case AttackerRemoved => CountUpdate(b, from, None);
    case BothRemoved =>
      CountUpdate(b, from, None);
      CountUpdate(b[from := None], to, None);
  }

  /** The cells holding a piece of side o, in board order (the order in which they are listed on the page). */
  function CellsOf(b: Cells, o: Owner): (r: seq<nat>)
    ensures |r| <= |b|
    ensures forall k :: 0 <= k < |r| ==> r[k] < |b| && b[r[k]].Some? && b[r[k]].value.owner == o
    ensures forall i :: 0 <= i < |b| && b[i].Some? && b[i].value.owner == o ==> i in r
    decreases |b|
  {
    if b == [] then []
    else
      CellsOf(b[..|b| - 1], o) +
      (if b[|b| - 1].Some? && b[|b| - 1].value.owner == o then [|b| - 1] else [])
  }

  /** No piece (kind and owner) stands on two cells. */
  predicate Unique(b: Cells)
  {
    forall i, j :: 0 <= i < j < |b| && b[i].Some? ==> b[i] != b[j]
  }

  /** Moving a piece onto an empty cell keeps every piece unique. */
  lemma RelocateKeepsUnique(b: Cells, from: nat, to: nat)
    requires IsBoard(b) && from < CellCount && to < CellCount
    requires Unique(b) && b[to].None?
    ensures Unique(Relocate(b, from, to))
  {
    var r := Relocate(b, from, to);
    forall i, j | 0 <= i < j < |r| && r[i].Some?
      ensures r[i] != r[j]
    {
      if i == to || j == to {
        assert r[to] == b[from];
      }
    }
  }

  /** Which rows a side sets up in: rows 4 and 5 for the player, rows 0 and 1 for the AI. */
  predicate InZone(o: Owner, row: int)
  {
    if o == Player then row >= 4 else row <= 1
  }

  /** Every piece stands in its own side's setup rows. */
  predicate InSetupZones(b: Cells)
  {
    forall i :: 0 <= i < |b| && b[i].Some? ==> InZone(b[i].value.owner, RowOf(i))
  }

  /** While the pieces keep to their setup rows, rows 2 and 3 are empty. */
  lemma SetupZonesLeaveMiddleEmpty(b: Cells, i: nat)
    requires IsBoard(b) && InSetupZones(b)
    requires i < CellCount && 2 <= RowOf(i) <= 3
    ensures b[i].None?
  {
  }
}
