/**
 * Initial placement as a value: each side's available cells, and which of them the five
 * pieces receive when each piece takes a randomly chosen cell out of the remaining list.
 */
module Setup {
  import opened Wrappers
  import opened Pieces
  import opened Chance
  import opened Board

  /** The cells of a side's setup rows, in board order: cells 24-35 for the player, 0-11 for the AI. */
  function ZoneCells(o: Owner): (cells: seq<nat>)
    ensures |cells| == 2 * Size
    ensures forall k :: 0 <= k < |cells| ==> cells[k] < CellCount && InZone(o, RowOf(cells[k]))
  {
    if o == Player then seq(2 * Size, k => 4 * Size + k) else seq(2 * Size, k => k)
  }

  /** A side's available cells are exactly the cells in its setup rows, each listed once. */
  lemma ZoneCellsExact(o: Owner, j: nat)
    ensures Distinct(ZoneCells(o))
    ensures j in ZoneCells(o) <==> j < CellCount && InZone(o, RowOf(j))
  {
    if j < CellCount && InZone(o, RowOf(j)) {
      var k := if o == Player then j - 4 * Size else j;
      assert ZoneCells(o)[k] == j;
    }
  }

  predicate Distinct(s: seq<nat>)
  {
    forall i, j :: 0 <= i < j < |s| ==> s[i] != s[j]
  }

  /** The list with its element at position i taken out (`splice(i, 1)`). */
  function Splice(s: seq<nat>, i: nat): (r: seq<nat>)
    requires i < |s|
    ensures |r| == |s| - 1
  {
    s[..i] + s[i + 1..]
  }

  /** Taking an element out of a list keeps every other element and adds none. */
  lemma SpliceKeeps(s: seq<nat>, i: nat, x: nat)
    requires i < |s|
    ensures x in Splice(s, i) ==> x in s
    ensures x in s && x != s[i] ==> x in Splice(s, i)
  {
    var r := Splice(s, i);
    if x in s && x != s[i] {
      var k :| 0 <= k < |s| && s[k] == x;
      if k < i { assert r[k] == x; } else { assert r[k - 1] == x; }
    }
  }

  /** Taking an element out of a list of distinct cells leaves distinct cells, without the one taken. */
  lemma SpliceDistinct(s: seq<nat>, i: nat)
    requires i < |s| && Distinct(s)
    ensures Distinct(Splice(s, i)) && s[i] !in Splice(s, i)
  {
    var r := Splice(s, i);
    forall a, c | 0 <= a < c < |r| ensures r[a] != r[c] {
      var a' := if a < i then a else a + 1;
      var c' := if c < i then c else c + 1;
      assert r[a] == s[a'] && r[c] == s[c'];
    }
  }

  /**
   * The cells the pieces receive, in dealing order: each roll picks a position in the list of
   * still-available cells, and the cell at that position is taken out of the list.
   */
  function Allocate(available: seq<nat>, rolls: seq<Roll>): (r: seq<nat>)
    requires ValidRolls(rolls) && |rolls| <= |available|
    ensures |r| == |rolls|
    decreases |rolls|
  {
    if rolls == [] then []
    else
      var i := Pick(rolls[0], |available|);
      [available[i]] + Allocate(Splice(available, i), rolls[1..])
  }

  /**
   * Dealing never reuses a cell: each piece gets its own cell, drawn from the available ones.
   */
  lemma {:induction false} AllocateDistinct(available: seq<nat>, rolls: seq<Roll>)
    requires ValidRolls(rolls) && |rolls| <= |available| && Distinct(available)
    ensures |Allocate(available, rolls)| == |rolls|
    ensures Distinct(Allocate(available, rolls))
    ensures forall k :: 0 <= k < |rolls| ==> Allocate(available, rolls)[k] in available
    decreases |rolls|
  {
    if rolls != [] {
      var i := Pick(rolls[0], |available|);
      var rest := Splice(available, i);
      assert ValidRolls(rolls[1..]);
      SpliceDistinct(available, i);
      AllocateDistinct(rest, rolls[1..]);
      var tail := Allocate(rest, rolls[1..]);
      var all := Allocate(available, rolls);
      assert all == [available[i]] + tail;
      forall k | 0 <= k < |tail| ensures tail[k] in available && tail[k] != available[i] {
        SpliceKeeps(available, i, tail[k]);
      }
    }
  }

  /** One dealing step: the first roll picks a cell, and the rest are dealt from the list without it. */
  lemma AllocateStep(available: seq<nat>, rolls: seq<Roll>, j: nat)
    requires ValidRolls(rolls) && j < |rolls| && |rolls| - j <= |available|
    ensures ValidRolls(rolls[j..]) && ValidRolls(rolls[j + 1..])
    ensures Allocate(available, rolls[j..]) ==
      [available[Pick(rolls[j], |available|)]] + Allocate(Splice(available, Pick(rolls[j], |available|)), rolls[j + 1..])
  {
    assert rolls[j..][0] == rolls[j] && rolls[j..][1..] == rolls[j + 1..];
  }

  predicate OnBoard(cells: seq<nat>)
  {
    forall k :: 0 <= k < |cells| ==> cells[k] < CellCount
  }

  /** The board after one side's pieces are put down: the k-th cell gets a piece of the k-th kind. */
  function Deal(b: Cells, cells: seq<nat>, kinds: seq<Kind>, o: Owner): (r: Cells)
    requires IsBoard(b) && |cells| == |kinds| && OnBoard(cells)
    ensures IsBoard(r)
    decreases |cells|
  {
    if cells == [] then b
    else Deal(b, cells[..|cells| - 1], kinds[..|cells| - 1], o)[cells[|cells| - 1] := Some(Piece(kinds[|cells| - 1], o))]
  }

  /** Dealing one more cell extends the board dealt so far by that cell's piece. */
  lemma DealStep(b: Cells, cells: seq<nat>, kinds: seq<Kind>, o: Owner, j: nat)
    requires IsBoard(b) && |cells| == |kinds| && OnBoard(cells) && j < |cells|
    ensures OnBoard(cells[..j]) && OnBoard(cells[..j + 1])
    ensures Deal(b, cells[..j + 1], kinds[..j + 1], o) == Deal(b, cells[..j], kinds[..j], o)[cells[j] := Some(Piece(kinds[j], o))]
  {
    assert cells[..j + 1][..j] == cells[..j] && kinds[..j + 1][..j] == kinds[..j];
  }

  /** What each cell holds after dealing onto distinct cells: its dealt piece, or what it held before. */
  lemma {:induction false} DealAt(b: Cells, cells: seq<nat>, kinds: seq<Kind>, o: Owner, i: nat)
    requires IsBoard(b) && |cells| == |kinds| && OnBoard(cells) && Distinct(cells) && i < CellCount
    ensures forall k :: 0 <= k < |cells| && cells[k] == i ==> Deal(b, cells, kinds, o)[i] == Some(Piece(kinds[k], o))
    ensures i !in cells ==> Deal(b, cells, kinds, o)[i] == b[i]
    decreases |cells|
  {
    if cells != [] {
      var n := |cells| - 1;
      DealAt(b, cells[..n], kinds[..n], o, i);
      if i !in cells {
        assert i !in cells[..n];
      }
    }
  }

  /** Dealing onto distinct empty cells adds exactly one piece per cell. */
  lemma {:induction false} DealCount(b: Cells, cells: seq<nat>, kinds: seq<Kind>, o: Owner)
    requires IsBoard(b) && |cells| == |kinds| && OnBoard(cells) && Distinct(cells)
    requires forall k :: 0 <= k < |cells| ==> b[cells[k]].None?
    ensures Count(Deal(b, cells, kinds, o)) == Count(b) + |cells|
    decreases |cells|
  {
    if cells != [] {
      var n := |cells| - 1;
      DealCount(b, cells[..n], kinds[..n], o);
      var before := Deal(b, cells[..n], kinds[..n], o);
      DealAt(b, cells[..n], kinds[..n], o, cells[n]);
      assert cells[n] !in cells[..n];
      CountUpdate(before, cells[n], Some(Piece(kinds[n], o)));
    }
  }

  /** The cells each side's pieces receive. */
  function Dealt(o: Owner, rolls: seq<Roll>): (cells: seq<nat>)
    requires |rolls| == |PieceTypes| && ValidRolls(rolls)
    ensures |cells| == |PieceTypes| && OnBoard(cells) && Distinct(cells)
    ensures forall k :: 0 <= k < |cells| ==> InZone(o, RowOf(cells[k]))
  {
    AllocateInZone(o, rolls);
    Allocate(ZoneCells(o), rolls)
  }

  /** The cells dealt to a side are distinct cells of its setup rows. */
  lemma AllocateInZone(o: Owner, rolls: seq<Roll>)
    requires |rolls| == |PieceTypes| && ValidRolls(rolls)
    ensures |Allocate(ZoneCells(o), rolls)| == |PieceTypes| && Distinct(Allocate(ZoneCells(o), rolls))
    ensures forall k :: 0 <= k < |PieceTypes| ==>
      Allocate(ZoneCells(o), rolls)[k] < CellCount && InZone(o, RowOf(Allocate(ZoneCells(o), rolls)[k]))
  {
    ZoneCellsExact(o, 0);
    AllocateDistinct(ZoneCells(o), rolls);
    var cells := Allocate(ZoneCells(o), rolls);
    forall k | 0 <= k < |cells| ensures cells[k] < CellCount && InZone(o, RowOf(cells[k])) {
      ZoneCellsExact(o, cells[k]);
    }
  }

  /** The board once both sides are dealt: the player's pieces first, then the AI's. */
  function InitialBoard(playerRolls: seq<Roll>, aiRolls: seq<Roll>): (b: Cells)
    requires |playerRolls| == |PieceTypes| && ValidRolls(playerRolls)
    requires |aiRolls| == |PieceTypes| && ValidRolls(aiRolls)
    ensures IsBoard(b)
  {
    Deal(Deal(Blank(CellCount), Dealt(Player, playerRolls), PieceTypes, Player), Dealt(AI, aiRolls), PieceTypes, AI)
  }

  /** Where every piece of the initial board stands: on its side's dealt cell, and nowhere else. */
  lemma InitialAt(playerRolls: seq<Roll>, aiRolls: seq<Roll>, i: nat)
    requires |playerRolls| == |PieceTypes| && ValidRolls(playerRolls)
    requires |aiRolls| == |PieceTypes| && ValidRolls(aiRolls)
    requires i < CellCount
    ensures forall k :: 0 <= k < |PieceTypes| && Dealt(Player, playerRolls)[k] == i ==>
      InitialBoard(playerRolls, aiRolls)[i] == Some(Piece(PieceTypes[k], Player))
    ensures forall k :: 0 <= k < |PieceTypes| && Dealt(AI, aiRolls)[k] == i ==>
      InitialBoard(playerRolls, aiRolls)[i] == Some(Piece(PieceTypes[k], AI))
    ensures i !in Dealt(Player, playerRolls) && i !in Dealt(AI, aiRolls) ==> InitialBoard(playerRolls, aiRolls)[i].None?
  {
    var p, a := Dealt(Player, playerRolls), Dealt(AI, aiRolls);
    var afterPlayer := Deal(Blank(CellCount), p, PieceTypes, Player);
    DealAt(Blank(CellCount), p, PieceTypes, Player, i);
    DealAt(afterPlayer, a, PieceTypes, AI, i);
    if i in p {
      var k :| 0 <= k < |p| && p[k] == i;
      assert InZone(Player, RowOf(i));
      assert i !in a;
    }
  }

  /** Two different cells of the initial board never hold the same piece. */
  lemma InitialPairDistinct(playerRolls: seq<Roll>, aiRolls: seq<Roll>, i: nat, j: nat)
    requires |playerRolls| == |PieceTypes| && ValidRolls(playerRolls)
    requires |aiRolls| == |PieceTypes| && ValidRolls(aiRolls)
    requires i < j < CellCount && InitialBoard(playerRolls, aiRolls)[i].Some?
    ensures InitialBoard(playerRolls, aiRolls)[i] != InitialBoard(playerRolls, aiRolls)[j]
  {
    InitialAt(playerRolls, aiRolls, i);
    InitialAt(playerRolls, aiRolls, j);
    PieceTypesListEachKindOnce(Flag);
  }

  /** On the initial board every piece stands in its own side's setup rows, and no piece stands on two cells. */
  lemma InitialPlacement(playerRolls: seq<Roll>, aiRolls: seq<Roll>)
    requires |playerRolls| == |PieceTypes| && ValidRolls(playerRolls)
    requires |aiRolls| == |PieceTypes| && ValidRolls(aiRolls)
    ensures InSetupZones(InitialBoard(playerRolls, aiRolls))
    ensures Unique(InitialBoard(playerRolls, aiRolls))
  {
    var b := InitialBoard(playerRolls, aiRolls);
    forall i | 0 <= i < CellCount && b[i].Some? ensures InZone(b[i].value.owner, RowOf(i)) {
      InitialAt(playerRolls, aiRolls, i);
    }
    forall i, j | 0 <= i < j < CellCount && b[i].Some? ensures b[i] != b[j] {
      InitialPairDistinct(playerRolls, aiRolls, i, j);
    }
  }

  /** On the initial board every piece of every kind and side stands somewhere, ten pieces in all. */
  lemma InitialPieces(playerRolls: seq<Roll>, aiRolls: seq<Roll>)
    requires |playerRolls| == |PieceTypes| && ValidRolls(playerRolls)
    requires |aiRolls| == |PieceTypes| && ValidRolls(aiRolls)
    ensures forall p: Piece :: exists i :: 0 <= i < CellCount && InitialBoard(playerRolls, aiRolls)[i] == Some(p)
    ensures Count(InitialBoard(playerRolls, aiRolls)) == 2 * |PieceTypes|
  {
    var b := InitialBoard(playerRolls, aiRolls);
    var p, a := Dealt(Player, playerRolls), Dealt(AI, aiRolls);
    forall piece: Piece ensures exists i :: 0 <= i < CellCount && b[i] == Some(piece) {
      PieceTypesListEachKindOnce(piece.kind);
      var k :| 0 <= k < |PieceTypes| && PieceTypes[k] == piece.kind;
      var i := if piece.owner == Player then p[k] else a[k];
      InitialAt(playerRolls, aiRolls, i);
      assert b[i] == Some(piece);
    }
    var afterPlayer := Deal(Blank(CellCount), p, PieceTypes, Player);
    BlankCount(CellCount);
    DealCount(Blank(CellCount), p, PieceTypes, Player);
    forall k | 0 <= k < |a| ensures afterPlayer[a[k]].None? {
      DealAt(Blank(CellCount), p, PieceTypes, Player, a[k]);
    }
    DealCount(afterPlayer, a, PieceTypes, AI);
  }

  /**
   * After setup each side has exactly one piece of each of the five kinds, ten pieces on ten
   * distinct cells: the player's in rows 4-5, the AI's in rows 0-1, and rows 2-3 empty.
   */
  lemma InitialLayout(playerRolls: seq<Roll>, aiRolls: seq<Roll>)
    requires |playerRolls| == |PieceTypes| && ValidRolls(playerRolls)
    requires |aiRolls| == |PieceTypes| && ValidRolls(aiRolls)
    ensures InSetupZones(InitialBoard(playerRolls, aiRolls))
    ensures Unique(InitialBoard(playerRolls, aiRolls))
    ensures forall p: Piece :: exists i :: 0 <= i < CellCount && InitialBoard(playerRolls, aiRolls)[i] == Some(p)
    ensures Count(InitialBoard(playerRolls, aiRolls)) == 2 * |PieceTypes|
    ensures forall i :: 2 * Size <= i < 4 * Size ==> InitialBoard(playerRolls, aiRolls)[i].None?
  {
    InitialPlacement(playerRolls, aiRolls);
    InitialPieces(playerRolls, aiRolls);
  }
}
