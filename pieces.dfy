/** The piece registry: the five kinds, the two sides and the rank table used in combat. */
module Pieces {

  datatype Kind = Flag | Private | OneStar | TwoStar | Spy

  datatype Owner = Player | AI

  /** A piece on the board: its kind (the element's data-type) and the side it belongs to. */
  datatype Piece = Piece(kind: Kind, owner: Owner)

  /** The order in which each side's pieces are dealt out during setup. */
  const PieceTypes: seq<Kind> := [TwoStar, OneStar, Spy, Private, Flag]

  /** The rank table: flag 0 < private 1 < 1-star 2 < 2-star 3 < spy 4. */
  function Rank(k: Kind): (r: nat)
    ensures r < 5
    ensures r == 0 <==> k == Flag
    ensures r == 4 <==> k == Spy
  {
    match k
    case Flag => 0
    case Private => 1
    case OneStar => 2
    case TwoStar => 3
    case Spy => 4
  }

  /** Every kind is dealt exactly once, so each side starts with one piece of each kind. */
  lemma PieceTypesListEachKindOnce(k: Kind)
    ensures exists j :: 0 <= j < |PieceTypes| && PieceTypes[j] == k
    ensures forall i, j :: 0 <= i < j < |PieceTypes| ==> PieceTypes[i] != PieceTypes[j]
  {
    var j := match k
      case TwoStar => 0
      case OneStar => 1
      case Spy => 2
      case Private => 3
      case Flag => 4;
    assert PieceTypes[j] == k;
  }

  /** Ranks tell kinds apart: equal ranks mean the same kind. */
  lemma RankInjective(a: Kind, b: Kind)
    ensures Rank(a) == Rank(b) <==> a == b
  {
  }
}
