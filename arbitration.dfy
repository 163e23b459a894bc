/** The combat arbiter: what happens when the selected piece attacks an occupied cell. */
module Arbitration {
  import opened Pieces

  /** The outcome of one encounter. A win ends the game at once; otherwise one or both pieces leave the board. */
  datatype Verdict = Wins(winner: Owner) | DefenderRemoved | AttackerRemoved | BothRemoved

  /** Whether the attacking piece is still on the board after the verdict. */
  predicate AttackerSurvives(v: Verdict)
  {
    v.Wins? || v.DefenderRemoved?
  }

  /** Whether the defending piece is still on the board after the verdict. */
  predicate DefenderSurvives(v: Verdict)
  {
    v.Wins? || v.AttackerRemoved?
  }

  /**
   * Decides an encounter from the two kinds alone, first match wins: an attacking flag, a
   * defending flag, private against spy, spy against private, then the rank table.
   * The winner names are fixed: an attacking flag always gives Player, a defending flag AI.
   */
  function Arbitrate(attacker: Kind, defender: Kind): (v: Verdict)
    ensures v.Wins? <==> attacker == Flag || defender == Flag
    ensures v == Wins(Player) <==> attacker == Flag
    ensures v == Wins(AI) <==> attacker != Flag && defender == Flag
    ensures v.BothRemoved? <==> attacker == defender && attacker != Flag
    ensures attacker == Private && defender == Spy ==> v == DefenderRemoved
    ensures attacker == Spy && defender == Private ==> v == AttackerRemoved
  {
    if attacker == Flag then Wins(Player)
    else if defender == Flag then Wins(AI)
    else if attacker == Private && defender == Spy then DefenderRemoved
    else if attacker == Spy && defender == Private then AttackerRemoved
    else if Rank(attacker) > Rank(defender) then DefenderRemoved
    else if Rank(attacker) < Rank(defender) then AttackerRemoved
    else BothRemoved
  }

  /** Apart from the private/spy pairing, the higher rank removes the lower one, in either role. */
  lemma ArbitrateFollowsRanks(attacker: Kind, defender: Kind)
    requires attacker != Flag && defender != Flag
    requires !(attacker == Private && defender == Spy) && !(attacker == Spy && defender == Private)
    ensures Arbitrate(attacker, defender) == DefenderRemoved <==> Rank(attacker) > Rank(defender)
    ensures Arbitrate(attacker, defender) == AttackerRemoved <==> Rank(attacker) < Rank(defender)
  {
  }

  /**
   * Once no flag is involved, swapping the roles swaps the outcome: the attacker wins an
   * encounter exactly when, with the roles reversed, the same piece would win as defender.
   */
  lemma ArbitrateRoleSwap(a: Kind, b: Kind)
    requires a != Flag && b != Flag
    ensures Arbitrate(a, b) == DefenderRemoved <==> Arbitrate(b, a) == AttackerRemoved
    ensures Arbitrate(a, b) == BothRemoved <==> Arbitrate(b, a) == BothRemoved
  {
  }

  /** Every non-winning verdict removes at least one piece: combat never leaves both in place. */
  lemma ArbitrateRemovesSomething(attacker: Kind, defender: Kind)
    requires !Arbitrate(attacker, defender).Wins?
    ensures !AttackerSurvives(Arbitrate(attacker, defender)) || !DefenderSurvives(Arbitrate(attacker, defender))
  {
  }
}
