/**
 * Pick labels and overall numbers (src/utils/picks.ts): the dash key
 * `season-round-pick`, the overall pick number within a season, and the
 * canonical pick label `"<season> <round>.<pick>"` with a two-digit pick.
 */
module Picks {
  import opened Strings
  import opened Numbers

  /** The league size the calculator is built for. */
  const TEAMS: int := 32

  /** `pickKey`: season, round and pick joined by dashes. */
  function PickKey(season: string, round: int, pick: int): string {
    season + "-" + IntToString(round) + "-" + IntToString(pick)
  }

  /** `overallFrom`: the overall pick number; NaN in, NaN out. */
  function OverallFrom(round: Num, pick: Num, teams: int := TEAMS): Num {
    if round.Finite? && pick.Finite? then Finite((round.value - 1) * teams + pick.value) else NaN
  }

  /** `buildPickName`: `"<season> <round>.<pick padded to two characters>"`. */
  function BuildPickName(season: string, round: Num, pick: Num): string {
    season + " " + NumToString(round) + "." + Pad2Num(pick)
  }

  // ------------------------------------------------------------ properties

  /** The pick is left-padded with one zero below 10 and kept as it is from 10 on. */
  lemma BuildPickNamePadding(season: string, round: int, pick: int)
    ensures 0 <= pick < 10 ==>
      BuildPickName(season, Finite(round), Finite(pick)) == season + " " + IntToString(round) + ".0" + NatToString(pick)
    ensures pick >= 10 ==>
      BuildPickName(season, Finite(round), Finite(pick)) == season + " " + IntToString(round) + "." + NatToString(pick)
  {
  }

  /** A dash key splits back into its season, round and pick for non-negative numbers. */
  lemma PickKeySplits(season: string, round: nat, pick: nat)
    requires '-' !in season
    ensures Split(PickKey(season, round, pick), '-') == [season, NatToString(round), NatToString(pick)]
  {
    var r, p := NatToString(round), NatToString(pick);
    assert '-' !in r && '-' !in p by {
      assert forall i :: 0 <= i < |r| ==> IsDigit(r[i]);
      assert forall i :: 0 <= i < |p| ==> IsDigit(p[i]);
    }
    assert PickKey(season, round, pick) == season + ['-'] + (r + ['-'] + p);
    SplitCons(season, '-', r + ['-'] + p);
    SplitCons(r, '-', p);
    SplitNone(p, '-');
  }

  /** Within 1..teams the pick, and hence the (round, pick) pair, is recovered from the overall number. */
  lemma OverallFromInjective(r1: int, p1: int, r2: int, p2: int, teams: int)
    requires 1 <= p1 <= teams && 1 <= p2 <= teams
    requires OverallFrom(Finite(r1), Finite(p1), teams) == OverallFrom(Finite(r2), Finite(p2), teams)
    ensures r1 == r2 && p1 == p2
  {
    var d := r1 - r2;
    SubtractRows(r1, r2, teams);
    assert d * teams == p2 - p1;
    if d >= 1 {
      AtLeastOneRow(d, teams);
    } else if d <= -1 {
      AtLeastOneRow(-d, teams);
    }
  }

  lemma SubtractRows(r1: int, r2: int, teams: int)
    ensures (r1 - 1) * teams - (r2 - 1) * teams == (r1 - r2) * teams
  {
  }

  lemma AtLeastOneRow(d: int, teams: int)
    requires d >= 1 && teams >= 1
    ensures d * teams >= teams
  {
  }

  /** Rounds 1.. and picks 1..teams number the picks consecutively from 1. */
  lemma OverallFromRange(round: int, pick: int, teams: int)
    requires round >= 1 && 1 <= pick <= teams
    ensures var o := OverallFrom(Finite(round), Finite(pick), teams).value;
      (round - 1) * teams < o <= round * teams
  {
  }
}
