/**
 * Side totals of the grades panel (src/components/Grades.tsx, `computeTotal`):
 * player values plus pick values, optionally with the drop adjustment.
 */
module Grades {
  import opened Wrappers
  import opened DropAdjustment

  /** A player row as far as the total is concerned: its `value_final_1000`, if any. */
  datatype GradePlayer = GradePlayer(valueFinal1000: Option<real>)

  /** A pick row as far as the total is concerned: its `value`, if any. */
  datatype GradePick = GradePick(value: Option<real>)

  /** `players.reduce((sum, p) => sum + (p.value_final_1000 ?? 0), 0)`. */
  function PlayerSum(players: seq<GradePlayer>): real {
    if players == [] then 0.0
    else PlayerSum(players[..|players| - 1]) + players[|players| - 1].valueFinal1000.GetOr(0.0)
  }

  /** `picks.reduce((sum, pk) => sum + (pk.value ?? 0), 0)`. */
  function PickSum(picks: seq<GradePick>): real {
    if picks == [] then 0.0
    else PickSum(picks[..|picks| - 1]) + picks[|picks| - 1].value.GetOr(0.0)
  }

  /**
   * `computeTotal(players, picks, dropAdjustment)`: the plain sum, cut to 95%
   * only when the adjustment is on and the side holds more than two pieces.
   * With non-negative values the total lies between 0 and the plain sum.
   */
  function ComputeTotal(players: Option<seq<GradePlayer>>, picks: Option<seq<GradePick>>, dropAdjustment: bool): (total: real)
    ensures var sum := PlayerSum(players.GetOr([])) + PickSum(picks.GetOr([]));
      var pieces := |players.GetOr([])| + |picks.GetOr([])|;
      (!dropAdjustment || pieces <= 2 ==> total == sum) &&
      (dropAdjustment && pieces > 2 ==> total == sum * 19.0 / 20.0)
    ensures NonNegativePlayers(players.GetOr([])) && NonNegativePicks(picks.GetOr([])) ==>
      0.0 <= total <= PlayerSum(players.GetOr([])) + PickSum(picks.GetOr([]))
  {
    var sum := PlayerSum(players.GetOr([])) + PickSum(picks.GetOr([]));
    SumNonNegative(players.GetOr([]), picks.GetOr([]));
    if dropAdjustment then ApplyDropAdjustment(sum, players, picks) else sum
  }

  predicate NonNegativePlayers(players: seq<GradePlayer>) {
    forall i :: 0 <= i < |players| ==> players[i].valueFinal1000.GetOr(0.0) >= 0.0
  }

  predicate NonNegativePicks(picks: seq<GradePick>) {
    forall i :: 0 <= i < |picks| ==> picks[i].value.GetOr(0.0) >= 0.0
  }

  /** The player sum adds up over a split of the list (order of reduction is immaterial). */
  lemma {:induction false} PlayerSumAppend(a: seq<GradePlayer>, b: seq<GradePlayer>)
    ensures PlayerSum(a + b) == PlayerSum(a) + PlayerSum(b)
  {
    if b != [] {
      assert (a + b)[..|a + b| - 1] == a + b[..|b| - 1];
      PlayerSumAppend(a, b[..|b| - 1]);
    } else {
      assert a + b == a;
    }
  }

  lemma {:induction false} PlayerSumNonNegative(players: seq<GradePlayer>)
    requires NonNegativePlayers(players)
    ensures PlayerSum(players) >= 0.0
  {
    if players != [] {
      PlayerSumNonNegative(players[..|players| - 1]);
    }
  }

  lemma {:induction false} PickSumNonNegative(picks: seq<GradePick>)
    requires NonNegativePicks(picks)
    ensures PickSum(picks) >= 0.0
  {
    if picks != [] {
      PickSumNonNegative(picks[..|picks| - 1]);
    }
  }

  /** Non-negative values add up to a non-negative sum. */
  lemma SumNonNegative(players: seq<GradePlayer>, picks: seq<GradePick>)
    ensures NonNegativePlayers(players) && NonNegativePicks(picks) ==> PlayerSum(players) + PickSum(picks) >= 0.0
  {
    if NonNegativePlayers(players) && NonNegativePicks(picks) {
      PlayerSumNonNegative(players);
      PickSumNonNegative(picks);
    }
  }
}
