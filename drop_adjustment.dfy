/**
 * The drop adjustment (src/logic/dropAdjustment.ts): a side's total is cut by
 * a flat 5% when that side holds more than two pieces.
 */
module DropAdjustment {
  import opened Wrappers

  /** Number of pieces on a side; a missing list counts as empty. */
  function PieceCount<P, K>(players: Option<seq<P>>, picks: Option<seq<K>>): nat {
    |players.GetOr([])| + |picks.GetOr([])|
  }

  /** `applyDropAdjustment`: more than two pieces multiply the total by 0.95. */
  function ApplyDropAdjustment<P, K>(baseTotal: real, players: Option<seq<P>>, picks: Option<seq<K>>): (r: real)
    ensures baseTotal >= 0.0 ==> 0.0 <= r <= baseTotal
    ensures baseTotal <= 0.0 ==> baseTotal <= r <= 0.0
  {
    if PieceCount(players, picks) > 2 then baseTotal * 0.95 else baseTotal
  }

  /** At most two pieces leave the total alone; more than two cut it to exactly 95%. */
  lemma DropAdjustmentCases<P, K>(baseTotal: real, players: Option<seq<P>>, picks: Option<seq<K>>)
    ensures PieceCount(players, picks) <= 2 ==> ApplyDropAdjustment(baseTotal, players, picks) == baseTotal
    ensures PieceCount(players, picks) > 2 ==> ApplyDropAdjustment(baseTotal, players, picks) == baseTotal * 19.0 / 20.0
  {
  }

  /** The adjustment looks only at how many pieces there are, never at what they are. */
  lemma DependsOnlyOnCounts<P, K, P2, K2>(baseTotal: real,
                                          players: Option<seq<P>>, picks: Option<seq<K>>,
                                          players2: Option<seq<P2>>, picks2: Option<seq<K2>>)
    requires PieceCount(players, picks) == PieceCount(players2, picks2)
    ensures ApplyDropAdjustment(baseTotal, players, picks) == ApplyDropAdjustment(baseTotal, players2, picks2)
  {
  }

  /** A larger total never ends up below a smaller one on the same pieces. */
  lemma DropAdjustmentMonotone<P, K>(a: real, b: real, players: Option<seq<P>>, picks: Option<seq<K>>)
    requires a <= b
    ensures ApplyDropAdjustment(a, players, picks) <= ApplyDropAdjustment(b, players, picks)
  {
  }
}
