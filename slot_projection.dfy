/**
 * Reverse-standings draft slots (src/logic/slotProjection.ts): rosters are
 * ordered by fewest wins, then fewest points-for, then lowest roster id, and
 * the roster at position i (from 0) is given slot i + 1.
 */
module SlotProjection {
  import opened Wrappers
  import opened Sorting

  /**
   * The bits of a roster the projection reads. A field that is missing or not a
   * finite number is `None`.
   */
  datatype SlotRoster = SlotRoster(rosterId: Option<int>, wins: Option<real>, fpts: Option<real>)

  /** `toNum(settings.wins, 0)`. */
  function Wins(r: SlotRoster): real { r.wins.GetOr(0.0) }

  /** `toNum(settings.fpts, 0)`. */
  function Fpts(r: SlotRoster): real { r.fpts.GetOr(0.0) }

  /** `toNum(roster_id, 0)`, the id the comparator uses. */
  function SortId(r: SlotRoster): int { r.rosterId.GetOr(0) }

  /** `toNum(roster_id, -1)`, the id the slot map uses. */
  function SlotId(r: SlotRoster): int { r.rosterId.GetOr(-1) }

  /** The comparator returns a value <= 0: `a` may stand before `b`. */
  predicate Before(a: SlotRoster, b: SlotRoster) {
    Wins(a) < Wins(b) ||
    (Wins(a) == Wins(b) && (Fpts(a) < Fpts(b) || (Fpts(a) == Fpts(b) && SortId(a) <= SortId(b))))
  }

  predicate Sorted(s: seq<SlotRoster>) {
    SortedBy(s, Before)
  }

  /** `Array.isArray(rosters) ? rosters.slice() : []`; `None` is a value that is not an array. */
  function RosterList(rosters: Option<seq<SlotRoster>>): seq<SlotRoster> {
    match rosters
    case Some(s) => s
    case None => []
  }

  /** `list.sort(cmp)` with the standings comparator. */
  function SortStandings(s: seq<SlotRoster>): (r: seq<SlotRoster>)
    ensures multiset(r) == multiset(s)
  {
    SortBy(s, Before)
  }

  /** The slot map the loop builds from an ordered list: a later roster with the same id overwrites. */
  function SlotsFrom(l: seq<SlotRoster>): map<int, int> {
    if l == [] then map[]
    else
      var m := SlotsFrom(l[..|l| - 1]);
      var rid := SlotId(l[|l| - 1]);
      if rid >= 0 then m[rid := |l|] else m
  }

  /** `buildReverseOrderSlotProjection(rosters)`; the `years` argument is ignored by the source. */
  method BuildReverseOrderSlotProjection(rosters: Option<seq<SlotRoster>>) returns (out: map<int, int>)
    ensures out == SlotsFrom(SortStandings(RosterList(rosters)))
  {
    var list := SortStandings(RosterList(rosters));
    out := map[];
    var i := 0;
    while i < |list|
      invariant 0 <= i <= |list|
      invariant out == SlotsFrom(list[..i])
    {
      var rid := SlotId(list[i]);
      if rid >= 0 {
        out := out[rid := i + 1];
      }
      assert list[..i + 1][..i] == list[..i];
      i := i + 1;
    }
    assert list[..i] == list;
  }

  /** `buildSlotProjection`: the wrapper the page calls. */
  method BuildSlotProjection(rosters: Option<seq<SlotRoster>>) returns (out: map<int, int>)
    ensures out == SlotsFrom(SortStandings(RosterList(rosters)))
  {
    out := BuildReverseOrderSlotProjection(rosters);
  }

  // ------------------------------------------------------------ the sort

  /** The comparator is consistent: it orders every pair and is transitive. */
  lemma BeforePreorder()
    ensures TotalPreorder(Before)
  {
  }

  /** The sorted list is ordered by the comparator. */
  lemma SortStandingsSorted(s: seq<SlotRoster>)
    ensures Sorted(SortStandings(s))
  {
    BeforePreorder();
    SortBySorted(s, Before);
  }

  // ------------------------------------------------------------ the slot map

  /** A slot is given exactly to the non-negative ids that occur in the list. */
  lemma {:induction false} SlotsKeys(l: seq<SlotRoster>, k: int)
    ensures k in SlotsFrom(l) <==> k >= 0 && exists i :: 0 <= i < |l| && SlotId(l[i]) == k
  {
    if l != [] {
      var init := l[..|l| - 1];
      SlotsKeys(init, k);
      if k >= 0 && (exists i :: 0 <= i < |init| && SlotId(init[i]) == k) {
        var i :| 0 <= i < |init| && SlotId(init[i]) == k;
        assert SlotId(l[i]) == k;
      }
      if k in SlotsFrom(l) && SlotId(l[|l| - 1]) != k {
        var i :| 0 <= i < |init| && SlotId(init[i]) == k;
        assert SlotId(l[i]) == k;
      }
    }
  }

  /** The slot of an id is one more than the index of its last occurrence. */
  lemma {:induction false} SlotsLast(l: seq<SlotRoster>, k: int)
    requires k in SlotsFrom(l)
    ensures var i := SlotsFrom(l)[k] - 1;
      0 <= i < |l| && SlotId(l[i]) == k && forall j :: i < j < |l| ==> SlotId(l[j]) != k
  {
    SlotsKeys(l, k);
    var init := l[..|l| - 1];
    var last := SlotId(l[|l| - 1]);
    assert SlotsFrom(l) == if last >= 0 then SlotsFrom(init)[last := |l|] else SlotsFrom(init);
    if last != k {
      assert k in SlotsFrom(init) && SlotsFrom(l)[k] == SlotsFrom(init)[k];
      SlotsLast(init, k);
      assert forall j :: 0 <= j < |init| ==> l[j] == init[j];
    } else {
      assert SlotsFrom(l)[k] == |l|;
    }
  }

  /** No slot is below 1 or above the number of rosters. */
  lemma SlotsRange(l: seq<SlotRoster>)
    ensures forall k :: k in SlotsFrom(l) ==> 1 <= SlotsFrom(l)[k] <= |l|
  {
    forall k | k in SlotsFrom(l) ensures 1 <= SlotsFrom(l)[k] <= |l| {
      SlotsLast(l, k);
    }
  }

  /** Only ids >= 0 get a slot: a roster whose id is missing or negative is left out. */
  lemma SlotKeysAreRosterIds(rosters: Option<seq<SlotRoster>>, k: int)
    ensures var out := SlotsFrom(SortStandings(RosterList(rosters)));
      k in out <==> k >= 0 && exists r :: r in RosterList(rosters) && SlotId(r) == k
  {
    var s := RosterList(rosters);
    var l := SortStandings(s);
    SlotsKeys(l, k);
        if k >= 0 && exists r :: r in s && SlotId(r) == k {
      var r :| r in s && SlotId(r) == k;
      assert r in multiset(l);
      var i :| 0 <= i < |l| && l[i] == r;
    }
    if k in SlotsFrom(l) {
      var i :| 0 <= i < |l| && SlotId(l[i]) == k;
      assert l[i] in multiset(s);
    }
  }

  /** No two rosters in the list share a non-negative id unless they are the same roster. */
  predicate IdsIdentify(l: seq<SlotRoster>) {
    forall x, y :: x in l && y in l && SlotId(x) >= 0 && SlotId(x) == SlotId(y) ==> x == y
  }

  /** Distinct rosters: ids identify rosters and no roster is listed twice. */
  predicate DistinctRosters(l: seq<SlotRoster>) {
    IdsIdentify(l) && forall x :: x in l ==> multiset(l)[x] == 1
  }

  /** Among distinct rosters, the one at index i of the ordered list gets slot i + 1. */
  lemma DistinctSlots(l: seq<SlotRoster>, i: int)
    requires DistinctRosters(l) && 0 <= i < |l| && SlotId(l[i]) >= 0
    ensures SlotId(l[i]) in SlotsFrom(l) && SlotsFrom(l)[SlotId(l[i])] == i + 1
  {
    var k := SlotId(l[i]);
    SlotsKeys(l, k);
    SlotsLast(l, k);
    var i' := SlotsFrom(l)[k] - 1;
    assert l[i'] == l[i];
    if i < i' {
      CountTwo(l, i, i');
    } else if i' < i {
      CountTwo(l, i', i);
    }
  }

  /** In an ordered list where ids identify rosters, a roster that sorts strictly first has the smaller slot. */
  lemma SortedSlotsOrder(l: seq<SlotRoster>, a: SlotRoster, b: SlotRoster)
    requires Sorted(l) && IdsIdentify(l) && a in l && b in l
    requires SlotId(a) >= 0 && SlotId(b) >= 0 && !Before(b, a)
    ensures SlotId(a) in SlotsFrom(l) && SlotId(b) in SlotsFrom(l)
    ensures SlotsFrom(l)[SlotId(a)] < SlotsFrom(l)[SlotId(b)]
  {
    var ia := SlotIndex(l, a);
    var ib := SlotIndex(l, b);
    SortedIndexOrder(l, ia, ib);
  }

  /** The slot of a listed roster with an id is one past an index holding that very roster. */
  lemma SlotIndex(l: seq<SlotRoster>, a: SlotRoster) returns (i: nat)
    requires IdsIdentify(l) && a in l && SlotId(a) >= 0
    ensures SlotId(a) in SlotsFrom(l) && i == SlotsFrom(l)[SlotId(a)] - 1 && i < |l| && l[i] == a
  {
    var k := SlotId(a);
    assert k in SlotsFrom(l) by {
      var i0 :| 0 <= i0 < |l| && l[i0] == a;
      SlotsKeys(l, k);
      assert SlotId(l[i0]) == k;
    }
    SlotsLast(l, k);
    i := SlotsFrom(l)[k] - 1;
    assert l[i] in l;
  }

  /** In an ordered list, a roster that does not sort before another sits at a larger index. */
  lemma SortedIndexOrder(l: seq<SlotRoster>, i: nat, j: nat)
    requires Sorted(l) && i < |l| && j < |l| && !Before(l[j], l[i])
    ensures i < j
  {
  }

  /**
   * A strictly worse record picks strictly earlier: fewer wins, or as many wins
   * and fewer points-for (or the same and a lower id), gives the smaller slot.
   */
  lemma WorseRecordPicksEarlier(rosters: Option<seq<SlotRoster>>, a: SlotRoster, b: SlotRoster)
    requires a in RosterList(rosters) && b in RosterList(rosters)
    requires IdsIdentify(RosterList(rosters))
    requires SlotId(a) >= 0 && SlotId(b) >= 0
    requires !Before(b, a)
    ensures var out := SlotsFrom(SortStandings(RosterList(rosters)));
      SlotId(a) in out && SlotId(b) in out && out[SlotId(a)] < out[SlotId(b)]
  {
    var s := RosterList(rosters);
    var l := SortStandings(s);
    SortStandingsSorted(s);
    assert a in multiset(l) && b in multiset(l);
    assert IdsIdentify(l) by {
      forall x | x in l ensures x in s { assert x in multiset(l); }
    }
    SortedSlotsOrder(l, a, b);
  }

  /**
   * With distinct rosters that all carry a non-negative id, every roster gets a
   * slot, every slot is within 1..N, and the roster at position i of the
   * standings order gets slot i + 1, so the slots are exactly 1..N.
   */
  lemma SlotsAreOneToN(rosters: Option<seq<SlotRoster>>)
    requires DistinctRosters(RosterList(rosters))
    requires forall r :: r in RosterList(rosters) ==> SlotId(r) >= 0
    ensures var out := SlotsFrom(SortStandings(RosterList(rosters)));
      (forall r :: r in RosterList(rosters) ==> SlotId(r) in out) &&
      (forall k :: k in out ==> 1 <= out[k] <= |RosterList(rosters)|) &&
      var l := SortStandings(RosterList(rosters));
      |l| == |RosterList(rosters)| &&
      (forall i :: 0 <= i < |l| ==> SlotId(l[i]) in out && out[SlotId(l[i])] == i + 1)
  {
    var s := RosterList(rosters);
    var l := SortStandings(s);
        var out := SlotsFrom(l);
    forall r | r in s ensures SlotId(r) in out {
      SlotKeysAreRosterIds(rosters, SlotId(r));
    }
    assert |l| == |s| by {
      assert |multiset(l)| == |multiset(s)|;
    }
    assert DistinctRosters(l) by {
      forall x | x in l ensures x in s { assert x in multiset(l); }
    }
    SlotsRange(l);
    forall i | 0 <= i < |l| ensures SlotId(l[i]) in out && out[SlotId(l[i])] == i + 1 {
      assert l[i] in multiset(s);
      DistinctSlots(l, i);
    }
  }
}
