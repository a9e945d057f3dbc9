/**
 * The stand-alone calculator screen (src/App.tsx): the trade grade of a
 * difference, the side totals, the list filter, the value-range controls,
 * and the handlers that change the two sides and the team needs.
 */
module TradeApp {
  import opened Wrappers
  import opened Strings
  import opened Numbers
  import opened TradeCalculator

  // ------------------------------------------------------------ grading

  datatype Grade = Grade(letter: string, color: string)

  function Abs(x: real): real { if x < 0.0 then -x else x }
  function Min(x: real, y: real): real { if x <= y then x else y }
  function Max(x: real, y: real): real { if x >= y then x else y }

  /** The percentage `gradeTrade` grades: the difference over `max(1, min(base, base + |diff|))`. */
  function TradePct(diff: real, base: real): real {
    diff / Max(1.0, Min(base, base + Abs(diff))) * 100.0
  }

  /** The ladder of `gradeTrade` on the percentage. */
  function GradeOfPct(pct: real): Grade {
    if pct >= 18.0 then Grade("A+", "text-green-600")
    else if pct >= 12.0 then Grade("A", "text-green-600")
    else if pct >= 7.0 then Grade("B+", "text-emerald-600")
    else if pct >= 3.0 then Grade("B", "text-emerald-600")
    else if pct >= 0.0 then Grade("B-", "text-emerald-600")
    else if pct >= -3.0 then Grade("C", "text-yellow-600")
    else if pct >= -7.0 then Grade("C-", "text-amber-700")
    else if pct >= -12.0 then Grade("D", "text-orange-700")
    else if pct >= -18.0 then Grade("D-", "text-red-600")
    else Grade("F", "text-red-700")
  }

  /** `gradeTrade(diff, base)`. */
  function GradeTrade(diff: real, base: real): Grade {
    GradeOfPct(TradePct(diff, base))
  }

  /** `base + |diff|` is never below `base`, so the `min` is always `base` and the denominator is `max(1, base)`. */
  lemma TradePctDenominator(diff: real, base: real)
    ensures TradePct(diff, base) == diff / Max(1.0, base) * 100.0
    ensures Max(1.0, Min(base, base + Abs(diff))) >= 1.0
  {
    assert Min(base, base + Abs(diff)) == base;
  }

  /** A higher percentage never gets a worse letter, and every letter is one of the ten. */
  lemma GradeOfPctMonotone(p1: real, p2: real)
    requires p1 <= p2
    ensures LetterRank(GradeOfPct(p1).letter) <= LetterRank(GradeOfPct(p2).letter)
    ensures LetterRank(GradeOfPct(p1).letter) >= 0
  {
  }

  /** For a fixed base, a larger difference never grades worse; a non-negative difference grades B- or better. */
  lemma GradeTradeMonotone(d1: real, d2: real, base: real)
    requires d1 <= d2
    ensures LetterRank(GradeTrade(d1, base).letter) <= LetterRank(GradeTrade(d2, base).letter)
    ensures d1 >= 0.0 ==> LetterRank(GradeTrade(d1, base).letter) >= LetterRank("B-")
    ensures d1 < 0.0 ==> LetterRank(GradeTrade(d1, base).letter) <= LetterRank("C")
  {
    var p1, p2 := TradePct(d1, base), TradePct(d2, base);
    assert p1 <= p2 by {
      TradePctDenominator(d1, base);
      TradePctDenominator(d2, base);
      ScaleMonotone(d1, d2, Max(1.0, base));
    }
    GradeOfPctMonotone(p1, p2);
    PctSign(d1, base);
    GradeOfPctSign(p1);
  }

  /** The percentage has the sign of the difference. */
  lemma PctSign(d: real, base: real)
    ensures d >= 0.0 <==> TradePct(d, base) >= 0.0
  {
    TradePctDenominator(d, base);
    var m := Max(1.0, base);
    if d >= 0.0 {
      ScaleMonotone(0.0, d, m);
    } else {
      assert d / m < 0.0;
    }
  }

  /** A non-negative percentage grades B- or better, a negative one C or worse. */
  lemma GradeOfPctSign(p: real)
    ensures p >= 0.0 ==> LetterRank(GradeOfPct(p).letter) >= LetterRank("B-")
    ensures p < 0.0 ==> LetterRank(GradeOfPct(p).letter) <= LetterRank("C")
  {
  }

  lemma ScaleMonotone(x: real, y: real, m: real)
    requires m >= 1.0 && x <= y
    ensures x / m * 100.0 <= y / m * 100.0
  {
    assert x / m <= y / m;
  }

  /** `totals`: both sums, the edge, the displayed percentage and the grade. */
  datatype Totals = Totals(ta: real, tb: real, edge: real, pct: real, grade: Grade)

  datatype Item = Item(id: string, name: string, pos: Option<string>, team: Option<string>, value: real,
                       kind: AssetKind)

  function Sum(side: seq<Item>): real {
    if side == [] then 0.0 else Sum(side[..|side| - 1]) + side[|side| - 1].value
  }

  function ComputeTotals(sideA: seq<Item>, sideB: seq<Item>): Totals {
    var ta, tb := Sum(sideA), Sum(sideB);
    var edge := ta - tb;
    Totals(ta, tb, edge, edge / Max(1.0, Min(ta, tb)) * 100.0, GradeTrade(ta - tb, Min(ta, tb)))
  }

  /** The grade shown is the ladder applied to the percentage shown, and swapping the sides negates edge and percentage. */
  lemma TotalsAgree(sideA: seq<Item>, sideB: seq<Item>)
    ensures var t := ComputeTotals(sideA, sideB);
      t.grade == GradeOfPct(t.pct) && t.edge == t.ta - t.tb
    ensures ComputeTotals(sideB, sideA).edge == -ComputeTotals(sideA, sideB).edge
    ensures ComputeTotals(sideB, sideA).pct == -ComputeTotals(sideA, sideB).pct
  {
    var ta, tb := Sum(sideA), Sum(sideB);
    TradePctDenominator(ta - tb, Min(ta, tb));
    assert Min(tb, ta) == Min(ta, tb);
    var m := Max(1.0, Min(ta, tb));
    assert (tb - ta) / m == -((ta - tb) / m);
  }

  // ------------------------------------------------------------ the list filter

  /** Whether an optional text is truthy. */
  predicate Present(s: Option<string>) {
    s.Some? && s.value != ""
  }

  function TextOf(s: Option<string>): string {
    match s
    case Some(t) => t
    case None => ""
  }

  /** `.map((x) => x.trim().toUpperCase()).filter(Boolean)`. */
  function UpperParts(parts: seq<string>): seq<string> {
    if parts == [] then []
    else
      var x := UpperPart(parts[0]);
      if x != "" then [x] + UpperParts(parts[1..]) else UpperParts(parts[1..])
  }

  /** One part of the list: trimmed and upper-cased. */
  function UpperPart(p: string): string {
    ToUpper(Trim(p))
  }

  /** The list holds exactly the non-empty trimmed, upper-cased parts. */
  lemma {:induction false} UpperPartsMembers(parts: seq<string>)
    ensures forall x :: x in UpperParts(parts) <==> x != "" && exists i :: 0 <= i < |parts| && x == UpperPart(parts[i])
  {
    if parts != [] {
      var tail := parts[1..];
      var x0 := UpperPart(parts[0]);
      var rest := UpperParts(tail);
      UpperPartsMembers(tail);
      assert UpperParts(parts) == if x0 != "" then [x0] + rest else rest;
      forall x | x in UpperParts(parts)
        ensures x != "" && exists i :: 0 <= i < |parts| && x == UpperPart(parts[i])
      {
        if x != x0 || x0 == "" {
          assert x in rest;
          var i :| 0 <= i < |tail| && x == UpperPart(tail[i]);
          assert tail[i] == parts[i + 1];
        }
      }
      forall x | x != "" && exists i :: 0 <= i < |parts| && x == UpperPart(parts[i])
        ensures x in UpperParts(parts)
      {
        var i :| 0 <= i < |parts| && x == UpperPart(parts[i]);
        if i > 0 {
          assert tail[i - 1] == parts[i];
          assert x in rest;
        }
      }
    }
  }

  /** The position list of "DL, LB" style positions. */
  function PosList(pos: Option<string>): seq<string> {
    UpperParts(Split(TextOf(pos), ','))
  }

  /** The text search: the query, lower-cased, in the name, the position or the team. */
  predicate SearchHit(a: Item, q: string) {
    Contains(ToLower(a.name), q) || (Present(a.pos) && Contains(ToLower(a.pos.value), q)) ||
    (Present(a.team) && Contains(ToLower(a.team.value), q))
  }

  /** The predicate of `filteredAll`, test by test. */
  predicate Shown(a: Item, query: string, posFilter: string, teamFilter: string, minVal: real, maxVal: real,
                  selected: set<string>) {
    var q := ToLower(query);
    a.id !in selected &&
    (q == "" || SearchHit(a, q)) &&
    (posFilter == "All" || a.kind != Player || ToUpper(posFilter) in PosList(a.pos)) &&
    (teamFilter == "All" || a.kind != Player || TextOf(a.team) == teamFilter) &&
    !(a.kind == Pick && (posFilter != "All" || teamFilter != "All")) &&
    !(a.value < minVal) && !(a.value > maxVal)
  }

  /** `allAssets.filter(...)`. */
  function FilteredAll(assets: seq<Item>, query: string, posFilter: string, teamFilter: string,
                       minVal: real, maxVal: real, selected: set<string>): seq<Item> {
    if assets == [] then []
    else
      var rest := FilteredAll(assets[1..], query, posFilter, teamFilter, minVal, maxVal, selected);
      if Shown(assets[0], query, posFilter, teamFilter, minVal, maxVal, selected) then [assets[0]] + rest else rest
  }

  /** `selectedIds`: the ids on either side. */
  function SelectedIds(sideA: seq<Item>, sideB: seq<Item>): (ids: set<string>)
    ensures forall id :: id in ids <==> (exists i :: 0 <= i < |sideA| && sideA[i].id == id) ||
                                         (exists i :: 0 <= i < |sideB| && sideB[i].id == id)
  {
    (set i | 0 <= i < |sideA| :: sideA[i].id) + (set i | 0 <= i < |sideB| :: sideB[i].id)
  }

  /** The filtered list holds exactly the assets the predicate accepts. */
  lemma {:induction false} FilteredAllMembers(assets: seq<Item>, query: string, posFilter: string, teamFilter: string,
                                              minVal: real, maxVal: real, selected: set<string>)
    ensures forall a :: a in FilteredAll(assets, query, posFilter, teamFilter, minVal, maxVal, selected) <==>
      a in assets && Shown(a, query, posFilter, teamFilter, minVal, maxVal, selected)
  {
    if assets != [] {
      FilteredAllMembers(assets[1..], query, posFilter, teamFilter, minVal, maxVal, selected);
      assert assets == [assets[0]] + assets[1..];
    }
  }

  /**
   * A selected asset is never listed, a pick is never listed while a position
   * or team filter is on, and a listed asset's value lies within both bounds.
   */
  lemma ShownConsequences(a: Item, query: string, posFilter: string, teamFilter: string, minVal: real, maxVal: real,
                          selected: set<string>)
    requires Shown(a, query, posFilter, teamFilter, minVal, maxVal, selected)
    ensures a.id !in selected
    ensures a.kind == Pick ==> posFilter == "All" && teamFilter == "All"
    ensures minVal <= a.value <= maxVal
  {
  }

  /** With no search and no filters, an unselected asset is listed exactly when its value is within the bounds, both inclusive. */
  lemma ValueBoundsInclusive(a: Item, minVal: real, maxVal: real, selected: set<string>)
    requires a.id !in selected
    ensures Shown(a, "", "All", "All", minVal, maxVal, selected) <==> minVal <= a.value <= maxVal
  {
    assert ToLower("") == "";
  }

  // ------------------------------------------------------------ range controls

  const MIN_GAP: real := 50.0

  /** The slider's `onChange`: a pair closer than the gap is pushed apart, moving the thumb that did not move. */
  function SliderChange(lo: real, hi: real, minVal: real): (r: (real, real)) {
    if hi - lo < MIN_GAP then
      if lo != minVal then
        var lo' := Min(lo, 1000.0 - MIN_GAP); (lo', lo' + MIN_GAP)
      else
        var hi' := Max(hi, MIN_GAP); (hi' - MIN_GAP, hi')
    else (lo, hi)
  }

  /** After the slider, the range lies in 0..1000 and is at least the gap wide; a wide enough pair is kept. */
  lemma SliderKeepsGap(lo: real, hi: real, minVal: real)
    requires 0.0 <= lo <= 1000.0 && 0.0 <= hi <= 1000.0
    ensures var r := SliderChange(lo, hi, minVal); 0.0 <= r.0 && r.1 <= 1000.0 && r.1 - r.0 >= MIN_GAP
    ensures hi - lo >= MIN_GAP ==> SliderChange(lo, hi, minVal) == (lo, hi)
  {
  }

  /** `Number(text) || 0`: NaN and 0 both give 0. */
  function TypedNumber(text: string): real {
    ParseDecimal(text).GetOr(0.0)
  }

  /** The typed minimum: clamped to 0..950, then kept the gap below the maximum. */
  function TypedMin(text: string, maxVal: real): real {
    var n := Max(0.0, Min(1000.0 - MIN_GAP, TypedNumber(text)));
    Min(n, maxVal - MIN_GAP)
  }

  /** The typed maximum: clamped to 50..1000, kept the gap above the minimum, and capped at 1000. */
  function TypedMax(text: string, minVal: real): real {
    var n := Min(1000.0, Max(MIN_GAP, TypedNumber(text)));
    var hi := Max(n, minVal + MIN_GAP);
    Min(hi, 1000.0)
  }

  lemma TypedMinBounds(text: string, maxVal: real)
    ensures TypedMin(text, maxVal) <= 1000.0 - MIN_GAP
    ensures TypedMin(text, maxVal) <= maxVal - MIN_GAP
    ensures maxVal >= MIN_GAP ==> TypedMin(text, maxVal) >= 0.0
  {
  }

  lemma TypedMaxBounds(text: string, minVal: real)
    ensures MIN_GAP <= TypedMax(text, minVal) <= 1000.0
    ensures minVal <= 1000.0 - MIN_GAP ==> TypedMax(text, minVal) >= minVal + MIN_GAP
  {
  }

  // ------------------------------------------------------------ team needs

  /** `prev.includes(pos) ? prev.filter((p) => p !== pos) : [...prev, pos]`. */
  function ToggleNeed(needs: seq<string>, pos: string): (r: seq<string>)
    ensures pos in needs ==> forall x :: x in r <==> x in needs && x != pos
    ensures pos !in needs ==> r == needs + [pos]
  {
    if pos in needs then Remove(needs, pos) else needs + [pos]
  }

  /** `filter((p) => p !== pos)`. */
  function Remove(needs: seq<string>, pos: string): (r: seq<string>)
    ensures forall x :: x in r <==> x in needs && x != pos
  {
    if needs == [] then []
    else
      var rest := Remove(needs[1..], pos);
      assert forall x :: x in needs[1..] ==> x in needs;
      assert forall x :: x in needs ==> x == needs[0] || x in needs[1..];
      if needs[0] != pos then [needs[0]] + rest else rest
  }

  /** A toggle flips membership of its position only, so toggling twice restores the membership. */
  lemma ToggleTwice(needs: seq<string>, pos: string)
    ensures pos in ToggleNeed(needs, pos) <==> pos !in needs
    ensures forall x :: x != pos ==> (x in ToggleNeed(needs, pos) <==> x in needs)
    ensures forall x :: x in ToggleNeed(ToggleNeed(needs, pos), pos) <==> x in needs
  {
  }

  /** No position listed twice. */
  predicate NoRepeats(needs: seq<string>) {
    forall i, j :: 0 <= i < j < |needs| ==> needs[i] != needs[j]
  }

  /** A toggle keeps the list free of repeats. */
  lemma ToggleNoRepeats(needs: seq<string>, pos: string)
    requires NoRepeats(needs)
    ensures NoRepeats(ToggleNeed(needs, pos))
  {
    if pos in needs {
      RemoveNoRepeats(needs, pos);
    } else {
      var r := needs + [pos];
      forall i, j | 0 <= i < j < |r|
        ensures r[i] != r[j]
      {
        assert r[i] == needs[i];
        if j == |needs| {
          assert r[i] in needs;
        } else {
          assert r[j] == needs[j];
        }
      }
    }
  }

  lemma {:induction false} RemoveNoRepeats(needs: seq<string>, pos: string)
    requires NoRepeats(needs)
    ensures NoRepeats(Remove(needs, pos))
  {
    if needs != [] {
      var tail := needs[1..];
      var rest := Remove(tail, pos);
      assert NoRepeats(tail) by {
        forall i, j | 0 <= i < j < |tail|
          ensures tail[i] != tail[j]
        {
          assert tail[i] == needs[i + 1] && tail[j] == needs[j + 1];
        }
      }
      RemoveNoRepeats(tail, pos);
      assert needs[0] !in tail by {
        forall k | 0 <= k < |tail|
          ensures tail[k] != needs[0]
        {
          assert tail[k] == needs[k + 1];
        }
      }
      if needs[0] != pos {
        var r := [needs[0]] + rest;
        forall i, j | 0 <= i < j < |r|
          ensures r[i] != r[j]
        {
          assert r[j] == rest[j - 1];
          if i == 0 {
            assert rest[j - 1] in rest;
          } else {
            assert r[i] == rest[i - 1];
          }
        }
      }
    }
  }

  // ------------------------------------------------------------ the screen's state

  datatype Which = A | B

  /** `filter((x) => x.id !== id)`. */
  function WithoutItem(side: seq<Item>, id: string): (r: seq<Item>)
    ensures forall x :: x in r <==> x in side && x.id != id
  {
    if side == [] then []
    else
      var rest := WithoutItem(side[1..], id);
      assert forall x :: x in side ==> x == side[0] || x in side[1..];
      if side[0].id != id then [side[0]] + rest else rest
  }

  function IdsOf(side: seq<Item>): set<string> {
    set i | 0 <= i < |side| :: side[i].id
  }

  predicate DistinctIds(side: seq<Item>) {
    forall i, j :: 0 <= i < j < |side| ==> side[i].id != side[j].id
  }

  /** Appending an asset with a new id keeps the ids distinct and adds that id. */
  lemma AppendFresh(side: seq<Item>, a: Item)
    requires DistinctIds(side) && a.id !in IdsOf(side)
    ensures DistinctIds(side + [a]) && IdsOf(side + [a]) == IdsOf(side) + {a.id}
  {
    var r := side + [a];
    assert forall i :: 0 <= i < |side| ==> r[i] == side[i];
    assert r[|side|] == a;
  }

  /** Filtering keeps the ids distinct. */
  lemma {:induction false} WithoutItemDistinct(side: seq<Item>, id: string)
    requires DistinctIds(side)
    ensures DistinctIds(WithoutItem(side, id))
  {
    if side != [] {
      DistinctTail(side);
      WithoutItemDistinct(side[1..], id);
      if side[0].id != id {
        ConsDistinct(side, WithoutItem(side[1..], id));
      }
    }
  }

  /** The tail of a list with distinct ids has distinct ids, none of them the head's. */
  lemma DistinctTail(side: seq<Item>)
    requires side != [] && DistinctIds(side)
    ensures DistinctIds(side[1..]) && forall k :: 0 <= k < |side| - 1 ==> side[1..][k].id != side[0].id
  {
    var tail := side[1..];
    forall i, j | 0 <= i < j < |tail|
      ensures tail[i].id != tail[j].id
    {
      assert tail[i] == side[i + 1] && tail[j] == side[j + 1];
    }
    forall k | 0 <= k < |tail|
      ensures tail[k].id != side[0].id
    {
      assert tail[k] == side[k + 1];
    }
  }

  /** Putting the head back in front of a distinct selection of the tail keeps the ids distinct. */
  lemma ConsDistinct(side: seq<Item>, rest: seq<Item>)
    requires side != [] && DistinctIds(rest) && forall x :: x in rest ==> x in side[1..]
    requires forall k :: 0 <= k < |side| - 1 ==> side[1..][k].id != side[0].id
    ensures DistinctIds([side[0]] + rest)
  {
    var r := [side[0]] + rest;
    forall i, j | 0 <= i < j < |r|
      ensures r[i].id != r[j].id
    {
      assert r[j] == rest[j - 1];
      if i == 0 {
        assert rest[j - 1] in side[1..];
        var k :| 0 <= k < |side| - 1 && side[1..][k] == rest[j - 1];
      } else {
        assert r[i] == rest[i - 1];
      }
    }
  }

  /** Filtering removes exactly that id from the ids. */
  lemma WithoutItemIds(side: seq<Item>, id: string)
    ensures IdsOf(WithoutItem(side, id)) == IdsOf(side) - {id}
  {
    var r := WithoutItem(side, id);
    forall k | k in IdsOf(side) - {id}
      ensures k in IdsOf(r)
    {
      var i :| 0 <= i < |side| && side[i].id == k;
      assert side[i] in r;
    }
    forall k | k in IdsOf(r)
      ensures k in IdsOf(side) - {id}
    {
      var i :| 0 <= i < |r| && r[i].id == k;
      assert r[i] in side;
    }
  }

  class Screen {
    var sideA: seq<Item>
    var sideB: seq<Item>
    var teamNeeds: seq<string>
    var minVal: real
    var maxVal: real

    /**
     * No id twice on a side and none on both sides, no need listed twice, and
     * a value range at least the gap wide within 0..1000.
     */
    ghost predicate Valid()
      reads this
    {
      DistinctIds(sideA) && DistinctIds(sideB) && IdsOf(sideA) !! IdsOf(sideB) &&
      NoRepeats(teamNeeds) &&
      0.0 <= minVal && maxVal <= 1000.0 && maxVal - minVal >= MIN_GAP
    }

    constructor()
      ensures Valid() && sideA == [] && sideB == [] && teamNeeds == [] && minVal == 0.0 && maxVal == 1000.0
    {
      sideA, sideB, teamNeeds, minVal, maxVal := [], [], [], 0.0, 1000.0;
    }

    /** `handleAdd(to, a)`: nothing when the id is already on a side, otherwise appended to the chosen side. */
    method HandleAdd(to: Which, a: Item)
      modifies this
      ensures a.id in SelectedIds(old(sideA), old(sideB)) ==> sideA == old(sideA) && sideB == old(sideB)
      ensures a.id !in SelectedIds(old(sideA), old(sideB)) ==>
        (to == A ==> sideA == old(sideA) + [a] && sideB == old(sideB)) &&
        (to == B ==> sideB == old(sideB) + [a] && sideA == old(sideA))
      ensures teamNeeds == old(teamNeeds) && minVal == old(minVal) && maxVal == old(maxVal)
      ensures old(Valid()) ==> Valid()
    {
      if a.id in SelectedIds(sideA, sideB) {
        return;
      }
      ghost var wasValid := Valid();
      if to == A {
        if wasValid {
          AppendFresh(sideA, a);
        }
        sideA := sideA + [a];
      } else {
        if wasValid {
          AppendFresh(sideB, a);
        }
        sideB := sideB + [a];
      }
    }

    /** `removeItem(which, id)`: only the named side loses the id. */
    method RemoveItem(which: Which, id: string)
      modifies this
      ensures which == A ==> sideA == WithoutItem(old(sideA), id) && sideB == old(sideB)
      ensures which == B ==> sideB == WithoutItem(old(sideB), id) && sideA == old(sideA)
      ensures teamNeeds == old(teamNeeds) && minVal == old(minVal) && maxVal == old(maxVal)
      ensures old(Valid()) ==> Valid()
    {
      ghost var wasValid := Valid();
      if which == A {
        if wasValid {
          WithoutItemDistinct(sideA, id);
          WithoutItemIds(sideA, id);
        }
        sideA := WithoutItem(sideA, id);
      } else {
        if wasValid {
          WithoutItemDistinct(sideB, id);
          WithoutItemIds(sideB, id);
        }
        sideB := WithoutItem(sideB, id);
      }
    }

    /** `clearSideA()`. */
    method ClearSideA()
      modifies this
      ensures sideA == [] && sideB == old(sideB)
      ensures teamNeeds == old(teamNeeds) && minVal == old(minVal) && maxVal == old(maxVal)
      ensures old(Valid()) ==> Valid()
    {
      sideA := [];
    }

    /** `clearSideB()`. */
    method ClearSideB()
      modifies this
      ensures sideB == [] && sideA == old(sideA)
      ensures teamNeeds == old(teamNeeds) && minVal == old(minVal) && maxVal == old(maxVal)
      ensures old(Valid()) ==> Valid()
    {
      sideB := [];
    }

    /** The team-needs button for `pos`. */
    method ToggleTeamNeed(pos: string)
      modifies this
      ensures teamNeeds == ToggleNeed(old(teamNeeds), pos)
      ensures sideA == old(sideA) && sideB == old(sideB) && minVal == old(minVal) && maxVal == old(maxVal)
      ensures old(Valid()) ==> Valid()
    {
      if Valid() {
        ToggleNoRepeats(teamNeeds, pos);
      }
      teamNeeds := ToggleNeed(teamNeeds, pos);
    }

    /** The slider's `onChange` with the control's values, which lie in 0..1000. */
    method OnSliderChange(lo: real, hi: real)
      modifies this
      ensures (minVal, maxVal) == SliderChange(lo, hi, old(minVal))
      ensures sideA == old(sideA) && sideB == old(sideB) && teamNeeds == old(teamNeeds)
      ensures old(Valid()) && 0.0 <= lo <= 1000.0 && 0.0 <= hi <= 1000.0 ==> Valid()
    {
      if 0.0 <= lo <= 1000.0 && 0.0 <= hi <= 1000.0 {
        SliderKeepsGap(lo, hi, minVal);
      }
      var r := SliderChange(lo, hi, minVal);
      minVal, maxVal := r.0, r.1;
    }

    /** The typed minimum's `onChange`. */
    method OnTypedMin(text: string)
      modifies this
      ensures minVal == TypedMin(text, old(maxVal)) && maxVal == old(maxVal)
      ensures sideA == old(sideA) && sideB == old(sideB) && teamNeeds == old(teamNeeds)
      ensures old(Valid()) ==> Valid()
    {
      TypedMinBounds(text, maxVal);
      minVal := TypedMin(text, maxVal);
    }

    /** The typed maximum's `onChange`. */
    method OnTypedMax(text: string)
      modifies this
      ensures maxVal == TypedMax(text, old(minVal)) && minVal == old(minVal)
      ensures sideA == old(sideA) && sideB == old(sideB) && teamNeeds == old(teamNeeds)
      ensures old(Valid()) ==> Valid()
    {
      TypedMaxBounds(text, minVal);
      maxVal := TypedMax(text, minVal);
    }
  }
}
