/**
 * The helpers of the trade calculator page (src/pages/TradeCalculatorPage.tsx):
 * the canonical label of a pick, the letter grade of an edge, the curve as a
 * name-to-value map, the search and value filters, the assets the two trade
 * sides hold and their totals, and the player-to-roster map.
 */
module TradeCalculator {
  import opened Wrappers
  import opened Strings
  import opened Numbers
  import opened Picks
  import opened JsValues
  import opened JsMaps

  // ------------------------------------------------------------ pick labels

  /** `Number(slotProjection?.[originRoster])`: NaN when the origin is not finite or has no slot. */
  function SlotOf(proj: map<int, int>, origin: Num): Num {
    if origin.Finite? && origin.value in proj then Finite(proj[origin.value]) else NaN
  }

  /** `${x || "?"}` for a number: 0 and NaN show as "?". */
  function OrQuestion(n: Num): string {
    if n.NaN? || n.value == 0 then "?" else NumToString(n)
  }

  /** `pickLabelFrom(pk, slotProjection)`. */
  function PickLabelFrom(pk: Record, proj: map<int, int>): string {
    var season := JsNumber(Coalesce(Get(pk, "season"), Get(pk, "year")));
    var round := JsNumber(Get(pk, "round"));
    var origin := JsNumber(Get(pk, "roster_id"));
    var slot := SlotOf(proj, origin);
    if season.Finite? && round.Finite? && slot.Finite? then
      NumToString(season) + " " + NumToString(round) + "." + Pad2Num(slot)
    else if Truthy(Get(pk, "pick_name")) then JsString(Get(pk, "pick_name"))
    else
      var owner := Get(pk, "owner_id");
      "pick-" + OrQuestion(season) + "-" + OrQuestion(round) + "-" + OrQuestion(origin) + "-" +
        (if owner.Undefined? || owner.Null? then "?" else JsString(owner))
  }

  /**
   * A pick with a numeric season, round and origin that has a slot is
   * labelled like the curve, from the origin's slot: the same label the
   * ownership resolver gives it.
   */
  lemma PickLabelCanonical(pk: Record, proj: map<int, int>, season: int, round: int, origin: int)
    requires Get(pk, "season") == Number(Finite(season)) && Get(pk, "round") == Number(Finite(round))
    requires Get(pk, "roster_id") == Number(Finite(origin)) && origin in proj
    ensures PickLabelFrom(pk, proj) == BuildPickName(IntToString(season), Finite(round), Finite(proj[origin]))
  {
    assert JsNumber(Coalesce(Get(pk, "season"), Get(pk, "year"))) == Finite(season);
    assert SlotOf(proj, JsNumber(Get(pk, "roster_id"))) == Finite(proj[origin]);
  }

  /** The current owner plays no part in a canonical label. */
  lemma PickLabelIgnoresOwner(pk: Record, proj: map<int, int>, season: int, round: int, origin: int, owner: Field)
    requires Get(pk, "season") == Number(Finite(season)) && Get(pk, "round") == Number(Finite(round))
    requires Get(pk, "roster_id") == Number(Finite(origin)) && origin in proj
    ensures PickLabelFrom(pk["owner_id" := owner], proj) == PickLabelFrom(pk, proj)
  {
    var pk' := pk["owner_id" := owner];
    assert Get(pk', "season") == Get(pk, "season") && Get(pk', "round") == Get(pk, "round");
    assert Get(pk', "roster_id") == Get(pk, "roster_id");
    PickLabelCanonical(pk, proj, season, round, origin);
    PickLabelCanonical(pk', proj, season, round, origin);
  }

  /** `year` stands in for a missing or null `season`. */
  lemma PickLabelYear(pk: Record, proj: map<int, int>, year: int, round: int, origin: int)
    requires Get(pk, "season").Undefined? || Get(pk, "season").Null?
    requires Get(pk, "year") == Number(Finite(year)) && Get(pk, "round") == Number(Finite(round))
    requires Get(pk, "roster_id") == Number(Finite(origin)) && origin in proj
    ensures PickLabelFrom(pk, proj) == BuildPickName(IntToString(year), Finite(round), Finite(proj[origin]))
  {
  }

  /** Without a full canonical label, a truthy `pick_name` is used, and otherwise a "pick-" placeholder. */
  lemma PickLabelFallbacks(pk: Record, proj: map<int, int>)
    requires JsNumber(Get(pk, "roster_id")).NaN? || JsNumber(Get(pk, "roster_id")).value !in proj
    ensures Truthy(Get(pk, "pick_name")) ==> PickLabelFrom(pk, proj) == JsString(Get(pk, "pick_name"))
    ensures !Truthy(Get(pk, "pick_name")) ==> PickLabelFrom(pk, proj)[..5] == "pick-"
  {
  }

  // ------------------------------------------------------------ grades

  /** `gradeFromEdge(edgePct)`, with its "C" rung as written. */
  function GradeFromEdge(edgePct: real): string {
    if edgePct >= 15.0 then "A+"
    else if edgePct >= 10.0 then "A"
    else if edgePct >= 7.0 then "A-"
    else if edgePct >= 5.0 then "B+"
    else if edgePct >= 3.0 then "B"
    else if edgePct >= 0.0 then "B-"
    else if edgePct > 0.0 then "C"
    else if edgePct > -5.0 then "C-"
    else if edgePct > -10.0 then "D"
    else "F"
  }

  /**
   * Every letter either grading ladder hands out, from worst to best, as a
   * rank; anything else ranks -1.
   */
  function LetterRank(letter: string): int {
    if letter == "F" then 0
    else if letter == "D-" then 1
    else if letter == "D" then 2
    else if letter == "C-" then 3
    else if letter == "C" then 4
    else if letter == "B-" then 5
    else if letter == "B" then 6
    else if letter == "B+" then 7
    else if letter == "A-" then 8
    else if letter == "A" then 9
    else if letter == "A+" then 10
    else -1
  }

  /** The "C" rung sits below `>= 0` and so is never returned; every result is one of the nine other letters. */
  lemma GradeNeverC(edgePct: real)
    ensures GradeFromEdge(edgePct) != "C"
    ensures GradeFromEdge(edgePct) in {"A+", "A", "A-", "B+", "B", "B-", "C-", "D", "F"}
  {
  }

  /** A larger edge never gets a worse letter. */
  lemma GradeFromEdgeMonotone(e1: real, e2: real)
    requires e1 <= e2
    ensures LetterRank(GradeFromEdge(e1)) <= LetterRank(GradeFromEdge(e2))
  {
  }

  /** The rungs' lower bounds: the letter of an edge is determined by the first threshold it reaches. */
  lemma GradeThresholds(edgePct: real)
    ensures GradeFromEdge(edgePct) == "A+" <==> edgePct >= 15.0
    ensures GradeFromEdge(edgePct) == "B-" <==> 0.0 <= edgePct < 3.0
    ensures GradeFromEdge(edgePct) == "C-" <==> -5.0 < edgePct < 0.0
    ensures GradeFromEdge(edgePct) == "F" <==> edgePct <= -10.0
  {
  }

  // ------------------------------------------------------------ pick values

  /** A curve entry after the page's normalisation: the name stringified and the value a number. */
  datatype PickValue = PickValue(pickName: string, value: real)

  /** The map `pickValuesToMap` builds: an entry per non-empty name, later rows overwriting earlier ones. */
  function PickValueMap(rows: seq<PickValue>): (m: OrderedMap<real>)
    ensures m.Valid()
  {
    if rows == [] then Empty()
    else
      var m := PickValueMap(rows[..|rows| - 1]);
      var r := rows[|rows| - 1];
      if r.pickName != "" then m.Set(r.pickName, r.value) else m
  }

  /** `pickValuesToMap(rows)`: the loop over the rows. */
  method PickValuesToMap(rows: seq<PickValue>) returns (m: OrderedMap<real>)
    ensures m == PickValueMap(rows)
  {
    m := Empty();
    var i := 0;
    while i < |rows|
      invariant 0 <= i <= |rows|
      invariant m == PickValueMap(rows[..i])
    {
      var r := rows[i];
      if r.pickName != "" {
        m := m.Set(r.pickName, r.value);
      }
      assert rows[..i + 1][..i] == rows[..i];
      i := i + 1;
    }
    assert rows[..i] == rows;
  }

  /** A name has an entry exactly when some row has that non-empty name. */
  lemma {:induction false} PickValueMapKeys(rows: seq<PickValue>, k: string)
    ensures k in PickValueMap(rows).values <==> k != "" && exists i :: 0 <= i < |rows| && rows[i].pickName == k
  {
    if rows != [] {
      var init := rows[..|rows| - 1];
      PickValueMapKeys(init, k);
      assert forall i :: 0 <= i < |init| ==> rows[i] == init[i];
    }
  }

  /** The entry of a name is the value of the last row with that name. */
  lemma {:induction false} PickValueMapLast(rows: seq<PickValue>, i: nat)
    requires i < |rows| && rows[i].pickName != ""
    requires forall j :: i < j < |rows| ==> rows[j].pickName != rows[i].pickName
    ensures rows[i].pickName in PickValueMap(rows).values
    ensures PickValueMap(rows).values[rows[i].pickName] == rows[i].value
  {
    var init := rows[..|rows| - 1];
    if i < |rows| - 1 {
      assert init[i] == rows[i];
      assert forall j :: i < j < |init| ==> init[j] == rows[j];
      PickValueMapLast(init, i);
    }
  }

  // ------------------------------------------------------------ filters

  /** `includesAll(hay, needle)`: every space-separated word of the needle is a substring of the hay. */
  predicate IncludesAll(hay: string, needle: string) {
    needle == "" || forall w :: w in Split(needle, ' ') ==> Contains(hay, w)
  }

  /** A needle of one word is a plain substring test. */
  lemma IncludesAllOneWord(hay: string, needle: string)
    requires ' ' !in needle
    ensures IncludesAll(hay, needle) <==> Contains(hay, needle)
  {
    SplitNone(needle, ' ');
    if needle == "" {
      ContainsAt(hay, "", 0);
    }
  }

  /** A needle of several words: the first word and the rest must both be found. */
  lemma IncludesAllCons(hay: string, w: string, rest: string)
    requires ' ' !in w && rest != ""
    ensures IncludesAll(hay, w + " " + rest) <==> Contains(hay, w) && IncludesAll(hay, rest)
  {
    assert w + " " + rest == w + [' '] + rest;
    SplitCons(w, ' ', rest);
  }

  /** Whatever the needle finds in a hay it also finds in any longer hay that contains it. */
  lemma IncludesAllWider(hay: string, wider: string, needle: string)
    requires Contains(wider, hay) && IncludesAll(hay, needle)
    ensures IncludesAll(wider, needle)
  {
    forall w | w in Split(needle, ' ') && needle != ""
      ensures Contains(wider, w)
    {
      ContainsTransitive(wider, hay, w);
    }
  }

  /** `matchVal(val, min, max)`: the value, missing counting as 0 and non-numbers as 0, within both bounds inclusive. */
  predicate MatchVal(val: Field, lo: real, hi: real) {
    var v := NumOrZero(Coalesce(val, Number(Finite(0))));
    lo <= v <= hi
  }

  /**
   * Both bounds are inclusive and a fraction is compared as it is; a missing
   * value and one that is not a number count as 0. A number and its text
   * match alike.
   */
  lemma MatchValBounds(val: Field, lo: real, hi: real)
    ensures JsReal(val).Some? ==> (MatchVal(val, lo, hi) <==> lo <= JsReal(val).value <= hi)
    ensures val.Undefined? || JsReal(val).None? ==> (MatchVal(val, lo, hi) <==> lo <= 0.0 <= hi)
    ensures val.Number? || val.Decimal? ==> (MatchVal(Text(JsString(val)), lo, hi) <==> MatchVal(val, lo, hi))
  {
    if val.Number? || val.Decimal? {
      NumberOfString(val);
    }
  }

  // ------------------------------------------------------------ assets

  datatype AssetKind = Player | Pick

  /** A trade piece; `name` is the source's display label. */
  datatype Asset = Asset(kind: AssetKind, id: string, name: string, val: real)

  /** `a ?? b ?? ... ?? last` over record fields. */
  function FirstPresent(r: Record, keys: seq<string>, last: Field): (f: Field)
    ensures f == last || exists i :: 0 <= i < |keys| && f == Get(r, keys[i])
  {
    if keys == [] then last else Coalesce(Get(r, keys[0]), FirstPresent(r, keys[1..], last))
  }

  /** `toAssetFromPlayer(p)`. */
  function ToAssetFromPlayer(p: Record): Asset {
    var sid := JsString(FirstPresent(p, ["uid", "player_id", "sleeper_id", "id"], Text("")));
    var name := JsString(FirstPresent(p, ["name", "full_name", "Name"], Text("Unknown")));
    Asset(Player, "player:" + sid, name, NumOrZero(Get(p, "value_final_1000")))
  }

  /**
   * A player's value is `value_final_1000` read as a number, fraction kept,
   * or 0 when it is missing or not a number; a value stored as text is worth
   * the same as the number it spells.
   */
  lemma PlayerAssetValue(p: Record)
    ensures var f, a := Get(p, "value_final_1000"), ToAssetFromPlayer(p);
      (JsReal(f).Some? ==> a.val == JsReal(f).value) &&
      (f.Undefined? || JsReal(f).None? ==> a.val == 0.0) &&
      (JsNumber(f).Finite? ==> a.val == JsNumber(f).value as real)
    ensures var f := Get(p, "value_final_1000");
      f.Number? || f.Decimal? ==>
        ToAssetFromPlayer(p["value_final_1000" := Text(JsString(f))]).val == ToAssetFromPlayer(p).val
  {
    var f := Get(p, "value_final_1000");
    JsRealAgrees(f);
    if f.Number? || f.Decimal? {
      NumberOfString(f);
      assert Get(p["value_final_1000" := Text(JsString(f))], "value_final_1000") == Text(JsString(f));
    }
  }

  /** `toAssetFromPick(pk, pickValues, proj)`: valued from the map by its label, 0 when the label is missing. */
  function ToAssetFromPick(pk: Record, pickValues: OrderedMap<real>, proj: map<int, int>): Asset {
    var name := PickLabelFrom(pk, proj);
    Asset(Pick, "pick:" + name, name, pickValues.GetOr(name, 0.0))
  }

  /** Player and pick ids never collide, and a pick's id determines its label. */
  lemma AssetIds(p: Record, pk: Record, pk2: Record, pickValues: OrderedMap<real>, proj: map<int, int>)
    ensures ToAssetFromPlayer(p).id != ToAssetFromPick(pk, pickValues, proj).id
    ensures ToAssetFromPick(pk, pickValues, proj).id == ToAssetFromPick(pk2, pickValues, proj).id ==>
      ToAssetFromPick(pk, pickValues, proj) == ToAssetFromPick(pk2, pickValues, proj)
  {
    var a, b := ToAssetFromPlayer(p).id, ToAssetFromPick(pk, pickValues, proj).id;
    assert a[1] == 'l' && b[1] == 'i';
    var n1, n2 := PickLabelFrom(pk, proj), PickLabelFrom(pk2, proj);
    if "pick:" + n1 == "pick:" + n2 {
      assert n1 == ("pick:" + n1)[5..];
    }
  }

  /** The id of a player asset is the first present of `uid`, `player_id`, `sleeper_id` and `id`. */
  lemma PlayerIdPrecedence(p: Record, uid: string)
    requires Get(p, "uid") == Text(uid)
    ensures ToAssetFromPlayer(p).id == "player:" + uid
  {
  }

  // ------------------------------------------------------------ totals

  /** `sideTotal(assets)`: the sum of the asset values. */
  function SideTotal(assets: seq<Asset>): real {
    if assets == [] then 0.0 else SideTotal(assets[..|assets| - 1]) + assets[|assets| - 1].val
  }

  /** `edge`. */
  function Edge(a: seq<Asset>, b: seq<Asset>): real {
    SideTotal(a) - SideTotal(b)
  }

  /** `Math.max(x, y, z)`. */
  function Max3(x: real, y: real, z: real): (m: real)
    ensures m >= x && m >= y && m >= z
    ensures m == x || m == y || m == z
  {
    if x >= y && x >= z then x else if y >= z then y else z
  }

  /** `edgePct` before rounding: the edge over the larger total, and never over less than 1. */
  function EdgePct(a: seq<Asset>, b: seq<Asset>): (pct: real)
  {
    Edge(a, b) / Max3(SideTotal(a), SideTotal(b), 1.0) * 100.0
  }

  /** Adding an asset to a side adds its value. */
  lemma {:induction false} SideTotalAppend(a: seq<Asset>, b: seq<Asset>)
    ensures SideTotal(a + b) == SideTotal(a) + SideTotal(b)
  {
    if b == [] {
      assert a + b == a;
    } else {
      assert (a + b)[..|a + b| - 1] == a + b[..|b| - 1];
      SideTotalAppend(a, b[..|b| - 1]);
    }
  }

  predicate NonNegativeValues(assets: seq<Asset>) {
    forall i :: 0 <= i < |assets| ==> assets[i].val >= 0.0
  }

  lemma {:induction false} SideTotalNonNegative(assets: seq<Asset>)
    requires NonNegativeValues(assets)
    ensures SideTotal(assets) >= 0.0
  {
    if assets != [] {
      SideTotalNonNegative(assets[..|assets| - 1]);
    }
  }

  /**
   * With non-negative values the percentage lies in -100..100, its sign is
   * the edge's, and swapping the sides negates it.
   */
  lemma EdgePctBounds(a: seq<Asset>, b: seq<Asset>)
    requires NonNegativeValues(a) && NonNegativeValues(b)
    ensures -100.0 <= EdgePct(a, b) <= 100.0
    ensures EdgePct(a, b) >= 0.0 <==> SideTotal(a) >= SideTotal(b)
    ensures EdgePct(b, a) == -EdgePct(a, b)
  {
    SideTotalNonNegative(a);
    SideTotalNonNegative(b);
    var ta, tb := SideTotal(a), SideTotal(b);
    var d := Max3(ta, tb, 1.0);
    assert Max3(tb, ta, 1.0) == d;
    ScaledRatio(ta - tb, d);
  }

  /** The ratio of a difference to a bound on its size, as a percentage. */
  lemma ScaledRatio(x: real, d: real)
    requires d >= 1.0 && -d <= x <= d
    ensures -100.0 <= x / d * 100.0 <= 100.0
    ensures x / d * 100.0 >= 0.0 <==> x >= 0.0
    ensures (-x) / d * 100.0 == -(x / d * 100.0)
  {
    var q := x / d;
    assert q * d == x;
    assert -1.0 <= q <= 1.0;
  }

  // ------------------------------------------------------------ owners

  /** A roster as the page reads it: its id and the players list when it is an array. */
  datatype Roster = Roster(rosterId: int, players: Option<seq<Field>>)

  function PlayersOf(r: Roster): seq<Field> {
    match r.players
    case Some(ps) => ps
    case None => []
  }

  /** `m[String(pid)] = rid` for each listed player. */
  function AddPlayers(m: map<string, int>, rid: int, pids: seq<Field>): (m': map<string, int>)
  {
    if pids == [] then m else AddPlayers(m, rid, pids[..|pids| - 1])[JsString(pids[|pids| - 1]) := rid]
  }

  /** The map `ownerByPlayerId` builds: each roster in turn writes its players. */
  function OwnerMap(rosters: seq<Roster>): map<string, int> {
    if rosters == [] then map[]
    else var r := rosters[|rosters| - 1]; AddPlayers(OwnerMap(rosters[..|rosters| - 1]), r.rosterId, PlayersOf(r))
  }

  /** The inner loop over one roster's players. */
  method AddRosterPlayers(m0: map<string, int>, r: Roster) returns (m: map<string, int>)
    ensures m == AddPlayers(m0, r.rosterId, PlayersOf(r))
  {
    var list := PlayersOf(r);
    m := m0;
    var j := 0;
    while j < |list|
      invariant 0 <= j <= |list|
      invariant m == AddPlayers(m0, r.rosterId, list[..j])
    {
      assert list[..j + 1][..j] == list[..j];
      m := m[JsString(list[j]) := r.rosterId];
      j := j + 1;
    }
    assert list[..j] == list;
  }

  /** `ownerByPlayerId`: the nested loop. */
  method OwnerByPlayerId(rosters: seq<Roster>) returns (m: map<string, int>)
    ensures m == OwnerMap(rosters)
  {
    m := map[];
    var i := 0;
    while i < |rosters|
      invariant 0 <= i <= |rosters|
      invariant m == OwnerMap(rosters[..i])
    {
      assert rosters[..i + 1][..i] == rosters[..i];
      m := AddRosterPlayers(m, rosters[i]);
      i := i + 1;
    }
    assert rosters[..i] == rosters;
  }

  /** Whether roster `r` lists a player whose id stringifies to `k`. */
  predicate Lists(r: Roster, k: string) {
    exists j :: 0 <= j < |PlayersOf(r)| && JsString(PlayersOf(r)[j]) == k
  }

  lemma {:induction false} AddPlayersEntry(m: map<string, int>, rid: int, pids: seq<Field>, k: string)
    ensures var m' := AddPlayers(m, rid, pids);
      (k in m' <==> k in m || exists j :: 0 <= j < |pids| && JsString(pids[j]) == k) &&
      ((exists j :: 0 <= j < |pids| && JsString(pids[j]) == k) ==> k in m' && m'[k] == rid) &&
      ((forall j :: 0 <= j < |pids| ==> JsString(pids[j]) != k) ==> (k in m ==> k in m' && m'[k] == m[k]))
  {
    if pids != [] {
      var init := pids[..|pids| - 1];
      AddPlayersEntry(m, rid, init, k);
      assert forall j :: 0 <= j < |init| ==> pids[j] == init[j];
    }
  }

  /** A player id has an owner exactly when some roster lists it. */
  lemma {:induction false} OwnerMapKeys(rosters: seq<Roster>, k: string)
    ensures k in OwnerMap(rosters) <==> exists i :: 0 <= i < |rosters| && Lists(rosters[i], k)
  {
    if rosters != [] {
      var init := rosters[..|rosters| - 1];
      var r := rosters[|rosters| - 1];
      var before := OwnerMap(init);
      assert OwnerMap(rosters) == AddPlayers(before, r.rosterId, PlayersOf(r));
      OwnerMapKeys(init, k);
      AddPlayersEntry(before, r.rosterId, PlayersOf(r), k);
      assert k in OwnerMap(rosters) <==> k in before || Lists(r, k);
      ListedIn(rosters, k);
    }
  }

  /** Some roster lists `k` exactly when an earlier one or the last one does. */
  lemma ListedIn(rosters: seq<Roster>, k: string)
    requires rosters != []
    ensures var init := rosters[..|rosters| - 1];
      (exists i :: 0 <= i < |rosters| && Lists(rosters[i], k)) <==>
      (exists i :: 0 <= i < |init| && Lists(init[i], k)) || Lists(rosters[|rosters| - 1], k)
  {
    var init := rosters[..|rosters| - 1];
    if i :| 0 <= i < |rosters| && Lists(rosters[i], k) {
      if i < |init| {
        assert init[i] == rosters[i];
      }
    }
    if i :| 0 <= i < |init| && Lists(init[i], k) {
      assert rosters[i] == init[i];
    }
  }

  /** The owner of a player id is the last roster, in list order, that lists it. */
  lemma {:induction false} OwnerMapLast(rosters: seq<Roster>, i: nat, k: string)
    requires i < |rosters| && Lists(rosters[i], k)
    requires forall j :: i < j < |rosters| ==> !Lists(rosters[j], k)
    ensures k in OwnerMap(rosters) && OwnerMap(rosters)[k] == rosters[i].rosterId
  {
    var init := rosters[..|rosters| - 1];
    var r := rosters[|rosters| - 1];
    AddPlayersEntry(OwnerMap(init), r.rosterId, PlayersOf(r), k);
    if i < |rosters| - 1 {
      assert init[i] == rosters[i];
      assert forall j :: i < j < |init| ==> init[j] == rosters[j];
      OwnerMapLast(init, i, k);
    }
  }
}
