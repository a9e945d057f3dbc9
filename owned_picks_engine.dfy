/**
 * The loops of `computeOwnedPicks` (src/logic/ownedPicks.ts), each proved to
 * compute the function of module OwnedPicks that specifies it: the Set-filling
 * scan of the curve keys, the triple loop that seeds `currentOwnerByKey`, the
 * trade loop, the flattening loop that pushes to `all`, the grouping loop that
 * pushes to both bucket maps, and the final sorts.
 */
module OwnedPicksEngine {
  import opened Wrappers
  import opened Strings
  import opened Numbers
  import opened Picks
  import opened Sorting
  import opened JsMaps
  import opened OwnedPicks

  /** `inferSeasonsAndRounds(pickMap)`: two Sets filled from the matching keys, then sorted. */
  method InferSeasonsAndRounds(keys: seq<string>) returns (seasons: seq<string>, rounds: seq<nat>)
    ensures seasons == InferSeasons(keys) && rounds == InferRounds(keys)
  {
    var seenSeasons: seq<string> := [];
    var seenRounds: seq<nat> := [];
    var i := 0;
    while i < |keys|
      invariant 0 <= i <= |keys|
      invariant seenSeasons == SeasonsSeen(keys[..i])
      invariant seenRounds == RoundsSeen(keys[..i])
    {
      var m := MatchPickLabel(keys[i]);
      if m.Some? {
        if m.value.season !in seenSeasons {
          seenSeasons := seenSeasons + [m.value.season];
        }
        if m.value.round !in seenRounds {
          seenRounds := seenRounds + [m.value.round];
        }
      }
      assert keys[..i + 1][..i] == keys[..i];
      i := i + 1;
    }
    assert keys[..i] == keys;
    seasons := SortBy(seenSeasons, LexLe);
    rounds := SortBy(seenRounds, NatLe);
  }

  /** The innermost loop, over the origin rosters of one season and round. */
  method SeedOriginsLoop(t0: OrderedMap<int>, season: string, round: nat, origins: seq<int>)
    returns (t: OrderedMap<int>)
    ensures t == SeedOrigins(t0, season, round, origins)
  {
    t := t0;
    var l := 0;
    while l < |origins|
      invariant 0 <= l <= |origins|
      invariant t == SeedOrigins(t0, season, round, origins[..l])
    {
      var origin := origins[l];
      t := t.Set(PickKey(season, round, origin), origin);
      assert origins[..l + 1][..l] == origins[..l];
      l := l + 1;
    }
    assert origins[..l] == origins;
  }

  /** The middle loop, over the rounds of one season. */
  method SeedRoundsLoop(t0: OrderedMap<int>, season: string, rounds: seq<nat>, origins: seq<int>)
    returns (t: OrderedMap<int>)
    ensures t == SeedRounds(t0, season, rounds, origins)
  {
    t := t0;
    var j := 0;
    while j < |rounds|
      invariant 0 <= j <= |rounds|
      invariant t == SeedRounds(t0, season, rounds[..j], origins)
    {
      t := SeedOriginsLoop(t, season, rounds[j], origins);
      assert rounds[..j + 1][..j] == rounds[..j];
      j := j + 1;
    }
    assert rounds[..j] == rounds;
  }

  /** The triple loop `for season / for round / for origin`, setting every key to its origin. */
  method SeedBaseline(seasons: seq<string>, rounds: seq<nat>, origins: seq<int>) returns (t: OrderedMap<int>)
    ensures t == Baseline(seasons, rounds, origins)
  {
    t := Empty();
    var i := 0;
    while i < |seasons|
      invariant 0 <= i <= |seasons|
      invariant t == SeedSeasons(Empty(), seasons[..i], rounds, origins)
    {
      t := SeedRoundsLoop(t, seasons[i], rounds, origins);
      assert seasons[..i + 1][..i] == seasons[..i];
      i := i + 1;
    }
    assert seasons[..i] == seasons;
  }

  /** The trade loop: a record whose key is in the map sets its owner; others are skipped. */
  method ReplayTrades(base: OrderedMap<int>, trades: seq<TradedPick>) returns (t: OrderedMap<int>)
    ensures t == Replay(base, trades)
  {
    t := base;
    var i := 0;
    while i < |trades|
      invariant 0 <= i <= |trades|
      invariant t == Replay(base, trades[..i])
    {
      var tp := trades[i];
      var key := TradeKey(tp);
      if key in t.values {
        t := t.Set(key, tp.ownerId);
      }
      assert trades[..i + 1][..i] == trades[..i];
      i := i + 1;
    }
    assert trades[..i] == trades;
  }

  /** The loop over `currentOwnerByKey.entries()` that pushes one labelled, valued entry per key. */
  method FlattenOwnership(t: OrderedMap<int>, slots: map<int, int>, pickMap: OrderedMap<real>)
    returns (all: seq<OwnedPick>)
    requires Flattenable(t)
    ensures all == Flatten(t, slots, pickMap)
  {
    ghost var spec := Flatten(t, slots, pickMap);
    all := [];
    var i := 0;
    while i < |t.keys|
      invariant 0 <= i <= |t.keys|
      invariant all == spec[..i]
    {
      var key := t.keys[i];
      var ownerRosterId := t.values[key];
      var parts := DecodeKey(key);
      var season, round, originRosterId := parts.0, parts.1.value, parts.2.value;
      var name := MakeLabel(season, round, originRosterId, slots);
      var value := ValueOf(pickMap, name);
      var e := OwnedPick(season, round, originRosterId, ownerRosterId, name, value);
      assert e == spec[i];
      PrefixGrows(spec, i);
      all := all + [e];
      i := i + 1;
    }
    assert spec[..i] == spec;
  }

  /** The next prefix is the prefix and one more element. */
  lemma PrefixGrows(s: seq<OwnedPick>, i: nat)
    requires i < |s|
    ensures s[..i + 1] == s[..i] + [s[i]]
  {
  }

  /** The grouping loop: each entry is pushed to its owner's bucket in both maps. */
  method GroupEntries(all: seq<OwnedPick>) returns (byRosterId: map<string, seq<OwnedPick>>,
                                                   byUserId: map<string, seq<OwnedPick>>)
    ensures byRosterId == GroupByOwner(all) && byUserId == GroupByOwner(all)
  {
    byRosterId, byUserId := map[], map[];
    var i := 0;
    while i < |all|
      invariant 0 <= i <= |all|
      invariant byRosterId == GroupByOwner(all[..i]) && byUserId == GroupByOwner(all[..i])
    {
      var p := all[i];
      var k := OwnerKey(p);
      if k !in byRosterId {
        byRosterId := byRosterId[k := []];
      }
      byRosterId := byRosterId[k := byRosterId[k] + [p]];
      if k !in byUserId {
        byUserId := byUserId[k := []];
      }
      byUserId := byUserId[k := byUserId[k] + [p]];
      assert all[..i + 1][..i] == all[..i];
      i := i + 1;
    }
    assert all[..i] == all;
  }

  /** `computeOwnedPicks`: the stages in the order the source runs them. */
  method ComputeOwnedPicks(rosterIds: seq<int>, trades: seq<TradedPick>, slots: map<int, int>,
                           pickMap: OrderedMap<real>) returns (res: OwnedPicksResult)
    ensures res == OwnedPicks.ComputeOwnedPicks(rosterIds, trades, slots, pickMap)
  {
    var seasons, rounds := InferSeasonsAndRounds(pickMap.keys);
    if |seasons| == 0 || |rounds| == 0 {
      return OwnedPicksResult(map[], map[], []);
    }
    var base := SeedBaseline(seasons, rounds, rosterIds);
    var owners := ReplayTrades(base, trades);
    InferSeasonsDashFree(pickMap.keys);
    GridFlattenable(seasons, rounds, rosterIds, trades);
    var all := FlattenOwnership(owners, slots, pickMap);
    var byRosterId, byUserId := GroupEntries(all);
    all := SortBy(all, PickBefore);
    byRosterId := SortBuckets(byRosterId);
    byUserId := SortBuckets(byUserId);
    res := OwnedPicksResult(byUserId, byRosterId, all);
  }
}
