/**
 * What `computeOwnedPicks` (src/logic/ownedPicks.ts) promises, proved about
 * the function OwnedPicks.ComputeOwnedPicks that the loops of module
 * OwnedPicksEngine compute: which entries `all` holds, how many, which bucket
 * each lands in, and the order of `all` and of every bucket.
 */
module OwnedPicksProperties {
  import opened Wrappers
  import opened Strings
  import opened Numbers
  import opened Picks
  import opened Sorting
  import opened JsMaps
  import opened OwnedPicks

  /**
   * The origin an entry reports: `Number(originStr)` after `key.split("-")`.
   * A negative id writes a second dash into the key, the third part is then
   * empty, and `Number("")` is 0.
   */
  function DecodedOrigin(o: int): (d: int)
    ensures o >= 0 ==> d == o
    ensures o < 0 ==> d == 0
  {
    if o >= 0 then o else 0
  }

  /**
   * The entry for season `s`, round `r` and origin roster `o`: owned by the last
   * trade record naming its key (by the origin when none does), labelled from
   * the origin's slot, and valued from the curve under that label.
   */
  function GridEntry(s: string, r: nat, o: int, trades: seq<TradedPick>, slots: map<int, int>,
                     pickMap: OrderedMap<real>): OwnedPick
  {
    var origin := DecodedOrigin(o);
    var name := MakeLabel(s, r, origin, slots);
    OwnedPick(s, r, origin, LastOwner(trades, PickKey(s, r, o)).GetOr(o), name, ValueOf(pickMap, name))
  }

  /** A grid key decodes into a grid entry. */
  lemma EntryOfGridKey(s: string, r: nat, o: int, w: int, slots: map<int, int>, pickMap: OrderedMap<real>)
    requires '-' !in s
    ensures Decodable(PickKey(s, r, o))
    ensures var name := MakeLabel(s, r, DecodedOrigin(o), slots);
      EntryOf(PickKey(s, r, o), w, slots, pickMap) ==
        OwnedPick(s, r, DecodedOrigin(o), w, name, ValueOf(pickMap, name))
  {
    DecodePickKey(s, r, o);
  }

  /** Sorting keeps the elements and the length. */
  lemma SortKeeps<T>(s: seq<T>, le: (T, T) -> bool)
    ensures |SortBy(s, le)| == |s|
    ensures forall x :: x in SortBy(s, le) <==> x in s
  {
    assert |multiset(SortBy(s, le))| == |multiset(s)|;
    forall x ensures x in SortBy(s, le) <==> x in s {
      assert x in SortBy(s, le) <==> x in multiset(SortBy(s, le));
    }
  }

  /** Without origin rosters a round adds no key. */
  lemma {:induction false} NoOriginsRounds(t: OrderedMap<int>, season: string, rounds: seq<nat>)
    ensures SeedRounds(t, season, rounds, []) == t
  {
    if rounds != [] {
      NoOriginsRounds(t, season, rounds[..|rounds| - 1]);
    }
  }

  /** Without seasons, rounds or rosters the grid has no keys. */
  lemma {:induction false} EmptyGrid(seasons: seq<string>, rounds: seq<nat>, origins: seq<int>)
    requires seasons == [] || rounds == [] || origins == []
    ensures Baseline(seasons, rounds, origins).keys == []
  {
    if seasons != [] {
      EmptyGrid(seasons[..|seasons| - 1], rounds, origins);
      if origins == [] {
        NoOriginsRounds(Baseline(seasons[..|seasons| - 1], rounds, origins), seasons[|seasons| - 1], rounds);
      }
    }
  }

  /** The unsorted entries: one per key of the ownership map. */
  lemma ResolvedLength(rosterIds: seq<int>, trades: seq<TradedPick>, slots: map<int, int>, pickMap: OrderedMap<real>)
    ensures |Resolved(rosterIds, trades, slots, pickMap)| ==
      |Baseline(InferSeasons(pickMap.keys), InferRounds(pickMap.keys), rosterIds).keys|
  {
    var seasons, rounds := InferSeasons(pickMap.keys), InferRounds(pickMap.keys);
    InferSeasonsDashFree(pickMap.keys);
    var t := Baseline(seasons, rounds, rosterIds);
    BaselineSpec(seasons, rounds, rosterIds);
    ReplaySpec(t, trades);
  }

  /**
   * The result's three parts: empty without a grid, and otherwise `all` sorted
   * and two copies of the same sorted buckets.
   */
  lemma ComputeShape(rosterIds: seq<int>, trades: seq<TradedPick>, slots: map<int, int>, pickMap: OrderedMap<real>)
    ensures var res := ComputeOwnedPicks(rosterIds, trades, slots, pickMap);
      var all := Resolved(rosterIds, trades, slots, pickMap);
      res.byUserId == res.byRosterId &&
      if InferSeasons(pickMap.keys) == [] || InferRounds(pickMap.keys) == [] then
        res == OwnedPicksResult(map[], map[], []) && all == []
      else
        res.all == SortBy(all, PickBefore) && res.byRosterId == SortBuckets(GroupByOwner(all))
  {
    var seasons, rounds := InferSeasons(pickMap.keys), InferRounds(pickMap.keys);
    if seasons == [] || rounds == [] {
      EmptyGrid(seasons, rounds, rosterIds);
      ResolvedLength(rosterIds, trades, slots, pickMap);
    }
  }

  /** Each key of the replayed grid is the key of some season, round and origin. */
  lemma ReplayedKeyInGrid(seasons: seq<string>, rounds: seq<nat>, origins: seq<int>, trades: seq<TradedPick>, i: nat)
    requires DashFree(seasons) && i < |Replay(Baseline(seasons, rounds, origins), trades).keys|
    ensures InGrid(Replay(Baseline(seasons, rounds, origins), trades).keys[i], seasons, rounds, origins)
  {
    var t := Baseline(seasons, rounds, origins);
    BaselineSpec(seasons, rounds, origins);
    ReplaySpec(t, trades);
    assert t.keys[i] in t.values;
  }

  /** Each grid key is in the replayed grid, owned by its last trade record or else by its origin. */
  lemma GridKeyReplayed(seasons: seq<string>, rounds: seq<nat>, origins: seq<int>, trades: seq<TradedPick>,
                        s: string, r: nat, o: int) returns (i: nat)
    requires DashFree(seasons) && s in seasons && r in rounds && o in origins
    ensures var u := Replay(Baseline(seasons, rounds, origins), trades);
      i < |u.keys| && u.keys[i] == PickKey(s, r, o) && u.keys[i] in u.values &&
      u.values[u.keys[i]] == LastOwner(trades, PickKey(s, r, o)).GetOr(o)
  {
    var t := Baseline(seasons, rounds, origins);
    BaselineSpec(seasons, rounds, origins);
    ReplaySpec(t, trades);
    var k := PickKey(s, r, o);
    assert InGrid(k, seasons, rounds, origins);
    assert k in t.keys;
    i :| 0 <= i < |t.keys| && t.keys[i] == k;
  }

  /** The owner of a replayed grid key is its last trade record's owner or else its origin. */
  lemma ReplayedOwner(seasons: seq<string>, rounds: seq<nat>, origins: seq<int>, trades: seq<TradedPick>,
                      s: string, r: nat, o: int)
    requires DashFree(seasons) && s in seasons && r in rounds && o in origins
    ensures var u := Replay(Baseline(seasons, rounds, origins), trades);
      PickKey(s, r, o) in u.values && u.values[PickKey(s, r, o)] == LastOwner(trades, PickKey(s, r, o)).GetOr(o)
  {
    var i := GridKeyReplayed(seasons, rounds, origins, trades, s, r, o);
  }

  /** The unsorted entries are exactly the grid entries. */
  lemma ResolvedEntries(rosterIds: seq<int>, trades: seq<TradedPick>, slots: map<int, int>, pickMap: OrderedMap<real>)
    ensures var seasons, rounds := InferSeasons(pickMap.keys), InferRounds(pickMap.keys);
      forall p :: p in Resolved(rosterIds, trades, slots, pickMap) <==>
        exists s, r, o :: s in seasons && r in rounds && o in rosterIds &&
          p == GridEntry(s, r, o, trades, slots, pickMap)
  {
    var seasons, rounds := InferSeasons(pickMap.keys), InferRounds(pickMap.keys);
    InferSeasonsDashFree(pickMap.keys);
    GridFlattenable(seasons, rounds, rosterIds, trades);
    var u := Replay(Baseline(seasons, rounds, rosterIds), trades);
    var all := Resolved(rosterIds, trades, slots, pickMap);
    assert all == Flatten(u, slots, pickMap);
    forall p | p in all
      ensures exists s, r, o :: (s in seasons && r in rounds && o in rosterIds &&
        p == GridEntry(s, r, o, trades, slots, pickMap))
    {
      var i :| 0 <= i < |all| && all[i] == p;
      ReplayedKeyInGrid(seasons, rounds, rosterIds, trades, i);
      var s, r, o :| s in seasons && r in rounds && o in rosterIds && u.keys[i] == PickKey(s, r, o);
      ReplayedOwner(seasons, rounds, rosterIds, trades, s, r, o);
      EntryOfGridKey(s, r, o, u.values[u.keys[i]], slots, pickMap);
      assert p == GridEntry(s, r, o, trades, slots, pickMap);
    }
    forall s, r, o | s in seasons && r in rounds && o in rosterIds
      ensures GridEntry(s, r, o, trades, slots, pickMap) in all
    {
      var i := GridKeyReplayed(seasons, rounds, rosterIds, trades, s, r, o);
      EntryOfGridKey(s, r, o, u.values[u.keys[i]], slots, pickMap);
      assert all[i] == GridEntry(s, r, o, trades, slots, pickMap);
    }
  }

  /**
   * `all` holds exactly one kind of entry: for each curve season, curve round and
   * roster id, the pick owned by the last trade record naming it (or by its
   * origin), labelled from the origin's slot and valued `pickMap[label] ?? 0`.
   */
  lemma AllEntries(rosterIds: seq<int>, trades: seq<TradedPick>, slots: map<int, int>, pickMap: OrderedMap<real>)
    ensures var seasons, rounds := InferSeasons(pickMap.keys), InferRounds(pickMap.keys);
      forall p :: p in ComputeOwnedPicks(rosterIds, trades, slots, pickMap).all <==>
        exists s, r, o :: s in seasons && r in rounds && o in rosterIds &&
          p == GridEntry(s, r, o, trades, slots, pickMap)
  {
    ComputeShape(rosterIds, trades, slots, pickMap);
    ResolvedEntries(rosterIds, trades, slots, pickMap);
    SortKeeps(Resolved(rosterIds, trades, slots, pickMap), PickBefore);
  }

  /** With no repeated roster id, `all` has one entry per season x round x roster id. */
  lemma AllCount(rosterIds: seq<int>, trades: seq<TradedPick>, slots: map<int, int>, pickMap: OrderedMap<real>)
    requires NoDup(rosterIds)
    ensures |ComputeOwnedPicks(rosterIds, trades, slots, pickMap).all| ==
      |InferSeasons(pickMap.keys)| * |InferRounds(pickMap.keys)| * |rosterIds|
  {
    var seasons, rounds := InferSeasons(pickMap.keys), InferRounds(pickMap.keys);
    assert |Baseline(seasons, rounds, rosterIds).keys| == |seasons| * |rounds| * |rosterIds| by {
      InferSeasonsSpec(pickMap.keys);
      InferRoundsSpec(pickMap.keys);
      InferSeasonsDashFree(pickMap.keys);
      BaselineSpec(seasons, rounds, rosterIds);
    }
    AllLength(rosterIds, trades, slots, pickMap);
  }

  /** No curve key of the form "YYYY R.PP" means no picks at all. */
  lemma NoCurveNoPicks(rosterIds: seq<int>, trades: seq<TradedPick>, slots: map<int, int>, pickMap: OrderedMap<real>)
    requires forall k :: k in pickMap.keys ==> MatchPickLabel(k).None?
    ensures ComputeOwnedPicks(rosterIds, trades, slots, pickMap) == OwnedPicksResult(map[], map[], [])
  {
    InferEmptyTogether(pickMap.keys);
  }

  /** The grid has a key exactly when there is a season, a round and an origin roster. */
  lemma GridNonEmpty(seasons: seq<string>, rounds: seq<nat>, origins: seq<int>)
    requires DashFree(seasons)
    ensures Baseline(seasons, rounds, origins).keys != [] <==> seasons != [] && rounds != [] && origins != []
  {
    if seasons == [] || rounds == [] || origins == [] {
      EmptyGrid(seasons, rounds, origins);
    } else {
      BaselineSpec(seasons, rounds, origins);
      assert InGrid(PickKey(seasons[0], rounds[0], origins[0]), seasons, rounds, origins);
    }
  }

  /** `all` has one entry per key of the ownership map. */
  lemma AllLength(rosterIds: seq<int>, trades: seq<TradedPick>, slots: map<int, int>, pickMap: OrderedMap<real>)
    ensures |ComputeOwnedPicks(rosterIds, trades, slots, pickMap).all| ==
      |Baseline(InferSeasons(pickMap.keys), InferRounds(pickMap.keys), rosterIds).keys|
  {
    ComputeShape(rosterIds, trades, slots, pickMap);
    ResolvedLength(rosterIds, trades, slots, pickMap);
    SortKeeps(Resolved(rosterIds, trades, slots, pickMap), PickBefore);
  }

  /** There is at least one entry exactly when some curve key matches and there is a roster. */
  lemma SomePicks(rosterIds: seq<int>, trades: seq<TradedPick>, slots: map<int, int>, pickMap: OrderedMap<real>)
    ensures ComputeOwnedPicks(rosterIds, trades, slots, pickMap).all != [] <==>
      rosterIds != [] && exists k :: k in pickMap.keys && MatchPickLabel(k).Some?
  {
    InferEmptyTogether(pickMap.keys);
    AllLength(rosterIds, trades, slots, pickMap);
    InferSeasonsDashFree(pickMap.keys);
    GridNonEmpty(InferSeasons(pickMap.keys), InferRounds(pickMap.keys), rosterIds);
  }

  /**
   * The buckets cover a list: a bucket exists for exactly the owners in it,
   * each entry is in the bucket of its owner, and a bucket holds only entries
   * of its owner.
   */
  ghost predicate BucketsCover(all: seq<OwnedPick>, b: map<string, seq<OwnedPick>>) {
    (forall k :: k in b <==> exists p :: p in all && OwnerKey(p) == k) &&
    (forall p :: p in all ==> OwnerKey(p) in b && p in b[OwnerKey(p)]) &&
    (forall k, p :: k in b && p in b[k] ==> p in all && OwnerKey(p) == k)
  }

  /** The buckets cover `all`, and each holds its owner's entries, each once per occurrence. */
  lemma BucketsSpec(rosterIds: seq<int>, trades: seq<TradedPick>, slots: map<int, int>, pickMap: OrderedMap<real>)
    ensures var res := ComputeOwnedPicks(rosterIds, trades, slots, pickMap);
      res.byUserId == res.byRosterId && BucketsCover(res.all, res.byRosterId)
    ensures var res := ComputeOwnedPicks(rosterIds, trades, slots, pickMap);
      forall k :: k in res.byRosterId ==>
        multiset(res.byRosterId[k]) == multiset(OwnedBy(Resolved(rosterIds, trades, slots, pickMap), k))
  {
    ComputeShape(rosterIds, trades, slots, pickMap);
    if InferSeasons(pickMap.keys) != [] && InferRounds(pickMap.keys) != [] {
      BucketsOf(Resolved(rosterIds, trades, slots, pickMap));
    }
  }

  /** Grouping then sorting every bucket: the buckets of a list and of its sorted copy. */
  lemma BucketsOf(all: seq<OwnedPick>)
    ensures BucketsCover(SortBy(all, PickBefore), SortBuckets(GroupByOwner(all)))
    ensures var b := SortBuckets(GroupByOwner(all));
      forall k :: k in b ==> multiset(b[k]) == multiset(OwnedBy(all, k))
  {
    var sorted, b := SortBy(all, PickBefore), SortBuckets(GroupByOwner(all));
    var m := GroupByOwner(all);
    GroupByOwnerSpec(all);
    SortKeeps(all, PickBefore);
    forall k | k in m ensures forall p :: p in b[k] <==> p in m[k] {
      SortKeeps(m[k], PickBefore);
    }
    forall p | p in sorted ensures OwnerKey(p) in b && p in b[OwnerKey(p)] {
      OwnedByComplete(all, OwnerKey(p), p);
    }
  }

  /** `all` and every bucket are ordered by season, then round, then label; sorting loses nothing. */
  lemma SortedOutput(rosterIds: seq<int>, trades: seq<TradedPick>, slots: map<int, int>, pickMap: OrderedMap<real>)
    ensures var res := ComputeOwnedPicks(rosterIds, trades, slots, pickMap);
      SortedBy(res.all, PickBefore) &&
      (forall k :: k in res.byRosterId ==> SortedBy(res.byRosterId[k], PickBefore)) &&
      multiset(res.all) == multiset(Resolved(rosterIds, trades, slots, pickMap))
  {
    ComputeShape(rosterIds, trades, slots, pickMap);
    PickBeforePreorder();
    var all := Resolved(rosterIds, trades, slots, pickMap);
    if InferSeasons(pickMap.keys) != [] && InferRounds(pickMap.keys) != [] {
      SortBySorted(all, PickBefore);
      var m := GroupByOwner(all);
      forall k | k in m ensures SortedBy(SortBuckets(m)[k], PickBefore) {
        SortBySorted(m[k], PickBefore);
      }
    }
  }
}
