/**
 * The pick-ownership resolver (src/logic/ownedPicks.ts), stated as functions
 * of its inputs. The season and round grid comes from the pick-curve labels
 * `"YYYY R.PP"`; every (season, round, origin roster) starts owned by its
 * origin; traded-pick records then reassign owners; each pick is labelled
 * with its origin's projected slot, valued from the curve, grouped by owner
 * and sorted. The loops that compute these functions are in module
 * OwnedPicksEngine, and the end-to-end properties in OwnedPicksProperties.
 */
module OwnedPicks {
  import opened Wrappers
  import opened Strings
  import opened Numbers
  import opened Picks
  import opened Sorting
  import opened JsMaps

  // ------------------------------------------------------ curve labels

  /** The two groups captured by `/^(\d{4})\s+(\d+)\.\d{2}$/`, the round already `Number(...)`. */
  datatype LabelMatch = LabelMatch(season: string, round: nat)

  /** Length of the white-space prefix. */
  function LeadingSpace(s: string): (n: nat)
    ensures n <= |s| && forall i :: 0 <= i < n ==> IsWhitespace(s[i])
    ensures n < |s| ==> !IsWhitespace(s[n])
  {
    if s == [] || !IsWhitespace(s[0]) then 0 else 1 + LeadingSpace(s[1..])
  }

  /**
   * `k.match(/^(\d{4})\s+(\d+)\.\d{2}$/)`: four digits, white space, the round
   * digits, a dot and exactly two digits, nothing else.
   */
  function MatchPickLabel(k: string): (m: Option<LabelMatch>)
    ensures m.Some? ==> |k| >= 4 && m.value.season == k[..4] && |m.value.season| == 4 && AllDigits(m.value.season)
  {
    if |k| < 4 || !AllDigits(k[..4]) then None
    else
      match MatchRound(k[4..])
      case Some(round) => Some(LabelMatch(k[..4], round))
      case None => None
  }

  /** The part of the pattern after the season: white space, the round digits, a dot and two digits. */
  function MatchRound(rest: string): Option<nat> {
    var w := LeadingSpace(rest);
    var tail := rest[w..];
    if w == 0 || |tail| < 4 then None
    else
      var digits := tail[..|tail| - 3];
      if AllDigits(digits) && tail[|tail| - 3] == '.' && AllDigits(tail[|tail| - 2..]) then
        Some(DigitsValue(digits))
      else None
  }

  /** A canonical pick label of a four-digit season matches, giving back its season and round. */
  lemma MatchBuildPickName(season: string, round: nat, slot: nat)
    requires |season| == 4 && AllDigits(season) && slot < 100
    ensures MatchPickLabel(BuildPickName(season, Finite(round), Finite(slot))) == Some(LabelMatch(season, round))
  {
    Pad2Digits(slot);
    NatToStringValue(round);
    assert BuildPickName(season, Finite(round), Finite(slot)) == season + " " + NatToString(round) + "." + Pad2(slot);
    MatchLabelParts(season, NatToString(round), Pad2(slot));
  }

  /** Four digits, a space, round digits, a dot and two digits match, the round read from its digits. */
  lemma MatchLabelParts(season: string, r: string, p: string)
    requires |season| == 4 && AllDigits(season) && r != [] && AllDigits(r) && |p| == 2 && AllDigits(p)
    ensures MatchPickLabel(season + " " + r + "." + p) == Some(LabelMatch(season, DigitsValue(r)))
  {
    var k := season + " " + r + "." + p;
    LabelSlices(season, r, p);
    MatchRoundParts(k[4..], r, p);
  }

  lemma LabelSlices(season: string, r: string, p: string)
    requires |season| == 4
    ensures var k := season + " " + r + "." + p; |k| >= 4 && k[..4] == season && k[4..] == [' '] + (r + "." + p)
  {
    var k := season + " " + r + "." + p;
    assert k == season + ([' '] + (r + "." + p));
  }

  lemma MatchRoundParts(rest: string, r: string, p: string)
    requires rest == [' '] + (r + "." + p) && r != [] && AllDigits(r) && |p| == 2 && AllDigits(p)
    ensures MatchRound(rest) == Some(DigitsValue(r))
  {
    var tail := r + "." + p;
    OneLeadingSpace(tail);
    assert tail[..|tail| - 3] == r && tail[|tail| - 3] == '.' && tail[|tail| - 2..] == p;
  }

  lemma OneLeadingSpace(tail: string)
    requires tail != [] && IsDigit(tail[0])
    ensures LeadingSpace([' '] + tail) == 1 && ([' '] + tail)[1..] == tail
  {
    assert IsWhitespace(' ');
    assert ([' '] + tail)[1..] == tail;
  }

  /** `Set` of seasons in insertion order, as the loop over curve keys fills it. */
  function SeasonsSeen(keys: seq<string>): (r: seq<string>)
    ensures NoDup(r)
    ensures forall s :: s in r <==> CurveSeason(keys, s)
  {
    if keys == [] then []
    else
      var prev := SeasonsSeen(keys[..|keys| - 1]);
      var k := keys[|keys| - 1];
      assert forall s :: CurveSeason(keys, s) <==>
        CurveSeason(keys[..|keys| - 1], s) || (MatchPickLabel(k).Some? && MatchPickLabel(k).value.season == s) by {
        assert keys == keys[..|keys| - 1] + [k];
      }
      match MatchPickLabel(k)
      case Some(m) => if m.season in prev then prev else prev + [m.season]
      case None => prev
  }

  /** `Set` of rounds in insertion order. */
  function RoundsSeen(keys: seq<string>): (r: seq<nat>)
    ensures NoDup(r)
    ensures forall n :: n in r <==> CurveRound(keys, n)
  {
    if keys == [] then []
    else
      var prev := RoundsSeen(keys[..|keys| - 1]);
      var k := keys[|keys| - 1];
      assert forall n :: CurveRound(keys, n) <==>
        CurveRound(keys[..|keys| - 1], n) || (MatchPickLabel(k).Some? && MatchPickLabel(k).value.round == n) by {
        assert keys == keys[..|keys| - 1] + [k];
      }
      match MatchPickLabel(k)
      case Some(m) => if m.round in prev then prev else prev + [m.round]
      case None => prev
  }

  /** Some curve key is a label of this season. */
  predicate CurveSeason(keys: seq<string>, s: string) {
    exists k :: k in keys && MatchPickLabel(k).Some? && MatchPickLabel(k).value.season == s
  }

  /** Some curve key is a label of this round. */
  predicate CurveRound(keys: seq<string>, n: nat) {
    exists k :: k in keys && MatchPickLabel(k).Some? && MatchPickLabel(k).value.round == n
  }

  function NatLe(a: nat, b: nat): bool { a <= b }

  /** `Array.from(seasons).sort()`. */
  function InferSeasons(keys: seq<string>): seq<string> {
    SortBy(SeasonsSeen(keys), LexLe)
  }

  /** `Array.from(rounds).sort((a, b) => a - b)`. */
  function InferRounds(keys: seq<string>): seq<nat> {
    SortBy(RoundsSeen(keys), NatLe)
  }

  lemma LexLePreorder()
    ensures TotalPreorder(LexLe)
  {
    forall a, b ensures LexLe(a, b) || LexLe(b, a) { LexLeTotal(a, b); }
    forall a, b, c | LexLe(a, b) && LexLe(b, c) ensures LexLe(a, c) { LexLeTransitive(a, b, c); }
  }

  /**
   * The seasons are those of the matching curve keys, each once, in increasing
   * string order.
   */
  lemma InferSeasonsSpec(keys: seq<string>)
    ensures var seasons := InferSeasons(keys);
      SortedBy(seasons, LexLe) && NoDup(seasons) &&
      (forall s :: s in seasons <==> CurveSeason(keys, s)) &&
      (forall s :: s in seasons ==> |s| == 4 && AllDigits(s))
  {
    var seen := SeasonsSeen(keys);
    LexLePreorder();
    SortBySorted(seen, LexLe);
    NoDupPermutation(seen, InferSeasons(keys));
    forall s ensures s in InferSeasons(keys) <==> s in seen {
      assert s in InferSeasons(keys) <==> s in multiset(InferSeasons(keys));
    }
  }

  /** The rounds are those of the matching curve keys, each once, in increasing numeric order. */
  lemma InferRoundsSpec(keys: seq<string>)
    ensures var rounds := InferRounds(keys);
      SortedBy(rounds, NatLe) && NoDup(rounds) &&
      (forall n :: n in rounds <==> CurveRound(keys, n))
  {
    var seen := RoundsSeen(keys);
    SortBySorted(seen, NatLe);
    NoDupPermutation(seen, InferRounds(keys));
    forall n ensures n in InferRounds(keys) <==> n in seen {
      assert n in InferRounds(keys) <==> n in multiset(InferRounds(keys));
    }
  }

  /** A matching curve key gives both a season and a round. */
  lemma MatchGivesGrid(keys: seq<string>, k: string)
    requires k in keys && MatchPickLabel(k).Some?
    ensures InferSeasons(keys) != [] && InferRounds(keys) != []
  {
    InferSeasonsSpec(keys);
    InferRoundsSpec(keys);
    assert CurveSeason(keys, MatchPickLabel(k).value.season);
    assert CurveRound(keys, MatchPickLabel(k).value.round);
  }

  /** A season or a round is only inferred from a matching curve key. */
  lemma GridGivesMatch(keys: seq<string>)
    requires InferSeasons(keys) != [] || InferRounds(keys) != []
    ensures exists k :: k in keys && MatchPickLabel(k).Some?
  {
    if InferSeasons(keys) != [] {
      var s := InferSeasons(keys)[0];
      assert CurveSeason(keys, s) by {
        InferSeasonsSpec(keys);
      }
      var k :| k in keys && MatchPickLabel(k).Some? && MatchPickLabel(k).value.season == s;
    } else {
      var n := InferRounds(keys)[0];
      assert CurveRound(keys, n) by {
        InferRoundsSpec(keys);
      }
      var k :| k in keys && MatchPickLabel(k).Some? && MatchPickLabel(k).value.round == n;
    }
  }

  /** Seasons and rounds come from the same matches: one list is empty exactly when the other is. */
  lemma InferEmptyTogether(keys: seq<string>)
    ensures InferSeasons(keys) == [] <==> InferRounds(keys) == []
    ensures InferSeasons(keys) == [] <==> forall k :: k in keys ==> MatchPickLabel(k).None?
  {
    if InferSeasons(keys) != [] || InferRounds(keys) != [] {
      GridGivesMatch(keys);
      var k :| k in keys && MatchPickLabel(k).Some?;
      MatchGivesGrid(keys, k);
    } else {
      forall k | k in keys ensures MatchPickLabel(k).None? {
        if MatchPickLabel(k).Some? {
          MatchGivesGrid(keys, k);
        }
      }
    }
  }

  // ------------------------------------------------------ ownership keys

  /** Cutting a string at the first occurrence of a character the prefix does not contain. */
  lemma {:induction false} FirstOccurrence(a: string, c: char, b: string)
    requires c !in a
    ensures var x := a + [c] + b;
      IndexOf(x, c) == |a| && x[..|a|] == a && x[|a| + 1..] == b
  {
    if a != [] {
      assert (a + [c] + b)[1..] == a[1..] + [c] + b;
      FirstOccurrence(a[1..], c, b);
    }
  }

  lemma DigitsDashFree(n: nat)
    ensures '-' !in NatToString(n)
  {
    var r := NatToString(n);
    assert forall i :: 0 <= i < |r| ==> IsDigit(r[i]);
  }

  /** The season of a key: the text before the first dash. */
  function KeySeason(k: string): string {
    k[..IndexOf(k, '-')]
  }

  /** The text after the first dash. */
  function KeyRest(k: string): string {
    var i := IndexOf(k, '-');
    if i < |k| then k[i + 1..] else []
  }

  /** The round of a key: the text between the first two dashes, as a number. */
  function KeyRound(k: string): Num {
    var r := KeyRest(k);
    ToNumber(r[..IndexOf(r, '-')])
  }

  /** The origin of a key: all the text after the second dash, as a number. */
  function KeyOrigin(k: string): Num {
    var r := KeyRest(k);
    var j := IndexOf(r, '-');
    if j < |r| then ToNumber(r[j + 1..]) else NaN
  }

  lemma PickKeyRest(season: string, round: nat, origin: int)
    requires '-' !in season
    ensures var k := PickKey(season, round, origin);
      KeySeason(k) == season && KeyRest(k) == NatToString(round) + "-" + IntToString(origin)
  {
    var rest := NatToString(round) + "-" + IntToString(origin);
    DashJoin(season, NatToString(round), IntToString(origin));
    var k := PickKey(season, round, origin);
    FirstOccurrence(season, '-', rest);
    KeyCut(k, season, rest);
  }

  /** Three parts joined by dashes, grouped after the first dash. */
  lemma DashJoin(a: string, b: string, c: string)
    ensures a + "-" + b + "-" + c == a + ['-'] + (b + "-" + c)
  {
  }

  /** A key cut at its first dash. */
  lemma KeyCut(k: string, a: string, b: string)
    requires k == a + ['-'] + b && IndexOf(k, '-') == |a| && k[..|a|] == a && k[|a| + 1..] == b
    ensures KeySeason(k) == a && KeyRest(k) == b
  {
  }

  /** A key built from a dash-free season and a round >= 0 gives back its three parts. */
  lemma PickKeyParts(season: string, round: nat, origin: int)
    requires '-' !in season
    ensures var k := PickKey(season, round, origin);
      KeySeason(k) == season && KeyRound(k) == Finite(round) && KeyOrigin(k) == Finite(origin)
  {
    var r, o := NatToString(round), IntToString(origin);
    PickKeyRest(season, round, origin);
    DigitsDashFree(round);
    assert r + "-" + o == r + ['-'] + o;
    FirstOccurrence(r, '-', o);
    IntToStringToNumber(round);
    IntToStringToNumber(origin);
  }

  /** Distinct (season, round, origin) triples have distinct keys. */
  lemma PickKeyInjective(s1: string, r1: nat, o1: int, s2: string, r2: nat, o2: int)
    requires '-' !in s1 && '-' !in s2
    requires PickKey(s1, r1, o1) == PickKey(s2, r2, o2)
    ensures s1 == s2 && r1 == r2 && o1 == o2
  {
    PickKeyParts(s1, r1, o1);
    PickKeyParts(s2, r2, o2);
  }

  /** The key of one of the origins of a season and round. */
  predicate OriginKey(k: string, season: string, round: nat, origins: seq<int>) {
    exists o :: o in origins && k == PickKey(season, round, o)
  }

  /** The key of one of the rounds and origins of a season. */
  predicate RoundKey(k: string, season: string, rounds: seq<nat>, origins: seq<int>) {
    exists r, o :: r in rounds && o in origins && k == PickKey(season, r, o)
  }

  /** The key of a pick on the grid. */
  predicate InGrid(k: string, seasons: seq<string>, rounds: seq<nat>, origins: seq<int>) {
    exists s, r, o :: s in seasons && r in rounds && o in origins && k == PickKey(s, r, o)
  }

  predicate DashFree(seasons: seq<string>) {
    forall s :: s in seasons ==> '-' !in s
  }

  // ------------------------------------------------------ baseline ownership

  /** The inner loop: every origin of one season and round owns its own pick. */
  function SeedOrigins(t: OrderedMap<int>, season: string, round: nat, origins: seq<int>): OrderedMap<int>
  {
    if origins == [] then t
    else
      var o := origins[|origins| - 1];
      SeedOrigins(t, season, round, origins[..|origins| - 1]).Set(PickKey(season, round, o), o)
  }

  /** The middle loop, over rounds. */
  function SeedRounds(t: OrderedMap<int>, season: string, rounds: seq<nat>, origins: seq<int>): OrderedMap<int>
  {
    if rounds == [] then t
    else SeedOrigins(SeedRounds(t, season, rounds[..|rounds| - 1], origins), season, rounds[|rounds| - 1], origins)
  }

  /** The outer loop, over seasons. */
  function SeedSeasons(t: OrderedMap<int>, seasons: seq<string>, rounds: seq<nat>, origins: seq<int>): OrderedMap<int>
  {
    if seasons == [] then t
    else SeedRounds(SeedSeasons(t, seasons[..|seasons| - 1], rounds, origins), seasons[|seasons| - 1], rounds, origins)
  }

  /** `currentOwnerByKey` after the triple loop. */
  function Baseline(seasons: seq<string>, rounds: seq<nat>, origins: seq<int>): OrderedMap<int> {
    SeedSeasons(Empty(), seasons, rounds, origins)
  }

  /** Every key records, after its second dash, the roster that owns it. */
  ghost predicate SelfOwned(t: OrderedMap<int>) {
    forall k :: k in t.values ==> KeyOrigin(k) == Finite(t.values[k])
  }

  lemma {:induction false} SeedOriginsValid(t: OrderedMap<int>, season: string, round: nat, origins: seq<int>)
    requires t.Valid() && SelfOwned(t) && '-' !in season
    ensures SeedOrigins(t, season, round, origins).Valid() && SelfOwned(SeedOrigins(t, season, round, origins))
  {
    if origins != [] {
      var o := origins[|origins| - 1];
      var u := SeedOrigins(t, season, round, origins[..|origins| - 1]);
      SeedOriginsValid(t, season, round, origins[..|origins| - 1]);
      var k := PickKey(season, round, o);
      var w := u.Set(k, o);
      assert w == SeedOrigins(t, season, round, origins);
      forall k' | k' in w.values ensures KeyOrigin(k') == Finite(w.values[k']) {
        if k' == k {
          PickKeyParts(season, round, o);
        } else {
          assert k' in u.values && w.values[k'] == u.values[k'];
        }
      }
    }
  }

  lemma {:induction false} SeedOriginsKeys(t: OrderedMap<int>, season: string, round: nat, origins: seq<int>)
    ensures forall k :: k in SeedOrigins(t, season, round, origins).values <==>
      k in t.values || OriginKey(k, season, round, origins)
  {
    if origins != [] {
      var init := origins[..|origins| - 1];
      SeedOriginsKeys(t, season, round, init);
      assert forall x :: x in origins <==> x in init || x == origins[|origins| - 1] by {
        assert origins == init + [origins[|origins| - 1]];
      }
    }
  }

  lemma {:induction false} SeedOriginsCount(t: OrderedMap<int>, season: string, round: nat, origins: seq<int>)
    requires '-' !in season && NoDup(origins)
    requires forall o :: o in origins ==> PickKey(season, round, o) !in t.values
    ensures |SeedOrigins(t, season, round, origins).keys| == |t.keys| + |origins|
  {
    if origins != [] {
      var init := origins[..|origins| - 1];
      var o := origins[|origins| - 1];
      assert NoDup(init);
      SeedOriginsCount(t, season, round, init);
      SeedOriginsKeys(t, season, round, init);
      if OriginKey(PickKey(season, round, o), season, round, init) {
        var x :| x in init && PickKey(season, round, o) == PickKey(season, round, x);
        PickKeyInjective(season, round, o, season, round, x);
      }
    }
  }

  lemma {:induction false} SeedRoundsValid(t: OrderedMap<int>, season: string, rounds: seq<nat>, origins: seq<int>)
    requires t.Valid() && SelfOwned(t) && '-' !in season
    ensures SeedRounds(t, season, rounds, origins).Valid() && SelfOwned(SeedRounds(t, season, rounds, origins))
  {
    if rounds != [] {
      SeedRoundsValid(t, season, rounds[..|rounds| - 1], origins);
      SeedOriginsValid(SeedRounds(t, season, rounds[..|rounds| - 1], origins), season, rounds[|rounds| - 1], origins);
    }
  }

  lemma {:induction false} SeedRoundsKeys(t: OrderedMap<int>, season: string, rounds: seq<nat>, origins: seq<int>)
    ensures forall k :: k in SeedRounds(t, season, rounds, origins).values <==>
      k in t.values || RoundKey(k, season, rounds, origins)
  {
    if rounds != [] {
      var init := rounds[..|rounds| - 1];
      var r := rounds[|rounds| - 1];
      SeedRoundsKeys(t, season, init, origins);
      SeedOriginsKeys(SeedRounds(t, season, init, origins), season, r, origins);
      assert forall x :: x in rounds <==> x in init || x == r by {
        assert rounds == init + [r];
      }
      forall k ensures RoundKey(k, season, rounds, origins) <==>
        RoundKey(k, season, init, origins) || OriginKey(k, season, r, origins)
      {
        if RoundKey(k, season, rounds, origins) {
          var x, o :| x in rounds && o in origins && k == PickKey(season, x, o);
          if x != r { assert RoundKey(k, season, init, origins); }
        }
      }
    }
  }

  lemma {:induction false} SeedRoundsCount(t: OrderedMap<int>, season: string, rounds: seq<nat>, origins: seq<int>)
    requires '-' !in season && NoDup(rounds) && NoDup(origins)
    requires forall r, o :: r in rounds && o in origins ==> PickKey(season, r, o) !in t.values
    ensures |SeedRounds(t, season, rounds, origins).keys| == |t.keys| + |rounds| * |origins|
  {
    if rounds != [] {
      var init := rounds[..|rounds| - 1];
      var r := rounds[|rounds| - 1];
      assert NoDup(init);
      assert forall x :: x in init ==> x in rounds;
      SeedRoundsCount(t, season, init, origins);
      var u := SeedRounds(t, season, init, origins);
      SeedRoundsKeys(t, season, init, origins);
      forall o | o in origins ensures PickKey(season, r, o) !in u.values {
        if RoundKey(PickKey(season, r, o), season, init, origins) {
          var x, o' :| x in init && o' in origins && PickKey(season, r, o) == PickKey(season, x, o');
          PickKeyInjective(season, r, o, season, x, o');
        }
      }
      SeedOriginsCount(u, season, r, origins);
      MulStep(|init|, |origins|);
    }
  }

  lemma {:induction false} SeedSeasonsValid(t: OrderedMap<int>, seasons: seq<string>, rounds: seq<nat>, origins: seq<int>)
    requires t.Valid() && SelfOwned(t) && DashFree(seasons)
    ensures SeedSeasons(t, seasons, rounds, origins).Valid() && SelfOwned(SeedSeasons(t, seasons, rounds, origins))
  {
    if seasons != [] {
      var init := seasons[..|seasons| - 1];
      assert DashFree(init) by { assert forall x :: x in init ==> x in seasons; }
      SeedSeasonsValid(t, init, rounds, origins);
      SeedRoundsValid(SeedSeasons(t, init, rounds, origins), seasons[|seasons| - 1], rounds, origins);
    }
  }

  lemma {:induction false} SeedSeasonsKeys(t: OrderedMap<int>, seasons: seq<string>, rounds: seq<nat>, origins: seq<int>)
    ensures forall k :: k in SeedSeasons(t, seasons, rounds, origins).values <==>
      k in t.values || InGrid(k, seasons, rounds, origins)
  {
    if seasons != [] {
      var init := seasons[..|seasons| - 1];
      var s := seasons[|seasons| - 1];
      SeedSeasonsKeys(t, init, rounds, origins);
      SeedRoundsKeys(SeedSeasons(t, init, rounds, origins), s, rounds, origins);
      assert forall x :: x in seasons <==> x in init || x == s by {
        assert seasons == init + [s];
      }
      forall k ensures InGrid(k, seasons, rounds, origins) <==>
        InGrid(k, init, rounds, origins) || RoundKey(k, s, rounds, origins)
      {
        if InGrid(k, seasons, rounds, origins) {
          var x, r, o :| x in seasons && r in rounds && o in origins && k == PickKey(x, r, o);
          if x != s { assert InGrid(k, init, rounds, origins); }
        }
      }
    }
  }

  lemma MulStep(n: nat, m: nat)
    ensures (n + 1) * m == n * m + m
  {
  }

  lemma MulAssoc(a: nat, b: nat, c: nat)
    ensures a * b * c == a * (b * c)
  {
  }

  /** No key of a new season is on the grid of the earlier seasons. */
  lemma FreshSeason(init: seq<string>, s: string, rounds: seq<nat>, origins: seq<int>)
    requires DashFree(init) && '-' !in s && s !in init
    ensures forall r, o :: r in rounds && o in origins ==> !InGrid(PickKey(s, r, o), init, rounds, origins)
  {
    forall r, o | r in rounds && o in origins ensures !InGrid(PickKey(s, r, o), init, rounds, origins) {
      if InGrid(PickKey(s, r, o), init, rounds, origins) {
        var x, r', o' :| x in init && r' in rounds && o' in origins && PickKey(s, r, o) == PickKey(x, r', o');
        PickKeyInjective(s, r, o, x, r', o');
      }
    }
  }

  /** The keys of a new season are not yet in the map the earlier seasons built. */
  lemma FreshAfterSeasons(init: seq<string>, s: string, rounds: seq<nat>, origins: seq<int>)
    requires DashFree(init) && '-' !in s && s !in init
    ensures forall r, o :: r in rounds && o in origins ==>
      PickKey(s, r, o) !in SeedSeasons(Empty(), init, rounds, origins).values
  {
    SeedSeasonsKeys(Empty(), init, rounds, origins);
    FreshSeason(init, s, rounds, origins);
  }

  /** The last season of a repetition-free dash-free list is new and dash-free. */
  lemma LastSeasonFresh(seasons: seq<string>)
    requires DashFree(seasons) && NoDup(seasons) && seasons != []
    ensures var init := seasons[..|seasons| - 1];
      NoDup(init) && DashFree(init) && '-' !in seasons[|seasons| - 1] && seasons[|seasons| - 1] !in init
  {
    var init := seasons[..|seasons| - 1];
    assert forall x :: x in init ==> x in seasons;
  }

  lemma {:induction false} SeedSeasonsCount(seasons: seq<string>, rounds: seq<nat>, origins: seq<int>)
    requires DashFree(seasons) && NoDup(seasons) && NoDup(rounds) && NoDup(origins)
    ensures |SeedSeasons(Empty(), seasons, rounds, origins).keys| == |seasons| * (|rounds| * |origins|)
  {
    if seasons != [] {
      var init := seasons[..|seasons| - 1];
      LastSeasonFresh(seasons);
      SeedSeasonsCount(init, rounds, origins);
      SeedSeasonsCountStep(seasons, rounds, origins);
    }
  }

  lemma SeedSeasonsCountStep(seasons: seq<string>, rounds: seq<nat>, origins: seq<int>)
    requires DashFree(seasons) && NoDup(seasons) && NoDup(rounds) && NoDup(origins) && seasons != []
    requires |SeedSeasons(Empty(), seasons[..|seasons| - 1], rounds, origins).keys| ==
      |seasons[..|seasons| - 1]| * (|rounds| * |origins|)
    ensures |SeedSeasons(Empty(), seasons, rounds, origins).keys| == |seasons| * (|rounds| * |origins|)
  {
    var init := seasons[..|seasons| - 1];
    var total := |SeedSeasons(Empty(), seasons, rounds, origins).keys|;
    var prev := |SeedSeasons(Empty(), init, rounds, origins).keys|;
    assert total == prev + |rounds| * |origins| by {
      LastSeasonAdds(seasons, rounds, origins);
    }
    CountStep(total, prev, |init|, |seasons|, |rounds| * |origins|);
  }

  /** The last season adds one key per round and origin. */
  lemma LastSeasonAdds(seasons: seq<string>, rounds: seq<nat>, origins: seq<int>)
    requires DashFree(seasons) && NoDup(seasons) && NoDup(rounds) && NoDup(origins) && seasons != []
    ensures |SeedSeasons(Empty(), seasons, rounds, origins).keys| ==
      |SeedSeasons(Empty(), seasons[..|seasons| - 1], rounds, origins).keys| + |rounds| * |origins|
  {
    var init := seasons[..|seasons| - 1];
    var s := seasons[|seasons| - 1];
    LastSeasonFresh(seasons);
    FreshAfterSeasons(init, s, rounds, origins);
    SeedRoundsCount(SeedSeasons(Empty(), init, rounds, origins), s, rounds, origins);
  }

  lemma CountStep(total: int, prev: int, a: int, m: int, n: int)
    requires prev == a * n && total == prev + n && m == a + 1
    ensures total == m * n
  {
  }

  /**
   * Before any trade: the keys are exactly the grid's season x round x origin
   * keys, each listed once, each owned by its origin; with no repeated season,
   * round or roster id there are |seasons| * |rounds| * |rosters| of them.
   */
  lemma BaselineSpec(seasons: seq<string>, rounds: seq<nat>, origins: seq<int>)
    requires DashFree(seasons)
    ensures var t := Baseline(seasons, rounds, origins);
      t.Valid() &&
      (forall k :: k in t.values <==> InGrid(k, seasons, rounds, origins)) &&
      (forall s, r, o :: s in seasons && r in rounds && o in origins ==> t.values[PickKey(s, r, o)] == o)
    ensures NoDup(seasons) && NoDup(rounds) && NoDup(origins) ==>
      |Baseline(seasons, rounds, origins).keys| == |seasons| * |rounds| * |origins|
  {
    var t := Baseline(seasons, rounds, origins);
    SeedSeasonsValid(Empty(), seasons, rounds, origins);
    SeedSeasonsKeys(Empty(), seasons, rounds, origins);
    forall s, r, o | s in seasons && r in rounds && o in origins
      ensures PickKey(s, r, o) in t.values && t.values[PickKey(s, r, o)] == o
    {
      assert InGrid(PickKey(s, r, o), seasons, rounds, origins);
      PickKeyParts(s, r, o);
    }
    if NoDup(seasons) && NoDup(rounds) && NoDup(origins) {
      SeedSeasonsCount(seasons, rounds, origins);
      MulAssoc(|seasons|, |rounds|, |origins|);
    }
  }

  // ------------------------------------------------------ trade replay

  /** A `/traded_picks` record: season as text, round and origin as numbers, the new owner's roster id. */
  datatype TradedPick = TradedPick(season: string, round: Num, rosterId: Num, ownerId: int)

  /** The key a record addresses: `${season}-${round}-${origin}`. */
  function TradeKey(tp: TradedPick): (k: string)
    ensures tp.round.Finite? && tp.rosterId.Finite? ==> k == PickKey(tp.season, tp.round.value, tp.rosterId.value)
  {
    tp.season + "-" + NumToString(tp.round) + "-" + NumToString(tp.rosterId)
  }

  /** The trade loop: an existing key takes the record's owner; any other record is skipped. */
  function Replay(t: OrderedMap<int>, trades: seq<TradedPick>): OrderedMap<int> {
    if trades == [] then t
    else
      var u := Replay(t, trades[..|trades| - 1]);
      var k := TradeKey(trades[|trades| - 1]);
      if k in u.values then u.Set(k, trades[|trades| - 1].ownerId) else u
  }

  /** The owner named by the last record addressing key `k`, if any. */
  function LastOwner(trades: seq<TradedPick>, k: string): Option<int> {
    if trades == [] then None
    else if TradeKey(trades[|trades| - 1]) == k then Some(trades[|trades| - 1].ownerId)
    else LastOwner(trades[..|trades| - 1], k)
  }

  /** No owner exactly when no record addresses the key. */
  lemma {:induction false} LastOwnerNone(trades: seq<TradedPick>, k: string)
    ensures LastOwner(trades, k).None? <==> forall i :: 0 <= i < |trades| ==> TradeKey(trades[i]) != k
  {
    if trades != [] {
      var init := trades[..|trades| - 1];
      LastOwnerNone(init, k);
      assert forall i :: 0 <= i < |init| ==> trades[i] == init[i];
    }
  }

  /** The owner is the one named by the last record addressing the key. */
  lemma {:induction false} LastOwnerLast(trades: seq<TradedPick>, k: string, i: nat)
    requires i < |trades| && TradeKey(trades[i]) == k
    requires forall j :: i < j < |trades| ==> TradeKey(trades[j]) != k
    ensures LastOwner(trades, k) == Some(trades[i].ownerId)
  {
    if i < |trades| - 1 {
      LaterRecordsOfInit(trades, k, i);
      LastOwnerLast(trades[..|trades| - 1], k, i);
    }
  }

  /** Dropping the last record keeps record `i` and leaves no later record for the key. */
  lemma LaterRecordsOfInit(trades: seq<TradedPick>, k: string, i: nat)
    requires i < |trades| - 1 && TradeKey(trades[i]) == k
    requires forall j :: i < j < |trades| ==> TradeKey(trades[j]) != k
    ensures var init := trades[..|trades| - 1];
      TradeKey(init[i]) == k && init[i] == trades[i] && (forall j :: i < j < |init| ==> TradeKey(init[j]) != k) &&
      TradeKey(trades[|trades| - 1]) != k
  {
    var init := trades[..|trades| - 1];
    assert forall j :: 0 <= j < |init| ==> init[j] == trades[j];
  }

  /**
   * Trades never add or reorder keys; a key's owner is that of the last record
   * addressing it, or stays as it was when no record does.
   */
  lemma {:induction false} ReplaySpec(t: OrderedMap<int>, trades: seq<TradedPick>)
    requires t.Valid()
    ensures var u := Replay(t, trades);
      u.Valid() && u.keys == t.keys && u.values.Keys == t.values.Keys &&
      forall k :: k in t.values ==> u.values[k] == LastOwner(trades, k).GetOr(t.values[k])
  {
    if trades != [] {
      ReplaySpec(t, trades[..|trades| - 1]);
    }
  }

  // ------------------------------------------------------ flatten

  /** An entry of `all`; `rosterId` is the origin roster, `ownerId` the current owner. */
  datatype OwnedPick = OwnedPick(season: string, round: int, rosterId: int, ownerId: int,
                                 pickName: string, value: real)

  /** `const [season, roundStr, originStr] = key.split("-")`, then `Number(...)` on the last two. */
  function DecodeKey(k: string): (string, Num, Num) {
    var parts := Split(k, '-');
    (parts[0],
     CellNumber(if |parts| > 1 then Some(parts[1]) else None),
     CellNumber(if |parts| > 2 then Some(parts[2]) else None))
  }

  /**
   * A grid key decodes to its season and round, and to its origin when that is
   * >= 0; a negative origin id writes a second dash, so its third part is empty
   * and decodes to 0.
   */
  lemma DecodePickKey(season: string, round: nat, origin: int)
    requires '-' !in season
    ensures DecodeKey(PickKey(season, round, origin)) ==
      (season, Finite(round), Finite(if origin >= 0 then origin else 0))
  {
    IntToStringToNumber(round);
    if origin >= 0 {
      PickKeySplits(season, round, origin);
      IntToStringToNumber(origin);
    } else {
      var r, o := NatToString(round), NatToString(-origin);
      DigitsDashFree(round);
      DigitsDashFree(-origin);
      NegativeKeySplits(season, r, o);
      assert PickKey(season, round, origin) == season + "-" + r + "-" + ("-" + o);
      assert ToNumber("") == Finite(0);
    }
  }

  /** With a negative origin the key has an empty third part. */
  lemma NegativeKeySplits(season: string, r: string, o: string)
    requires '-' !in season && '-' !in r && '-' !in o
    ensures Split(season + "-" + r + "-" + ("-" + o), '-') == [season, r, "", o]
  {
    assert season + "-" + r + "-" + ("-" + o) == season + ['-'] + (r + ['-'] + ([] + ['-'] + o));
    SplitCons(season, '-', r + ['-'] + ([] + ['-'] + o));
    SplitCons(r, '-', [] + ['-'] + o);
    SplitCons([], '-', o);
    SplitNone(o, '-');
  }

  /** A key whose round and origin parts decode to numbers. */
  predicate Decodable(k: string) {
    DecodeKey(k).1.Finite? && DecodeKey(k).2.Finite?
  }

  /** `makeLabel`: the canonical label from the origin's slot, or a `pick-` fallback when it has none. */
  function MakeLabel(season: string, round: int, origin: int, slots: map<int, int>): (name: string)
    ensures origin in slots ==> name == BuildPickName(season, Finite(round), Finite(slots[origin]))
    ensures origin !in slots ==> name == "pick-" + season + "-" + IntToString(round) + "-" + IntToString(origin)
  {
    if origin in slots then season + " " + IntToString(round) + "." + Pad2(slots[origin])
    else "pick-" + season + "-" + IntToString(round) + "-" + IntToString(origin)
  }

  /** The fallback label of an origin without a slot is never a curve label, so it is valued 0 by a curve. */
  lemma MakeLabelFallback(season: string, round: int, origin: int, slots: map<int, int>)
    requires origin !in slots
    ensures MatchPickLabel(MakeLabel(season, round, origin, slots)).None?
  {
    var name := MakeLabel(season, round, origin, slots);
    assert name[..4] == "pick";
    assert !IsDigit(name[0]);
  }

  /** A label built from a slot below 100 is a curve label of the same season and round. */
  lemma MakeLabelMatches(season: string, round: nat, origin: int, slots: map<int, int>)
    requires |season| == 4 && AllDigits(season) && origin in slots && 0 <= slots[origin] < 100
    ensures MatchPickLabel(MakeLabel(season, round, origin, slots)) == Some(LabelMatch(season, round))
  {
    MatchBuildPickName(season, round, slots[origin]);
  }

  /** `Number(pickMap[label] ?? 0)`. */
  function ValueOf(pickMap: OrderedMap<real>, name: string): real {
    pickMap.GetOr(name, 0.0)
  }

  /** The entry pushed for one key and its owner. */
  function EntryOf(k: string, owner: int, slots: map<int, int>, pickMap: OrderedMap<real>): OwnedPick
    requires Decodable(k)
  {
    var (season, round, origin) := DecodeKey(k);
    var name := MakeLabel(season, round.value, origin.value, slots);
    OwnedPick(season, round.value, origin.value, owner, name, ValueOf(pickMap, name))
  }

  /** The keys of an ownership map, in order, each with a value and decodable. */
  predicate Flattenable(t: OrderedMap<int>) {
    forall i :: 0 <= i < |t.keys| ==> t.keys[i] in t.values && Decodable(t.keys[i])
  }

  /** `all` before sorting: one entry per key, in key order. */
  function Flatten(t: OrderedMap<int>, slots: map<int, int>, pickMap: OrderedMap<real>): (all: seq<OwnedPick>)
    requires Flattenable(t)
  {
    seq(|t.keys|, j requires 0 <= j < |t.keys| => EntryOf(t.keys[j], t.values[t.keys[j]], slots, pickMap))
  }

  // ------------------------------------------------------ grouping

  /** `String(p.owner_id)`, the bucket name. */
  function OwnerKey(p: OwnedPick): string { IntToString(p.ownerId) }

  /** The grouping loop: each entry is appended to its owner's bucket. */
  function GroupByOwner(all: seq<OwnedPick>): map<string, seq<OwnedPick>> {
    if all == [] then map[]
    else
      var m := GroupByOwner(all[..|all| - 1]);
      var p := all[|all| - 1];
      var k := OwnerKey(p);
      m[k := (if k in m then m[k] else []) + [p]]
  }

  /** The entries whose owner's bucket is `k`, in order. */
  function OwnedBy(all: seq<OwnedPick>, k: string): (r: seq<OwnedPick>)
    ensures forall p :: p in r ==> p in all && OwnerKey(p) == k
  {
    if all == [] then []
    else
      var rest := OwnedBy(all[..|all| - 1], k);
      var p := all[|all| - 1];
      if OwnerKey(p) == k then rest + [p] else rest
  }

  /** A bucket exists exactly for the owners of some entry. */
  lemma {:induction false} GroupByOwnerKeys(all: seq<OwnedPick>, k: string)
    ensures k in GroupByOwner(all) <==> exists p :: p in all && OwnerKey(p) == k
  {
    if all != [] {
      var init := all[..|all| - 1];
      var p := all[|all| - 1];
      GroupByOwnerKeys(init, k);
      assert forall q :: q in all <==> q in init || q == p by {
        assert all == init + [p];
      }
    }
  }

  /** Each bucket holds its owner's entries, in order. */
  lemma {:induction false} GroupByOwnerValues(all: seq<OwnedPick>, k: string)
    requires k in GroupByOwner(all)
    ensures GroupByOwner(all)[k] == OwnedBy(all, k)
  {
    var init := all[..|all| - 1];
    var p := all[|all| - 1];
    var m := GroupByOwner(init);
    if k in m {
      GroupByOwnerValues(init, k);
    } else if k == OwnerKey(p) {
      GroupByOwnerKeys(init, k);
      OwnedByEmpty(init, k);
    }
  }

  /** A bucket exists exactly for each owner, and holds that owner's entries in order. */
  lemma GroupByOwnerSpec(all: seq<OwnedPick>)
    ensures var m := GroupByOwner(all);
      (forall k :: k in m <==> exists p :: p in all && OwnerKey(p) == k) &&
      (forall k :: k in m ==> m[k] == OwnedBy(all, k))
  {
    forall k ensures k in GroupByOwner(all) <==> exists p :: p in all && OwnerKey(p) == k {
      GroupByOwnerKeys(all, k);
    }
    forall k | k in GroupByOwner(all) ensures GroupByOwner(all)[k] == OwnedBy(all, k) {
      GroupByOwnerValues(all, k);
    }
  }

  lemma {:induction false} OwnedByComplete(all: seq<OwnedPick>, k: string, q: OwnedPick)
    requires q in all && OwnerKey(q) == k
    ensures q in OwnedBy(all, k)
  {
    var init := all[..|all| - 1];
    if all[|all| - 1] != q {
      assert q in init by { assert all == init + [all[|all| - 1]]; }
      OwnedByComplete(init, k, q);
    }
  }

  lemma {:induction false} OwnedByEmpty(all: seq<OwnedPick>, k: string)
    requires forall p :: p in all ==> OwnerKey(p) != k
    ensures OwnedBy(all, k) == []
  {
    if all != [] {
      var init := all[..|all| - 1];
      assert forall p :: p in init ==> p in all;
      OwnedByEmpty(init, k);
    }
  }

  // ------------------------------------------------------ sorting

  /**
   * `cmp(a, b) <= 0`: season text first, then round number, then label text
   * (`localeCompare` taken as the character-code order).
   */
  predicate PickBefore(a: OwnedPick, b: OwnedPick) {
    (LexLe(a.season, b.season) && a.season != b.season) ||
    (a.season == b.season &&
      (a.round < b.round || (a.round == b.round && LexLe(a.pickName, b.pickName))))
  }

  lemma PickBeforePreorder()
    ensures TotalPreorder(PickBefore)
  {
    forall a, b ensures PickBefore(a, b) || PickBefore(b, a) {
      LexLeTotal(a.season, b.season);
      LexLeTotal(a.pickName, b.pickName);
    }
    forall a, b, c | PickBefore(a, b) && PickBefore(b, c) ensures PickBefore(a, c) {
      if a.season != b.season || b.season != c.season {
        LexLeReflexive(b.season);
        LexLeTransitive(a.season, b.season, c.season);
        if a.season == c.season {
          if a.season != b.season {
            LexLeAntisymmetric(a.season, b.season);
          } else {
            LexLeAntisymmetric(b.season, c.season);
          }
        }
      } else if a.round == b.round && b.round == c.round {
        LexLeTransitive(a.pickName, b.pickName, c.pickName);
      }
    }
  }

  /** `sort(cmp)` applied to every bucket. */
  function SortBuckets(m: map<string, seq<OwnedPick>>): (r: map<string, seq<OwnedPick>>)
    ensures r.Keys == m.Keys
  {
    map k | k in m :: SortBy(m[k], PickBefore)
  }

  // ------------------------------------------------------ the result

  datatype OwnedPicksResult = OwnedPicksResult(byUserId: map<string, seq<OwnedPick>>,
                                               byRosterId: map<string, seq<OwnedPick>>,
                                               all: seq<OwnedPick>)

  /** Grid keys decode, so the ownership map after the trades can be flattened. */
  lemma GridFlattenable(seasons: seq<string>, rounds: seq<nat>, origins: seq<int>, trades: seq<TradedPick>)
    requires DashFree(seasons)
    ensures Flattenable(Replay(Baseline(seasons, rounds, origins), trades))
  {
    var t := Baseline(seasons, rounds, origins);
    BaselineSpec(seasons, rounds, origins);
    ReplaySpec(t, trades);
    var u := Replay(t, trades);
    forall i | 0 <= i < |u.keys| ensures u.keys[i] in u.values && Decodable(u.keys[i]) {
      var k := u.keys[i];
      assert k in t.values;
      var s, r, o :| s in seasons && r in rounds && o in origins && k == PickKey(s, r, o);
      DecodePickKey(s, r, o);
    }
  }

  /** The curve seasons are four-digit strings, so they hold no dash. */
  lemma InferSeasonsDashFree(keys: seq<string>)
    ensures DashFree(InferSeasons(keys))
  {
    InferSeasonsSpec(keys);
    forall s | s in InferSeasons(keys) ensures '-' !in s {
      assert forall i :: 0 <= i < |s| ==> IsDigit(s[i]);
    }
  }

  /** The ownership map after the baseline and the trades. */
  function Ownership(rosterIds: seq<int>, trades: seq<TradedPick>, pickMap: OrderedMap<real>): OrderedMap<int> {
    Replay(Baseline(InferSeasons(pickMap.keys), InferRounds(pickMap.keys), rosterIds), trades)
  }

  /** The entries of `all` before they are sorted. */
  function Resolved(rosterIds: seq<int>, trades: seq<TradedPick>, slots: map<int, int>,
                    pickMap: OrderedMap<real>): seq<OwnedPick>
  {
    InferSeasonsDashFree(pickMap.keys);
    GridFlattenable(InferSeasons(pickMap.keys), InferRounds(pickMap.keys), rosterIds, trades);
    Flatten(Ownership(rosterIds, trades, pickMap), slots, pickMap)
  }

  /** `computeOwnedPicks(_leagueId, rosters, tradedPicks, slotProjection, pickMap)`. */
  function ComputeOwnedPicks(rosterIds: seq<int>, trades: seq<TradedPick>, slots: map<int, int>,
                             pickMap: OrderedMap<real>): OwnedPicksResult
  {
    if InferSeasons(pickMap.keys) == [] || InferRounds(pickMap.keys) == [] then
      OwnedPicksResult(map[], map[], [])
    else
      var all := Resolved(rosterIds, trades, slots, pickMap);
      var buckets := SortBuckets(GroupByOwner(all));
      OwnedPicksResult(buckets, buckets, SortBy(all, PickBefore))
  }
}
