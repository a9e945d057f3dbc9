/**
 * Dual-position normalisation (src/utils/positions.ts): a player's primary
 * position and a display value (a list, a `"A/B"` string or free text) are
 * reduced to at most two distinct base positions.
 */
module Positions {
  import opened Wrappers
  import opened Strings

  /** The base positions, in the order of `BASE_POS`. */
  datatype BasePos = QB | RB | WR | TE | K | DL | LB | DB

  const BASE_POS: seq<BasePos> := [QB, RB, WR, TE, K, DL, LB, DB]

  function Code(p: BasePos): string {
    match p
    case QB => "QB" case RB => "RB" case WR => "WR" case TE => "TE"
    case K => "K" case DL => "DL" case LB => "LB" case DB => "DB"
  }

  /** The display argument: absent, a string, or an array of (possibly missing) strings. */
  datatype Display = NoDisplay | Text(text: string) | List(items: seq<Option<string>>)

  /** The inner `pick`: the upper-cased text if it is a base position code, otherwise null. */
  function PickPos(p: Option<string>): (r: Option<BasePos>)
    ensures r.Some? ==> Code(r.value) == ToUpper(p.GetOr(""))
    ensures r.None? ==> forall q: BasePos :: Code(q) != ToUpper(p.GetOr(""))
  {
    var u := ToUpper(p.GetOr(""));
    if u == "QB" then Some(QB) else if u == "RB" then Some(RB)
    else if u == "WR" then Some(WR) else if u == "TE" then Some(TE)
    else if u == "K" then Some(K) else if u == "DL" then Some(DL)
    else if u == "LB" then Some(LB) else if u == "DB" then Some(DB)
    else None
  }

  /** `b && b !== a ? b : null`. */
  function OtherThan(b: Option<BasePos>, a: Option<BasePos>): (r: Option<BasePos>)
    ensures r.Some? ==> r == b && r != a
    ensures b.Some? && b != a ==> r == b
  {
    if b.Some? && b != a then b else None
  }

  /** `x ?? y` on positions. */
  function OrElse(x: Option<BasePos>, y: Option<BasePos>): Option<BasePos> {
    if x.Some? then x else y
  }

  /** The base positions whose code occurs in the upper-cased text, in `BASE_POS` order. */
  function ContainedCodes(text: string, codes: seq<BasePos>): (r: seq<BasePos>)
    ensures forall q :: q in r ==> q in codes && Contains(ToUpper(text), Code(q))
    ensures forall q :: q in codes && Contains(ToUpper(text), Code(q)) ==> q in r
  {
    if codes == [] then []
    else
      var rest := ContainedCodes(text, codes[..|codes| - 1]);
      var q := codes[|codes| - 1];
      if Contains(ToUpper(text), Code(q)) then rest + [q] else rest
  }

  /**
   * The free-text scan: the first two base positions (in `BASE_POS` order) whose code
   * occurs in the upper-cased text, stopping as soon as two are found.
   */
  method ScanCodes(text: string) returns (found: seq<BasePos>)
    ensures |found| <= 2
    ensures var all := ContainedCodes(text, BASE_POS);
      found == if |all| <= 2 then all else all[..2]
  {
    found := FirstTwoContained(text, BASE_POS);
  }

  /** The `for (const p of BASE_POS)` loop of the scan, over any list of codes. */
  method FirstTwoContained(text: string, codes: seq<BasePos>) returns (found: seq<BasePos>)
    ensures |found| <= 2
    ensures var all := ContainedCodes(text, codes);
      found == if |all| <= 2 then all else all[..2]
  {
    found := [];
    var upper := ToUpper(text);
    var i := 0;
    while i < |codes|
      invariant 0 <= i <= |codes|
      invariant found == ContainedCodes(text, codes[..i])
      invariant |found| < 2
    {
      if Contains(upper, Code(codes[i])) {
        found := found + [codes[i]];
      }
      assert codes[..i + 1][..i] == codes[..i];
      i := i + 1;
      if |found| == 2 {
        ContainedPrefix(text, codes, i);
        return;
      }
    }
    assert codes[..|codes|] == codes;
  }

  /** The codes found in a prefix of the list are a prefix of those found in the whole list. */
  lemma {:induction false} ContainedPrefix(text: string, codes: seq<BasePos>, i: nat)
    requires i <= |codes|
    ensures var pre := ContainedCodes(text, codes[..i]);
      |pre| <= |ContainedCodes(text, codes)| && ContainedCodes(text, codes)[..|pre|] == pre
  {
    if i < |codes| {
      var init := codes[..|codes| - 1];
      assert init[..i] == codes[..i];
      ContainedPrefix(text, init, i);
    } else {
      assert codes[..i] == codes;
    }
  }

  /** `normalizeDualPositions(primaryPos, displayPos)`. */
  method NormalizeDualPositions(primaryPos: Option<string>, displayPos: Display)
    returns (first: Option<BasePos>, second: Option<BasePos>)
    // the two components never repeat a position
    ensures second.Some? ==> second != first
    // a valid primary position always comes first
    ensures PickPos(primaryPos).Some? ==> first == PickPos(primaryPos)
    // an array uses its elements 0 and 1 only
    ensures displayPos.List? && |displayPos.items| > 0 ==>
      var a := OrElse(PickPos(primaryPos), PickPos(displayPos.items[0]));
      first == a &&
      second == OtherThan(PickPos(if |displayPos.items| > 1 then displayPos.items[1] else None), a)
    // a string with a slash uses the two sides of the split, trimmed
    ensures displayPos.Text? && '/' in displayPos.text ==>
      var parts := Split(displayPos.text, '/');
      |parts| >= 2 &&
      var a := OrElse(PickPos(primaryPos), PickPos(Some(Trim(parts[0]))));
      first == a && second == OtherThan(PickPos(Some(Trim(parts[1]))), a)
    // longer free text contributes the first two codes it contains, in BASE_POS order
    ensures displayPos.Text? && '/' !in displayPos.text && |displayPos.text| >= 4 ==>
      var found := ContainedCodes(displayPos.text, BASE_POS);
      var a := OrElse(PickPos(primaryPos), if |found| >= 1 then Some(found[0]) else None);
      first == a && second == OtherThan(if |found| >= 2 then Some(found[1]) else None, a)
    // anything else keeps the primary position alone
    ensures (displayPos.NoDisplay? || (displayPos.List? && |displayPos.items| == 0)
             || (displayPos.Text? && '/' !in displayPos.text && |displayPos.text| < 4)) ==>
      first == PickPos(primaryPos) && second == None
  {
    var p := PickPos(primaryPos);
    match displayPos {
      case List(items) =>
        if |items| > 0 {
          var a := PickPos(items[0]);
          var b := PickPos(if |items| > 1 then items[1] else None);
          first := OrElse(p, a);
          second := OtherThan(b, first);
          return;
        }
      case Text(text) =>
        if '/' in text {
          var parts := Split(text, '/');
          SplitHasTwoParts(text, '/');
          var a := PickPos(Some(Trim(parts[0])));
          var b := PickPos(Some(Trim(parts[1])));
          first := OrElse(p, a);
          second := OtherThan(b, first);
          return;
        }
        if |text| >= 4 {
          var found := ScanCodes(text);
          first := OrElse(p, if |found| >= 1 then Some(found[0]) else None);
          second := OtherThan(if |found| >= 2 then Some(found[1]) else None, first);
          return;
        }
      case NoDisplay =>
    }
    first, second := p, None;
  }

  /** A string holding the separator splits into at least two parts. */
  lemma {:induction false} SplitHasTwoParts(s: string, sep: char)
    requires sep in s
    ensures |Split(s, sep)| >= 2
  {
    if s[0] != sep {
      SplitHasTwoParts(s[1..], sep);
    }
  }
}
