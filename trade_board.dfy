/**
 * The two trade sides of the calculator page and the set of asset ids hidden
 * from the source lists (src/pages/TradeCalculatorPage.tsx): receiving or
 * sending an asset, removing it from a side, and clearing everything.
 */
module TradeSides {
  import opened JsValues
  import opened JsMaps
  import opened TradeCalculator

  /** The ids on a side. */
  function Ids(side: seq<Asset>): set<string> {
    set i | 0 <= i < |side| :: side[i].id
  }

  /** No id occurs twice on a side. */
  predicate UniqueIds(side: seq<Asset>) {
    forall i, j :: 0 <= i < j < |side| ==> side[i].id != side[j].id
  }

  /** `prev.find((x) => x.id === a.id) ? prev : [...prev, a]`. */
  function AddOnce(side: seq<Asset>, a: Asset): seq<Asset> {
    if a.id in Ids(side) then side else side + [a]
  }

  /** `prev.filter((x) => x.id !== id)`. */
  function WithoutId(side: seq<Asset>, id: string): seq<Asset> {
    if side == [] then []
    else
      var rest := WithoutId(side[..|side| - 1], id);
      var x := side[|side| - 1];
      if x.id != id then rest + [x] else rest
  }

  /**
   * Adding puts the asset's id on the side exactly once, keeps what was
   * there, and a second add changes nothing.
   */
  lemma AddOnceProperties(side: seq<Asset>, a: Asset)
    ensures Ids(AddOnce(side, a)) == Ids(side) + {a.id}
    ensures UniqueIds(side) ==> UniqueIds(AddOnce(side, a))
    ensures AddOnce(AddOnce(side, a), a) == AddOnce(side, a)
    ensures forall x :: x in side ==> x in AddOnce(side, a)
    ensures a.id !in Ids(side) ==> AddOnce(side, a) == side + [a]
  {
    var r := AddOnce(side, a);
    if a.id !in Ids(side) {
      assert r[|side|] == a;
      assert forall i :: 0 <= i < |side| ==> r[i] == side[i];
    }
    assert a.id in Ids(r);
  }

  /** Filtering removes exactly the assets with that id and keeps the others. */
  lemma {:induction false} WithoutIdMembers(side: seq<Asset>, id: string)
    ensures forall x :: x in WithoutId(side, id) <==> x in side && x.id != id
    ensures |WithoutId(side, id)| <= |side|
  {
    if side != [] {
      var init := side[..|side| - 1];
      WithoutIdMembers(init, id);
      assert side == init + [side[|side| - 1]];
    }
  }

  /** Filtering leaves no duplicate where there was none. */
  lemma {:induction false} WithoutIdUnique(side: seq<Asset>, id: string)
    requires UniqueIds(side)
    ensures UniqueIds(WithoutId(side, id))
  {
    if side != [] {
      var init := side[..|side| - 1];
      var x := side[|side| - 1];
      WithoutIdUnique(init, id);
      WithoutIdMembers(init, id);
      var rest := WithoutId(init, id);
      if x.id != id {
        assert forall i :: 0 <= i < |init| ==> init[i].id != x.id;
        assert forall i :: 0 <= i < |rest| ==> rest[i] in init;
        assert forall i :: 0 <= i < |rest| ==> (rest + [x])[i] == rest[i];
      }
    }
  }

  /** The ids after filtering are the ids before, less the one removed; no duplicate appears. */
  lemma WithoutIdProperties(side: seq<Asset>, id: string)
    ensures forall x :: x in WithoutId(side, id) <==> x in side && x.id != id
    ensures Ids(WithoutId(side, id)) == Ids(side) - {id}
    ensures UniqueIds(side) ==> UniqueIds(WithoutId(side, id))
  {
    WithoutIdMembers(side, id);
    var r := WithoutId(side, id);
    forall k | k in Ids(side) - {id}
      ensures k in Ids(r)
    {
      var i :| 0 <= i < |side| && side[i].id == k;
      assert side[i] in r;
    }
    forall k | k in Ids(r)
      ensures k in Ids(side) - {id}
    {
      var i :| 0 <= i < |r| && r[i].id == k;
      assert r[i] in side;
    }
    if UniqueIds(side) {
      WithoutIdUnique(side, id);
    }
  }

  /** Filtering an id that is not on the side changes nothing. */
  lemma {:induction false} WithoutAbsentId(side: seq<Asset>, id: string)
    requires id !in Ids(side)
    ensures WithoutId(side, id) == side
  {
    if side != [] {
      var init := side[..|side| - 1];
      assert id !in Ids(init) by {
        assert forall i :: 0 <= i < |init| ==> init[i] == side[i];
      }
      WithoutAbsentId(init, id);
      assert init + [side[|side| - 1]] == side;
    }
  }

  datatype Side = A | B

  class TradeBoard {
    /** The assets received (side A) and sent (side B). */
    var sideA: seq<Asset>
    var sideB: seq<Asset>
    /** `hiddenIds`: the ids hidden from the player and pick lists. */
    var hidden: set<string>

    /**
     * What the handlers keep true: no id twice on a side, no id on both
     * sides, and the hidden ids are exactly the ids on the sides.
     */
    ghost predicate Valid()
      reads this
    {
      UniqueIds(sideA) && UniqueIds(sideB) && Ids(sideA) !! Ids(sideB) && hidden == Ids(sideA) + Ids(sideB)
    }

    constructor()
      ensures Valid() && sideA == [] && sideB == [] && hidden == {}
    {
      sideA, sideB, hidden := [], [], {};
    }

    /** `hideAsset(asset)`. */
    method HideAsset(a: Asset)
      modifies this
      ensures hidden == old(hidden) + {a.id}
      ensures sideA == old(sideA) && sideB == old(sideB)
    {
      if a.id !in hidden {
        hidden := hidden + {a.id};
      }
    }

    /** `unhideById(id)`. */
    method UnhideById(id: string)
      modifies this
      ensures hidden == old(hidden) - {id}
      ensures sideA == old(sideA) && sideB == old(sideB)
    {
      if id in hidden {
        hidden := hidden - {id};
      }
    }

    /** The body of `onReceivePlayer` and `onReceivePick` once the asset is built. */
    method Receive(a: Asset)
      modifies this
      ensures sideA == AddOnce(old(sideA), a)
      ensures sideB == WithoutId(old(sideB), a.id)
      ensures hidden == old(hidden) + {a.id}
      ensures old(Valid()) ==> Valid()
    {
      ghost var wasValid := Valid();
      AddOnceProperties(sideA, a);
      WithoutIdProperties(sideB, a.id);
      sideA := AddOnce(sideA, a);
      sideB := WithoutId(sideB, a.id);
      HideAsset(a);
      if wasValid {
        assert Ids(sideA) !! Ids(sideB);
      }
    }

    /** The body of `onSendPlayer` and `onSendPick` once the asset is built. */
    method Send(a: Asset)
      modifies this
      ensures sideB == AddOnce(old(sideB), a)
      ensures sideA == WithoutId(old(sideA), a.id)
      ensures hidden == old(hidden) + {a.id}
      ensures old(Valid()) ==> Valid()
    {
      ghost var wasValid := Valid();
      AddOnceProperties(sideB, a);
      WithoutIdProperties(sideA, a.id);
      sideB := AddOnce(sideB, a);
      sideA := WithoutId(sideA, a.id);
      HideAsset(a);
      if wasValid {
        assert Ids(sideA) !! Ids(sideB);
      }
    }

    /** `onReceivePlayer(p)`. */
    method OnReceivePlayer(p: Record)
      modifies this
      ensures sideA == AddOnce(old(sideA), ToAssetFromPlayer(p))
      ensures sideB == WithoutId(old(sideB), ToAssetFromPlayer(p).id)
      ensures hidden == old(hidden) + {ToAssetFromPlayer(p).id}
      ensures old(Valid()) ==> Valid()
    {
      Receive(ToAssetFromPlayer(p));
    }

    /** `onSendPlayer(p)`. */
    method OnSendPlayer(p: Record)
      modifies this
      ensures sideB == AddOnce(old(sideB), ToAssetFromPlayer(p))
      ensures sideA == WithoutId(old(sideA), ToAssetFromPlayer(p).id)
      ensures hidden == old(hidden) + {ToAssetFromPlayer(p).id}
      ensures old(Valid()) ==> Valid()
    {
      Send(ToAssetFromPlayer(p));
    }

    /** `onReceivePick(pk)`. */
    method OnReceivePick(pk: Record, pickValues: OrderedMap<real>, proj: map<int, int>)
      modifies this
      ensures sideA == AddOnce(old(sideA), ToAssetFromPick(pk, pickValues, proj))
      ensures sideB == WithoutId(old(sideB), ToAssetFromPick(pk, pickValues, proj).id)
      ensures hidden == old(hidden) + {ToAssetFromPick(pk, pickValues, proj).id}
      ensures old(Valid()) ==> Valid()
    {
      Receive(ToAssetFromPick(pk, pickValues, proj));
    }

    /** `onSendPick(pk)`. */
    method OnSendPick(pk: Record, pickValues: OrderedMap<real>, proj: map<int, int>)
      modifies this
      ensures sideB == AddOnce(old(sideB), ToAssetFromPick(pk, pickValues, proj))
      ensures sideA == WithoutId(old(sideA), ToAssetFromPick(pk, pickValues, proj).id)
      ensures hidden == old(hidden) + {ToAssetFromPick(pk, pickValues, proj).id}
      ensures old(Valid()) ==> Valid()
    {
      Send(ToAssetFromPick(pk, pickValues, proj));
    }

    /**
     * `removeFromSide(side, id)`: only the named side loses the id, and the id
     * is shown again. The invariant survives when the id is not on the other side.
     */
    method RemoveFromSide(side: Side, id: string)
      modifies this
      ensures side == A ==> sideA == WithoutId(old(sideA), id) && sideB == old(sideB)
      ensures side == B ==> sideB == WithoutId(old(sideB), id) && sideA == old(sideA)
      ensures hidden == old(hidden) - {id}
      ensures old(Valid()) && id !in (if side == A then old(Ids(sideB)) else old(Ids(sideA))) ==> Valid()
    {
      WithoutIdProperties(sideA, id);
      WithoutIdProperties(sideB, id);
      if side == A {
        sideA := WithoutId(sideA, id);
      } else {
        sideB := WithoutId(sideB, id);
      }
      UnhideById(id);
    }

    /** `clearAll()`: both sides emptied and every asset shown again. */
    method ClearAll()
      modifies this
      ensures sideA == [] && sideB == [] && hidden == {}
      ensures Valid()
    {
      sideA, sideB, hidden := [], [], {};
    }
  }
}
