/**
 * The row mapping of `loadPickCurve` (src/data/loadPickCurve.ts): every
 * record the CSV parser produced becomes one curve row, with `??` fallbacks
 * for a missing overall pick, pick name and value.
 */
module LoadPickCurve {
  import opened Wrappers
  import opened Strings
  import opened Numbers
  import opened Picks
  import opened JsValues

  /**
   * A curve row; `pickName` keeps whatever non-null field the record had.
   * The overall pick and the value may be fractional; `None` is NaN.
   */
  datatype CurveRow = CurveRow(season: string, round: Num, pick: Num, overallPick: Option<real>, pickName: Field,
                               value: Option<real>)

  /** The body of the `.map` callback. */
  function MapRow(r: Record): CurveRow {
    var season := JsString(Get(r, "season"));
    var round := JsNumber(Get(r, "round"));
    var pick := JsNumber(Get(r, "pick"));
    var overall := JsReal(Coalesce(Get(r, "overall_pick"), Number(OverallFrom(round, pick, 32))));
    var name := Coalesce(Get(r, "pick_name"), Text(BuildPickName(season, round, pick)));
    var value := JsReal(Coalesce(Get(r, "value"), Number(Finite(0))));
    CurveRow(season, round, pick, overall, name, value)
  }

  /** `data.map(...)`. */
  function LoadPickCurve(data: seq<Record>): (rows: seq<CurveRow>)
  {
    if data == [] then [] else [MapRow(data[0])] + LoadPickCurve(data[1..])
  }

  // ------------------------------------------------------------ properties

  /** Exactly one row per record, in the records' order. */
  lemma {:induction false} OneRowPerRecord(data: seq<Record>)
    ensures |LoadPickCurve(data)| == |data|
    ensures forall i :: 0 <= i < |data| ==> LoadPickCurve(data)[i] == MapRow(data[i])
  {
    if data != [] {
      OneRowPerRecord(data[1..]);
    }
  }

  /** Mapping two batches of records is mapping each and concatenating. */
  lemma {:induction false} LoadPickCurveAppend(a: seq<Record>, b: seq<Record>)
    ensures LoadPickCurve(a + b) == LoadPickCurve(a) + LoadPickCurve(b)
  {
    if a == [] {
      assert a + b == b;
    } else {
      assert (a + b)[0] == a[0] && (a + b)[1..] == a[1..] + b;
      LoadPickCurveAppend(a[1..], b);
      var x := [MapRow(a[0])];
      assert x + (LoadPickCurve(a[1..]) + LoadPickCurve(b)) == (x + LoadPickCurve(a[1..])) + LoadPickCurve(b);
    }
  }

  /**
   * Without an `overall_pick` the overall number is `overallFrom(round, pick, 32)`;
   * a present one is read as a number, fraction kept.
   */
  lemma OverallPickDefault(r: Record)
    ensures var row := MapRow(r);
      var o := Get(r, "overall_pick");
      (o.Undefined? || o.Null? ==>
        row.overallPick == (var n := OverallFrom(row.round, row.pick, 32); if n.Finite? then Some(n.value as real) else None)) &&
      (o.Number? && o.n.Finite? ==> row.overallPick == Some(o.n.value as real)) &&
      (o.Decimal? ==> row.overallPick == Some(DecimalValue(o.units, o.scale))) &&
      (o.Text? ==> row.overallPick == ParseDecimal(o.s))
  {
  }

  /** Without a `pick_name` the name is `buildPickName(season, round, pick)`; a present one is kept as it is. */
  lemma PickNameDefault(r: Record)
    ensures var row := MapRow(r);
      (Get(r, "pick_name").Undefined? || Get(r, "pick_name").Null? ==>
        row.pickName == Text(BuildPickName(row.season, row.round, row.pick))) &&
      (!Get(r, "pick_name").Undefined? && !Get(r, "pick_name").Null? ==> row.pickName == Get(r, "pick_name"))
    ensures !MapRow(r).pickName.Undefined? && !MapRow(r).pickName.Null?
  {
  }

  /**
   * A missing or null value is 0; a present one is read as a number, fraction
   * kept, and agrees with the integer reading where that is a number. The
   * season is the field stringified.
   */
  lemma ValueAndSeason(r: Record)
    ensures var v := Get(r, "value");
      (v.Undefined? || v.Null? ==> MapRow(r).value == Some(0.0)) &&
      (v.Decimal? ==> MapRow(r).value == Some(DecimalValue(v.units, v.scale))) &&
      (v.Text? ==> MapRow(r).value == ParseDecimal(v.s)) &&
      (JsNumber(v).Finite? ==> MapRow(r).value == Some(JsNumber(v).value as real))
    ensures Get(r, "season").Number? && Get(r, "season").n.Finite? ==>
      MapRow(r).season == IntToString(Get(r, "season").n.value)
    ensures Get(r, "season").Decimal? ==>
      MapRow(r).season == DecimalToString(Get(r, "season").units, Get(r, "season").scale)
    ensures Get(r, "season").Text? ==> MapRow(r).season == Get(r, "season").s
  {
    JsRealAgrees(Get(r, "value"));
  }

  /**
   * A record with an integer season, round and pick but none of the optional
   * fields gets the canonical name and the overall number for a 32-team league.
   */
  lemma BareRecord(season: int, round: int, pick: int)
    ensures var row := MapRow(map["season" := Number(Finite(season)), "round" := Number(Finite(round)),
                                  "pick" := Number(Finite(pick))]);
      row == CurveRow(IntToString(season), Finite(round), Finite(pick), Some(((round - 1) * 32 + pick) as real),
                      Text(BuildPickName(IntToString(season), Finite(round), Finite(pick))), Some(0.0))
  {
    var r := map["season" := Number(Finite(season)), "round" := Number(Finite(round)), "pick" := Number(Finite(pick))];
    assert Get(r, "season") == Number(Finite(season)) && Get(r, "round") == Number(Finite(round)) &&
      Get(r, "pick") == Number(Finite(pick));
    assert Get(r, "overall_pick") == Undefined && Get(r, "pick_name") == Undefined && Get(r, "value") == Undefined;
    IntegerRow(r, season, round, pick);
  }

  /** The row of any record whose season, round and pick are integers and whose optional fields are missing. */
  lemma IntegerRow(r: Record, season: int, round: int, pick: int)
    requires Get(r, "season") == Number(Finite(season)) && Get(r, "round") == Number(Finite(round)) &&
      Get(r, "pick") == Number(Finite(pick))
    requires Get(r, "overall_pick") == Undefined && Get(r, "pick_name") == Undefined && Get(r, "value") == Undefined
    ensures MapRow(r) == CurveRow(IntToString(season), Finite(round), Finite(pick), Some(((round - 1) * 32 + pick) as real),
                                  Text(BuildPickName(IntToString(season), Finite(round), Finite(pick))), Some(0.0))
  {
    var seasonText := JsString(Get(r, "season"));
    assert seasonText == IntToString(season);
    assert JsNumber(Get(r, "round")) == Finite(round) && JsNumber(Get(r, "pick")) == Finite(pick);
    var overall := OverallFrom(Finite(round), Finite(pick), 32);
    assert overall == Finite((round - 1) * 32 + pick);
    assert Coalesce(Get(r, "overall_pick"), Number(overall)) == Number(overall);
    assert JsReal(Number(overall)) == Some(((round - 1) * 32 + pick) as real);
    assert Coalesce(Get(r, "value"), Number(Finite(0))) == Number(Finite(0));
  }
}
