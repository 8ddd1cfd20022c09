/**
 * `matches(p)`: whether one record passes every filter control. A built-in select only filters
 * when it is shown and has a value; the trees and area selects read their option value back as a
 * range (or the `'non'` sentinel); a custom-field select wants some extra of its key with the
 * selected value; the farmer box is a case-insensitive substring search over code and names.
 */
module Filtering {
  import opened Wrappers
  import opened JsText
  import opened Numbers
  import opened Buckets
  import opened Records
  import opened Controls
  import opened RangeOptions
  import opened CategoryOptions
  import opened DynamicFilters

  /** A built-in select: inactive, or the record's normalised value is the selected one. */
  predicate CategoryOk(s: Select, p: Props, c: Category) {
    !Active(s) || Norm(Canonical(p, c)) == s.value
  }

  /** `t >= a && t <= b`, where a NaN or missing bound fails every comparison. */
  predicate InIntRange(t: int, bounds: (Option<int>, Option<int>)) {
    bounds.0.Some? && bounds.1.Some? && bounds.0.value <= t <= bounds.1.value
  }

  predicate InRealRange(x: real, bounds: (Option<real>, Option<real>)) {
    bounds.0.Some? && bounds.1.Some? && bounds.0.value <= x <= bounds.1.value
  }

  /**
   * The trees select: `'non'` keeps the records whose count is there but does not parse; any other
   * value keeps the records whose count parses and lies in the range the value names.
   */
  predicate TreesOk(s: Select, p: Props) {
    !Active(s) ||
    var t := ParseIntOrNull(p.numberOfTrees);
    if s.value == NonNumeric then Present(p.numberOfTrees) && t.None?
    else t.Some? && InIntRange(t.value, IntBounds(s.value))
  }

  /** The area select: the area parses and lies in the range the value names. */
  predicate AreaOk(s: Select, p: Props) {
    !Active(s) ||
    var a := ParseFloatOrNull(p.areaM2);
    a.Some? && InRealRange(a.value, RealBounds(s.value))
  }

  /** `(p.extras || []).some(ev => ev.key === key && norm(ev.value_en) === select.value)`. */
  predicate Hit(extras: seq<Extra>, d: DynSelect) {
    exists i :: 0 <= i < |extras| && extras[i].key == d.key && Norm(extras[i].valueEn) == d.value
  }

  /** Every custom-field select with a value is hit by some extra of the record. */
  predicate DynamicOk(ds: seq<DynSelect>, p: Props) {
    forall i :: 0 <= i < |ds| ==> ds[i].value == "" || Hit(p.extras, ds[i])
  }

  /** `p.code` as the text `nlow` sees: the decimal digits of the number. */
  function CodeText(code: Option<nat>): Option<string> {
    if code.Some? then Some(NatStr(code.value)) else None
  }

  /** `[p.code, p.farmer_name, p.farmer_name_ar].map(nlow).join(' | ')`. */
  function Haystack(p: Props): string {
    NLow(CodeText(p.code)) + " | " + NLow(p.farmerName) + " | " + NLow(p.farmerNameAr)
  }

  /** The farmer box: blank after `nlow`, or found in the haystack. */
  predicate QueryOk(farmer: string, p: Props) {
    var q := NLow(Some(farmer));
    q == "" || Includes(Haystack(p), q)
  }

  /** `matches(p)`: every control lets the record through. */
  predicate Matches(fl: Filters, p: Props) {
    && CategoryOk(fl.region, p, Region)
    && CategoryOk(fl.governorate, p, Governorate)
    && CategoryOk(fl.crop, p, CropType)
    && CategoryOk(fl.water, p, WaterSource)
    && CategoryOk(fl.irrigation, p, IrrigationType)
    && TreesOk(fl.trees, p)
    && AreaOk(fl.area, p)
    && DynamicOk(fl.dynamic, p)
    && QueryOk(fl.farmer, p)
  }

  /** A select with its value reset, as the clear button leaves it. */
  function Reset(s: Select): (r: Select)
    ensures !Active(r) && r.shown == s.shown && r.options == s.options
  {
    s.(value := "")
  }

  function ResetDynamic(ds: seq<DynSelect>): (r: seq<DynSelect>)
    ensures |r| == |ds|
    ensures forall i :: 0 <= i < |ds| ==> r[i].value == "" && r[i].key == ds[i].key && r[i].options == ds[i].options
  {
    seq(|ds|, i requires 0 <= i < |ds| => ds[i].(value := ""))
  }

  /** The controls after the clear button: every value emptied, every option list kept. */
  function Cleared(fl: Filters): Filters {
    Filters(Reset(fl.region), Reset(fl.governorate), Reset(fl.crop), Reset(fl.water), Reset(fl.irrigation),
            Reset(fl.trees), Reset(fl.area), "", ResetDynamic(fl.dynamic))
  }

  /** Nothing is selected anywhere and the farmer box is blank. */
  predicate Idle(fl: Filters) {
    && !Active(fl.region) && !Active(fl.governorate) && !Active(fl.crop) && !Active(fl.water)
    && !Active(fl.irrigation) && !Active(fl.trees) && !Active(fl.area)
    && NLow(Some(fl.farmer)) == ""
    && forall i :: 0 <= i < |fl.dynamic| ==> fl.dynamic[i].value == ""
  }

  /** Controls that select nothing let every record through. */
  lemma IdleMatchesAll(fl: Filters, p: Props)
    requires Idle(fl)
    ensures Matches(fl, p)
  {
  }

  /** After the clear button every record matches. */
  lemma ClearedMatchesAll(fl: Filters, p: Props)
    ensures Idle(Cleared(fl)) && Matches(Cleared(fl), p)
  {
    assert NLow(Some("")) == "" by {
      assert Trim("") == "";
    }
    IdleMatchesAll(Cleared(fl), p);
  }

  /** Which built-in control of `Filters` is meant. */
  datatype Control = RegionSelect | GovernorateSelect | CropSelect | WaterSelect | IrrigationSelect
                   | TreesSelect | AreaSelect

  function SelectAt(fl: Filters, c: Control): Select {
    match c
    case RegionSelect => fl.region
    case GovernorateSelect => fl.governorate
    case CropSelect => fl.crop
    case WaterSelect => fl.water
    case IrrigationSelect => fl.irrigation
    case TreesSelect => fl.trees
    case AreaSelect => fl.area
  }

  function WithSelect(fl: Filters, c: Control, s: Select): (r: Filters)
    ensures SelectAt(r, c) == s
    ensures forall d :: d != c ==> SelectAt(r, d) == SelectAt(fl, d)
    ensures r.farmer == fl.farmer && r.dynamic == fl.dynamic
  {
    match c
    case RegionSelect => fl.(region := s)
    case GovernorateSelect => fl.(governorate := s)
    case CropSelect => fl.(crop := s)
    case WaterSelect => fl.(water := s)
    case IrrigationSelect => fl.(irrigation := s)
    case TreesSelect => fl.(trees := s)
    case AreaSelect => fl.(area := s)
  }

  /**
   * A hidden or empty control is ignored: replacing it by any other hidden or empty control, whatever
   * its options and value, changes no record's verdict.
   */
  lemma InactiveIgnored(fl: Filters, c: Control, s: Select, p: Props)
    requires !Active(SelectAt(fl, c)) && !Active(s)
    ensures Matches(WithSelect(fl, c, s), p) == Matches(fl, p)
  {
    var r := WithSelect(fl, c, s);
    assert SelectAt(r, RegionSelect) == r.region && SelectAt(fl, RegionSelect) == fl.region;
    assert SelectAt(r, GovernorateSelect) == r.governorate && SelectAt(fl, GovernorateSelect) == fl.governorate;
    assert SelectAt(r, CropSelect) == r.crop && SelectAt(fl, CropSelect) == fl.crop;
    assert SelectAt(r, WaterSelect) == r.water && SelectAt(fl, WaterSelect) == fl.water;
    assert SelectAt(r, IrrigationSelect) == r.irrigation && SelectAt(fl, IrrigationSelect) == fl.irrigation;
    assert SelectAt(r, TreesSelect) == r.trees && SelectAt(fl, TreesSelect) == fl.trees;
    assert SelectAt(r, AreaSelect) == r.area && SelectAt(fl, AreaSelect) == fl.area;
  }

  /** The trees option of a bin with non-negative ends keeps exactly the counts in that bin. */
  lemma TreesBinSelects(s: Select, b: Bin, p: Props)
    requires s.shown && s.value == BinId(b) && b.low >= 0 && b.high >= 0
    ensures TreesOk(s, p) <==>
      ParseIntOrNull(p.numberOfTrees).Some? && InBin(ParseIntOrNull(p.numberOfTrees).value, b)
  {
    BinIdNotNonNumeric(b);
    BinIdRoundTrip(b);
  }

  /** The `'non'` option keeps exactly the records whose count is there and does not parse. */
  lemma TreesNonSelects(s: Select, p: Props)
    requires s.shown && s.value == NonNumeric
    ensures TreesOk(s, p) <==> NonNumericCount(p.numberOfTrees)
  {
  }

  /** The area option of a bin with non-negative ends keeps exactly the areas within its two ends. */
  lemma AreaBinSelects(s: Select, b: Bin, p: Props)
    requires s.shown && s.value == BinId(b) && b.low >= 0 && b.high >= 0
    ensures AreaOk(s, p) <==>
      ParseFloatOrNull(p.areaM2).Some? && InRealBin(ParseFloatOrNull(p.areaM2).value, b)
  {
    assert BinId(b) != "" by {
      assert |IntStr(b.low)| >= 1;
    }
    BinIdRoundTrip(b);
  }

  /** An option whose bin starts below zero keeps no record: its id reads back as NaN. */
  lemma NegativeBinSelectsNothing(s: Select, b: Bin, p: Props)
    requires s.shown && s.value == BinId(b) && b.low < 0
    ensures !TreesOk(s, p) && !AreaOk(s, p)
  {
    assert BinId(b) != "" by {
      assert |IntStr(b.low)| >= 1;
    }
    BinIdNotNonNumeric(b);
    BinIdNegativeLow(b);
  }

  /** A record whose count parses is kept by the option of some trees bin. */
  lemma TreeCountSelectable(fs: seq<Feature>, i: int, options: seq<Opt>)
    requires 0 <= i < |fs| && ParseIntOrNull(fs[i].properties.numberOfTrees).Some?
    ensures exists b :: b in TreeBins(fs) && TreesOk(Select(true, options, BinId(b)), fs[i].properties)
  {
    TreeCountCovered(fs, i);
    TreeBinsNonNegative(fs);
    var t := ParseIntOrNull(fs[i].properties.numberOfTrees).value;
    var b :| b in TreeBins(fs) && InBin(t, b);
    TreesBinSelects(Select(true, options, BinId(b)), b, fs[i].properties);
  }

  /**
   * With areas spanning `[0, 49]` a record of area `"9.5"` is kept by none of the five area
   * options: it sits between the bins `0–9` and `10–19`.
   */
  lemma AreaNineAndAHalfUnselectable(b: Bin, options: seq<Opt>, p: Props)
    requires b in Bins(Some(0), Some(49), BinCount) && p.areaM2 == Some("9.5")
    ensures !AreaOk(Select(true, options, BinId(b)), p)
  {
    assert "9.5" == "9" + "." + "5";
    ParseFloatOrNullLiteral("9", "5");
    assert DigitsValue("9") == 9 by { assert "9"[..0] == ""; }
    assert FractionValue("5") == 0.5 by { assert "5"[1..] == ""; }
    BinsNonNegative(0, 49, BinCount);
    BinsMissNineAndAHalf(0, 49, BinCount, 9.5);
    AreaBinSelects(Select(true, options, BinId(b)), b, p);
  }

  /** The farmer box keeps a record exactly when the normalised query stands somewhere in its haystack. */
  lemma QueryFinds(farmer: string, p: Props)
    ensures var q := NLow(Some(farmer));
      QueryOk(farmer, p) <==> q == "" || exists i: nat :: OccursAt(Haystack(p), q, i)
  {
    IncludesIff(Haystack(p), NLow(Some(farmer)));
  }

  /** The farmer search ignores the case of the query. */
  lemma QueryIgnoresCase(farmer: string, p: Props)
    ensures QueryOk(Lower(farmer), p) == QueryOk(farmer, p)
  {
    NLowIgnoresCase(farmer);
  }

  /** A built-in select's option value keeps some record, and only the values of the records are offered. */
  lemma CategoryOptionSelects(fs: seq<Feature>, c: Category, isAR: bool, le: (string, string) -> bool, s: Select)
    requires s.shown
    ensures s.value in Values(SortedRows(fs, c, isAR, le)) <==>
      s.value != "" && exists i :: 0 <= i < |fs| && CategoryOk(s, fs[i].properties, c)
  {
    SortedRowsCover(fs, c, isAR, le, s.value);
    if s.value != "" && exists i :: 0 <= i < |fs| && CategoryOk(s, fs[i].properties, c) {
      var i :| 0 <= i < |fs| && CategoryOk(s, fs[i].properties, c);
      assert Key(fs[i], c) == s.value;
    }
    if s.value != "" && Carried(fs, c, s.value) {
      var i :| 0 <= i < |fs| && Key(fs[i], c) == s.value;
      assert CategoryOk(s, fs[i].properties, c);
    }
  }

  /** Choosing any value a custom-field select offers keeps at least one record. */
  lemma DynamicOptionSelects(fs: seq<Feature>, isAR: bool, le: (string, string) -> bool, k: int, o: Opt)
    requires 0 <= k < |Groups(fs)| && o in DynamicSelects(Groups(fs), isAR, le)[k].options[1..]
    ensures var d := DynamicSelects(Groups(fs), isAR, le)[k];
      exists r :: 0 <= r < |fs| && Hit(fs[r].properties.extras, d.(value := o.value))
  {
    var evs := AllExtras(fs, |fs|);
    var d := DynamicSelects(Groups(fs), isAR, le)[k];
    DynamicSelectValues(fs, isAR, le, k, o.value);
    assert o.value in Values(d.options[1..]);
    var j :| 0 <= j < |evs| && Contributes(evs[j], d.key) && EnValue(evs[j]) == o.value;
    AllExtrasMember(fs, |fs|, j);
    var r, m :| 0 <= r < |fs| && 0 <= m < |fs[r].properties.extras| && evs[j] == fs[r].properties.extras[m];
    assert Hit(fs[r].properties.extras, d.(value := o.value));
  }
}
