/**
 * `ensureRangeFilters`: the options of the trees and area range filters. Both put the values
 * that parse into five bins; trees add a `'non'` option when some count is there but is not a
 * number, area widens its range to whole numbers with `Math.floor` and `Math.ceil`.
 */
module RangeOptions {
  import opened Wrappers
  import opened JsText
  import opened Numbers
  import opened Buckets
  import opened Records
  import opened Controls

  /** The `k` both range filters pass to `buildBins`. */
  const BinCount := 5

  /** The option value of the trees filter for a count that is there but not a number. */
  const NonNumeric := "non"

  /** `Math.min(...s)`. */
  function MinOf(s: seq<int>): (m: int)
    requires s != []
    ensures m in s && forall x :: x in s ==> m <= x
  {
    if |s| == 1 then s[0]
    else
      var m := MinOf(s[1..]);
      assert forall x :: x in s[1..] ==> x in s;
      assert forall x :: x in s ==> x == s[0] || x in s[1..];
      if s[0] <= m then s[0] else m
  }

  /** `Math.max(...s)`. */
  function MaxOf(s: seq<int>): (m: int)
    requires s != []
    ensures m in s && forall x :: x in s ==> x <= m
  {
    if |s| == 1 then s[0]
    else
      var m := MaxOf(s[1..]);
      assert forall x :: x in s[1..] ==> x in s;
      assert forall x :: x in s ==> x == s[0] || x in s[1..];
      if s[0] >= m then s[0] else m
  }

  /** `Math.min(...s)` over areas. */
  function MinOfReals(s: seq<real>): (m: real)
    requires s != []
    ensures m in s && forall x :: x in s ==> m <= x
  {
    if |s| == 1 then s[0]
    else
      var m := MinOfReals(s[1..]);
      assert forall x :: x in s[1..] ==> x in s;
      assert forall x :: x in s ==> x == s[0] || x in s[1..];
      if s[0] <= m then s[0] else m
  }

  /** `Math.max(...s)` over areas. */
  function MaxOfReals(s: seq<real>): (m: real)
    requires s != []
    ensures m in s && forall x :: x in s ==> x <= m
  {
    if |s| == 1 then s[0]
    else
      var m := MaxOfReals(s[1..]);
      assert forall x :: x in s[1..] ==> x in s;
      assert forall x :: x in s ==> x == s[0] || x in s[1..];
      if s[0] >= m then s[0] else m
  }

  /** `Math.ceil(x)`. */
  function Ceil(x: real): (r: int)
    ensures x <= r as real < x + 1.0
  {
    -((-x).Floor)
  }

  /** One option per bin: the `a–b` label (with the unit, if any) and the `a-b` value. */
  function BinOptions(bins: seq<Bin>, unit: Option<string>): (r: seq<Opt>)
    ensures |r| == |bins|
  {
    seq(|bins|, i requires 0 <= i < |bins| => Opt(LabelRange(bins[i].low, bins[i].high, unit), BinId(bins[i])))
  }

  /** What the trees loop makes of one record's `number_of_trees`. */
  datatype TreeReading = Blank | Count(n: int) | NotANumber

  /** Skipped when missing or blank; otherwise `parseIntOrNull`'s count, or not a number. */
  function ReadTrees(v: Option<string>): TreeReading {
    if !Present(v) then Blank
    else
      match ParseIntOrNull(v)
      case Some(n) => Count(n)
      case None => NotANumber
  }

  function TreeReadings(fs: seq<Feature>): (r: seq<TreeReading>)
    ensures |r| == |fs|
  {
    seq(|fs|, i requires 0 <= i < |fs| => ReadTrees(fs[i].properties.numberOfTrees))
  }

  lemma TreeReadingAt(fs: seq<Feature>, i: int)
    requires 0 <= i < |fs|
    ensures TreeReadings(fs)[i] == ReadTrees(fs[i].properties.numberOfTrees)
  {
  }

  /** The counts among the first `n` readings, in record order. */
  function Counts(rs: seq<TreeReading>, n: nat): seq<int>
    requires n <= |rs|
  {
    if n == 0 then [] else Counts(rs, n - 1) + (if rs[n - 1].Count? then [rs[n - 1].n] else [])
  }

  /** One of the first `n` readings is not a number. */
  predicate AnyNotANumber(rs: seq<TreeReading>, n: nat)
    requires n <= |rs|
  {
    exists i :: 0 <= i < n && rs[i].NotANumber?
  }

  /** The `FEATURES.forEach` of the trees half, filling `nums` and raising `hasNonNumeric`. */
  method CountTrees(rs: seq<TreeReading>) returns (nums: seq<int>, hasNonNumeric: bool)
    ensures nums == Counts(rs, |rs|)
    ensures hasNonNumeric == AnyNotANumber(rs, |rs|)
  {
    nums, hasNonNumeric := [], false;
    var i := 0;
    while i < |rs|
      invariant 0 <= i <= |rs|
      invariant nums == Counts(rs, i)
      invariant hasNonNumeric == AnyNotANumber(rs, i)
    {
      match rs[i] {
        case Blank =>
        case NotANumber => hasNonNumeric := true;
        case Count(n) => nums := nums + [n];
      }
      i := i + 1;
    }
  }

  /** The counts of the records that are there, not blank, and parse, in record order. */
  function TreeCounts(fs: seq<Feature>): seq<int> {
    Counts(TreeReadings(fs), |fs|)
  }

  /** Some record has a count that is there, not blank, and does not parse. */
  predicate HasNonNumericTrees(fs: seq<Feature>) {
    AnyNotANumber(TreeReadings(fs), |fs|)
  }

  /** The bins of the trees filter: the counts' range in `BinCount` bins (none without counts). */
  function TreeBins(fs: seq<Feature>): seq<Bin> {
    var nums := TreeCounts(fs);
    if nums == [] then [] else Bins(Some(MinOf(nums)), Some(MaxOf(nums)), BinCount)
  }

  /** The options of the trees filter: the placeholder, the bins, then `'non'` when needed. */
  function TreesOptionsOf(fs: seq<Feature>, heading: string, nonLabel: string): seq<Opt> {
    [Opt(heading, "")] + BinOptions(TreeBins(fs), None)
      + (if HasNonNumericTrees(fs) then [Opt(nonLabel, NonNumeric)] else [])
  }

  /** The trees half of `ensureRangeFilters`. */
  method TreesOptions(fs: seq<Feature>, heading: string, nonLabel: string) returns (opts: seq<Opt>)
    ensures opts == TreesOptionsOf(fs, heading, nonLabel)
  {
    var nums, hasNonNumeric := CountTrees(TreeReadings(fs));
    opts := [Opt(heading, "")];
    if nums != [] {
      var bins := BuildBins(Some(MinOf(nums)), Some(MaxOf(nums)), BinCount);
      opts := opts + BinOptions(bins, None);
    }
    if hasNonNumeric {
      opts := opts + [Opt(nonLabel, NonNumeric)];
    }
  }

  /** `parseFloatOrNull(area_m2)` of every record. */
  function AreaReadings(fs: seq<Feature>): (r: seq<Option<real>>)
    ensures |r| == |fs|
  {
    seq(|fs|, i requires 0 <= i < |fs| => ParseFloatOrNull(fs[i].properties.areaM2))
  }

  lemma AreaReadingAt(fs: seq<Feature>, i: int)
    requires 0 <= i < |fs|
    ensures AreaReadings(fs)[i] == ParseFloatOrNull(fs[i].properties.areaM2)
  {
  }

  /** The areas among the first `n` readings, in record order. */
  function Areas(rs: seq<Option<real>>, n: nat): seq<real>
    requires n <= |rs|
  {
    if n == 0 then [] else Areas(rs, n - 1) + (if rs[n - 1].Some? then [rs[n - 1].value] else [])
  }

  /** The `FEATURES.forEach` of the area half, filling `nums`. */
  method CollectAreas(rs: seq<Option<real>>) returns (nums: seq<real>)
    ensures nums == Areas(rs, |rs|)
  {
    nums := [];
    var i := 0;
    while i < |rs|
      invariant 0 <= i <= |rs|
      invariant nums == Areas(rs, i)
    {
      if rs[i].Some? {
        nums := nums + [rs[i].value];
      }
      i := i + 1;
    }
  }

  /** The areas that parse, in record order. */
  function AreaValues(fs: seq<Feature>): seq<real> {
    Areas(AreaReadings(fs), |fs|)
  }

  /** The unit after an area label. */
  function AreaUnit(isAR: bool): string {
    if isAR then "م²" else "m²"
  }

  /** The bins of the area filter: from the floor of the least area to the ceiling of the greatest. */
  function AreaBins(fs: seq<Feature>): seq<Bin> {
    var nums := AreaValues(fs);
    if nums == [] then [] else Bins(Some(MinOfReals(nums).Floor), Some(Ceil(MaxOfReals(nums))), BinCount)
  }

  /** The options of the area filter: the placeholder, then the bins. */
  function AreaOptionsOf(fs: seq<Feature>, heading: string, isAR: bool): seq<Opt> {
    [Opt(heading, "")] + BinOptions(AreaBins(fs), Some(AreaUnit(isAR)))
  }

  /** The area half of `ensureRangeFilters`. */
  method AreaOptions(fs: seq<Feature>, heading: string, isAR: bool) returns (opts: seq<Opt>)
    ensures opts == AreaOptionsOf(fs, heading, isAR)
  {
    var nums := CollectAreas(AreaReadings(fs));
    opts := [Opt(heading, "")];
    if nums != [] {
      var bins := BuildBins(Some(MinOfReals(nums).Floor), Some(Ceil(MaxOfReals(nums))), BinCount);
      opts := opts + BinOptions(bins, Some(AreaUnit(isAR)));
    }
  }

  /** A count that parses is never blank, so the blank test in front of the parse drops none. */
  lemma ParsedIsPresent(v: Option<string>)
    requires ParseIntOrNull(v).Some?
    ensures Present(v)
  {
    var s := v.value;
    var t := Cleaned(s);
    assert IsDigit(t[0]);
    TrimKeeps(StripSeparators(s));
    StripSeparatorsChars(s);
    assert t[0] in s;
    var k :| 0 <= k < |s| && s[k] == t[0];
    TrimKeeps(s);
    assert s[k] in Trim(s);
  }

  /** A record's reading is its count exactly when `parseIntOrNull` reads one. */
  lemma ReadTreesCount(v: Option<string>, x: int)
    ensures ReadTrees(v) == Count(x) <==> ParseIntOrNull(v).Some? && ParseIntOrNull(v).value == x
  {
    if ParseIntOrNull(v).Some? {
      ParsedIsPresent(v);
    }
  }

  lemma {:induction false} CountsMember(rs: seq<TreeReading>, n: nat, x: int)
    requires n <= |rs|
    ensures x in Counts(rs, n) <==> exists i :: 0 <= i < n && rs[i] == Count(x)
  {
    if n > 0 {
      CountsMember(rs, n - 1, x);
    }
  }

  /** The trees bins are built from exactly the counts that parse. */
  lemma TreeCountsParsed(fs: seq<Feature>, x: int)
    ensures x in TreeCounts(fs) <==>
      exists i :: 0 <= i < |fs| && ParseIntOrNull(fs[i].properties.numberOfTrees) == Some(x)
  {
    var rs := TreeReadings(fs);
    CountsMember(rs, |fs|, x);
    if x in TreeCounts(fs) {
      var i :| 0 <= i < |fs| && rs[i] == Count(x);
      TreeReadingAt(fs, i);
      ReadTreesCount(fs[i].properties.numberOfTrees, x);
    }
    if exists i :: 0 <= i < |fs| && ParseIntOrNull(fs[i].properties.numberOfTrees) == Some(x) {
      var i :| 0 <= i < |fs| && ParseIntOrNull(fs[i].properties.numberOfTrees) == Some(x);
      TreeReadingAt(fs, i);
      ReadTreesCount(fs[i].properties.numberOfTrees, x);
    }
  }

  /** A count that is there and not blank but that `parseIntOrNull` rejects. */
  predicate NonNumericCount(v: Option<string>) {
    Present(v) && ParseIntOrNull(v).None?
  }

  /** The sentinel is offered exactly when some count is there, not blank, and does not parse. */
  lemma NonNumericOffered(fs: seq<Feature>)
    ensures HasNonNumericTrees(fs) <==> exists i :: 0 <= i < |fs| && NonNumericCount(fs[i].properties.numberOfTrees)
  {
    var rs := TreeReadings(fs);
    if HasNonNumericTrees(fs) {
      var i :| 0 <= i < |fs| && rs[i].NotANumber?;
      TreeReadingAt(fs, i);
    }
    if exists i :: 0 <= i < |fs| && NonNumericCount(fs[i].properties.numberOfTrees) {
      var i :| 0 <= i < |fs| && NonNumericCount(fs[i].properties.numberOfTrees);
      TreeReadingAt(fs, i);
    }
  }

  /** No bin's id is the sentinel `'non'`: an id always holds a `-`. */
  lemma BinIdNotNonNumeric(b: Bin)
    ensures BinId(b) != NonNumeric
  {
    assert BinId(b)[|IntStr(b.low)|] == '-';
  }

  /** The options of a list of bins carry exactly the bins' ids. */
  lemma BinOptionsValues(bins: seq<Bin>, unit: Option<string>, v: string)
    ensures v in Values(BinOptions(bins, unit)) <==> exists b :: b in bins && BinId(b) == v
  {
    var r := BinOptions(bins, unit);
    if v in Values(r) {
      var o :| o in r && o.value == v;
      var i :| 0 <= i < |r| && r[i] == o;
      assert bins[i] in bins;
    }
    if exists b :: b in bins && BinId(b) == v {
      var b :| b in bins && BinId(b) == v;
      var i :| 0 <= i < |bins| && bins[i] == b;
      assert r[i] in r;
    }
  }

  /** The trees filter offers `'non'` exactly when a record's count is there but does not parse. */
  lemma TreesNonOption(fs: seq<Feature>, heading: string, nonLabel: string)
    ensures NonNumeric in Values(TreesOptionsOf(fs, heading, nonLabel)) <==> HasNonNumericTrees(fs)
  {
    var head, bins := [Opt(heading, "")], BinOptions(TreeBins(fs), None);
    var tail := if HasNonNumericTrees(fs) then [Opt(nonLabel, NonNumeric)] else [];
    var opts := TreesOptionsOf(fs, heading, nonLabel);
    assert opts == head + bins + tail;
    BinOptionsValues(TreeBins(fs), None, NonNumeric);
    if exists b :: b in TreeBins(fs) && BinId(b) == NonNumeric {
      var b :| b in TreeBins(fs) && BinId(b) == NonNumeric;
      BinIdNotNonNumeric(b);
    }
    if NonNumeric in Values(opts) {
      var o :| o in opts && o.value == NonNumeric;
      assert o in head || o in bins || o in tail;
    }
    if HasNonNumericTrees(fs) {
      assert opts[|opts| - 1] == Opt(nonLabel, NonNumeric);
    }
  }

  /** Counts are natural numbers, so every trees bin has non-negative ends. */
  lemma TreeBinsNonNegative(fs: seq<Feature>)
    ensures forall b :: b in TreeBins(fs) ==> b.low >= 0 && b.high >= 0
  {
    var nums := TreeCounts(fs);
    if nums != [] {
      var lo := MinOf(nums);
      TreeCountsParsed(fs, lo);
      BinsNonNegative(lo, MaxOf(nums), BinCount);
    }
  }

  /** Every count that parses lies in one of the trees bins. */
  lemma TreeCountCovered(fs: seq<Feature>, i: int)
    requires 0 <= i < |fs| && ParseIntOrNull(fs[i].properties.numberOfTrees).Some?
    ensures exists b :: b in TreeBins(fs) && InBin(ParseIntOrNull(fs[i].properties.numberOfTrees).value, b)
  {
    var t: int := ParseIntOrNull(fs[i].properties.numberOfTrees).value;
    TreeCountsParsed(fs, t);
    var nums := TreeCounts(fs);
    var lo, hi := MinOf(nums), MaxOf(nums);
    var bins := TreeBins(fs);
    if lo == hi {
      assert bins[0] in bins && InBin(t, bins[0]);
    } else {
      BinsCover(lo, hi, BinCount, t);
      var q := (t - lo) / Width(lo, hi, BinCount);
      assert bins[q] in bins;
    }
  }

  lemma {:induction false} AreasMember(rs: seq<Option<real>>, n: nat, x: real)
    requires n <= |rs|
    ensures x in Areas(rs, n) <==> exists i :: 0 <= i < n && rs[i] == Some(x)
  {
    if n > 0 {
      AreasMember(rs, n - 1, x);
    }
  }

  /** The area bins are built from exactly the areas that parse. */
  lemma AreaValuesParsed(fs: seq<Feature>, x: real)
    ensures x in AreaValues(fs) <==> exists i :: 0 <= i < |fs| && ParseFloatOrNull(fs[i].properties.areaM2) == Some(x)
  {
    var rs := AreaReadings(fs);
    AreasMember(rs, |fs|, x);
    if x in AreaValues(fs) {
      var i :| 0 <= i < |fs| && rs[i] == Some(x);
      AreaReadingAt(fs, i);
    }
    if exists i :: 0 <= i < |fs| && ParseFloatOrNull(fs[i].properties.areaM2) == Some(x) {
      var i :| 0 <= i < |fs| && ParseFloatOrNull(fs[i].properties.areaM2) == Some(x);
      AreaReadingAt(fs, i);
    }
  }

  /** Every area that parses lies between the floor of the least area and the ceiling of the greatest. */
  lemma AreaSpan(fs: seq<Feature>, i: int)
    requires 0 <= i < |fs| && ParseFloatOrNull(fs[i].properties.areaM2).Some?
    ensures AreaValues(fs) != []
    ensures var nums := AreaValues(fs);
      MinOfReals(nums).Floor as real <= ParseFloatOrNull(fs[i].properties.areaM2).value <= Ceil(MaxOfReals(nums)) as real
  {
    AreaValuesParsed(fs, ParseFloatOrNull(fs[i].properties.areaM2).value);
  }

  /** An area that parses to a whole number lies in one of the area bins. */
  lemma AreaWholeCovered(fs: seq<Feature>, i: int)
    requires 0 <= i < |fs| && ParseFloatOrNull(fs[i].properties.areaM2).Some?
    requires var x := ParseFloatOrNull(fs[i].properties.areaM2).value; x == x.Floor as real
    ensures exists b :: b in AreaBins(fs) && InRealBin(ParseFloatOrNull(fs[i].properties.areaM2).value, b)
  {
    var x := ParseFloatOrNull(fs[i].properties.areaM2).value;
    AreaSpan(fs, i);
    var nums := AreaValues(fs);
    var lo, hi := MinOfReals(nums).Floor, Ceil(MaxOfReals(nums));
    var bins := AreaBins(fs);
    var t := x.Floor;
    assert lo <= t <= hi;
    if lo == hi {
      assert bins == [Bin(lo, hi)];
      assert bins[0] in bins && InRealBin(x, bins[0]);
    } else {
      BinsCover(lo, hi, BinCount, t);
      var q := (t - lo) / Width(lo, hi, BinCount);
      assert bins[q] in bins && InRealBin(x, bins[q]);
    }
  }
}
