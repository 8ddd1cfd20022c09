/**
 * The bucketizer of the range filters: `buildBins`, the option label `labelRange`, and the
 * option value `${a}-${b}` that the filter evaluator reads back with `split('-')`.
 */
module Buckets {
  import opened Wrappers
  import opened JsText
  import opened Numbers

  /** The closed integer interval `[low, high]` that `buildBins` writes as the pair `[a, b]`. */
  datatype Bin = Bin(low: int, high: int)

  predicate InBin(x: int, b: Bin) {
    b.low <= x <= b.high
  }

  /** `Math.ceil(n / k)` for a positive `k`. */
  function CeilDiv(n: int, k: int): (w: int)
    requires k > 0
    ensures k * w >= n && k * (w - 1) < n
  {
    var w := (n + k - 1) / k;
    assert n + k - 1 == k * w + (n + k - 1) % k;
    assert k * (w - 1) == k * w - k;
    w
  }

  /** The width of every bin but the last, for the range `[lo, hi]` and `k` bins. */
  function Width(lo: int, hi: int, k: int): (w: int)
    requires lo < hi && k > 0
    ensures w >= 1
  {
    CeilDiv(hi - lo + 1, k)
  }

  /** Bin `i` of `k`: it starts `i` widths after `lo`; the last one is clamped to end at `hi`. */
  function BinAt(lo: int, hi: int, w: int, k: int, i: int): Bin {
    Bin(lo + i * w, if i == k - 1 then hi else lo + i * w + w - 1)
  }

  /** The `k` bins for `lo < hi`. */
  function Spread(lo: int, hi: int, k: int): (r: seq<Bin>)
    requires lo < hi && k > 0
    ensures |r| == k
  {
    var w := Width(lo, hi, k);
    seq(k, i requires 0 <= i < k => BinAt(lo, hi, w, k, i))
  }

  /**
   * What `buildBins(min, max, k)` returns: nothing when a bound is missing, the bounds put in
   * order, one degenerate bin when they coincide, otherwise `k` bins (none when `k <= 0`).
   */
  function Bins(min: Option<int>, max: Option<int>, k: int): seq<Bin> {
    if min.None? || max.None? then []
    else
      var lo := if max.value < min.value then max.value else min.value;
      var hi := if max.value < min.value then min.value else max.value;
      if lo == hi then [Bin(lo, hi)]
      else if k <= 0 then []
      else Spread(lo, hi, k)
  }

  /** `buildBins`, step by step as the script does it: `a` and `b` walk one width at a time. */
  method BuildBins(min: Option<int>, max: Option<int>, k: int) returns (bins: seq<Bin>)
    ensures bins == Bins(min, max, k)
  {
    if min.None? || max.None? {
      return [];
    }
    var lo, hi := min.value, max.value;
    if hi < lo {
      lo, hi := hi, lo;
    }
    if lo == hi {
      return [Bin(lo, hi)];
    }
    // For k <= 0 the script's width is not a number of any use; the loop below never runs then.
    var width := if k > 0 then Width(lo, hi, k) else 0;
    bins := [];
    var a, b := lo, lo + width - 1;
    var i := 0;
    while i < k
      invariant 0 <= i && (i <= k || i == 0)
      invariant |bins| == i
      invariant forall j :: 0 <= j < i ==> bins[j] == BinAt(lo, hi, width, k, j)
      invariant i < k ==> a == lo + i * width && b == a + width - 1
    {
      if i == k - 1 {
        b := hi;
      }
      bins := bins + [Bin(a, b)];
      a := b + 1;
      b := a + width - 1;
      i := i + 1;
    }
  }

  /** Without both bounds there are no bins. */
  lemma BinsMissingBound(min: Option<int>, max: Option<int>, k: int)
    requires min.None? || max.None?
    ensures Bins(min, max, k) == []
  {
  }

  /** The order of the bounds does not matter. */
  lemma BinsSwapped(x: int, y: int, k: int)
    ensures Bins(Some(x), Some(y), k) == Bins(Some(y), Some(x), k)
  {
    if x != y {
      var lo := if x < y then x else y;
      var hi := if x < y then y else x;
      assert Bins(Some(x), Some(y), k) == Bins(Some(lo), Some(hi), k);
      assert Bins(Some(y), Some(x), k) == Bins(Some(lo), Some(hi), k);
    }
  }

  /** Equal bounds give exactly one bin, holding that single value, whatever `k` is. */
  lemma BinsSingle(x: int, k: int)
    ensures Bins(Some(x), Some(x), k) == [Bin(x, x)]
  {
  }

  lemma MulPred(i: int, w: int)
    ensures (i - 1) * w == i * w - w
  {
  }

  /**
   * The shape of the bins for `lo < hi`: `k` of them, the first starting at `lo`, the last
   * ending at `hi`, each starting right after the previous one ends, all but the last `Width` wide.
   */
  lemma BinsShape(lo: int, hi: int, k: int)
    requires lo < hi && k > 0
    ensures |Bins(Some(lo), Some(hi), k)| == k
    ensures Bins(Some(lo), Some(hi), k)[0].low == lo
    ensures Bins(Some(lo), Some(hi), k)[k - 1].high == hi
    ensures forall i :: 0 < i < k ==>
      Bins(Some(lo), Some(hi), k)[i].low == Bins(Some(lo), Some(hi), k)[i - 1].high + 1
    ensures forall i :: 0 <= i < k - 1 ==>
      Bins(Some(lo), Some(hi), k)[i].high - Bins(Some(lo), Some(hi), k)[i].low + 1 == Width(lo, hi, k)
  {
    var r, w := Bins(Some(lo), Some(hi), k), Width(lo, hi, k);
    assert r == Spread(lo, hi, k);
    forall i | 0 < i < k ensures r[i].low == r[i - 1].high + 1 {
      MulPred(i, w);
    }
  }

  lemma MulMono(a: int, b: int, w: int)
    requires w >= 0
    ensures a <= b ==> a * w <= b * w
  {
    if a <= b {
      assert b * w - a * w == (b - a) * w;
    }
  }

  lemma MulBelow(q: int, k: int, w: int)
    requires w > 0 && q * w < k * w
    ensures q < k
  {
    MulMono(k, q, w);
  }

  /** Every integer of `[lo, hi]` lies in a bin: the one `(x - lo) / Width` places it in. */
  lemma BinsCover(lo: int, hi: int, k: int, x: int)
    requires lo < hi && k > 0 && lo <= x <= hi
    ensures 0 <= (x - lo) / Width(lo, hi, k) < k
    ensures InBin(x, Bins(Some(lo), Some(hi), k)[(x - lo) / Width(lo, hi, k)])
  {
    var r, w := Bins(Some(lo), Some(hi), k), Width(lo, hi, k);
    var q := (x - lo) / w;
    assert x - lo == q * w + (x - lo) % w;
    assert k * w >= hi - lo + 1;
    assert q * w <= x - lo < k * w;
    MulBelow(q, k, w);
    assert r == Spread(lo, hi, k);
    assert r[q] == BinAt(lo, hi, w, k, q);
  }

  lemma MulLess(i: int, j: int, w: int)
    requires i < j && w > 0
    ensures i * w + w <= j * w
  {
    MulMono(i + 1, j, w);
    assert (i + 1) * w == i * w + w;
  }

  /** No integer lies in two bins, inverted last bin and all. */
  lemma BinsDisjoint(lo: int, hi: int, k: int, x: int, i: int, j: int)
    requires lo < hi && k > 0 && 0 <= i < j < k
    ensures !(InBin(x, Bins(Some(lo), Some(hi), k)[i]) && InBin(x, Bins(Some(lo), Some(hi), k)[j]))
  {
    var r, w := Bins(Some(lo), Some(hi), k), Width(lo, hi, k);
    assert r == Spread(lo, hi, k);
    MulLess(i, j, w);
    assert r[i].high == lo + i * w + w - 1;
    assert r[j].low == lo + j * w;
  }

  /** A real number lies in a bin when it is within its two integer ends. */
  predicate InRealBin(x: real, b: Bin) {
    b.low as real <= x <= b.high as real
  }

  /**
   * Bins are closed integer intervals: a real strictly between the end of one bin (not the
   * last) and the next integer lies in none of them.
   */
  lemma BinsGap(lo: int, hi: int, k: int, i: int, x: real)
    requires lo < hi && k > 0 && 0 <= i < k - 1
    requires Bins(Some(lo), Some(hi), k)[i].high as real < x < Bins(Some(lo), Some(hi), k)[i].high as real + 1.0
    ensures forall b :: b in Bins(Some(lo), Some(hi), k) ==> !InRealBin(x, b)
  {
    var r, w := Bins(Some(lo), Some(hi), k), Width(lo, hi, k);
    assert r == Spread(lo, hi, k);
    assert r[i].high == lo + i * w + w - 1;
    forall b | b in r ensures !InRealBin(x, b) {
      var j :| 0 <= j < k && r[j] == b;
      if j <= i {
        MulMono(j, i, w);
        assert b.high <= r[i].high;
      } else {
        MulLess(i, j, w);
        assert b.low >= r[i].high + 1;
      }
    }
  }

  /** With non-negative bounds every bin has non-negative ends. */
  lemma BinsNonNegative(lo: int, hi: int, k: int)
    requires 0 <= lo <= hi
    ensures forall b :: b in Bins(Some(lo), Some(hi), k) ==> b.low >= 0 && b.high >= 0
  {
    if lo < hi && k > 0 {
      var r, w := Bins(Some(lo), Some(hi), k), Width(lo, hi, k);
      assert r == Spread(lo, hi, k);
      forall b | b in r ensures b.low >= 0 && b.high >= 0 {
        var i :| 0 <= i < k && r[i] == b;
        assert i * w >= 0;
      }
    }
  }

  /**
   * More bins than values: `buildBins(0, 1, 5)` gives `[0,0],[1,1],[2,2],[3,3],[4,1]`, two
   * bins past the maximum and an inverted last one.
   */
  lemma BinsTwoValuesFiveBins(lo: int, hi: int, k: int)
    requires lo == 0 && hi == 1 && k == 5
    ensures Bins(Some(lo), Some(hi), k) == [Bin(0, 0), Bin(1, 1), Bin(2, 2), Bin(3, 3), Bin(4, 1)]
  {
    var r, w := Bins(Some(lo), Some(hi), k), Width(lo, hi, k);
    assert w == 1;
    assert r == Spread(lo, hi, k);
    assert r[0] == BinAt(lo, hi, w, k, 0) && r[1] == BinAt(lo, hi, w, k, 1);
    assert r[2] == BinAt(lo, hi, w, k, 2) && r[3] == BinAt(lo, hi, w, k, 3);
    assert r[4] == BinAt(lo, hi, w, k, 4);
  }

  /** A range of ten or more values in five bins: `buildBins(0, 49, 5)` is `[0,9]` … `[40,49]`. */
  lemma BinsFiftyValues(lo: int, hi: int, k: int)
    requires lo == 0 && hi == 49 && k == 5
    ensures Bins(Some(lo), Some(hi), k) == [Bin(0, 9), Bin(10, 19), Bin(20, 29), Bin(30, 39), Bin(40, 49)]
  {
    var r, w := Bins(Some(lo), Some(hi), k), Width(lo, hi, k);
    assert w == 10;
    assert r == Spread(lo, hi, k);
    assert r[0] == BinAt(lo, hi, w, k, 0) && r[1] == BinAt(lo, hi, w, k, 1);
    assert r[2] == BinAt(lo, hi, w, k, 2) && r[3] == BinAt(lo, hi, w, k, 3);
    assert r[4] == BinAt(lo, hi, w, k, 4);
  }

  /**
   * Areas are real: with areas spanning `[0, 49]`, an area of 9.5 sits between `[0,9]` and
   * `[10,19]` and lies in no bin.
   */
  lemma BinsMissNineAndAHalf(lo: int, hi: int, k: int, x: real)
    requires lo == 0 && hi == 49 && k == 5 && x == 9.5
    ensures forall b :: b in Bins(Some(lo), Some(hi), k) ==> !InRealBin(x, b)
  {
    BinsFiftyValues(lo, hi, k);
    BinsGap(lo, hi, k, 0, x);
  }

  /** `labelRange(a, b, unit)`: `a–b` with an en dash, then the unit after a space when given. */
  function LabelRange(a: int, b: int, unit: Option<string>): (r: string) {
    IntStr(a) + "–" + IntStr(b) + UnitSuffix(unit)
  }

  function UnitSuffix(unit: Option<string>): string {
    if unit.Some? && unit.value != "" then " " + unit.value else ""
  }

  lemma NoDash(i: int, d: char)
    requires d != '-' && !IsDigit(d)
    ensures d !in IntStr(i)
  {
    var s := IntStr(i);
    forall j | 0 <= j < |s| ensures s[j] == '-' || IsDigit(s[j]) {
      if i < 0 && j > 0 {
        assert s[j] == NatStr(-i)[j - 1];
      }
    }
  }

  /** Two `a–b` texts with their pieces free of the separator are equal exactly when the pieces are. */
  lemma SplitPair(x: string, y: string, x': string, y': string, sep: char)
    requires sep !in x && sep !in y && sep !in x' && sep !in y'
    requires x + [sep] + y == x' + [sep] + y'
    ensures x == x' && y == y'
  {
    SplitAtFirst(x, sep, y);
    SplitAtFirst(x', sep, y');
    SplitNoSeparator(y, sep);
    SplitNoSeparator(y', sep);
    var parts := Split(x + [sep] + y, sep);
    assert parts == [x, y] && parts == [x', y'];
    assert parts[0] == x == x' && parts[1] == y == y';
  }

  /** Different ranges get different labels. */
  lemma LabelRangeInjective(a: int, b: int, c: int, d: int, unit: Option<string>)
    requires LabelRange(a, b, unit) == LabelRange(c, d, unit)
    ensures a == c && b == d
  {
    var u := UnitSuffix(unit);
    var p, q := IntStr(a) + "–" + IntStr(b), IntStr(c) + "–" + IntStr(d);
    assert p + u == q + u;
    assert p == (p + u)[..|p|];
    assert |p| == |q|;
    assert q == (q + u)[..|q|];
    NoDash(a, '–');
    NoDash(b, '–');
    NoDash(c, '–');
    NoDash(d, '–');
    SplitPair(IntStr(a), IntStr(b), IntStr(c), IntStr(d), '–');
    IntStrInjective(a, c);
    IntStrInjective(b, d);
  }

  /** The option value of a bin, `${a}-${b}`. */
  function BinId(b: Bin): (r: string) {
    IntStr(b.low) + "-" + IntStr(b.high)
  }

  /** The first two pieces of `sel.split('-')`; a missing second piece is `None` (undefined). */
  function IdPieces(sel: string): (string, Option<string>) {
    var pieces := Split(sel, '-');
    (pieces[0], if |pieces| >= 2 then Some(pieces[1]) else None)
  }

  /** `sel.split('-').map(x => parseInt(x, 10))`, first two entries; `None` is NaN or undefined. */
  function IntBounds(sel: string): (Option<int>, Option<int>) {
    var (x, y) := IdPieces(sel);
    (JsParseInt(x), if y.Some? then JsParseInt(y.value) else None)
  }

  /** `sel.split('-').map(x => parseFloat(x))`, first two entries; `None` is NaN or undefined. */
  function RealBounds(sel: string): (Option<real>, Option<real>) {
    var (x, y) := IdPieces(sel);
    (JsParseFloat(x), if y.Some? then JsParseFloat(y.value) else None)
  }

  lemma NoMinusInDigits(s: string)
    requires AllDigits(s)
    ensures '-' !in s
  {
    forall j | 0 <= j < |s| ensures s[j] != '-' {
      assert IsDigit(s[j]);
    }
  }

  /** The id of a bin with non-negative ends splits back into the two ends' texts. */
  lemma IdPiecesOfBin(b: Bin)
    requires b.low >= 0 && b.high >= 0
    ensures IdPieces(BinId(b)) == (NatStr(b.low), Some(NatStr(b.high)))
  {
    NoMinusInDigits(NatStr(b.low));
    NoMinusInDigits(NatStr(b.high));
    SplitAtFirst(NatStr(b.low), '-', NatStr(b.high));
    SplitNoSeparator(NatStr(b.high), '-');
  }

  /** Reading back the id of a bin with non-negative ends gives its two ends, as integers and as reals. */
  lemma BinIdRoundTrip(b: Bin)
    requires b.low >= 0 && b.high >= 0
    ensures IntBounds(BinId(b)) == (Some(b.low), Some(b.high))
    ensures RealBounds(BinId(b)) == (Some(b.low as real), Some(b.high as real))
  {
    IdPiecesOfBin(b);
    BuiltinsReadNatStr(b.low);
    BuiltinsReadNatStr(b.high);
  }

  /**
   * A bin that starts below zero has an id beginning with `-`, so its first piece is empty and
   * reads as NaN: no comparison with it holds.
   */
  lemma BinIdNegativeLow(b: Bin)
    requires b.low < 0
    ensures IntBounds(BinId(b)).0 == None && RealBounds(BinId(b)).0 == None
  {
    var tail := NatStr(-b.low) + "-" + IntStr(b.high);
    assert IntStr(b.low) == "-" + NatStr(-b.low);
    assert BinId(b) == [] + ['-'] + tail;
    SplitAtFirst([], '-', tail);
    assert IdPieces(BinId(b)).0 == [];
    BuiltinsEmpty();
  }
}
