/**
 * `fillOptionsLocalized`: the options of a built-in filter. One option per distinct non-empty
 * normalised value of the filter's property, labelled from the first record carrying it,
 * sorted by label, after the kept placeholder.
 */
module CategoryOptions {
  import opened Wrappers
  import opened JsText
  import opened Records
  import opened Controls
  import opened Collation

  /** What one record offers: its label as `tFor` gives it, and its normalised value. */
  function Candidate(f: Feature, c: Category, isAR: bool): Opt {
    Opt(CategoryLabel(f.properties, c, isAR), Key(f, c))
  }

  function Candidates(fs: seq<Feature>, c: Category, isAR: bool): (r: seq<Opt>)
    ensures |r| == |fs|
  {
    seq(|fs|, i requires 0 <= i < |fs| => Candidate(fs[i], c, isAR))
  }

  lemma CandidateAt(fs: seq<Feature>, c: Category, isAR: bool, i: int)
    requires 0 <= i < |fs|
    ensures Candidates(fs, c, isAR)[i] == Candidate(fs[i], c, isAR)
  {
  }

  /** The first `n` candidates with an empty value, or a value seen before, dropped. */
  function FirstRows(cs: seq<Opt>, n: nat): seq<Opt>
    requires n <= |cs|
  {
    if n == 0 then []
    else
      var prev := FirstRows(cs, n - 1);
      var o := cs[n - 1];
      if o.value == "" || o.value in Values(prev) then prev else prev + [o]
  }

  /** The rows the script collects: the records' values in order of first appearance. */
  function Rows(fs: seq<Feature>, c: Category, isAR: bool): seq<Opt> {
    var cs := Candidates(fs, c, isAR);
    FirstRows(cs, |cs|)
  }

  /** The select's first option, kept with the heading as its new text (nothing if there was none). */
  function Placeholder(first: Option<Opt>, heading: string): seq<Opt> {
    if first.Some? then [Opt(heading, first.value.value)] else []
  }

  /** The rows in ascending order of their labels. */
  function SortedRows(fs: seq<Feature>, c: Category, isAR: bool, le: (string, string) -> bool): seq<Opt> {
    SortBy(Rows(fs, c, isAR), TextOf, le)
  }

  /** The options of the select once `fillOptionsLocalized` is done. */
  function LocalizedOptions(first: Option<Opt>, fs: seq<Feature>, c: Category, heading: string, isAR: bool,
                            le: (string, string) -> bool): seq<Opt> {
    Placeholder(first, heading) + SortedRows(fs, c, isAR, le)
  }

  /** `fillOptionsLocalized(select, enKey, arKey, headingLabel)`: collect the rows, sort them, append them. */
  method FillOptionsLocalized(first: Option<Opt>, fs: seq<Feature>, c: Category, heading: string, isAR: bool,
                              le: (string, string) -> bool) returns (opts: seq<Opt>)
    ensures opts == LocalizedOptions(first, fs, c, heading, isAR, le)
  {
    var rows := CollectRows(fs, c, isAR);
    opts := Placeholder(first, heading) + SortBy(rows, TextOf, le);
  }

  /**
   * The `FEATURES.forEach` of `fillOptionsLocalized`: each record's `norm(p[enKey])` and
   * `tFor(p, enKey, arKey)`, kept when the value is non-empty and not yet in `seen`.
   */
  method CollectRows(fs: seq<Feature>, c: Category, isAR: bool) returns (rows: seq<Opt>)
    ensures rows == Rows(fs, c, isAR)
  {
    rows := KeepFirst(Candidates(fs, c, isAR));
  }

  /** The `seen` set and the `rows` array: a row is pushed when its value is non-empty and new. */
  method KeepFirst(cs: seq<Opt>) returns (rows: seq<Opt>)
    ensures rows == FirstRows(cs, |cs|)
  {
    var seen: set<string> := {};
    rows := [];
    var i := 0;
    while i < |cs|
      invariant 0 <= i <= |cs|
      invariant rows == FirstRows(cs, i)
      invariant seen == Values(rows)
    {
      var o := cs[i];
      if o.value != "" && o.value !in seen {
        ValuesAppend(rows, o);
        seen := seen + {o.value};
        rows := rows + [o];
      }
      i := i + 1;
    }
  }

  /** Some record has the normalised value `v`. */
  predicate Carried(fs: seq<Feature>, c: Category, v: string) {
    exists i :: 0 <= i < |fs| && Key(fs[i], c) == v
  }

  /** Record `j` is the first with the normalised value `v`. */
  predicate FirstCarrier(fs: seq<Feature>, c: Category, v: string, j: int) {
    0 <= j < |fs| && Key(fs[j], c) == v && forall i :: 0 <= i < j ==> Key(fs[i], c) != v
  }

  lemma {:induction false} FirstRowsValue(cs: seq<Opt>, n: nat, v: string)
    requires n <= |cs|
    ensures v in Values(FirstRows(cs, n)) <==> v != "" && exists i :: 0 <= i < n && cs[i].value == v
  {
    if n > 0 {
      var rows := FirstRows(cs, n - 1);
      FirstRowsValue(cs, n - 1, v);
      var o := cs[n - 1];
      if o.value != "" && o.value !in Values(rows) {
        ValuesAppend(rows, o);
      }
    }
  }

  lemma {:induction false} FirstRowsDistinct(cs: seq<Opt>, n: nat)
    requires n <= |cs|
    ensures DistinctBy(FirstRows(cs, n), ValueOf)
  {
    if n > 0 {
      var rows := FirstRows(cs, n - 1);
      FirstRowsDistinct(cs, n - 1);
      var o := cs[n - 1];
      if o.value != "" && o.value !in Values(rows) {
        var r := rows + [o];
        forall i, j | 0 <= i < j < |r| ensures ValueOf(r[i]) != ValueOf(r[j]) {
          if j == |rows| {
            assert r[i] in rows;
          }
        }
      }
    }
  }

  lemma {:induction false} FirstRowsFirst(cs: seq<Opt>, n: nat, o: Opt)
    requires n <= |cs| && o in FirstRows(cs, n)
    ensures exists j :: 0 <= j < n && cs[j] == o && forall i :: 0 <= i < j ==> cs[i].value != o.value
  {
    if o in FirstRows(cs, n - 1) {
      FirstRowsFirst(cs, n - 1, o);
    } else {
      assert o == cs[n - 1];
      FirstRowsValue(cs, n - 1, o.value);
    }
  }

  /** The kept placeholder comes first, then the sorted rows. */
  lemma PlaceholderFirst(first: Option<Opt>, fs: seq<Feature>, c: Category, heading: string, isAR: bool,
                         le: (string, string) -> bool)
    requires first.Some?
    ensures var opts := LocalizedOptions(first, fs, c, heading, isAR, le);
      opts[0] == Opt(heading, first.value.value) && opts[1..] == SortedRows(fs, c, isAR, le)
  {
  }

  /** The rows are in ascending label order. */
  lemma SortedRowsSorted(fs: seq<Feature>, c: Category, isAR: bool, le: (string, string) -> bool)
    requires TotalPreorder(le)
    ensures SortedBy(SortedRows(fs, c, isAR, le), TextOf, le)
  {
    SortBySorted(Rows(fs, c, isAR), TextOf, le);
  }

  /** No two rows share a value. */
  lemma SortedRowsDistinct(fs: seq<Feature>, c: Category, isAR: bool, le: (string, string) -> bool)
    ensures DistinctBy(SortedRows(fs, c, isAR, le), ValueOf)
  {
    var cs := Candidates(fs, c, isAR);
    FirstRowsDistinct(cs, |cs|);
    SortByDistinct(Rows(fs, c, isAR), TextOf, le, ValueOf);
  }

  /** The rows' values are exactly the non-empty normalised values the records carry. */
  lemma SortedRowsCover(fs: seq<Feature>, c: Category, isAR: bool, le: (string, string) -> bool, v: string)
    ensures v in Values(SortedRows(fs, c, isAR, le)) <==> v != "" && Carried(fs, c, v)
  {
    var cs := Candidates(fs, c, isAR);
    var rows := Rows(fs, c, isAR);
    var sorted := SortedRows(fs, c, isAR, le);
    FirstRowsValue(cs, |cs|, v);
    if v in Values(sorted) {
      var o :| o in sorted && o.value == v;
      SortByMember(rows, TextOf, le, o);
    }
    if v in Values(rows) {
      var o :| o in rows && o.value == v;
      SortByMember(rows, TextOf, le, o);
    }
    if Carried(fs, c, v) {
      var i :| 0 <= i < |fs| && Key(fs[i], c) == v;
      CandidateAt(fs, c, isAR, i);
    }
    if exists i :: 0 <= i < |cs| && cs[i].value == v {
      var i :| 0 <= i < |cs| && cs[i].value == v;
      CandidateAt(fs, c, isAR, i);
    }
  }

  /** Each row is labelled from the first record that carries its value. */
  lemma SortedRowsFirstLabel(fs: seq<Feature>, c: Category, isAR: bool, le: (string, string) -> bool, o: Opt)
    requires o in SortedRows(fs, c, isAR, le)
    ensures exists j :: FirstCarrier(fs, c, o.value, j) && o.text == CategoryLabel(fs[j].properties, c, isAR)
  {
    var cs := Candidates(fs, c, isAR);
    SortByMember(Rows(fs, c, isAR), TextOf, le, o);
    FirstRowsFirst(cs, |cs|, o);
    var j :| 0 <= j < |cs| && cs[j] == o && forall i :: 0 <= i < j ==> cs[i].value != o.value;
    CandidateAt(fs, c, isAR, j);
    forall i | 0 <= i < j ensures Key(fs[i], c) != o.value {
      CandidateAt(fs, c, isAR, i);
    }
  }
}
