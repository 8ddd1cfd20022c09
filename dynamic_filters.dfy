/**
 * `buildDynamicFilters`: one select per custom-field key, built from the filterable extras of
 * every record. A key's group keeps the labels of its first extra and a map from each
 * non-empty normalised English value to the normalised Arabic value last seen for it.
 */
module DynamicFilters {
  import opened Wrappers
  import opened JsText
  import opened Records
  import opened Controls
  import opened Collation

  /**
   * A `byKey` bucket: the key, `label_en`, `label_ar`, and the `values` map, whose keys in
   * insertion order are `values` and whose entries are `ar`.
   */
  datatype Group = Group(key: string, labelEn: Option<string>, labelAr: Option<string>, values: seq<string>,
                         ar: map<string, string>)

  function KeyOf(g: Group): string {
    g.key
  }

  /** Where the group for `k` sits in `byKey`, if it has one. */
  function IndexOf(gs: seq<Group>, k: string): (r: Option<nat>)
    ensures r.Some? ==> r.value < |gs| && gs[r.value].key == k && forall j :: 0 <= j < r.value ==> gs[j].key != k
    ensures r.None? ==> forall j :: 0 <= j < |gs| ==> gs[j].key != k
    decreases |gs|
  {
    if gs == [] then None
    else if gs[0].key == k then Some(0)
    else
      match IndexOf(gs[1..], k)
      case Some(i) => assert forall j :: 1 <= j < |gs| ==> gs[j] == gs[1..][j - 1]; Some(i + 1)
      case None => assert forall j :: 1 <= j < |gs| ==> gs[j] == gs[1..][j - 1]; None
  }

  /** `byKey.get(k)`. */
  function Lookup(gs: seq<Group>, k: string): Option<Group> {
    match IndexOf(gs, k)
    case Some(i) => Some(gs[i])
    case None => None
  }

  /** The bucket a key's first extra creates: `label_en || key` and `label_ar || label_en`. */
  function NewGroup(ev: Extra): Group {
    Group(ev.key, Or(ev.labelEn, Some(ev.key)), Or(ev.labelAr, ev.labelEn), [], map[])
  }

  /** `if (en) bucket.values.set(en, ar)`: a new value goes last, a known one keeps its place. */
  function AddValue(g: Group, en: string, ar: string): Group {
    if en == "" then g
    else g.(values := if en in g.values then g.values else g.values + [en], ar := g.ar[en := ar])
  }

  /** `norm(ev.value_en)`. */
  function EnValue(ev: Extra): string {
    Norm(ev.valueEn)
  }

  /** `norm(ev.value_ar || '')`. */
  function ArValue(ev: Extra): string {
    Norm(Or(ev.valueAr, Some("")))
  }

  /** The extra counts for key `k`: it is filterable and has that key. */
  predicate Contributes(ev: Extra, k: string) {
    ev.isFilterable && ev.key == k
  }

  /** One step of the inner `forEach`. */
  function AddExtra(gs: seq<Group>, ev: Extra): seq<Group> {
    if !ev.isFilterable then gs
    else
      match IndexOf(gs, ev.key)
      case Some(i) => gs[i := AddValue(gs[i], EnValue(ev), ArValue(ev))]
      case None => gs + [AddValue(NewGroup(ev), EnValue(ev), ArValue(ev))]
  }

  /** `byKey` after the first `n` extras. */
  function Grouped(evs: seq<Extra>, n: nat): seq<Group>
    requires n <= |evs|
  {
    if n == 0 then [] else AddExtra(Grouped(evs, n - 1), evs[n - 1])
  }

  /** The extras of the first `n` records, record after record. */
  function AllExtras(fs: seq<Feature>, n: nat): seq<Extra>
    requires n <= |fs|
  {
    if n == 0 then [] else AllExtras(fs, n - 1) + fs[n - 1].properties.extras
  }

  /** Every extra of the concatenation comes from one of the records. */
  lemma {:induction false} AllExtrasMember(fs: seq<Feature>, n: nat, j: int)
    requires n <= |fs| && 0 <= j < |AllExtras(fs, n)|
    ensures exists i, m ::
      0 <= i < n && 0 <= m < |fs[i].properties.extras| && AllExtras(fs, n)[j] == fs[i].properties.extras[m]
  {
    var prev := AllExtras(fs, n - 1);
    if j < |prev| {
      AllExtrasMember(fs, n - 1, j);
    } else {
      var m := j - |prev|;
      assert AllExtras(fs, n)[j] == fs[n - 1].properties.extras[m];
    }
  }

  /** `byKey` once every record's extras have been seen. */
  function Groups(fs: seq<Feature>): seq<Group> {
    var evs := AllExtras(fs, |fs|);
    Grouped(evs, |evs|)
  }

  /** Grouping a prefix does not look past it. */
  lemma {:induction false} GroupedPrefix(a: seq<Extra>, b: seq<Extra>, n: nat)
    requires n <= |a|
    ensures Grouped(a + b, n) == Grouped(a, n)
  {
    if n > 0 {
      GroupedPrefix(a, b, n - 1);
      assert (a + b)[n - 1] == a[n - 1];
    }
  }

  /** The nested `forEach` of `buildDynamicFilters` that fills `byKey`. */
  method BuildGroups(fs: seq<Feature>) returns (gs: seq<Group>)
    ensures gs == Groups(fs)
  {
    gs := [];
    ghost var done: seq<Extra> := [];
    var i := 0;
    while i < |fs|
      invariant 0 <= i <= |fs|
      invariant done == AllExtras(fs, i)
      invariant gs == Grouped(done, |done|)
    {
      var evs := fs[i].properties.extras;
      GroupedPrefix(done, evs, |done|);
      gs := AddExtras(gs, evs, done);
      done := done + evs;
      i := i + 1;
    }
  }

  /** The inner `forEach` over one record's extras `evs`, after the extras `done` of the records before. */
  method AddExtras(gs: seq<Group>, evs: seq<Extra>, ghost done: seq<Extra>) returns (r: seq<Group>)
    requires gs == Grouped(done + evs, |done|)
    ensures r == Grouped(done + evs, |done + evs|)
  {
    r := gs;
    var j := 0;
    while j < |evs|
      invariant 0 <= j <= |evs|
      invariant r == Grouped(done + evs, |done| + j)
    {
      assert (done + evs)[|done| + j] == evs[j];
      r := AddExtra(r, evs[j]);
      j := j + 1;
    }
  }

  /** The group for `k` after the first `n` extras, from the extras for `k` alone. */
  function GroupFor(evs: seq<Extra>, n: nat, k: string): Option<Group>
    requires n <= |evs|
  {
    if n == 0 then None
    else
      var prev := GroupFor(evs, n - 1, k);
      var ev := evs[n - 1];
      if !Contributes(ev, k) then prev
      else Some(AddValue(if prev.Some? then prev.value else NewGroup(ev), EnValue(ev), ArValue(ev)))
  }

  lemma {:induction false} IndexOfUpdate(gs: seq<Group>, i: int, g: Group, k: string)
    requires 0 <= i < |gs| && g.key == gs[i].key
    ensures IndexOf(gs[i := g], k) == IndexOf(gs, k)
    decreases |gs|
  {
    if i > 0 && gs[0].key != k {
      IndexOfUpdate(gs[1..], i - 1, g, k);
      assert gs[i := g][1..] == gs[1..][i - 1 := g];
    }
  }

  lemma {:induction false} IndexOfAppend(gs: seq<Group>, g: Group, k: string)
    ensures IndexOf(gs + [g], k) ==
      if IndexOf(gs, k).Some? then IndexOf(gs, k) else if g.key == k then Some(|gs|) else None
    decreases |gs|
  {
    if gs != [] && gs[0].key != k {
      IndexOfAppend(gs[1..], g, k);
      assert (gs + [g])[1..] == gs[1..] + [g];
    }
  }

  /** One extra changes only the group of its own key, and only when it is filterable. */
  lemma LookupAddExtra(gs: seq<Group>, ev: Extra, k: string)
    ensures Lookup(AddExtra(gs, ev), k) ==
      if !Contributes(ev, k) then Lookup(gs, k)
      else Some(AddValue(if Lookup(gs, k).Some? then Lookup(gs, k).value else NewGroup(ev), EnValue(ev), ArValue(ev)))
  {
    if ev.isFilterable {
      var g0 := if Lookup(gs, ev.key).Some? then Lookup(gs, ev.key).value else NewGroup(ev);
      var g := AddValue(g0, EnValue(ev), ArValue(ev));
      match IndexOf(gs, ev.key)
      case Some(i) =>
        IndexOfUpdate(gs, i, g, k);
      case None =>
        IndexOfAppend(gs, g, k);
    }
  }

  /** Grouping all extras at once gives, for each key, the group of that key's extras alone. */
  lemma {:induction false} LookupGrouped(evs: seq<Extra>, n: nat, k: string)
    requires n <= |evs|
    ensures Lookup(Grouped(evs, n), k) == GroupFor(evs, n, k)
  {
    if n > 0 {
      LookupGrouped(evs, n - 1, k);
      LookupAddExtra(Grouped(evs, n - 1), evs[n - 1], k);
    }
  }

  /** There is one group per key. */
  lemma {:induction false} GroupedDistinct(evs: seq<Extra>, n: nat)
    requires n <= |evs|
    ensures DistinctBy(Grouped(evs, n), KeyOf)
  {
    if n > 0 {
      var gs := Grouped(evs, n - 1);
      GroupedDistinct(evs, n - 1);
      var ev := evs[n - 1];
      if ev.isFilterable {
        var r := AddExtra(gs, ev);
        match IndexOf(gs, ev.key)
        case Some(i) =>
          forall a, b | 0 <= a < b < |r| ensures KeyOf(r[a]) != KeyOf(r[b]) {
            assert r[a].key == gs[a].key && r[b].key == gs[b].key;
          }
        case None =>
          forall a, b | 0 <= a < b < |r| ensures KeyOf(r[a]) != KeyOf(r[b]) {
            if b == |gs| {
              assert r[a] == gs[a];
            }
          }
      }
    }
  }

  /** A key gets a group exactly when a filterable extra has it, even if all its values are empty. */
  lemma {:induction false} GroupForPresent(evs: seq<Extra>, n: nat, k: string)
    requires n <= |evs|
    ensures GroupFor(evs, n, k).Some? <==> exists i :: 0 <= i < n && Contributes(evs[i], k)
  {
    if n > 0 {
      GroupForPresent(evs, n - 1, k);
    }
  }

  /** Extra `j` is the first filterable one with key `k`. */
  predicate FirstContributor(evs: seq<Extra>, k: string, j: int) {
    0 <= j < |evs| && Contributes(evs[j], k) && forall i :: 0 <= i < j ==> !Contributes(evs[i], k)
  }

  /** A group keeps the key and the labels of its first extra. */
  lemma {:induction false} GroupForLabels(evs: seq<Extra>, n: nat, k: string)
    requires n <= |evs| && GroupFor(evs, n, k).Some?
    ensures var g := GroupFor(evs, n, k).value;
      g.key == k &&
      (exists j :: j < n && FirstContributor(evs, k, j) &&
         g.labelEn == Or(evs[j].labelEn, Some(evs[j].key)) && g.labelAr == Or(evs[j].labelAr, evs[j].labelEn))
  {
    var prev := GroupFor(evs, n - 1, k);
    if prev.Some? {
      GroupForLabels(evs, n - 1, k);
    } else {
      GroupForPresent(evs, n - 1, k);
      assert FirstContributor(evs, k, n - 1);
    }
  }

  /** A group's values are the non-empty normalised English values of its key's extras. */
  lemma {:induction false} GroupForValues(evs: seq<Extra>, n: nat, k: string, v: string)
    requires n <= |evs| && GroupFor(evs, n, k).Some?
    ensures v in GroupFor(evs, n, k).value.values <==>
      v != "" && exists i :: 0 <= i < n && Contributes(evs[i], k) && EnValue(evs[i]) == v
  {
    var prev := GroupFor(evs, n - 1, k);
    if prev.Some? {
      GroupForValues(evs, n - 1, k, v);
    } else {
      GroupForPresent(evs, n - 1, k);
    }
  }

  /** No value is listed twice. */
  predicate Unique(s: seq<string>) {
    forall i, j :: 0 <= i < j < |s| ==> s[i] != s[j]
  }

  /** A group lists each value once, and its Arabic map has exactly those values as keys. */
  lemma {:induction false} GroupForValuesUnique(evs: seq<Extra>, n: nat, k: string)
    requires n <= |evs| && GroupFor(evs, n, k).Some?
    ensures var g := GroupFor(evs, n, k).value;
      Unique(g.values) && forall v :: v in g.ar <==> v in g.values
  {
    var prev := GroupFor(evs, n - 1, k);
    if prev.Some? {
      GroupForValuesUnique(evs, n - 1, k);
    }
  }

  /** Extra `j` is the last filterable one of key `k` with the value `v` among the first `n`. */
  predicate LastSetter(evs: seq<Extra>, n: nat, k: string, v: string, j: int)
    requires n <= |evs|
  {
    0 <= j < n && Contributes(evs[j], k) && EnValue(evs[j]) == v &&
    forall i :: j < i < n ==> !(Contributes(evs[i], k) && EnValue(evs[i]) == v)
  }

  lemma LastSetterExtend(evs: seq<Extra>, n: nat, k: string, v: string, j: int)
    requires 0 < n <= |evs| && LastSetter(evs, n - 1, k, v, j)
    requires !(Contributes(evs[n - 1], k) && EnValue(evs[n - 1]) == v)
    ensures LastSetter(evs, n, k, v, j)
  {
  }

  /** Adding `en` leaves the Arabic text of every other value as it was. */
  lemma AddValueOther(g: Group, en: string, ar: string, v: string)
    requires v != en
    ensures (v in AddValue(g, en, ar).ar <==> v in g.ar)
    ensures v in g.ar ==> AddValue(g, en, ar).ar[v] == g.ar[v]
  {
  }

  /** The Arabic text of a value is that of the last extra setting it. */
  lemma {:induction false} GroupForLastAr(evs: seq<Extra>, n: nat, k: string, v: string)
    requires n <= |evs| && GroupFor(evs, n, k).Some? && v in GroupFor(evs, n, k).value.ar
    ensures exists j :: LastSetter(evs, n, k, v, j) && GroupFor(evs, n, k).value.ar[v] == ArValue(evs[j])
  {
    var prev := GroupFor(evs, n - 1, k);
    var ev := evs[n - 1];
    var g := GroupFor(evs, n, k).value;
    if Contributes(ev, k) && EnValue(ev) == v {
      GroupForValuesUnique(evs, n, k);
      GroupForValues(evs, n, k, v);
      assert LastSetter(evs, n, k, v, n - 1);
    } else if !Contributes(ev, k) {
      GroupForLastAr(evs, n - 1, k, v);
      var j :| LastSetter(evs, n - 1, k, v, j) && prev.value.ar[v] == ArValue(evs[j]);
      LastSetterExtend(evs, n, k, v, j);
    } else {
      var g0 := if prev.Some? then prev.value else NewGroup(ev);
      AddValueOther(g0, EnValue(ev), ArValue(ev), v);
      assert prev.Some?;
      GroupForLastAr(evs, n - 1, k, v);
      var j :| LastSetter(evs, n - 1, k, v, j) && prev.value.ar[v] == ArValue(evs[j]);
      LastSetterExtend(evs, n, k, v, j);
    }
  }

  /** `isAR && bucket.values.get(en) ? bucket.values.get(en) : en`: the text shown for value `en`. */
  function ShownText(g: Group, en: string, isAR: bool): string {
    if isAR && en in g.ar && g.ar[en] != "" then g.ar[en] else en
  }

  /** The sort key of the value comparator. */
  function ShownKey(g: Group, isAR: bool): string -> string {
    en => ShownText(g, en, isAR)
  }

  /** `vals.sort(...)`: the group's values in the collation order of the text they show. */
  function SortedValues(g: Group, isAR: bool, le: (string, string) -> bool): (r: seq<string>)
    ensures |r| == |g.values|
  {
    SortBy(g.values, ShownKey(g, isAR), le)
  }

  /** `new Option(shown, en)`. */
  function ValueOption(g: Group, en: string, isAR: bool): Opt {
    Opt(ShownText(g, en, isAR), en)
  }

  /** The value options of a group's select, in sorted order. */
  function ValueOptions(g: Group, isAR: bool, le: (string, string) -> bool): (r: seq<Opt>)
    ensures |r| == |g.values|
  {
    var vs := SortedValues(g, isAR, le);
    seq(|vs|, i requires 0 <= i < |vs| => ValueOption(g, vs[i], isAR))
  }

  /** `isAR ? bucket.label_ar : bucket.label_en`, as the text of the empty-valued first option. */
  function Heading(g: Group, isAR: bool): string {
    DomText(if isAR then g.labelAr else g.labelEn)
  }

  /** The `<select id="f-key">` built for one group, with nothing selected. */
  function SelectOf(g: Group, isAR: bool, le: (string, string) -> bool): DynSelect {
    DynSelect(g.key, [Opt(Heading(g, isAR), "")] + ValueOptions(g, isAR, le), "")
  }

  /** `dynFilters`: one select per group, in the order the keys were first seen. */
  function DynamicSelects(gs: seq<Group>, isAR: bool, le: (string, string) -> bool): (r: seq<DynSelect>)
    ensures |r| == |gs|
  {
    seq(|gs|, i requires 0 <= i < |gs| => SelectOf(gs[i], isAR, le))
  }

  /** `buildDynamicFilters`: group the filterable extras, then build one select per group. */
  method BuildDynamicFilters(fs: seq<Feature>, isAR: bool, le: (string, string) -> bool) returns (selects: seq<DynSelect>)
    ensures selects == DynamicSelects(Groups(fs), isAR, le)
  {
    var gs := BuildGroups(fs);
    selects := [];
    var i := 0;
    while i < |gs|
      invariant 0 <= i <= |gs|
      invariant |selects| == i
      invariant forall j :: 0 <= j < i ==> selects[j] == SelectOf(gs[j], isAR, le)
    {
      selects := selects + [SelectOf(gs[i], isAR, le)];
      i := i + 1;
    }
  }

  lemma ValueOptionAt(g: Group, isAR: bool, le: (string, string) -> bool, i: int)
    requires 0 <= i < |g.values|
    ensures ValueOptions(g, isAR, le)[i] == ValueOption(g, SortedValues(g, isAR, le)[i], isAR)
  {
  }

  /** A group's select offers exactly the group's values. */
  lemma ValueOptionsValues(g: Group, isAR: bool, le: (string, string) -> bool, v: string)
    ensures v in Values(ValueOptions(g, isAR, le)) <==> v in g.values
  {
    var vs := SortedValues(g, isAR, le);
    var os := ValueOptions(g, isAR, le);
    SortByMember(g.values, ShownKey(g, isAR), le, v);
    if v in g.values {
      var i :| 0 <= i < |vs| && vs[i] == v;
      ValueOptionAt(g, isAR, le, i);
      assert os[i] in os;
    }
    if v in Values(os) {
      var o :| o in os && o.value == v;
      var i :| 0 <= i < |os| && os[i] == o;
      ValueOptionAt(g, isAR, le, i);
      assert vs[i] in vs;
    }
  }

  /** Each option shows the Arabic text of its value on an Arabic page when there is one, else the value itself. */
  lemma ValueOptionsText(g: Group, isAR: bool, le: (string, string) -> bool, i: int)
    requires 0 <= i < |g.values|
    ensures var o := ValueOptions(g, isAR, le)[i];
      o.text == (if isAR && o.value in g.ar && g.ar[o.value] != "" then g.ar[o.value] else o.value)
  {
    ValueOptionAt(g, isAR, le, i);
  }

  function Itself(s: string): string {
    s
  }

  /** Distinct values give distinct options. */
  lemma ValueOptionsDistinct(g: Group, isAR: bool, le: (string, string) -> bool)
    requires Unique(g.values)
    ensures DistinctBy(ValueOptions(g, isAR, le), ValueOf)
  {
    var vs := SortedValues(g, isAR, le);
    var os := ValueOptions(g, isAR, le);
    assert DistinctBy(g.values, Itself);
    SortByDistinct(g.values, ShownKey(g, isAR), le, Itself);
    forall a, b | 0 <= a < b < |os| ensures ValueOf(os[a]) != ValueOf(os[b]) {
      ValueOptionAt(g, isAR, le, a);
      ValueOptionAt(g, isAR, le, b);
      assert Itself(vs[a]) != Itself(vs[b]);
    }
  }

  /** The options are in the collation order of the text they show. */
  lemma ValueOptionsSorted(g: Group, isAR: bool, le: (string, string) -> bool)
    requires TotalPreorder(le)
    ensures SortedBy(ValueOptions(g, isAR, le), TextOf, le)
  {
    var vs := SortedValues(g, isAR, le);
    var os := ValueOptions(g, isAR, le);
    SortBySorted(g.values, ShownKey(g, isAR), le);
    forall i | 0 < i < |os| ensures le(TextOf(os[i - 1]), TextOf(os[i])) {
      ValueOptionAt(g, isAR, le, i - 1);
      ValueOptionAt(g, isAR, le, i);
      assert le(ShownKey(g, isAR)(vs[i - 1]), ShownKey(g, isAR)(vs[i]));
    }
  }

  /** With distinct keys, a group is found under its own key. */
  lemma LookupOwnKey(gs: seq<Group>, i: int)
    requires 0 <= i < |gs| && DistinctBy(gs, KeyOf)
    ensures Lookup(gs, gs[i].key) == Some(gs[i])
  {
  }

  /** Some group has key `k`. */
  predicate HasGroup(gs: seq<Group>, k: string) {
    exists i :: 0 <= i < |gs| && gs[i].key == k
  }

  /** Some select has key `k`. */
  predicate HasSelect(ds: seq<DynSelect>, k: string) {
    exists i :: 0 <= i < |ds| && ds[i].key == k
  }

  /** Some filterable extra has key `k`. */
  predicate Filterable(evs: seq<Extra>, k: string) {
    exists j :: 0 <= j < |evs| && Contributes(evs[j], k)
  }

  /** Some group has key `k` exactly when some extra contributes to `k`. */
  lemma GroupedKeys(evs: seq<Extra>, k: string)
    ensures HasGroup(Grouped(evs, |evs|), k) <==> Filterable(evs, k)
  {
    var gs := Grouped(evs, |evs|);
    LookupGrouped(evs, |evs|, k);
    GroupForPresent(evs, |evs|, k);
    if IndexOf(gs, k).Some? {
      var i := IndexOf(gs, k).value;
      assert gs[i].key == k;
    }
  }

  /** Each group gets the select of its own key. */
  lemma SelectKeys(gs: seq<Group>, isAR: bool, le: (string, string) -> bool, k: string)
    ensures HasSelect(DynamicSelects(gs, isAR, le), k) <==> HasGroup(gs, k)
  {
    var ds := DynamicSelects(gs, isAR, le);
    if HasSelect(ds, k) {
      var i :| 0 <= i < |ds| && ds[i].key == k;
      assert gs[i].key == k;
    }
    if HasGroup(gs, k) {
      var i :| 0 <= i < |gs| && gs[i].key == k;
      assert ds[i].key == k;
    }
  }

  /** There is a select for key `k` exactly when some record has a filterable extra with that key. */
  lemma DynamicSelectKeys(fs: seq<Feature>, isAR: bool, le: (string, string) -> bool, k: string)
    ensures HasSelect(DynamicSelects(Groups(fs), isAR, le), k) <==> Filterable(AllExtras(fs, |fs|), k)
  {
    GroupedKeys(AllExtras(fs, |fs|), k);
    SelectKeys(Groups(fs), isAR, le, k);
  }

  /** The selects have distinct keys. */
  lemma DynamicSelectsDistinct(fs: seq<Feature>, isAR: bool, le: (string, string) -> bool)
    ensures forall a, b :: 0 <= a < b < |Groups(fs)| ==>
      DynamicSelects(Groups(fs), isAR, le)[a].key != DynamicSelects(Groups(fs), isAR, le)[b].key
  {
    var evs := AllExtras(fs, |fs|);
    var gs := Groups(fs);
    GroupedDistinct(evs, |evs|);
    forall a, b | 0 <= a < b < |gs| ensures DynamicSelects(gs, isAR, le)[a].key != DynamicSelects(gs, isAR, le)[b].key {
      assert KeyOf(gs[a]) != KeyOf(gs[b]);
    }
  }

  /** Select `i` is the group of its key's extras alone. */
  lemma SelectGroup(fs: seq<Feature>, i: int)
    requires 0 <= i < |Groups(fs)|
    ensures var evs := AllExtras(fs, |fs|);
      GroupFor(evs, |evs|, Groups(fs)[i].key) == Some(Groups(fs)[i])
  {
    var evs := AllExtras(fs, |fs|);
    GroupedDistinct(evs, |evs|);
    LookupOwnKey(Groups(fs), i);
    LookupGrouped(evs, |evs|, Groups(fs)[i].key);
  }

  /**
   * The select of key `k` offers option value `v` (besides its empty heading) exactly when `v` is
   * the non-empty normalised English value of some filterable extra with key `k`, once each.
   */
  lemma DynamicSelectValues(fs: seq<Feature>, isAR: bool, le: (string, string) -> bool, i: int, v: string)
    requires 0 <= i < |Groups(fs)|
    ensures var evs := AllExtras(fs, |fs|);
      var d := DynamicSelects(Groups(fs), isAR, le)[i];
      && d.options[0] == Opt(Heading(Groups(fs)[i], isAR), "")
      && DistinctBy(d.options[1..], ValueOf)
      && (v in Values(d.options[1..]) <==>
          v != "" && exists j :: 0 <= j < |evs| && Contributes(evs[j], d.key) && EnValue(evs[j]) == v)
  {
    var evs := AllExtras(fs, |fs|);
    var g := Groups(fs)[i];
    var d := DynamicSelects(Groups(fs), isAR, le)[i];
    assert d.options[1..] == ValueOptions(g, isAR, le);
    SelectGroup(fs, i);
    GroupForValues(evs, |evs|, g.key, v);
    GroupForValuesUnique(evs, |evs|, g.key);
    ValueOptionsValues(g, isAR, le, v);
    ValueOptionsDistinct(g, isAR, le);
  }

  /** Select `i`'s heading is the label its key's first filterable extra gave. */
  lemma DynamicSelectHeading(fs: seq<Feature>, isAR: bool, le: (string, string) -> bool, i: int)
    requires 0 <= i < |Groups(fs)|
    ensures var evs := AllExtras(fs, |fs|);
      var d := DynamicSelects(Groups(fs), isAR, le)[i];
      exists j :: FirstContributor(evs, d.key, j) &&
        d.options[0].text == DomText(if isAR then Or(evs[j].labelAr, evs[j].labelEn) else Or(evs[j].labelEn, Some(d.key)))
  {
    var evs := AllExtras(fs, |fs|);
    var g := Groups(fs)[i];
    SelectGroup(fs, i);
    GroupForLabels(evs, |evs|, g.key);
  }
}
