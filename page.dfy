/**
 * The sites page as an object: the records it loaded, its language, the state of every filter
 * control and the markers on the map. Boot fills the controls' options from the records; every
 * change to a control, and the clear button, re-renders the markers from the controls.
 */
module Page {
  import opened Wrappers
  import opened Records
  import opened Controls
  import opened CategoryOptions
  import opened RangeOptions
  import opened DynamicFilters
  import opened Filtering
  import opened Rendering

  /** The localized headings of the filters, and the text of the trees `'non'` option. */
  datatype Labels = Labels(
    region: string, governorate: string, crop: string, water: string, irrigation: string,
    trees: string, area: string, nonNumeric: string)

  /** The site settings' switches for the built-in filters. */
  datatype Visibility = Visibility(
    region: bool, governorate: bool, crop: bool, water: bool, irrigation: bool, trees: bool, area: bool)

  /**
   * A built-in select after boot: a shown one has its placeholder and the records' values, a hidden
   * one keeps only its placeholder. Nothing is selected.
   */
  function CategorySelect(shown: bool, fs: seq<Feature>, c: Category, heading: string, isAR: bool,
                          le: (string, string) -> bool): Select {
    Select(shown, if shown then LocalizedOptions(Some(Opt(heading, "")), fs, c, heading, isAR, le)
                  else [Opt(heading, "")], "")
  }

  /** Every control after boot. */
  function InitialFilters(fs: seq<Feature>, isAR: bool, le: (string, string) -> bool, show: Visibility,
                          lbl: Labels): (r: Filters)
    ensures Idle(r)
  {
    Filters(
      CategorySelect(show.region, fs, Region, lbl.region, isAR, le),
      CategorySelect(show.governorate, fs, Governorate, lbl.governorate, isAR, le),
      CategorySelect(show.crop, fs, CropType, lbl.crop, isAR, le),
      CategorySelect(show.water, fs, WaterSource, lbl.water, isAR, le),
      CategorySelect(show.irrigation, fs, IrrigationType, lbl.irrigation, isAR, le),
      Select(show.trees, TreesOptionsOf(fs, lbl.trees, lbl.nonNumeric), ""),
      Select(show.area, AreaOptionsOf(fs, lbl.area, isAR), ""),
      "",
      DynamicSelects(Groups(fs), isAR, le))
  }

  /** `if (shown) fillOptionsLocalized(select, ...)`, on a select whose template holds its placeholder. */
  method BuildCategorySelect(shown: bool, fs: seq<Feature>, c: Category, heading: string, isAR: bool,
                             le: (string, string) -> bool) returns (s: Select)
    ensures s == CategorySelect(shown, fs, c, heading, isAR, le)
  {
    var opts := [Opt(heading, "")];
    if shown {
      opts := FillOptionsLocalized(Some(Opt(heading, "")), fs, c, heading, isAR, le);
    }
    s := Select(shown, opts, "");
  }

  /** The option lists of every control, built from the records in the order the boot sequence does. */
  method BuildFilters(fs: seq<Feature>, arabic: bool, le: (string, string) -> bool, show: Visibility, lbl: Labels)
    returns (fl: Filters)
    ensures fl == InitialFilters(fs, arabic, le, show, lbl)
  {
    var trees := TreesOptions(fs, lbl.trees, lbl.nonNumeric);
    var area := AreaOptions(fs, lbl.area, arabic);
    var region := BuildCategorySelect(show.region, fs, Region, lbl.region, arabic, le);
    var governorate := BuildCategorySelect(show.governorate, fs, Governorate, lbl.governorate, arabic, le);
    var crop := BuildCategorySelect(show.crop, fs, CropType, lbl.crop, arabic, le);
    var water := BuildCategorySelect(show.water, fs, WaterSource, lbl.water, arabic, le);
    var irrigation := BuildCategorySelect(show.irrigation, fs, IrrigationType, lbl.irrigation, arabic, le);
    var dynamic := BuildDynamicFilters(fs, arabic, le);
    fl := Filters(region, governorate, crop, water, irrigation, Select(show.trees, trees, ""),
                  Select(show.area, area, ""), "", dynamic);
  }

  class SitesPage {
    var features: seq<Feature>
    var isAR: bool
    var filters: Filters
    var markers: seq<Marker>

    /** The map shows the markers of the records the controls let through. */
    ghost predicate Valid()
      reads this
    {
      markers == Markers(features, filters)
    }

    /**
     * The boot sequence once the configuration and the records have arrived: the range selects,
     * the visibility switches, the built-in options, the custom-field selects, then `render()`.
     */
    constructor Boot(fs: seq<Feature>, arabic: bool, le: (string, string) -> bool, show: Visibility, lbl: Labels)
      ensures features == fs && isAR == arabic
      ensures filters == InitialFilters(fs, arabic, le, show, lbl)
      ensures Valid() && markers == Placed(fs)
    {
      var fl := BuildFilters(fs, arabic, le, show, lbl);
      var ms := Render(fs, fl);
      IdlePlacesAll(fs, fl);
      features, isAR, filters, markers := fs, arabic, fl, ms;
    }

    /** `render()`: drop every marker and put back those of the records that match. */
    method Redraw()
      modifies this
      ensures features == old(features) && isAR == old(isAR) && filters == old(filters)
      ensures Valid()
    {
      markers := Render(features, filters);
    }

    /** Picking option value `v` of a built-in select, whose `change` listener re-renders. */
    method Choose(c: Control, v: string)
      requires v in Values(SelectAt(filters, c).options)
      modifies this
      ensures features == old(features) && isAR == old(isAR)
      ensures filters == WithSelect(old(filters), c, SelectAt(old(filters), c).(value := v))
      ensures Valid()
    {
      filters := WithSelect(filters, c, SelectAt(filters, c).(value := v));
      Redraw();
    }

    /** Picking option value `v` of custom-field select `k`. */
    method ChooseCustom(k: int, v: string)
      requires 0 <= k < |filters.dynamic| && v in Values(filters.dynamic[k].options)
      modifies this
      ensures features == old(features) && isAR == old(isAR)
      ensures filters == old(filters).(dynamic := old(filters.dynamic)[k := old(filters.dynamic[k]).(value := v)])
      ensures Valid()
    {
      filters := filters.(dynamic := filters.dynamic[k := filters.dynamic[k].(value := v)]);
      Redraw();
    }

    /** Typing in the farmer box; the debounced `render()` is taken to have run. */
    method TypeFarmer(text: string)
      modifies this
      ensures features == old(features) && isAR == old(isAR)
      ensures filters == old(filters).(farmer := text)
      ensures Valid()
    {
      filters := filters.(farmer := text);
      Redraw();
    }

    /**
     * The clear button: empty every built-in control and the farmer box, then every custom-field
     * select, then `render()`; every record with a full point is back on the map.
     */
    method Clear()
      modifies this
      ensures features == old(features) && isAR == old(isAR)
      ensures filters == Cleared(old(filters))
      ensures Valid() && markers == Placed(features)
    {
      var ds := filters.dynamic;
      var i := 0;
      while i < |ds|
        invariant 0 <= i <= |ds| && |ds| == |filters.dynamic|
        invariant forall j :: 0 <= j < i ==> ds[j] == filters.dynamic[j].(value := "")
        invariant forall j :: i <= j < |ds| ==> ds[j] == filters.dynamic[j]
      {
        ds := ds[i := ds[i].(value := "")];
        i := i + 1;
      }
      assert ds == ResetDynamic(filters.dynamic);
      var fl := filters;
      filters := Filters(Reset(fl.region), Reset(fl.governorate), Reset(fl.crop), Reset(fl.water),
                         Reset(fl.irrigation), Reset(fl.trees), Reset(fl.area), "", ds);
      Redraw();
      ClearedPlacesAll(features, fl);
    }
  }
}
