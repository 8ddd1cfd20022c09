/**
 * The filtering half of `render()`: the records `matches` keeps, in their order, and one map
 * marker for each kept record whose point has both a longitude and a latitude. Map bounds,
 * popups' HTML and the Leaflet layer itself are not part of this model.
 */
module Rendering {
  import opened Wrappers
  import opened Records
  import opened Controls
  import opened Filtering

  /** A marker at `[lat, lon]`, bound to the popup of the record's properties. */
  datatype Marker = Marker(lat: real, lon: real, site: Props)

  /**
   * `const [lon, lat] = (f.geometry && f.geometry.coordinates) || []`, then
   * `if (lat == null || lon == null) return`: the marker of a record, when its point has both.
   */
  function MarkerOf(f: Feature): (r: Option<Marker>)
    ensures r.Some? <==>
      f.coordinates.Some? && |f.coordinates.value| >= 2 && f.coordinates.value[0].Some? && f.coordinates.value[1].Some?
    ensures r.Some? ==> r.value.lon == f.coordinates.value[0].value && r.value.lat == f.coordinates.value[1].value
    ensures r.Some? ==> r.value.site == f.properties
  {
    match f.coordinates
    case None => None
    case Some(c) =>
      var lon := if |c| > 0 then c[0] else None;
      var lat := if |c| > 1 then c[1] else None;
      if lat.None? || lon.None? then None else Some(Marker(lat.value, lon.value, f.properties))
  }

  /** `fs.filter(keep)`. */
  function KeptBy(fs: seq<Feature>, keep: Feature -> bool): (r: seq<Feature>)
    ensures |r| <= |fs|
  {
    if fs == [] then []
    else (if keep(fs[0]) then [fs[0]] else []) + KeptBy(fs[1..], keep)
  }

  /** The callback `f => matches(f.properties)`. */
  function MatchesOf(fl: Filters): Feature -> bool {
    (f: Feature) => Matches(fl, f.properties)
  }

  /** `FEATURES.filter(f => matches(f.properties))`. */
  function Filtered(fs: seq<Feature>, fl: Filters): (r: seq<Feature>)
    ensures |r| <= |fs|
  {
    KeptBy(fs, MatchesOf(fl))
  }

  /** The markers of a list of records, in its order, skipping the records without a full point. */
  function Placed(fs: seq<Feature>): (r: seq<Marker>)
    ensures |r| <= |fs|
  {
    if fs == [] then []
    else (if MarkerOf(fs[0]).Some? then [MarkerOf(fs[0]).value] else []) + Placed(fs[1..])
  }

  /** The markers `render()` puts on the map. */
  function Markers(fs: seq<Feature>, fl: Filters): seq<Marker> {
    Placed(Filtered(fs, fl))
  }

  /** `render()`: filter the records, then add a marker for each kept record with a full point. */
  method Render(fs: seq<Feature>, fl: Filters) returns (markers: seq<Marker>)
    ensures markers == Markers(fs, fl)
  {
    var filtered := Filtered(fs, fl);
    markers := PlaceMarkers(filtered);
  }

  /** `filtered.forEach(...)`: one marker per record with a full point, in order. */
  method PlaceMarkers(filtered: seq<Feature>) returns (markers: seq<Marker>)
    ensures markers == Placed(filtered)
  {
    markers := [];
    var i := 0;
    while i < |filtered|
      invariant 0 <= i <= |filtered|
      invariant markers + Placed(filtered[i..]) == Placed(filtered)
    {
      assert filtered[i..][1..] == filtered[i + 1..];
      var m := MarkerOf(filtered[i]);
      if m.Some? {
        markers := markers + [m.value];
      }
      i := i + 1;
    }
  }

  lemma {:induction false} KeptByAppend(a: seq<Feature>, b: seq<Feature>, keep: Feature -> bool)
    ensures KeptBy(a + b, keep) == KeptBy(a, keep) + KeptBy(b, keep)
  {
    if a != [] {
      var h := if keep(a[0]) then [a[0]] else [];
      assert (a + b)[0] == a[0] && (a + b)[1..] == a[1..] + b;
      calc {
        KeptBy(a + b, keep);
        h + KeptBy(a[1..] + b, keep);
        { KeptByAppend(a[1..], b, keep); }
        h + (KeptBy(a[1..], keep) + KeptBy(b, keep));
        (h + KeptBy(a[1..], keep)) + KeptBy(b, keep);
      }
    } else {
      assert a + b == b;
    }
  }

  lemma {:induction false} PlacedAppend(a: seq<Feature>, b: seq<Feature>)
    ensures Placed(a + b) == Placed(a) + Placed(b)
  {
    if a != [] {
      var h := if MarkerOf(a[0]).Some? then [MarkerOf(a[0]).value] else [];
      assert (a + b)[0] == a[0] && (a + b)[1..] == a[1..] + b;
      calc {
        Placed(a + b);
        h + Placed(a[1..] + b);
        { PlacedAppend(a[1..], b); }
        h + (Placed(a[1..]) + Placed(b));
        (h + Placed(a[1..])) + Placed(b);
      }
    } else {
      assert a + b == b;
    }
  }

  /** The markers of two lists of records are those of the first followed by those of the second. */
  lemma MarkersAppend(a: seq<Feature>, b: seq<Feature>, fl: Filters)
    ensures Markers(a + b, fl) == Markers(a, fl) + Markers(b, fl)
  {
    KeptByAppend(a, b, MatchesOf(fl));
    PlacedAppend(Filtered(a, fl), Filtered(b, fl));
  }

  lemma {:induction false} KeptByMember(fs: seq<Feature>, keep: Feature -> bool, f: Feature)
    ensures f in KeptBy(fs, keep) <==> f in fs && keep(f)
  {
    if fs != [] {
      KeptByMember(fs[1..], keep, f);
      assert fs == [fs[0]] + fs[1..];
    }
  }

  /** A kept record is one `matches` lets through. */
  lemma FilteredMember(fs: seq<Feature>, fl: Filters, f: Feature)
    ensures f in Filtered(fs, fl) <==> f in fs && Matches(fl, f.properties)
  {
    KeptByMember(fs, MatchesOf(fl), f);
  }

  lemma {:induction false} PlacedMember(fs: seq<Feature>, m: Marker)
    ensures m in Placed(fs) <==> exists f :: f in fs && MarkerOf(f) == Some(m)
  {
    if fs != [] {
      PlacedMember(fs[1..], m);
      assert fs == [fs[0]] + fs[1..];
      if exists f :: f in fs && MarkerOf(f) == Some(m) {
        var f :| f in fs && MarkerOf(f) == Some(m);
        if f != fs[0] {
          assert f in fs[1..];
        }
      }
    }
  }

  /** There is a marker exactly for each record that matches and has both a longitude and a latitude. */
  lemma MarkersMember(fs: seq<Feature>, fl: Filters, m: Marker)
    ensures m in Markers(fs, fl) <==> exists f :: f in fs && Matches(fl, f.properties) && MarkerOf(f) == Some(m)
  {
    PlacedMember(Filtered(fs, fl), m);
    if m in Markers(fs, fl) {
      var f :| f in Filtered(fs, fl) && MarkerOf(f) == Some(m);
      FilteredMember(fs, fl, f);
    }
    if exists f :: f in fs && Matches(fl, f.properties) && MarkerOf(f) == Some(m) {
      var f :| f in fs && Matches(fl, f.properties) && MarkerOf(f) == Some(m);
      FilteredMember(fs, fl, f);
    }
  }

  lemma {:induction false} KeptByAll(fs: seq<Feature>, keep: Feature -> bool)
    requires forall f :: f in fs ==> keep(f)
    ensures KeptBy(fs, keep) == fs
  {
    if fs != [] {
      assert fs[0] in fs;
      assert forall f :: f in fs[1..] ==> f in fs;
      KeptByAll(fs[1..], keep);
      assert fs == [fs[0]] + fs[1..];
    }
  }

  /** When no control selects anything every record with a full point gets its marker, in record order. */
  lemma IdlePlacesAll(fs: seq<Feature>, fl: Filters)
    requires Idle(fl)
    ensures Markers(fs, fl) == Placed(fs)
  {
    forall f | f in fs ensures MatchesOf(fl)(f) {
      IdleMatchesAll(fl, f.properties);
    }
    KeptByAll(fs, MatchesOf(fl));
  }

  /** After the clear button every record with a full point gets its marker, in record order. */
  lemma ClearedPlacesAll(fs: seq<Feature>, fl: Filters)
    ensures Markers(fs, Cleared(fl)) == Placed(fs)
  {
    ClearedMatchesAll(fl, Props(None, None, None, None, None, None, None, None, None, None, None, None, None, None, None, []));
    IdlePlacesAll(fs, Cleared(fl));
  }
}
