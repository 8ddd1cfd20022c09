/**
 * The `MapLayer` rules: `clean` checks a tile URL template (an `http://` or `https://` scheme and
 * the `{z}`, `{x}`, `{y}` tokens), and `save` keeps at most one default layer per settings group,
 * on a table of layer rows.
 */
module MapLayers {
  import opened Wrappers
  import opened JsText

  /** `ValidationError({field: message})`. */
  datatype ValidationError = ValidationError(field: string, message: string)

  const SchemeMessage := "Must start with http:// or https://"

  /** The tokens `clean` looks for, in the order it looks. */
  const Tokens: seq<string> := ["{z}", "{x}", "{y}"]

  /** `re.match(r"^https?://", t)`: `http`, an optional `s`, then `://`, at the very start; case matters. */
  predicate HasScheme(t: string) {
    StartsWith(t, "http://") || StartsWith(t, "https://")
  }

  /** The first of `tokens` that `t` lacks. */
  function FirstMissing(t: string, tokens: seq<string>): (r: Option<string>)
    ensures r.Some? ==> r.value in tokens && !Includes(t, r.value)
    decreases |tokens|
  {
    if tokens == [] then None
    else if !Includes(t, tokens[0]) then Some(tokens[0])
    else FirstMissing(t, tokens[1..])
  }

  /** `MapLayer.clean()`: `None` when the template passes, else the error it raises. */
  function Clean(urlTemplate: Option<string>): (r: Option<ValidationError>)
    ensures r.Some? ==> r.value.field == "url_template"
  {
    var t := urlTemplate.GetOr("");
    if !HasScheme(t) then Some(ValidationError("url_template", SchemeMessage))
    else
      match FirstMissing(t, Tokens)
      case Some(tok) => Some(ValidationError("url_template", "Missing " + tok + " token"))
      case None => None
  }

  /** No token is listed twice. */
  predicate Distinct(tokens: seq<string>) {
    forall i, j :: 0 <= i < j < |tokens| ==> tokens[i] != tokens[j]
  }

  /** `FirstMissing` names token `k` exactly when `t` has every token before it and lacks `k`. */
  lemma {:induction false} FirstMissingIs(t: string, tokens: seq<string>, k: int)
    requires 0 <= k < |tokens| && Distinct(tokens)
    ensures FirstMissing(t, tokens) == Some(tokens[k]) <==>
      !Includes(t, tokens[k]) && forall j :: 0 <= j < k ==> Includes(t, tokens[j])
  {
    var rest := tokens[1..];
    assert forall j :: 1 <= j < |tokens| ==> rest[j - 1] == tokens[j];
    if Includes(t, tokens[0]) {
      if k > 0 {
        FirstMissingIs(t, rest, k - 1);
      } else if FirstMissing(t, rest).Some? {
        assert FirstMissing(t, rest).value in rest;
      }
    } else if k > 0 {
      assert tokens[0] != tokens[k];
    }
  }

  /** `FirstMissing` finds nothing exactly when `t` has every token. */
  lemma {:induction false} FirstMissingNone(t: string, tokens: seq<string>)
    ensures FirstMissing(t, tokens).None? <==> forall j :: 0 <= j < |tokens| ==> Includes(t, tokens[j])
  {
    if tokens != [] && Includes(t, tokens[0]) {
      FirstMissingNone(t, tokens[1..]);
      assert forall j :: 1 <= j < |tokens| ==> tokens[1..][j - 1] == tokens[j];
    }
  }

  /** `clean` passes exactly the templates with the scheme and all three tokens. */
  lemma CleanAccepts(u: Option<string>)
    ensures var t := u.GetOr("");
      Clean(u).None? <==> HasScheme(t) && Includes(t, "{z}") && Includes(t, "{x}") && Includes(t, "{y}")
  {
    FirstMissingNone(u.GetOr(""), Tokens);
  }

  /** A template without the scheme gets the scheme error, whatever tokens it has. */
  lemma CleanScheme(u: Option<string>)
    requires !HasScheme(u.GetOr(""))
    ensures Clean(u) == Some(ValidationError("url_template", SchemeMessage))
  {
  }

  /** The scheme check is case-sensitive: `HTTPS://` is refused. */
  lemma CleanSchemeCase(a: string)
    ensures Clean(Some("HTTPS://" + a)) == Some(ValidationError("url_template", SchemeMessage))
  {
    var t := "HTTPS://" + a;
    assert t[0] == 'H';
    assert !StartsWith(t, "http://") && !StartsWith(t, "https://");
  }

  /** A missing template is checked as the empty one, and so fails the scheme check. */
  lemma CleanNone()
    ensures Clean(None) == Clean(Some("")) == Some(ValidationError("url_template", SchemeMessage))
  {
  }

  /** With the scheme in place, the error names the first missing token in the order `{z}`, `{x}`, `{y}`. */
  lemma CleanMissing(u: Option<string>, k: int)
    requires HasScheme(u.GetOr("")) && 0 <= k < 3
    ensures var t := u.GetOr("");
      Clean(u) == Some(ValidationError("url_template", "Missing " + Tokens[k] + " token")) <==>
      !Includes(t, Tokens[k]) && forall j :: 0 <= j < k ==> Includes(t, Tokens[j])
  {
    var t := u.GetOr("");
    assert Tokens[0] != Tokens[1] && Tokens[0] != Tokens[2] && Tokens[1] != Tokens[2];
    FirstMissingIs(t, Tokens, k);
    match FirstMissing(t, Tokens)
    case Some(tok) =>
      assert "Missing " + tok + " token" == "Missing " + Tokens[k] + " token" ==> tok == Tokens[k] by {
        if "Missing " + tok + " token" == "Missing " + Tokens[k] + " token" {
          assert |tok| == |Tokens[k]|;
          assert tok == ("Missing " + tok + " token")[8..8 + |tok|];
        }
      }
    case None =>
  }

  lemma IncludesAt(h: string, q: string, i: nat)
    requires OccursAt(h, q, i)
    ensures Includes(h, q)
  {
    IncludesIff(h, q);
  }

  /** A template of the form `https://…{z}…{x}…{y}…` passes. */
  lemma CleanAcceptsTemplate(a: string, b: string, c: string, d: string)
    ensures Clean(Some("https://" + a + "{z}" + b + "{x}" + c + "{y}" + d)).None?
  {
    var t := "https://" + a + "{z}" + b + "{x}" + c + "{y}" + d;
    var iz := 8 + |a|;
    var ix := iz + 3 + |b|;
    var iy := ix + 3 + |c|;
    assert t[..8] == "https://";
    assert t[iz..iz + 3] == "{z}";
    assert t[ix..ix + 3] == "{x}";
    assert t[iy..iy + 3] == "{y}";
    IncludesAt(t, "{z}", iz);
    IncludesAt(t, "{x}", ix);
    IncludesAt(t, "{y}", iy);
    CleanAccepts(Some(t));
  }

  /** The fields of a layer the two rules read. */
  datatype Layer = Layer(settings: nat, slug: string, urlTemplate: Option<string>, isDefault: bool)

  /** A row of the layer table: its primary key and its fields. */
  datatype Row = Row(pk: nat, layer: Layer)

  /** No two rows share a primary key. */
  predicate UniquePks(rows: seq<Row>) {
    forall i, j :: 0 <= i < j < |rows| ==> rows[i].pk != rows[j].pk
  }

  /** No settings group has two default layers. */
  predicate OneDefaultPerGroup(rows: seq<Row>) {
    forall i, j :: 0 <= i < j < |rows| && rows[i].layer.isDefault && rows[j].layer.isDefault ==>
      rows[i].layer.settings != rows[j].layer.settings
  }

  /** A key above every key in use, as the table's auto-increment gives a new row. */
  function FreshPk(rows: seq<Row>): (r: nat)
    ensures forall i :: 0 <= i < |rows| ==> rows[i].pk < r
  {
    if rows == [] then 1
    else
      var rest := FreshPk(rows[1..]);
      assert forall i :: 1 <= i < |rows| ==> rows[i] == rows[1..][i - 1];
      if rows[0].pk < rest then rest else rows[0].pk + 1
  }

  /** Where the row with key `pk` sits. */
  function RowIndex(rows: seq<Row>, pk: nat): (r: Option<nat>)
    ensures r.Some? ==> r.value < |rows| && rows[r.value].pk == pk
    ensures r.None? ==> forall i :: 0 <= i < |rows| ==> rows[i].pk != pk
    decreases |rows|
  {
    if rows == [] then None
    else if rows[0].pk == pk then Some(0)
    else
      match RowIndex(rows[1..], pk)
      case Some(i) => assert rows[1..][i] == rows[i + 1]; Some(i + 1)
      case None => assert forall i :: 1 <= i < |rows| ==> rows[i] == rows[1..][i - 1]; None
  }

  /**
   * `super().save()`: update the row with the layer's key, or insert a row (with the given key, or a
   * fresh one). Also gives the key the layer has afterwards.
   */
  function Stored(rows: seq<Row>, pk: Option<nat>, layer: Layer): (seq<Row>, nat) {
    match pk
    case None => (rows + [Row(FreshPk(rows), layer)], FreshPk(rows))
    case Some(p) =>
      match RowIndex(rows, p)
      case Some(i) => (rows[i := Row(p, layer)], p)
      case None => (rows + [Row(p, layer)], p)
  }

  /** A row after `.filter(settings=…).exclude(pk=keep).update(is_default=False)`. */
  function Demoted(r: Row, settings: nat, keep: nat): Row {
    if r.layer.settings == settings && r.pk != keep then r.(layer := r.layer.(isDefault := false)) else r
  }

  /** The table after `MapLayer.save()`, and the saved layer's key. */
  function Saved(rows: seq<Row>, pk: Option<nat>, layer: Layer): (r: (seq<Row>, nat))
    ensures |r.0| == |Stored(rows, pk, layer).0|
  {
    var (stored, p) := Stored(rows, pk, layer);
    if layer.isDefault then (seq(|stored|, i requires 0 <= i < |stored| => Demoted(stored[i], layer.settings, p)), p)
    else (stored, p)
  }

  /** `MapLayer.save()`: store the row, then, for a default layer, clear the flag on the rest of its group. */
  method Save(rows: seq<Row>, pk: Option<nat>, layer: Layer) returns (table: seq<Row>, savedPk: nat)
    ensures (table, savedPk) == Saved(rows, pk, layer)
  {
    var (stored, p) := Stored(rows, pk, layer);
    table, savedPk := stored, p;
    if layer.isDefault {
      var i := 0;
      while i < |table|
        invariant 0 <= i <= |table| == |stored|
        invariant forall j :: 0 <= j < i ==> table[j] == Demoted(stored[j], layer.settings, p)
        invariant forall j :: i <= j < |table| ==> table[j] == stored[j]
      {
        if table[i].layer.settings == layer.settings && table[i].pk != p {
          table := table[i := table[i].(layer := table[i].layer.(isDefault := false))];
        }
        i := i + 1;
      }
      assert table == Saved(rows, pk, layer).0;
    }
  }

  /** The stored table holds the saved row and, apart from it, the old rows in their places. */
  lemma StoredShape(rows: seq<Row>, pk: Option<nat>, layer: Layer)
    ensures var (s, p) := Stored(rows, pk, layer);
      && |rows| <= |s| <= |rows| + 1
      && (exists i :: 0 <= i < |s| && s[i] == Row(p, layer))
      && (forall i :: 0 <= i < |rows| && rows[i].pk != p ==> s[i] == rows[i])
      && (forall i :: |rows| <= i < |s| ==> s[i] == Row(p, layer))
      && (forall i :: 0 <= i < |s| ==> s[i].pk == p ==> s[i] == Row(p, layer) || (i < |rows| && s[i] == rows[i]))
  {
    var (s, p) := Stored(rows, pk, layer);
    if pk.Some? && RowIndex(rows, pk.value).Some? {
      assert s[RowIndex(rows, pk.value).value] == Row(p, layer);
    } else {
      assert s[|rows|] == Row(p, layer);
    }
  }

  /** Keys stay unique: an update keeps its key, an insert takes a key no row has. */
  lemma SavedUniquePks(rows: seq<Row>, pk: Option<nat>, layer: Layer)
    requires UniquePks(rows)
    ensures UniquePks(Saved(rows, pk, layer).0)
  {
    var (s, p) := Stored(rows, pk, layer);
    var t := Saved(rows, pk, layer).0;
    assert forall i :: 0 <= i < |s| ==> t[i].pk == s[i].pk;
    if pk.Some? && RowIndex(rows, pk.value).Some? {
      var k := RowIndex(rows, pk.value).value;
      forall i, j | 0 <= i < j < |s| ensures s[i].pk != s[j].pk {
        assert s[i].pk == rows[i].pk && s[j].pk == rows[j].pk;
      }
    } else {
      forall i, j | 0 <= i < j < |s| ensures s[i].pk != s[j].pk {
        if j == |rows| {
          assert s[i] == rows[i];
        }
      }
    }
  }

  /** After saving a default layer, it is the only default of its settings group. */
  lemma SavedSingleDefault(rows: seq<Row>, pk: Option<nat>, layer: Layer)
    requires layer.isDefault
    ensures var (t, p) := Saved(rows, pk, layer);
      (exists i :: 0 <= i < |t| && t[i] == Row(p, layer)) &&
      forall i :: 0 <= i < |t| && t[i].layer.settings == layer.settings && t[i].layer.isDefault ==> t[i].pk == p
  {
    var (s, p) := Stored(rows, pk, layer);
    var t := Saved(rows, pk, layer).0;
    StoredShape(rows, pk, layer);
    var k :| 0 <= k < |s| && s[k] == Row(p, layer);
    assert t[k] == Demoted(s[k], layer.settings, p) == Row(p, layer);
  }

  /** Saving touches no row of another settings group, except the saved row itself. */
  lemma SavedOtherGroups(rows: seq<Row>, pk: Option<nat>, layer: Layer)
    ensures var (t, p) := Saved(rows, pk, layer);
      forall i :: 0 <= i < |rows| && rows[i].pk != p && rows[i].layer.settings != layer.settings ==> t[i] == rows[i]
  {
    StoredShape(rows, pk, layer);
  }

  /** Saving a layer that is not a default changes no other row. */
  lemma SavedNonDefault(rows: seq<Row>, pk: Option<nat>, layer: Layer)
    requires !layer.isDefault
    ensures var (t, p) := Saved(rows, pk, layer);
      forall i :: 0 <= i < |rows| && rows[i].pk != p ==> t[i] == rows[i]
  {
    StoredShape(rows, pk, layer);
  }

  /** Saving keeps every settings group down to at most one default layer. */
  lemma SavedOneDefault(rows: seq<Row>, pk: Option<nat>, layer: Layer)
    requires UniquePks(rows) && OneDefaultPerGroup(rows)
    ensures OneDefaultPerGroup(Saved(rows, pk, layer).0)
  {
    var (s, p) := Stored(rows, pk, layer);
    var t := Saved(rows, pk, layer).0;
    StoredShape(rows, pk, layer);
    SavedUniquePks(rows, pk, layer);
    if layer.isDefault {
      SavedSingleDefault(rows, pk, layer);
    } else {
      assert forall i :: 0 <= i < |t| && t[i].layer.isDefault ==> i < |rows| && t[i] == rows[i];
    }
  }
}
