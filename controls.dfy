/**
 * The page's form controls as values: an `<option>`, a `<select>` with its visibility, its
 * options and its current value, and the whole set of filter controls `matches` reads.
 */
module Controls {
  import opened Wrappers

  /** An `<option>`: its text and its value. */
  datatype Opt = Opt(text: string, value: string)

  function TextOf(o: Opt): string {
    o.text
  }

  function ValueOf(o: Opt): string {
    o.value
  }

  /** The values of a list of options, as a set. */
  function Values(opts: seq<Opt>): set<string> {
    set o | o in opts :: o.value
  }

  lemma ValuesAppend(opts: seq<Opt>, o: Opt)
    ensures Values(opts + [o]) == Values(opts) + {o.value}
  {
    var l, r := Values(opts + [o]), Values(opts) + {o.value};
    forall v | v in r ensures v in l {
      if v != o.value {
        var x :| x in opts && x.value == v;
        assert x in opts + [o];
      } else {
        assert o in opts + [o];
      }
    }
  }

  /** `new Option(text, value)` from a JavaScript value: `null` becomes the text `"null"`. */
  function DomText(v: Option<string>): string {
    if v.Some? then v.value else "null"
  }

  /**
   * A built-in `<select>`: whether it is shown (`style.display !== 'none'`), its options, and
   * its `value`. A control the page template lacks behaves as a hidden one.
   */
  datatype Select = Select(shown: bool, options: seq<Opt>, value: string)

  /** A control filters only when it is shown and something is selected. */
  predicate Active(s: Select) {
    s.shown && s.value != ""
  }

  /** A custom-field `<select>` (`#f-<key>`), always shown. */
  datatype DynSelect = DynSelect(key: string, options: seq<Opt>, value: string)

  /**
   * Every control `matches` reads: the five built-in selects, the trees and area range selects,
   * the farmer text box, and the custom-field selects in the order they were built.
   */
  datatype Filters = Filters(
    region: Select,
    governorate: Select,
    crop: Select,
    water: Select,
    irrigation: Select,
    trees: Select,
    area: Select,
    farmer: string,
    dynamic: seq<DynSelect>)
}
