# Site visualizer: the filter-and-render pipeline, in Dafny

This project models the browser script of the project site visualizer (`app/static/app/app.js`)
and the two rules of the `MapLayer` model (`app/models.py`). It also proves properties of the model.

The script loads the site records, which are GeoJSON Features. It then builds the option lists of the
filter controls from the records:

- the five built-in category selects;
- the trees and area range selects, whose equal-width bins come from `buildBins`;
- one select per custom field (`extras`).

Each time a control changes, `matches` checks each record against every active control. `render`
then puts a marker on the map for each matching record that has a full position. The clear button
empties every control, and the lightbox steps through a popup's images.

On the server, `MapLayer.clean` checks a tile URL template. `MapLayer.save` keeps at most one default
layer in each settings group.

Layout, one module per file:

| file | module | models |
|---|---|---|
| `wrappers.dfy` | `Wrappers` | `Option` |
| `js_text.dfy` | `JsText` | `trim`, `toLowerCase`, `norm`, `nlow`, `includes`, `split`, number-to-text |
| `numbers.dfy` | `Numbers` | `parseIntOrNull`, `parseFloatOrNull`, and `parseInt`/`parseFloat` on a bin id's halves |
| `buckets.dfy` | `Buckets` | `buildBins`, `labelRange`, and the `a-b` option value read back |
| `records.dfy` | `Records` | the record properties, `tFor` |
| `controls.dfy` | `Controls` | options, selects, the set of filter controls |
| `collation.dfy` | `Collation` | `Array.prototype.sort` with a `localeCompare` comparator |
| `category_options.dfy` | `CategoryOptions` | `fillOptionsLocalized` |
| `range_options.dfy` | `RangeOptions` | `ensureRangeFilters` |
| `dynamic_filters.dfy` | `DynamicFilters` | `buildDynamicFilters` |
| `filtering.dfy` | `Filtering` | `matches`, the clear handler's reset |
| `rendering.dfy` | `Rendering` | the filtering and marker part of `render` |
| `page.dfy` | `Page` | the page as an object: boot, the change listeners, clear |
| `gallery.dfy` | `Gallery` | the lightbox's image index and its open/close/prev/next handlers |
| `map_layers.dfy` | `MapLayers` | `MapLayer.clean`, `MapLayer.save` over a table of rows |

Modelling choices:

- JavaScript `null` and `undefined` are both `None`.
- `localeCompare` is a parameter `le`, and every sorting property assumes only that it is a total preorder.
- The sort is an insertion sort, proved stable (`Collation.SortByStable`), because `Array.prototype.sort` is stable.
- The page itself is a class `Page.SitesPage`, whose fields are its records, its language, its controls and
  its markers. Its invariant is that the markers are those of the records the controls let through.
- The lightbox is the class `Gallery.Lightbox`.
- `MapLayer.save` is a method over a sequence of rows:
  - `super().save()` is the function `MapLayers.Stored`;
  - the demoting `UPDATE` is a loop over the rows.

## Model

| member | source | states |
|---|---|---|
| JsText.TrimShape | app/static/app/app.js:67 | `trim()` gives the slice of the input after its leading white space; that slice has no white space at either end and only white space follows it |
| JsText.TrimKeeps | app/static/app/app.js:67 | every non-space character survives `trim()`, and `trim()` adds no character |
| JsText.TrimEmptyIffBlank | app/static/app/app.js:67 | `trim()` is empty exactly when the input is all white space |
| JsText.TrimUnpadded | app/static/app/app.js:67 | a string with no white space at its ends is its own `trim()` |
| JsText.TrimIdempotent | app/static/app/app.js:67 | `norm` of a normalised text changes nothing |
| JsText.Lower | app/static/app/app.js:68 | `toLowerCase()` maps each character on its own and keeps the length |
| JsText.NLowIsNormal | app/static/app/app.js:68 | `nlow` gives a text that is already trimmed and already lower case |
| JsText.TrimLower | app/static/app/app.js:68 | lowering and trimming commute |
| JsText.NLowIgnoresCase | app/static/app/app.js:68 | `nlow` of a lowered text equals `nlow` of the text |
| JsText.IncludesIff | app/static/app/app.js:349 | `includes` holds exactly when the query occurs at some position of the haystack |
| JsText.SplitNoSeparator | app/static/app/app.js:325 | `split('-')` of a text without `-` is that text alone |
| JsText.SplitAtFirst | app/static/app/app.js:325 | `split` cuts at the first separator, then splits the rest |
| JsText.NatStr | app/static/app/app.js:272 | the decimal text of a count is a non-empty digit string whose value is the count |
| JsText.NatStrInjective | app/static/app/app.js:272 | different counts have different decimal texts |
| JsText.IntStrInjective | app/static/app/app.js:249 | different integers have different decimal texts, sign included |
| Numbers.StripSeparatorsChars | app/static/app/app.js:223 | `replace(/[, ]/g,'')` keeps exactly the characters that are neither a comma nor a space, in order |
| Numbers.ParseIntOrNull | app/static/app/app.js:222 | `null` and `undefined` give `null` |
| Numbers.ParseIntOrNullSeparated | app/static/app/app.js:221-225 | a text that is a numeral once commas and spaces are removed reads as that number |
| Numbers.ParseIntOrNullRoundTrip | app/static/app/app.js:221-225 | the decimal text of `n` reads back as `n` |
| Numbers.ParseIntOrNullValue | app/static/app/app.js:221-225 | a successful read means the text has digits and the result is their value |
| Numbers.ParseIntOrNullRejects | app/static/app/app.js:223-224 | a character that is not a digit, a comma or white space makes the read `null` |
| Numbers.ParseIntOrNullThousands | app/static/app/app.js:221-225 | `"1,200"` reads as 1200 |
| Numbers.ParseIntOrNullFailures | app/static/app/app.js:224 | `"12.5"`, `"+5"`, `"greenhouse"` and `""` read as `null` |
| Numbers.ParseFloatOrNull | app/static/app/app.js:227 | `null` and `undefined` give `null` |
| Numbers.ParseFloatOrNullBlank | app/static/app/app.js:228-230 | a text of commas and white space reads as 0, since `Number("")` is 0 |
| Numbers.ParseFloatAgreesWithParseInt | app/static/app/app.js:221-231 | whatever `parseIntOrNull` reads as `n`, `parseFloatOrNull` reads as `n` too |
| Numbers.ParseFloatNegative | app/static/app/app.js:229 | a leading `-` negates the number |
| Numbers.ParseFloatOrNullLiteral | app/static/app/app.js:229-230 | `ip.fp` reads as its decimal value |
| Numbers.ParseFloatOrNullStripped | app/static/app/app.js:228-230 | a text that is `ip.fp` once separators are removed reads as that decimal |
| Numbers.ParseFloatOrNullDecimal | app/static/app/app.js:226-231 | `"12.50"` reads as 12.5 |
| Numbers.ParseFloatOrNullThousands | app/static/app/app.js:226-231 | `"1,234.5"` reads as 1234.5 |
| Numbers.ParseFloatOrNullOthers | app/static/app/app.js:229-230 | `"n/a"` reads as `null` and `""` reads as 0 |
| Numbers.BuiltinsReadNatStr | app/static/app/app.js:325 | `parseInt` and `parseFloat` read a count's decimal text back as the count |
| Numbers.BuiltinsEmpty | app/static/app/app.js:335 | `parseInt("")` and `parseFloat("")` are NaN |
| Buckets.CeilDiv | app/static/app/app.js:236 | the bin width is the least `w` with `k * w` at least the span |
| Buckets.BuildBins | app/static/app/app.js:232-246 | the loop returns the bins `Bins(min, max, k)` |
| Buckets.BinsMissingBound | app/static/app/app.js:233 | a missing bound gives no bins |
| Buckets.BinsSwapped | app/static/app/app.js:234 | swapped bounds give the same bins |
| Buckets.BinsSingle | app/static/app/app.js:235 | equal bounds give the one bin `[min, min]`, whatever `k` is |
| Buckets.BinsShape | app/static/app/app.js:236-244 | `k` bins; the first starts at `min` and the last ends at `max`; each starts one after the previous one ends; all but the last have the computed width |
| Buckets.BinsCover | app/static/app/app.js:236-244 | every integer in `[min, max]` lies in bin `(x - min) / width` |
| Buckets.BinsDisjoint | app/static/app/app.js:238-243 | no integer lies in two bins |
| Buckets.BinsGap | app/static/app/app.js:242 | a real strictly between one bin's end and the next bin's start lies in no bin |
| Buckets.BinsNonNegative | app/static/app/app.js:232-246 | non-negative bounds give bins with non-negative ends |
| Buckets.BinsTwoValuesFiveBins | app/static/app/app.js:232-246 | `[0, 1]` in five bins gives `[0,0] [1,1] [2,2] [3,3] [4,1]` |
| Buckets.BinsFiftyValues | app/static/app/app.js:232-246 | `[0, 49]` in five bins gives five bins of ten |
| Buckets.BinsMissNineAndAHalf | app/static/app/app.js:232-246 | 9.5 lies in none of the bins of `[0, 49]` |
| Buckets.LabelRangeInjective | app/static/app/app.js:247-251 | under one unit, a label determines its bin's two ends |
| Buckets.BinIdRoundTrip | app/static/app/app.js:272 | a non-negative bin's option value `a-b` reads back as `a` and `b`, with both `parseInt` and `parseFloat` |
| Buckets.BinIdNegativeLow | app/static/app/app.js:325 | for a bin with a negative start, the first half of `split('-')` is empty and reads as NaN |
| Collation.SortBy | app/static/app/app.js:182 | sorting keeps the length and gives a permutation of the input |
| Collation.SortBySorted | app/static/app/app.js:182 | under a total preorder the result is in comparator order |
| Collation.SortByDistinct | app/static/app/app.js:182 | sorting keeps a list free of repeated values |
| Collation.SortByMembers | app/static/app/app.js:182 | sorting neither adds nor drops an element |
| Collation.SortByStable | app/static/app/app.js:182 | sorting is stable: the elements whose keys tie keep their input order |
| CategoryOptions.FillOptionsLocalized | app/static/app/app.js:170-184 | the method's options are `LocalizedOptions`, the placeholder followed by the sorted rows |
| CategoryOptions.CollectRows | app/static/app/app.js:175-181 | the `forEach` loop collects `Rows` |
| CategoryOptions.KeepFirst | app/static/app/app.js:175-181 | the `seen`-set loop keeps the first row of each non-empty value |
| CategoryOptions.FirstRowsValue | app/static/app/app.js:178-180 | a value gets a row exactly when it is non-empty and some record carries it |
| CategoryOptions.FirstRowsDistinct | app/static/app/app.js:178-179 | no value gets two rows |
| CategoryOptions.FirstRowsFirst | app/static/app/app.js:178-180 | each row is the first record's row for its value |
| CategoryOptions.PlaceholderFirst | app/static/app/app.js:172-174 | the template's first option comes first, relabelled with the heading, and the sorted rows follow |
| CategoryOptions.SortedRowsSorted | app/static/app/app.js:182 | the rows are in collation order of their labels |
| CategoryOptions.SortedRowsDistinct | app/static/app/app.js:175-182 | the sorted rows repeat no value |
| CategoryOptions.SortedRowsCover | app/static/app/app.js:176-183 | `v` is an option exactly when `v` is non-empty and some record's normalised value is `v` |
| CategoryOptions.SortedRowsFirstLabel | app/static/app/app.js:180 | an option's label is `tFor` of the first record that carries its value |
| RangeOptions.MinOf | app/static/app/app.js:269 | `Math.min` is in the list and below every element |
| RangeOptions.MaxOf | app/static/app/app.js:269 | `Math.max` is in the list and above every element |
| RangeOptions.MinOfReals | app/static/app/app.js:295 | the least area is in the list and below every element |
| RangeOptions.MaxOfReals | app/static/app/app.js:296 | the greatest area is in the list and above every element |
| RangeOptions.Ceil | app/static/app/app.js:296 | `Math.ceil(x)` is the integer in `[x, x + 1)` |
| RangeOptions.BinOptions | app/static/app/app.js:271-275 | one option per bin |
| RangeOptions.CountTrees | app/static/app/app.js:260-266 | the loop gives the parsed counts in record order and whether a present value failed to parse |
| RangeOptions.TreesOptions | app/static/app/app.js:256-280 | the trees select gets `TreesOptionsOf`: the heading, the bins, then `non` when needed |
| RangeOptions.CollectAreas | app/static/app/app.js:287-292 | the loop gives the parsed areas in record order |
| RangeOptions.AreaOptions | app/static/app/app.js:283-304 | the area select gets `AreaOptionsOf`: the heading, then the bins of `floor(min)` to `ceil(max)` |
| RangeOptions.ParsedIsPresent | app/static/app/app.js:263-264 | a count that parses is never skipped as blank |
| RangeOptions.ReadTreesCount | app/static/app/app.js:263-265 | a record reads as count `x` exactly when `parseIntOrNull` gives `x` |
| RangeOptions.TreeCountsParsed | app/static/app/app.js:260-266 | `x` is among the counts exactly when some record's count parses as `x` |
| RangeOptions.NonNumericOffered | app/static/app/app.js:263-265 | `hasNonNumeric` holds exactly when some record has a present value that does not parse |
| RangeOptions.BinIdNotNonNumeric | app/static/app/app.js:272 | no bin's option value is the sentinel `non` |
| RangeOptions.BinOptionsValues | app/static/app/app.js:271-275 | the option values are exactly the bins' `a-b` ids |
| RangeOptions.TreesNonOption | app/static/app/app.js:277-279 | the `non` option is offered exactly when `hasNonNumeric` holds |
| RangeOptions.TreeBinsNonNegative | app/static/app/app.js:268-270 | the trees bins have non-negative ends |
| RangeOptions.TreeCountCovered | app/static/app/app.js:260-275 | every parsed count lies in some trees bin |
| RangeOptions.AreaValuesParsed | app/static/app/app.js:287-292 | `x` is among the areas exactly when some record's area parses as `x` |
| RangeOptions.AreaSpan | app/static/app/app.js:294-296 | every parsed area lies in `[floor(min), ceil(max)]` |
| RangeOptions.AreaWholeCovered | app/static/app/app.js:294-302 | a whole-number area lies in some area bin |
| DynamicFilters.IndexOf | app/static/app/app.js:193 | `byKey.get`: the first bucket with the key, and none before it |
| DynamicFilters.BuildGroups | app/static/app/app.js:189-198 | the two nested `forEach` loops build `Groups(fs)` |
| DynamicFilters.AddExtras | app/static/app/app.js:191-197 | the inner loop folds one record's extras into the buckets |
| DynamicFilters.LookupAddExtra | app/static/app/app.js:192-196 | one extra changes only its own key's bucket: it creates the bucket if needed and adds its value when that value is non-empty |
| DynamicFilters.LookupGrouped | app/static/app/app.js:189-198 | the bucket of key `k` after the loop is `GroupFor(k)`, computed from `k`'s extras alone |
| DynamicFilters.GroupedDistinct | app/static/app/app.js:189 | the `Map` holds each key once |
| DynamicFilters.GroupForPresent | app/static/app/app.js:192-196 | a key has a bucket exactly when some filterable extra has that key |
| DynamicFilters.GroupForLabels | app/static/app/app.js:193 | a bucket's labels come from its first extra: `label_en || key` and `label_ar || label_en` |
| DynamicFilters.GroupForValues | app/static/app/app.js:194-195 | `v` is a bucket value exactly when `v` is non-empty and some extra of the key has `norm(value_en)` equal to `v` |
| DynamicFilters.GroupForValuesUnique | app/static/app/app.js:195 | a bucket's values are distinct and are exactly the keys of its localized map |
| DynamicFilters.GroupForLastAr | app/static/app/app.js:195 | a value's localized form is that of the last extra that set it |
| DynamicFilters.DynamicSelects | app/static/app/app.js:199-217 | one select per bucket |
| DynamicFilters.BuildDynamicFilters | app/static/app/app.js:186-218 | the method's selects are `DynamicSelects(Groups(fs))` |
| DynamicFilters.ValueOptionsValues | app/static/app/app.js:204-213 | a select's option values are exactly its bucket's values |
| DynamicFilters.ValueOptionsText | app/static/app/app.js:211 | an option shows the localized value in Arabic when it is non-empty, and the value otherwise |
| DynamicFilters.ValueOptionsDistinct | app/static/app/app.js:210-213 | no value has two options |
| DynamicFilters.ValueOptionsSorted | app/static/app/app.js:205-209 | the options are in collation order of their shown text |
| DynamicFilters.DynamicSelectKeys | app/static/app/app.js:186-217 | there is a select for `k` exactly when some record has a filterable extra with key `k` |
| DynamicFilters.DynamicSelectsDistinct | app/static/app/app.js:199-216 | no two selects share a key |
| DynamicFilters.DynamicSelectValues | app/static/app/app.js:199-213 | a select starts with its heading option, repeats no value, and offers `v` exactly when some filterable extra of its key has value `v` |
| DynamicFilters.DynamicSelectHeading | app/static/app/app.js:193-203 | the heading is the first extra's label in the page language, with `null` shown as the text `null` |
| Filtering.Reset | app/static/app/app.js:502 | a reset select selects nothing and keeps its visibility and options |
| Filtering.ResetDynamic | app/static/app/app.js:504 | every custom select is emptied and keeps its key and options |
| Filtering.WithSelect | app/static/app/app.js:496-498 | changing one built-in control leaves every other control as it was |
| Filtering.IdleMatchesAll | app/static/app/app.js:308-352 | when no control selects anything, every record matches |
| Filtering.ClearedMatchesAll | app/static/app/app.js:501-505 | after clear, nothing is selected and every record matches |
| Filtering.InactiveIgnored | app/static/app/app.js:309-337 | a hidden or empty built-in control puts no constraint on the result |
| Filtering.TreesBinSelects | app/static/app/app.js:316-327 | a trees bin keeps exactly the records whose count parses into the bin |
| Filtering.TreesNonSelects | app/static/app/app.js:319-322 | `non` keeps exactly the records with a present count that does not parse |
| Filtering.AreaBinSelects | app/static/app/app.js:331-337 | an area bin keeps exactly the records whose area parses into the bin |
| Filtering.NegativeBinSelectsNothing | app/static/app/app.js:325-335 | a bin whose start is negative keeps no record |
| Filtering.TreeCountSelectable | app/static/app/app.js:256-275 | each record with a parsed count is kept by some offered trees bin |
| Filtering.AreaNineAndAHalfUnselectable | app/static/app/app.js:331-337 | an area of `9.5`, among the bins of `[0, 49]`, is kept by none |
| Filtering.QueryFinds | app/static/app/app.js:346-350 | the farmer box keeps a record exactly when the query is blank or occurs in the code and names line |
| Filtering.QueryIgnoresCase | app/static/app/app.js:346-349 | the farmer search ignores case |
| Filtering.CategoryOptionSelects | app/static/app/app.js:309-313 | a non-empty option of a built-in select keeps at least one record, and every non-empty value that keeps a record is offered |
| Filtering.DynamicOptionSelects | app/static/app/app.js:340-344 | every option of a custom select keeps at least one record |
| Rendering.MarkerOf | app/static/app/app.js:428-430 | a record has a marker exactly when its position has both entries; the marker is at `[lat, lon]` and carries the record's properties |
| Rendering.Filtered | app/static/app/app.js:425 | filtering never adds records |
| Rendering.Placed | app/static/app/app.js:427-432 | at most one marker per record |
| Rendering.Render | app/static/app/app.js:423-432 | `render` puts `Markers(fs, fl)` on the map |
| Rendering.PlaceMarkers | app/static/app/app.js:427-432 | the `forEach` loop places one marker per record with a full position, in order |
| Rendering.MarkersAppend | app/static/app/app.js:425-432 | the markers of two runs of records are those of the first run, then those of the second |
| Rendering.FilteredMember | app/static/app/app.js:425 | a record is kept exactly when `matches` lets it through |
| Rendering.PlacedMember | app/static/app/app.js:427-431 | a marker is placed exactly when some record has it as its marker |
| Rendering.MarkersMember | app/static/app/app.js:425-431 | there is a marker exactly for each matching record with a full position |
| Rendering.IdlePlacesAll | app/static/app/app.js:425-431 | with nothing selected, every record with a full position gets its marker, in record order |
| Rendering.ClearedPlacesAll | app/static/app/app.js:501-505 | after clear, every record with a full position is back on the map |
| Page.InitialFilters | app/static/app/app.js:518-544 | after boot no control selects anything |
| Page.BuildCategorySelect | app/static/app/app.js:537-541 | only a shown select gets its options filled |
| Page.BuildFilters | app/static/app/app.js:521-544 | the boot sequence builds `InitialFilters` |
| Page.SitesPage.Boot | app/static/app/app.js:518-552 | after boot the map shows every record with a full position, and the invariant holds |
| Page.SitesPage.Redraw | app/static/app/app.js:423-440 | `render()` restores the invariant and changes no control |
| Page.SitesPage.Choose | app/static/app/app.js:496-498 | picking an option changes that control only, and re-renders |
| Page.SitesPage.ChooseCustom | app/static/app/app.js:214 | picking a custom option changes that select only, and re-renders |
| Page.SitesPage.TypeFarmer | app/static/app/app.js:500 | typing changes the farmer box only, and re-renders |
| Page.SitesPage.Clear | app/static/app/app.js:501-506 | clear empties every control, and then every record with a full position is on the map |
| Gallery.JsRem | app/static/app/app.js:465 | JavaScript's `%` is the usual remainder for a non-negative dividend and lies in `(-n, 0]` for a negative one |
| Gallery.StepsInRange | app/static/app/app.js:475-476 | from a valid index, next and previous give a valid index, wrapping at either end |
| Gallery.StepsInverse | app/static/app/app.js:475-476 | previous undoes next, and next undoes previous |
| Gallery.NextTimesIndex | app/static/app/app.js:476 | `m` presses of next from `i` show image `(i + m) % n` |
| Gallery.NextCycles | app/static/app/app.js:476 | `n` presses of next come back to the image shown first |
| Gallery.Lightbox.Image | app/static/app/app.js:466 | an image is on show exactly while the lightbox is open in image mode, and it is the gallery's image at the index |
| Gallery.Lightbox.constructor | app/static/app/app.js:443-457 | the lightbox starts hidden, in image mode, with an empty gallery and empty image and frame sources |
| Gallery.Lightbox.OpenImages | app/static/app/app.js:464-469 | opening sets the image source to image `(start + n) % n`, which is a valid index whenever `start >= -n` |
| Gallery.Lightbox.OpenPdf | app/static/app/app.js:459-463 | opening a PDF switches to PDF mode and shows it; no image is on show, and the image source is kept |
| Gallery.Lightbox.Close | app/static/app/app.js:470-473 | closing hides the lightbox and empties both the image and the frame source, so no image is on show |
| Gallery.Lightbox.Prev | app/static/app/app.js:475 | previous steps back and shows that image in image mode, does nothing in PDF mode, and keeps the index valid |
| Gallery.Lightbox.Next | app/static/app/app.js:476 | next steps on and shows that image in image mode, does nothing in PDF mode, and keeps the index valid |
| MapLayers.FirstMissing | app/models.py:90-92 | the token reported is one the template lacks |
| MapLayers.Clean | app/models.py:86-92 | every error is reported on `url_template` |
| MapLayers.CleanAccepts | app/models.py:86-92 | `clean` raises nothing exactly when the template starts with `http://` or `https://` and has `{z}`, `{x}` and `{y}` |
| MapLayers.CleanScheme | app/models.py:88-89 | a template without the scheme gets the scheme error, whatever tokens it has |
| MapLayers.CleanSchemeCase | app/models.py:88 | the scheme check is case-sensitive: `HTTPS://` is refused |
| MapLayers.CleanNone | app/models.py:88 | a missing template is checked as the empty one, and fails the scheme check |
| MapLayers.CleanMissing | app/models.py:90-92 | with the scheme in place, the error names token `k` exactly when `k` is missing and every earlier token of `{z}`, `{x}`, `{y}` is present |
| MapLayers.CleanAcceptsTemplate | app/models.py:86-92 | every `https://…{z}…{x}…{y}…` template passes |
| MapLayers.Save | app/models.py:94-98 | the method leaves the table `Saved(rows, pk, layer)` |
| MapLayers.StoredShape | app/models.py:95 | `super().save()` writes the layer's row and leaves every other old row in place |
| MapLayers.SavedUniquePks | app/models.py:95 | saving keeps primary keys unique |
| MapLayers.SavedSingleDefault | app/models.py:96-98 | after a default layer is saved, it is the only default of its settings group |
| MapLayers.SavedOtherGroups | app/models.py:98 | rows of other settings groups are unchanged |
| MapLayers.SavedNonDefault | app/models.py:97 | saving a non-default layer changes no other row |
| MapLayers.SavedOneDefault | app/models.py:96-98 | if every group had at most one default before a save, it has at most one after |

## Left out

- The map itself is not modelled: the Leaflet map, its tile layers, `fitBounds`/`setView`, `invalidateSize` and the popups' HTML (`popupHTML`). A marker is a position plus the record's properties.
- The page chrome is not modelled: its title, footer, logos, language switch, `setChrome` and `buildLayers`. The label packs (`LBL`) and the site settings' filter switches are parameters of `Page.SitesPage.Boot` (`Labels`, `Visibility`).
- The fetches of `/api/config/` and `/api/sites/` are not modelled, and neither is the failure path of boot. Boot starts from the records already loaded.
- The 250 ms debounce of the farmer box is not modelled. `Page.SitesPage.TypeFarmer` re-renders at once, as the last pending timer would.
- `localeCompare` is not modelled. It is the parameter `le`, and sorting properties assume only that it is a total preorder.
- The sort is an insertion sort, and `Collation.SortByStable` proves it stable. That its order is the one `Array.prototype.sort` gives is not proved: it rests on two stable sorts under the same total preorder giving the same order.
- `Numbers.ParseFloatOrNull` reads only the decimal grammar: a sign, digits, and an optional fraction.
  - Exponent forms (`1e3`), hexadecimal (`0x10`), `Infinity` and the IEEE-754 rounding of `Number` are not modelled.
  - Those inputs read as `null`, except that rounding is simply absent.
- Numbers are unbounded. JavaScript's 2^53 integer limit is not modelled.
- `JsText.Lower` lowers ASCII letters only. The full Unicode case mapping of `toLowerCase` is not modelled.
- The page template is not modelled:
  - a missing control is treated as a hidden one;
  - a missing `#customFilters` container is not modelled: `buildDynamicFilters` then builds no custom selects (app/static/app/app.js:187), while `DynamicFilters.BuildDynamicFilters` always builds them. Matching comes out the same, because a select nobody can set keeps the value `""`;
  - a category select's template placeholder is the `first` parameter of `CategoryOptions.FillOptionsLocalized`;
  - `setPlaceholder` relabels that placeholder.
- The ordering of the boot steps is not modelled: `showBuiltInFilters` running after `ensureRangeFilters` is irrelevant to its outcome. The trees and area selects are shown unless their switch is explicitly `false`, which `Visibility` passes in.
- `f.properties || {}` is not modelled: every Feature has its properties in the model.
- The lightbox's keyboard handler and its backdrop click are not modelled. They only call the modelled `Close`, `Prev` and `Next`.
- The thumbnail click handler is not modelled. It computes `start` as `links.indexOf(a)`, which is a valid index.
- The `overflow` style of the page body is not modelled, and neither is the visibility of the prev/next buttons.
- `Gallery.Lightbox.OpenImages`: for `start` below `-n`, JavaScript's `%` gives a negative index. The model then states only the formula, and that the image source is the text `"undefined"`. The only caller passes a valid index.
- The server's serializers, views, admin and URL routes are not modelled, and neither is the rest of `app/models.py`.
- ORM persistence is not modelled. The table is a sequence of rows.
- `MapLayers.Save` does not call `clean`, just as Django's `save` does not.
- `MapLayers.Save` does not enforce the `unique` slug or the `(settings, slug)` uniqueness constraints.
- A new row's key is one above every key in use, standing in for the database's auto-increment.

## Behaviour of the code worth knowing

The model follows the code in each of these cases. Each case is proved as a lemma about that code:

- **`buildBins` can overshoot and invert.** When the span is smaller than `k`, the bins run past `max` and the last bin is inverted (`Buckets.BinsTwoValuesFiveBins`: `[4, 1]`). Bins can therefore be empty, or reach past `max`.
- **Area bins have gaps.** Bins are integer ranges, but areas are reals, so a fractional area that falls between two bins matches neither (`Buckets.BinsGap`, `Filtering.AreaNineAndAHalfUnselectable`).
- **A blank area reads as 0.** `Number("")` is 0, so an empty `area_m2` text counts as an area of 0 (`Numbers.ParseFloatOrNullBlank`). Only `null` and a missing area are left out of the bins.
- **A bin with a negative start never matches.** Its value `-4-1` splits into an empty first half, which reads as NaN (`Filtering.NegativeBinSelectsNothing`). Tree counts cannot be negative (`RangeOptions.TreeBinsNonNegative`), but negative areas can be.
- **A custom-field match ignores `is_filterable`.** It looks at every extra of the key, while the options of a custom select come from filterable extras only (`Filtering.Hit`).
