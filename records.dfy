/**
 * The site records the browser script works on: the `properties` of each GeoJSON Feature of
 * `/api/sites/` (field names as the Site model and its serializer give them), the point's
 * `[longitude, latitude]` position, and the `extras` rows of custom fields.
 * A JSON `null` and a missing member are both `None`.
 */
module Records {
  import opened Wrappers
  import opened JsText

  /** One entry of `properties.extras`: a custom field's key and labels and this site's value. */
  datatype Extra = Extra(
    key: string,
    labelEn: Option<string>,
    labelAr: Option<string>,
    valueEn: Option<string>,
    valueAr: Option<string>,
    isFilterable: bool)

  /**
   * The properties the filters read. `code` is a positive integer field; `number_of_trees` is
   * free text; `area_m2` is a decimal field, which the serializer sends as its decimal text.
   */
  datatype Props = Props(
    code: Option<nat>,
    farmerName: Option<string>,
    farmerNameAr: Option<string>,
    region: Option<string>,
    regionAr: Option<string>,
    governorate: Option<string>,
    governorateAr: Option<string>,
    cropType: Option<string>,
    cropTypeAr: Option<string>,
    waterSource: Option<string>,
    waterSourceAr: Option<string>,
    irrigationSystemType: Option<string>,
    irrigationSystemTypeAr: Option<string>,
    numberOfTrees: Option<string>,
    areaM2: Option<string>,
    extras: seq<Extra>)

  /**
   * A Feature: its properties and, when it has a geometry, the entries of its `coordinates`
   * array, which are a GeoJSON position in `[longitude, latitude]` order.
   */
  datatype Feature = Feature(properties: Props, coordinates: Option<seq<Option<real>>>)

  /** The five built-in select filters, each over one text property (and its Arabic twin). */
  datatype Category = Region | Governorate | CropType | WaterSource | IrrigationType

  /** `p[enKey]`, the canonical (English) value a built-in filter compares against. */
  function Canonical(p: Props, c: Category): Option<string> {
    match c
    case Region => p.region
    case Governorate => p.governorate
    case CropType => p.cropType
    case WaterSource => p.waterSource
    case IrrigationType => p.irrigationSystemType
  }

  /** `p[arKey]`, the Arabic display value of a built-in filter's property. */
  function Localized(p: Props, c: Category): Option<string> {
    match c
    case Region => p.regionAr
    case Governorate => p.governorateAr
    case CropType => p.cropTypeAr
    case WaterSource => p.waterSourceAr
    case IrrigationType => p.irrigationSystemTypeAr
  }

  /** JavaScript truthiness of a string value: present and non-empty. */
  predicate Truthy(v: Option<string>) {
    v.Some? && v.value != ""
  }

  /** `v || ''`. */
  function OrEmpty(v: Option<string>): string {
    if Truthy(v) then v.value else ""
  }

  /** `v || w` on two text values. */
  function Or(v: Option<string>, w: Option<string>): Option<string> {
    if Truthy(v) then v else w
  }

  /** `tFor(p, en, ar)`: the Arabic value when the page is Arabic and it is non-empty, else the English one or `''`. */
  function TFor(en: Option<string>, ar: Option<string>, isAR: bool): string {
    if isAR && Truthy(ar) then ar.value else OrEmpty(en)
  }

  /** The display label of a built-in filter's value for one record. */
  function CategoryLabel(p: Props, c: Category, isAR: bool): string {
    TFor(Canonical(p, c), Localized(p, c), isAR)
  }

  /** `v != null && String(v).trim() !== ''`: a value that is there and is not blank. */
  predicate Present(v: Option<string>) {
    v.Some? && Trim(v.value) != ""
  }

  /** `norm(p[enKey])`, the value a built-in filter's option carries for one record. */
  function Key(f: Feature, c: Category): string {
    Norm(Canonical(f.properties, c))
  }
}
