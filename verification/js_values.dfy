/**
 * The JavaScript values a dataset cell can hold, and the three ways the
 * engine turns a cell into text: `v || ""` on a text column, `String(v || "")`
 * on the registry-number column, and `v !== null && v !== undefined ? v : ""`
 * when a cell is written into the table.
 */
module JsValues {

  /** A value that may be null or undefined (`None`). */
  datatype Option<+T> = None | Some(value: T)

  /**
   * A cell of a column that may hold a string or a number. `Missing` stands
   * for both null and undefined; a number is carried by its JavaScript string
   * form `String(n)`, so the number zero (and minus zero) is `Num("0")`.
   */
  datatype Scalar = Missing | Str(s: string) | Num(repr: string)

  /** JavaScript truthiness of a cell: null, undefined, "", 0 and NaN are falsy. */
  predicate Truthy(v: Scalar) {
    match v
    case Missing => false
    case Str(s) => s != ""
    case Num(repr) => repr != "0" && repr != "NaN"
  }

  /** `o || ""` on a column that holds a string or null. */
  function TextOr(o: Option<string>): (t: string)
    ensures o.None? ==> t == ""
    ensures o.Some? ==> t == o.value
  {
    match o
    case None => ""
    case Some(s) => s
  }

  /** A string-or-null column seen as a general cell. */
  function FromText(o: Option<string>): (v: Scalar)
    ensures !v.Num?
  {
    match o
    case None => Missing
    case Some(s) => Str(s)
  }

  /** The text a cell shows in the table: null and undefined become "", anything else its string form. */
  function DisplayText(v: Scalar): string {
    match v
    case Missing => ""
    case Str(s) => s
    case Num(repr) => repr
  }

  /**
   * `String(v || "")`: the text the registry-number criterion searches. It
   * agrees with what the table shows, except that a falsy number (zero, NaN)
   * is searched as "" although the table shows its digits.
   */
  function SearchText(v: Scalar): (t: string)
    ensures t == "" || t == DisplayText(v)
    ensures t != DisplayText(v) <==> v.Num? && !Truthy(v)
  {
    if Truthy(v) then DisplayText(v) else ""
  }
}
