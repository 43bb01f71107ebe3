/**
 * `createTableRow`: one record as a table row. The three bilingual cells
 * show the Chinese value with the English value as an annotation, or the
 * English value alone; route and dosage-form cells carry their explanation
 * as a tooltip; seven further columns follow in a fixed order.
 */
module RowProjector {
  import opened JsValues
  import opened Records

  /**
   * One bilingual cell: the main text, the smaller English annotation under
   * it (if any) and the `data-tooltip` attribute (if any).
   */
  datatype Cell = Cell(primary: string, annotation: Option<string>, tooltip: Option<string>)

  /** A table row: the three bilingual cells, then the plain cells in column order. */
  datatype Row = Row(ingredient: Cell, route: Cell, dosageForm: Cell, plain: seq<string>)

  /** The seven plain columns that follow the bilingual ones. */
  datatype PlainColumn =
    | CasNumber | Unii | PotencyAmount | PotencyUnit
    | MaximumDailyExposure | MaximumDailyExposureUnit | RecordUpdated

  /** The order of the plain columns in the table. */
  const PlainColumns: seq<PlainColumn> :=
    [CasNumber, Unii, PotencyAmount, PotencyUnit, MaximumDailyExposure, MaximumDailyExposureUnit, RecordUpdated]

  /** `item[field]` for a plain column. */
  function ValueOf(r: Record, col: PlainColumn): Scalar {
    match col
    case CasNumber => r.casNumber
    case Unii => FromText(r.unii)
    case PotencyAmount => r.potencyAmount
    case PotencyUnit => FromText(r.potencyUnit)
    case MaximumDailyExposure => r.maximumDailyExposure
    case MaximumDailyExposureUnit => FromText(r.maximumDailyExposureUnit)
    case RecordUpdated => FromText(r.recordUpdated)
  }

  /**
   * A bilingual cell: when the Chinese value is non-empty it is the main
   * text and the English value (possibly "") is kept as the annotation;
   * otherwise the English value alone, with no annotation.
   */
  function Bilingual(en: Option<string>, cn: Option<string>): (c: Cell)
    ensures c.tooltip == None
    ensures c.annotation.Some? <==> TextOr(cn) != ""
    ensures TextOr(cn) != "" ==> c.primary == TextOr(cn) && c.annotation == Some(TextOr(en))
    ensures TextOr(cn) == "" ==> c.primary == TextOr(en)
  {
    var name := TextOr(en);
    var nameCn := TextOr(cn);
    if nameCn != "" then Cell(nameCn, Some(name), None) else Cell(name, None, None)
  }

  /** Attaches an explanation as a tooltip, but only when it is non-empty. */
  function WithTooltip(c: Cell, explanation: Option<string>): (d: Cell)
    ensures d.primary == c.primary && d.annotation == c.annotation
    ensures TextOr(explanation) != "" ==> d.tooltip == explanation
    ensures TextOr(explanation) == "" ==> d.tooltip == c.tooltip
  {
    var text := TextOr(explanation);
    if text != "" then c.(tooltip := Some(text)) else c
  }

  /** The cell of a coded column: bilingual, with the explanation as tooltip. */
  function CodedCell(r: Record, cat: Category): Cell {
    WithTooltip(Bilingual(CodeOf(r, cat), TranslationOf(r, cat)), ExplanationOf(r, cat))
  }

  /** Reads the (English, Chinese) pair back out of a bilingual cell. */
  function Unresolve(c: Cell): (string, string) {
    match c.annotation
    case Some(en) => (en, c.primary)
    case None => (c.primary, "")
  }

  /**
   * `createTableRow(item)`: each bilingual cell carries an annotation exactly
   * when its Chinese value is non-empty and gives back both names; a
   * non-empty explanation becomes the tooltip, and an empty or missing one
   * gives none; the plain columns follow in their fixed order.
   */
  function Project(r: Record): (row: Row)
    ensures row.ingredient.annotation.Some? <==> TextOr(r.ingredientNameCn) != ""
    ensures row.route.annotation.Some? <==> TextOr(r.routeCn) != ""
    ensures row.dosageForm.annotation.Some? <==> TextOr(r.dosageFormCn) != ""
    ensures Unresolve(row.ingredient) == (TextOr(r.ingredientName), TextOr(r.ingredientNameCn))
    ensures Unresolve(row.route) == (TextOr(r.route), TextOr(r.routeCn))
    ensures Unresolve(row.dosageForm) == (TextOr(r.dosageForm), TextOr(r.dosageFormCn))
    ensures row.ingredient.tooltip == None
    ensures row.route.tooltip == if TextOr(r.routeExplanation) != "" then r.routeExplanation else None
    ensures row.dosageForm.tooltip == if TextOr(r.dosageFormExplanation) != "" then r.dosageFormExplanation else None
    ensures |row.plain| == |PlainColumns| == 7
    ensures forall i :: 0 <= i < |row.plain| ==> row.plain[i] == DisplayText(ValueOf(r, PlainColumns[i]))
  {
    Row(
      Bilingual(r.ingredientName, r.ingredientNameCn),
      CodedCell(r, Route),
      CodedCell(r, DosageForm),
      seq(|PlainColumns|, i requires 0 <= i < |PlainColumns| => DisplayText(ValueOf(r, PlainColumns[i]))))
  }

  /**
   * The bilingual cell loses nothing: both names, with null read as "", can
   * be read back from it.
   */
  lemma BilingualRoundTrip(en: Option<string>, cn: Option<string>, explanation: Option<string>)
    ensures Unresolve(Bilingual(en, cn)) == (TextOr(en), TextOr(cn))
    ensures Unresolve(WithTooltip(Bilingual(en, cn), explanation)) == (TextOr(en), TextOr(cn))
  {
  }

  /** With no Chinese name, the cell is the English name alone: no annotation, no separator. */
  lemma EnglishOnly(en: string, cn: Option<string>)
    requires TextOr(cn) == ""
    ensures Bilingual(Some(en), cn) == Cell(en, None, None)
  {
  }

  /**
   * A null or undefined value shows as "", never as the text "null" or
   * "undefined"; a number shows as its digits, zero included.
   */
  lemma PlainCellText(r: Record, i: nat)
    requires i < |PlainColumns|
    ensures ValueOf(r, PlainColumns[i]) == Missing ==> Project(r).plain[i] == ""
    ensures ValueOf(r, PlainColumns[i]) == Num("0") ==> Project(r).plain[i] == "0"
    ensures Project(r).plain[i] != "" ==> ValueOf(r, PlainColumns[i]) != Missing
  {
  }
}
