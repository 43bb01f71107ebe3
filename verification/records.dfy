/**
 * One row of the ingredient dataset, with the columns the engine reads.
 * Text columns hold a string or null; the registry number and the two
 * numeric amounts may also hold a number.
 */
module Records {
  import opened JsValues

  datatype Record = Record(
    ingredientName: Option<string>,          // INGREDIENT_NAME
    ingredientNameCn: Option<string>,        // INGREDIENT_NAME(中文名)
    route: Option<string>,                   // ROUTE
    routeCn: Option<string>,                 // ROUTE(中文名)
    routeExplanation: Option<string>,        // ROUTE 解释说明 (Explanation)
    dosageForm: Option<string>,              // DOSAGE_FORM
    dosageFormCn: Option<string>,            // DOSAGE_FORM(中文名)
    dosageFormExplanation: Option<string>,   // DOSAGE_FORM 解释说明 (Explanation)
    casNumber: Scalar,                       // CAS_NUMBER
    unii: Option<string>,                    // UNII
    potencyAmount: Scalar,                   // POTENCY_AMOUNT
    potencyUnit: Option<string>,             // POTENCY_UNIT
    maximumDailyExposure: Scalar,            // MAXIMUM_DAILY_EXPOSURE
    maximumDailyExposureUnit: Option<string>, // MAXIMUM_DAILY_EXPOSURE_UNIT
    recordUpdated: Option<string>            // RECORD_UPDATED
  )

  /** A record with every column null. */
  const Blank := Record(None, None, None, None, None, None, None, None, Missing, None, Missing, None, Missing, None, None)

  /** The two coded columns that have a dropdown, a Chinese translation and an explanation. */
  datatype Category = Route | DosageForm

  /** The code column of a category (ROUTE or DOSAGE_FORM). */
  function CodeOf(r: Record, cat: Category): Option<string> {
    match cat
    case Route => r.route
    case DosageForm => r.dosageForm
  }

  /** The `(中文名)` translation column of a category. */
  function TranslationOf(r: Record, cat: Category): Option<string> {
    match cat
    case Route => r.routeCn
    case DosageForm => r.dosageFormCn
  }

  /** The `解释说明 (Explanation)` column of a category. */
  function ExplanationOf(r: Record, cat: Category): Option<string> {
    match cat
    case Route => r.routeExplanation
    case DosageForm => r.dosageFormExplanation
  }
}
