/**
 * The search: five criteria read from the form, normalised, and applied to
 * every record with AND; an empty criterion imposes nothing.
 */
module FilterEngine {
  import opened JsValues
  import opened JsStrings
  import opened Records
  import opened Seqs

  /** The raw values of the five search controls. */
  datatype FormInput = FormInput(ingredient: string, route: string, dosageForm: string, cas: string, unii: string)

  /** The form after a reset: every control blank, both dropdowns on "all". */
  const EmptyForm := FormInput("", "", "", "", "")

  /** The criteria a search applies, after trimming and lower-casing. */
  datatype Criteria = Criteria(ingredient: string, route: string, dosageForm: string, cas: string, unii: string)

  /** No criterion at all. */
  const NoCriteria := Criteria("", "", "", "", "")

  /**
   * How the form is read: the ingredient and UNII terms are trimmed and
   * lower-cased, the registry number is trimmed, and the dropdown codes are
   * taken as they are.
   */
  function Normalize(f: FormInput): Criteria {
    Criteria(ToLower(Trim(f.ingredient)), f.route, f.dosageForm, Trim(f.cas), ToLower(Trim(f.unii)))
  }

  /**
   * The criteria hold no ASCII capital in the ingredient and UNII terms and
   * no blank at either end of the three typed terms; a typed term is empty
   * exactly when its control holds only blanks; the dropdown codes are taken
   * as they are.
   */
  lemma NormalizeShape(f: FormInput)
    ensures var c := Normalize(f);
      && c.route == f.route && c.dosageForm == f.dosageForm
      && (forall k :: 0 <= k < |c.ingredient| ==> !('A' <= c.ingredient[k] <= 'Z'))
      && (forall k :: 0 <= k < |c.unii| ==> !('A' <= c.unii[k] <= 'Z'))
      && (c.ingredient == [] || (!IsWhitespace(c.ingredient[0]) && !IsWhitespace(c.ingredient[|c.ingredient| - 1])))
      && (c.cas == [] || (!IsWhitespace(c.cas[0]) && !IsWhitespace(c.cas[|c.cas| - 1])))
      && (c.unii == [] || (!IsWhitespace(c.unii[0]) && !IsWhitespace(c.unii[|c.unii| - 1])))
      && (c.ingredient == [] <==> (forall k :: 0 <= k < |f.ingredient| ==> IsWhitespace(f.ingredient[k])))
      && (c.cas == [] <==> (forall k :: 0 <= k < |f.cas| ==> IsWhitespace(f.cas[k])))
      && (c.unii == [] <==> (forall k :: 0 <= k < |f.unii| ==> IsWhitespace(f.unii[k])))
  {
    TrimEmpty(f.ingredient);
    TrimEmpty(f.cas);
    TrimEmpty(f.unii);
    TrimAfterLower(f.ingredient);
    TrimAfterLower(f.unii);
  }

  /** Typing the normalised terms back into the form gives the same criteria. */
  lemma NormalizeIdempotent(f: FormInput)
    ensures var c := Normalize(f); Normalize(FormInput(c.ingredient, c.route, c.dosageForm, c.cas, c.unii)) == c
  {
    TrimAfterLower(f.ingredient);
    ToLowerIdempotent(Trim(f.ingredient));
    TrimAfterLower(f.unii);
    ToLowerIdempotent(Trim(f.unii));
    TrimIdempotent(f.cas);
  }

  /** The ingredient term occurs in the lower-cased English name or in the lower-cased Chinese name. */
  predicate IngredientPasses(r: Record, term: string) {
    || term == ""
    || Includes(ToLower(TextOr(r.ingredientName)), term)
    || Includes(ToLower(TextOr(r.ingredientNameCn)), term)
  }

  /** An exact, case-sensitive code match against the selected dropdown value. */
  predicate CodePasses(code: Option<string>, selected: string) {
    selected == "" || code == Some(selected)
  }

  /** The term occurs in the string form of the registry number. */
  predicate CasPasses(r: Record, term: string) {
    term == "" || Includes(SearchText(r.casNumber), term)
  }

  /** The term occurs in the lower-cased UNII. */
  predicate UniiPasses(r: Record, term: string) {
    term == "" || Includes(ToLower(TextOr(r.unii)), term)
  }

  /** A record passes the search when it passes every one of the five criteria. */
  predicate Matches(r: Record, c: Criteria) {
    && IngredientPasses(r, c.ingredient)
    && CodePasses(r.route, c.route)
    && CodePasses(r.dosageForm, c.dosageForm)
    && CasPasses(r, c.cas)
    && UniiPasses(r, c.unii)
  }

  /** `allData.filter(...)` with the search predicate. */
  function Search(data: seq<Record>, c: Criteria): seq<Record> {
    Filter(data, r => Matches(r, c))
  }

  /**
   * The search result holds the records that pass, in their original order,
   * and every copy of every record that passes.
   */
  lemma SearchSpec(data: seq<Record>, c: Criteria)
    ensures IsSubsequence(Search(data, c), data)
    ensures forall x :: x in Search(data, c) <==> x in data && Matches(x, c)
    ensures forall x :: multiset(Search(data, c))[x] == if Matches(x, c) then multiset(data)[x] else 0
  {
    FilterSpec(data, r => Matches(r, c));
  }

  /** With every criterion empty, the search returns the whole dataset. */
  lemma SearchNoCriteria(data: seq<Record>)
    ensures Search(data, NoCriteria) == data
  {
    FilterKeepsAll(data, r => Matches(r, NoCriteria));
  }

  /** Searching the result of a search again with the same criteria changes nothing. */
  lemma SearchIdempotent(data: seq<Record>, c: Criteria)
    ensures Search(Search(data, c), c) == Search(data, c)
  {
    FilterIdempotent(data, r => Matches(r, c));
  }

  /** The search looks at one record at a time: searching two parts searches the whole. */
  lemma SearchAppend(a: seq<Record>, b: seq<Record>, c: Criteria)
    ensures Search(a + b, c) == Search(a, c) + Search(b, c)
  {
    FilterAppend(a, b, r => Matches(r, c));
  }

  /** `c2` asks for everything `c1` asks for: each criterion of `c1` is empty or repeated in `c2`. */
  predicate Narrows(c2: Criteria, c1: Criteria) {
    && (c1.ingredient == "" || c1.ingredient == c2.ingredient)
    && (c1.route == "" || c1.route == c2.route)
    && (c1.dosageForm == "" || c1.dosageForm == c2.dosageForm)
    && (c1.cas == "" || c1.cas == c2.cas)
    && (c1.unii == "" || c1.unii == c2.unii)
  }

  /** A record that passes the narrower criteria passes the wider ones. */
  lemma NarrowsMatches(r: Record, c2: Criteria, c1: Criteria)
    requires Narrows(c2, c1)
    ensures Matches(r, c2) ==> Matches(r, c1)
  {
  }

  /**
   * Adding criteria only rejects records: the narrower result is a
   * subsequence of the wider one, so it is never larger.
   */
  lemma SearchMonotone(data: seq<Record>, c2: Criteria, c1: Criteria)
    requires Narrows(c2, c1)
    ensures IsSubsequence(Search(data, c2), Search(data, c1))
    ensures |Search(data, c2)| <= |Search(data, c1)|
  {
    forall k | 0 <= k < |data|
      ensures Matches(data[k], c2) ==> Matches(data[k], c1)
    {
      NarrowsMatches(data[k], c2, c1);
    }
    FilterMonotone(data, r => Matches(r, c2), r => Matches(r, c1));
  }

  /**
   * What the search form promises for one record, criterion by criterion,
   * stated on the raw control values.
   */
  lemma SearchCriteria(r: Record, f: FormInput)
    ensures Matches(r, Normalize(f)) <==>
      && (Trim(f.ingredient) == ""
          || Occurs(ToLower(TextOr(r.ingredientName)), ToLower(Trim(f.ingredient)))
          || Occurs(ToLower(TextOr(r.ingredientNameCn)), ToLower(Trim(f.ingredient))))
      && (f.route == "" || r.route == Some(f.route))
      && (f.dosageForm == "" || r.dosageForm == Some(f.dosageForm))
      && (Trim(f.cas) == "" || Occurs(SearchText(r.casNumber), Trim(f.cas)))
      && (Trim(f.unii) == "" || Occurs(ToLower(TextOr(r.unii)), ToLower(Trim(f.unii))))
  {
  }
}
