/**
 * Worked examples of the page's behaviour on small concrete datasets.
 */
module Scenarios {
  import opened JsValues
  import opened JsStrings
  import opened Records
  import opened FilterEngine
  import opened Paginator
  import opened RowProjector
  import opened DropdownIndexer
  import opened Controller
  import opened JsMap
  import opened JsOrder
  import opened Seqs

  /** A record for water with its registry number as a string. */
  const Water := Blank.(ingredientName := Some("Water"), casNumber := Str("7732-18-5"))

  /** A string without blanks is its own trim. */
  lemma TrimNoBlanks(s: string)
    requires forall k :: 0 <= k < |s| ==> !IsWhitespace(s[k])
    ensures Trim(s) == s
  {
    assert SkipBlanks(s, 0) == 0;
  }

  /** A term whose first character the text lacks occurs nowhere in it. */
  lemma AbsentFirstChar(h: string, n: string)
    requires 0 < |n| && n[0] !in h
    ensures !Includes(h, n)
  {
  }

  /** The form with only the registry-number control filled in. */
  lemma CasOnly(term: string)
    requires forall k :: 0 <= k < |term| ==> !IsWhitespace(term[k])
    ensures Normalize(EmptyForm.(cas := term)) == NoCriteria.(cas := term)
  {
    TrimNoBlanks(term);
    TrimNoBlanks("");
  }

  /** A record passing the criteria is the whole result of searching it alone. */
  lemma SearchOne(r: Record, c: Criteria)
    ensures Search([r], c) == if Matches(r, c) then [r] else []
  {
    var p := x => Matches(x, c);
    assert [r][1..] == [];
    assert Filter([r], p) == (if p(r) then [r] else []) + Filter([], p);
  }

  /** A part of the registry number finds the record. */
  lemma CasSubstring()
    ensures Search([Water], Normalize(EmptyForm.(cas := "7732"))) == [Water]
  {
    CasOnly("7732");
    assert SearchText(Water.casNumber) == "7732-18-5";
    assert "7732-18-5"[0..4] == "7732";
    assert OccursAt("7732-18-5", "7732", 0);
    assert CasPasses(Water, "7732");
    SearchOne(Water, NoCriteria.(cas := "7732"));
  }

  /** A number the registry number does not contain finds nothing. */
  lemma CasNoMatch()
    ensures Search([Water], Normalize(EmptyForm.(cas := "9999"))) == []
  {
    CasOnly("9999");
    AbsentFirstChar("7732-18-5", "9999");
    assert !CasPasses(Water, "9999");
    SearchOne(Water, NoCriteria.(cas := "9999"));
  }

  /** A record with an English name and no Chinese name. */
  const Aspirin := Blank.(ingredientName := Some("Aspirin"))

  /** The typed term is trimmed and lower-cased before it is compared. */
  lemma IngredientTermNormalized()
    ensures Normalize(EmptyForm.(ingredient := "ASPIR")) == NoCriteria.(ingredient := "aspir")
  {
    TrimNoBlanks("ASPIR");
    TrimNoBlanks("");
    assert ToLower("ASPIR") == "aspir";
  }

  /** The lower-cased English name. */
  lemma AspirinLowered()
    ensures ToLower(TextOr(Aspirin.ingredientName)) == "aspirin"
  {
    assert TextOr(Aspirin.ingredientName) == "Aspirin";
  }

  /** The lower-cased term is found in the lower-cased English name. */
  lemma AspirinFound()
    ensures Matches(Aspirin, NoCriteria.(ingredient := "aspir"))
  {
    var name := ToLower(TextOr(Aspirin.ingredientName));
    AspirinLowered();
    assert name[0..5] == "aspir";
    assert OccursAt(name, "aspir", 0);
    assert IngredientPasses(Aspirin, "aspir");
  }

  /** The ingredient term is matched without regard to case against the English name. */
  lemma IngredientCaseInsensitive()
    ensures Matches(Aspirin, Normalize(EmptyForm.(ingredient := "ASPIR")))
  {
    IngredientTermNormalized();
    AspirinFound();
  }

  /** With no Chinese name the cell shows the English name alone. */
  lemma AspirinCell()
    ensures Project(Aspirin).ingredient == Cell("Aspirin", None, None)
  {
  }

  /** Record number `i`, told apart from the others by the length of its name. */
  function Numbered(i: nat): (r: Record)
    ensures |TextOr(r.ingredientName)| == i
  {
    Blank.(ingredientName := Some(seq(i, _ => 'a')))
  }

  /** Different numbers give different records, so a position in the result names one record. */
  lemma NumberedDistinct(i: nat, j: nat)
    requires Numbered(i) == Numbered(j)
    ensures i == j
  {
    assert |TextOr(Numbered(i).ingredientName)| == |TextOr(Numbered(j).ingredientName)|;
  }

  /** 120 different records, record `i` at index `i`. */
  const Many: seq<Record> := seq(120, i requires 0 <= i => Numbered(i))

  /**
   * 120 records fill three pages. Page 1 shows 50 rows, and the next button
   * moves from page 1 to page 2. Page 2 shows records 50 to 99, in order.
   * Pressing next again reaches page 3, which shows the last 20, up to
   * record 119; there the next button is disabled and does nothing.
   */
  lemma ThreePages()
    ensures TotalPages(|Many|) == 3
    ensures |Render(Start(Many)).rows| == 50
    ensures ChangePage(Start(Many), 1).page == 2
    ensures |PageItems(Many, 2)| == 50
    ensures forall k :: 0 <= k < 50 ==> PageItems(Many, 2)[k] == Numbered(50 + k)
    ensures var last := ChangePage(ChangePage(Start(Many), 1), 1);
      && last.page == 3
      && |PageItems(Many, 3)| == 20 && PageItems(Many, 3)[19] == Numbered(119)
      && Render(last).nextDisabled
      && ChangePage(last, 1) == last
  {
  }

  /** Two records with the route ORAL, one translated and one not. */
  const Translated := Blank.(route := Some("ORAL"), routeCn := Some("口服"))
  const Untranslated := Blank.(route := Some("ORAL"))

  /** The route appears once, with the translation of the later record. */
  lemma LastTranslationWins()
    ensures Vocabulary([Untranslated, Translated], Route) == [Entry("ORAL", "口服", "口服 (ORAL)")]
  {
    var data := [Untranslated, Translated];
    var m := Collect(data, Route, 2);
    assert Collect(data, Route, 1) == [("ORAL", "")];
    assert m == [("ORAL", "口服")];
    assert Keys(m) == ["ORAL"];
    assert Sort(["ORAL"]) == ["ORAL"];
    assert Get(m, "ORAL") == Some("口服");
    assert Label("ORAL", "口服") == "口服 (ORAL)";
  }

  /** A later record without a translation erases the earlier one's: the label is the bare code. */
  lemma LastEmptyTranslationWins()
    ensures Vocabulary([Translated, Untranslated], Route) == [Entry("ORAL", "", "ORAL")]
  {
    var data := [Translated, Untranslated];
    var m := Collect(data, Route, 2);
    assert Collect(data, Route, 1) == [("ORAL", "口服")];
    assert m == [("ORAL", "")];
    assert Keys(m) == ["ORAL"];
    assert Sort(["ORAL"]) == ["ORAL"];
    assert Get(m, "ORAL") == Some("");
    assert Label("ORAL", "") == "ORAL";
  }
}
