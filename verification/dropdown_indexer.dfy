/**
 * `initializeDropdowns` and the option labels of
 * `populateDropdownWithTranslation`: the distinct non-empty codes of a coded
 * column, each with the translation of the last record carrying it, sorted,
 * and labelled `translation (code)` or `code`.
 */
module DropdownIndexer {
  import opened JsValues
  import opened Records
  import opened Seqs
  import opened JsOrder
  import opened JsMap

  /** One of the first `n` records carries `code` (non-empty) in the column of `cat`. */
  ghost predicate Carries(data: seq<Record>, cat: Category, n: nat, code: string) {
    code != "" && exists i :: 0 <= i < n && i < |data| && CodeOf(data[i], cat) == Some(code)
  }

  /** Record `i` has a non-empty code, and no later record among the first `n` has the same one. */
  ghost predicate IsLast(data: seq<Record>, cat: Category, n: nat, i: int) {
    && 0 <= i < n <= |data|
    && TextOr(CodeOf(data[i], cat)) != ""
    && forall j :: i < j < n ==> CodeOf(data[j], cat) != CodeOf(data[i], cat)
  }

  /**
   * The code-to-translation `Map` after the first `n` steps of `forEach`:
   * a record with a non-empty code sets that code to its translation (or ""),
   * overwriting what an earlier record set.
   */
  function Collect(data: seq<Record>, cat: Category, n: nat): seq<(string, string)>
    requires n <= |data|
  {
    if n == 0 then []
    else
      var m := Collect(data, cat, n - 1);
      var item := data[n - 1];
      var code := TextOr(CodeOf(item, cat));
      if code != "" then Set(m, code, TextOr(TranslationOf(item, cat))) else m
  }

  /** One more record carries its own code, if non-empty, and the codes carried before. */
  lemma CarriesStep(data: seq<Record>, cat: Category, n: nat, code: string)
    requires 0 < n <= |data|
    ensures Carries(data, cat, n, code) <==>
      Carries(data, cat, n - 1, code) || (code != "" && CodeOf(data[n - 1], cat) == Some(code))
  {
    if Carries(data, cat, n, code) {
      var i :| 0 <= i < n && i < |data| && CodeOf(data[i], cat) == Some(code);
      if i < n - 1 {
        assert Carries(data, cat, n - 1, code);
      }
    }
  }

  /** A code carried by one of the first `n` records has a last carrier among them. */
  lemma {:induction false} LastCarrier(data: seq<Record>, cat: Category, n: nat, code: string)
    requires n <= |data| && Carries(data, cat, n, code)
    ensures exists i :: IsLast(data, cat, n, i) && TextOr(CodeOf(data[i], cat)) == code
  {
    CarriesStep(data, cat, n, code);
    if CodeOf(data[n - 1], cat) == Some(code) {
      assert IsLast(data, cat, n, n - 1);
    } else {
      LastCarrier(data, cat, n - 1, code);
      var i :| IsLast(data, cat, n - 1, i) && TextOr(CodeOf(data[i], cat)) == code;
      assert IsLast(data, cat, n, i);
    }
  }

  /** The map's keys are the non-empty codes of the first `n` records, each once. */
  lemma {:induction false} CollectKeys(data: seq<Record>, cat: Category, n: nat)
    requires n <= |data|
    ensures Distinct(Keys(Collect(data, cat, n)))
    ensures forall code :: code in Keys(Collect(data, cat, n)) <==> Carries(data, cat, n, code)
  {
    if n > 0 {
      CollectKeys(data, cat, n - 1);
      var m := Collect(data, cat, n - 1);
      var item := data[n - 1];
      var code := TextOr(CodeOf(item, cat));
      if code != "" {
        SetKeys(m, code, TextOr(TranslationOf(item, cat)));
      }
      forall c
        ensures c in Keys(Collect(data, cat, n)) <==> Carries(data, cat, n, c)
      {
        CarriesStep(data, cat, n, c);
      }
    }
  }

  /** Each code maps to the translation (or "") of the last of the first `n` records that carries it. */
  lemma {:induction false} CollectLastSeen(data: seq<Record>, cat: Category, n: nat, i: nat)
    requires IsLast(data, cat, n, i)
    ensures Get(Collect(data, cat, n), TextOr(CodeOf(data[i], cat))) == Some(TextOr(TranslationOf(data[i], cat)))
  {
    if i == n - 1 {
      SetByLast(data, cat, n);
    } else {
      IsLastShrink(data, cat, n, i);
      CollectLastSeen(data, cat, n - 1, i);
      KeptPastLater(data, cat, n, i);
    }
  }

  /** A record that is last among `n` records and not the `n`-th is last among the first `n - 1`. */
  lemma IsLastShrink(data: seq<Record>, cat: Category, n: nat, i: nat)
    requires IsLast(data, cat, n, i) && i < n - 1
    ensures IsLast(data, cat, n - 1, i)
  {
  }

  /** The `n`-th record sets its own code to its own translation. */
  lemma SetByLast(data: seq<Record>, cat: Category, n: nat)
    requires IsLast(data, cat, n, n - 1)
    ensures Get(Collect(data, cat, n), TextOr(CodeOf(data[n - 1], cat))) == Some(TextOr(TranslationOf(data[n - 1], cat)))
  {
    var m := Collect(data, cat, n - 1);
    var code := TextOr(CodeOf(data[n - 1], cat));
    var t := TextOr(TranslationOf(data[n - 1], cat));
    assert Collect(data, cat, n) == Set(m, code, t);
    SetGet(m, code, t);
  }

  /** The `n`-th record leaves the value of any other code as it was. */
  lemma KeptPastLater(data: seq<Record>, cat: Category, n: nat, i: nat)
    requires IsLast(data, cat, n, i) && i < n - 1
    ensures Get(Collect(data, cat, n), TextOr(CodeOf(data[i], cat))) == Get(Collect(data, cat, n - 1), TextOr(CodeOf(data[i], cat)))
  {
    var m := Collect(data, cat, n - 1);
    var code := TextOr(CodeOf(data[n - 1], cat));
    var t := TextOr(TranslationOf(data[n - 1], cat));
    var mine := TextOr(CodeOf(data[i], cat));
    if code != "" {
      assert Collect(data, cat, n) == Set(m, code, t);
      assert CodeOf(data[i], cat) == Some(mine);
      assert CodeOf(data[n - 1], cat) == Some(code);
      SetGetOther(m, code, t, mine);
    }
  }

  /** An option of a coded dropdown: its value, its translation and its visible text. */
  datatype Entry = Entry(code: string, translation: string, text: string)

  /**
   * The visible text of an option: `translation (code)` when there is a
   * translation, the bare code otherwise (never `"" (code)`).
   */
  function Label(code: string, translation: string): (text: string)
    ensures text == code <==> translation == ""
    ensures translation != "" ==>
      && |text| == |translation| + |code| + 3
      && text[..|translation|] == translation
      && text[|translation|..] == " (" + code + ")"
  {
    if translation != "" then translation + " (" + code + ")" else code
  }

  /** Recovers the translation from an option's text, given its value. */
  function ParseLabel(text: string, code: string): string {
    if text == code || |text| < |code| + 3 then "" else text[..|text| - |code| - 3]
  }

  /** The label is unambiguous: the translation can be read back from it. */
  lemma LabelRoundTrip(code: string, translation: string)
    ensures ParseLabel(Label(code, translation), code) == translation
  {
  }

  /** The values of the options, in order. */
  function Codes(v: seq<Entry>): (cs: seq<string>)
    ensures |cs| == |v|
    ensures forall k :: 0 <= k < |v| ==> cs[k] == v[k].code
  {
    seq(|v|, k requires 0 <= k < |v| => v[k].code)
  }

  /**
   * The options of the dropdown for `cat`: each non-empty code of the
   * dataset exactly once, in ascending order, each labelled from its
   * translation `translationMap.get(code)` (read as "" when missing).
   */
  function Vocabulary(data: seq<Record>, cat: Category): (v: seq<Entry>)
    ensures StrictlySorted(Codes(v))
    ensures forall code :: code in Codes(v) <==> Carries(data, cat, |data|, code)
    ensures forall k :: 0 <= k < |v| ==> v[k].text == Label(v[k].code, v[k].translation)
  {
    var m := Collect(data, cat, |data|);
    CollectKeys(data, cat, |data|);
    var codes := Sort(Keys(m));
    var v := seq(|codes|, k requires 0 <= k < |codes| =>
      var t := TextOr(Get(m, codes[k])); Entry(codes[k], t, Label(codes[k], t)));
    assert Codes(v) == codes;
    forall code
      ensures code in codes <==> code in Keys(m)
    {
      assert code in codes <==> code in multiset(codes);
      assert code in Keys(m) <==> code in multiset(Keys(m));
    }
    v
  }

  /**
   * The record that is last to carry its code has an option, and that option
   * carries the record's translation.
   */
  lemma VocabularyLastSeen(data: seq<Record>, cat: Category, i: nat)
    requires IsLast(data, cat, |data|, i)
    ensures exists k :: 0 <= k < |Vocabulary(data, cat)| && Vocabulary(data, cat)[k].code == TextOr(CodeOf(data[i], cat))
    ensures forall k :: 0 <= k < |Vocabulary(data, cat)| && Vocabulary(data, cat)[k].code == TextOr(CodeOf(data[i], cat)) ==>
      Vocabulary(data, cat)[k].translation == TextOr(TranslationOf(data[i], cat))
  {
    var v := Vocabulary(data, cat);
    var code := TextOr(CodeOf(data[i], cat));
    var m := Collect(data, cat, |data|);
    assert Carries(data, cat, |data|, code);
    assert code in Codes(v);
    var k :| 0 <= k < |Codes(v)| && Codes(v)[k] == code;
    assert v[k].code == code;
    CollectLastSeen(data, cat, |data|, i);
    forall k | 0 <= k < |v| && v[k].code == code
      ensures v[k].translation == TextOr(TranslationOf(data[i], cat))
    {
      assert v[k].translation == TextOr(Get(m, code));
    }
  }

  /**
   * Every option belongs to the record that is last to carry its code, and
   * carries that record's translation.
   */
  lemma VocabularyOptionLastSeen(data: seq<Record>, cat: Category, k: nat)
    requires k < |Vocabulary(data, cat)|
    ensures exists i ::
      && IsLast(data, cat, |data|, i)
      && TextOr(CodeOf(data[i], cat)) == Vocabulary(data, cat)[k].code
      && Vocabulary(data, cat)[k].translation == TextOr(TranslationOf(data[i], cat))
  {
    var v := Vocabulary(data, cat);
    assert Codes(v)[k] == v[k].code;
    LastCarrier(data, cat, |data|, v[k].code);
    var i :| IsLast(data, cat, |data|, i) && TextOr(CodeOf(data[i], cat)) == v[k].code;
    VocabularyLastSeen(data, cat, i);
  }
}
