/**
 * Steps 6 and 7 of `main` (rpt.py:236-252): the dialogue texts of all
 * scripts are reduced to their non-empty first occurrences, and each one
 * becomes a three-line record of the `.rpt` template.
 */
module Template {
  import opened Wrappers
  import opened Text
  import opened Escape
  import opened Unique

  /** The texts that are not empty, in order (`if t` at rpt.py:239). */
  function NonEmpty(xs: seq<string>): (r: seq<string>)
    ensures forall x :: x in r <==> x in xs && x != []
    decreases |xs|
  {
    if xs == [] then []
    else
      var init := xs[..|xs| - 1];
      var x := xs[|xs| - 1];
      assert xs == init + [x];
      NonEmpty(init) + (if x == [] then [] else [x])
  }

  /**
   * The unique-text loop: walk the texts once, remembering in `seen` what is
   * already listed, and append each non-empty text not seen before.
   */
  method UniqueTexts(all: seq<string>) returns (unique: seq<string>)
    ensures unique == FirstOccurrences(NonEmpty(all))
    ensures NoDuplicates(unique)
    ensures forall t :: t in unique <==> t in all && t != []
  {
    var seen: set<string> := {};
    unique := [];
    for k := 0 to |all|
      invariant unique == FirstOccurrences(NonEmpty(all[..k]))
      invariant forall t :: t in seen <==> t in unique
    {
      var t := all[k];
      assert all[..k + 1] == all[..k] + [t];
      assert all[..k + 1][..k] == all[..k];
      assert NonEmpty(all[..k + 1]) == NonEmpty(all[..k]) + (if t == [] then [] else [t]);
      if t != [] {
        FirstOccurrencesSnoc(NonEmpty(all[..k]), t);
        if t !in seen {
          seen := seen + {t};
          unique := unique + [t];
        }
      } else {
        assert NonEmpty(all[..k + 1]) == NonEmpty(all[..k]);
      }
    }
    assert all[..|all|] == all;
  }

  /** The order of the unique texts is the order in which they first occur among the non-empty texts. */
  lemma UniqueTextsOrder(all: seq<string>, a: nat, b: nat)
    requires a < b < |FirstOccurrences(NonEmpty(all))|
    ensures FirstIndex(NonEmpty(all), FirstOccurrences(NonEmpty(all))[a])
            < FirstIndex(NonEmpty(all), FirstOccurrences(NonEmpty(all))[b])
  {
    FirstOccurrencesOrder(NonEmpty(all), a, b);
  }

  /** The source line of a record: `< ` and the quoted text. */
  function SourceLine(t: string): (r: string)
    ensures '\n' !in r
  {
    "< " + Quote(t)
  }

  /** The translation line of a record: `> ` and the quoted text when the template is filled, else nothing. */
  function TranslationLine(t: string, fill: bool): (r: string)
    ensures '\n' !in r
  {
    "> " + (if fill then Quote(t) else "")
  }

  /** The text follows the two-character marker and reads back unchanged. */
  lemma SourceLineRoundTrip(t: string)
    ensures Unquote(SourceLine(t)[2..]) == Some(t)
  {
    assert SourceLine(t)[2..] == Quote(t);
    UnquoteQuote(t);
  }

  /** A filled translation line reads back as the text, an empty one as nothing. */
  lemma TranslationLineRoundTrip(t: string, fill: bool)
    ensures Unquote(TranslationLine(t, fill)[2..]) == Some(if fill then t else "")
  {
    if fill {
      assert TranslationLine(t, fill)[2..] == Quote(t);
      UnquoteQuote(t);
    } else {
      assert TranslationLine(t, fill)[2..] == "";
    }
  }

  /**
   * The record writer (rpt.py:247-252): for each text its source line, its
   * translation line and an empty line. Lines are given without their
   * CRLF terminators, which the writer appends to each.
   */
  method WriteRecords(texts: seq<string>, fill: bool) returns (lines: seq<string>)
    ensures |lines| == 3 * |texts|
    ensures forall k :: 0 <= k < |texts| ==>
              lines[3 * k] == SourceLine(texts[k])
              && lines[3 * k + 1] == TranslationLine(texts[k], fill)
              && lines[3 * k + 2] == []
  {
    lines := [];
    for k := 0 to |texts|
      invariant |lines| == 3 * k
      invariant forall m :: 0 <= m < k ==>
                  lines[3 * m] == SourceLine(texts[m])
                  && lines[3 * m + 1] == TranslationLine(texts[m], fill)
                  && lines[3 * m + 2] == []
    {
      RecordsStep(lines, texts, fill, k);
      lines := lines + [SourceLine(texts[k]), TranslationLine(texts[k], fill), ""];
    }
  }

  /** Appending the record of `texts[k]` to the records of the texts before it. */
  lemma RecordsStep(lines: seq<string>, texts: seq<string>, fill: bool, k: nat)
    requires k < |texts| && |lines| == 3 * k
    requires forall m :: 0 <= m < k ==>
               lines[3 * m] == SourceLine(texts[m])
               && lines[3 * m + 1] == TranslationLine(texts[m], fill)
               && lines[3 * m + 2] == []
    ensures forall m :: 0 <= m < k + 1 ==>
              (lines + [SourceLine(texts[k]), TranslationLine(texts[k], fill), ""])[3 * m] == SourceLine(texts[m])
              && (lines + [SourceLine(texts[k]), TranslationLine(texts[k], fill), ""])[3 * m + 1] == TranslationLine(texts[m], fill)
              && (lines + [SourceLine(texts[k]), TranslationLine(texts[k], fill), ""])[3 * m + 2] == []
  {
    var next := lines + [SourceLine(texts[k]), TranslationLine(texts[k], fill), ""];
    forall m | 0 <= m < k + 1
      ensures next[3 * m] == SourceLine(texts[m])
      ensures next[3 * m + 1] == TranslationLine(texts[m], fill)
      ensures next[3 * m + 2] == []
    {
      if m < k {
        assert next[3 * m] == lines[3 * m] && next[3 * m + 1] == lines[3 * m + 1] && next[3 * m + 2] == lines[3 * m + 2];
      }
    }
  }

  /** A filled template translates every text as itself. */
  lemma FilledTranslationEqualsSource(t: string)
    ensures StartsWith(TranslationLine(t, true), ">")
    ensures TranslationLine(t, true)[2..] == SourceLine(t)[2..]
  {
  }

  /** Distinct texts get distinct source lines. */
  lemma SourceLinesDistinct(a: string, b: string)
    requires a != b
    ensures SourceLine(a) != SourceLine(b)
  {
    if SourceLine(a) == SourceLine(b) {
      assert Quote(a) == SourceLine(a)[2..] == SourceLine(b)[2..] == Quote(b);
      QuoteInjective(a, b);
    }
  }
}
