/**
 * The two recognisers of rpt.py: `extract_dialogues` (rpt.py:51-72), which
 * collects dialogue lines, triple-quoted dialogue blocks and menu choices
 * from one script, and `extract_screen_texts` (rpt.py:74-83), which collects
 * the captions of `label _("...")` and `textbutton _("...")`.
 */
module Dialogue {
  import opened Wrappers
  import opened Text
  import opened Recognizers

  // ------------------------------------------------- multi-line post-processing

  /** Every line break of `s` is a newline. */
  predicate OnlyNewlineBreaks(s: string) {
    forall i :: 0 <= i < |s| && IsLineBreak(s[i]) ==> s[i] == '\n'
  }

  /** No line of `s` ends in whitespace: what precedes a newline is a newline or visible. */
  predicate LinesRightStripped(s: string) {
    forall i :: 0 < i < |s| && s[i] == '\n' ==> s[i - 1] == '\n' || !IsSpace(s[i - 1])
  }

  /**
   * The body of a triple-quoted block (rpt.py:64-65): split into lines,
   * right-strip each, join them with newlines, strip the whole.
   */
  function NormalizeBlock(raw: string): (r: string)
    ensures Strip(r) == r
    ensures OnlyNewlineBreaks(r) && LinesRightStripped(r)
  {
    JoinedBlockShape(SplitLines(raw));
    Strip(Join("\n", RStripEach(SplitLines(raw))))
  }

  lemma {:induction false} JoinStrippedLines(lines: seq<string>)
    requires forall k, j :: 0 <= k < |lines| && 0 <= j < |lines[k]| ==> !IsLineBreak(lines[k][j])
    requires forall k :: 0 <= k < |lines| && lines[k] != [] ==> !IsSpace(lines[k][|lines[k]| - 1])
    ensures OnlyNewlineBreaks(Join("\n", lines)) && LinesRightStripped(Join("\n", lines))
  {
    if |lines| > 1 {
      var head := lines[0];
      var rest := Join("\n", lines[1..]);
      JoinStrippedLines(lines[1..]);
      var j := Join("\n", lines);
      assert j == head + "\n" + rest;
      forall i | 0 <= i < |j| && IsLineBreak(j[i]) ensures j[i] == '\n' {
        if i > |head| {
          assert j[i] == rest[i - |head| - 1];
        }
      }
      forall i | 0 < i < |j| && j[i] == '\n' ensures j[i - 1] == '\n' || !IsSpace(j[i - 1]) {
        if i == |head| {
          assert j[i - 1] == head[|head| - 1];
        } else if i > |head| + 1 {
          assert j[i] == rest[i - |head| - 1] && j[i - 1] == rest[i - |head| - 2];
        }
      }
    }
  }

  /**
   * Lines without breaks, right-stripped, joined and stripped: no surrounding
   * whitespace, no line ending in whitespace, no line break but a newline.
   */
  lemma JoinedBlockShape(split: seq<string>)
    requires forall k, j :: 0 <= k < |split| && 0 <= j < |split[k]| ==> !IsLineBreak(split[k][j])
    ensures var r := Strip(Join("\n", RStripEach(split)));
            Strip(r) == r && OnlyNewlineBreaks(r) && LinesRightStripped(r)
  {
    var lines := RStripEach(split);
    forall k | 0 <= k < |lines|
      ensures lines[k] == split[k][..|lines[k]|]
      ensures lines[k] != [] ==> !IsSpace(lines[k][|lines[k]| - 1])
    {
      RStripSpec(split[k]);
    }
    var j := Join("\n", lines);
    JoinStrippedLines(lines);
    var r := Strip(j);
    var a := StripSlice(j);
    StripIdempotent(j);
    forall i | 0 <= i < |r| && IsLineBreak(r[i]) ensures r[i] == '\n' {
      assert r[i] == j[a + i];
    }
    forall i | 0 < i < |r| && r[i] == '\n' ensures r[i - 1] == '\n' || !IsSpace(r[i - 1]) {
      assert r[i] == j[a + i] && r[i - 1] == j[a + i - 1];
    }
  }

  /** A block with a single internal line is just that line, stripped: no newline is added. */
  lemma NormalizeSingleLine(raw: string)
    requires forall k :: 0 <= k < |raw| ==> !IsLineBreak(raw[k])
    ensures NormalizeBlock(raw) == Strip(raw)
  {
    if raw != [] {
      SplitLinesSingle(raw);
      assert RStripEach([raw]) == [RStrip(raw)];
      StripAfterRStrip(raw);
    }
  }

  // ------------------------------------------------- extract_dialogues

  /**
   * Single-line dialogue (rpt.py:58-60): decode each literal body, then
   * strip it. `decode` gives None where the codec raises, and then the
   * whole list is None: the exception ends `extract_dialogues`.
   */
  function DecodedTexts(ms: seq<Match>, decode: string -> Option<string>): (r: Option<seq<string>>)
    ensures r.Some? <==> forall k :: 0 <= k < |ms| ==> decode(ms[k].capture).Some?
    ensures r.Some? ==> |r.value| == |ms|
    ensures r.Some? ==> forall k :: 0 <= k < |ms| ==> r.value[k] == Strip(decode(ms[k].capture).value)
    ensures r.Some? ==> forall k :: 0 <= k < |ms| ==> Strip(r.value[k]) == r.value[k]
  {
    if ms == [] then Some([])
    else
      var init, last := ms[..|ms| - 1], ms[|ms| - 1];
      assert forall k :: 0 <= k < |init| ==> init[k] == ms[k];
      match DecodedTexts(init, decode)
      case None => None
      case Some(ts) =>
        match decode(last.capture)
        case None => None
        case Some(raw) =>
          StripIdempotent(raw);
          Some(ts + [Strip(raw)])
  }

  /** Triple-quoted dialogue (rpt.py:62-65): normalise each block body. */
  function BlockTexts(ms: seq<Match>): (r: seq<string>)
    ensures |r| == |ms|
    ensures forall k :: 0 <= k < |ms| ==> r[k] == NormalizeBlock(ms[k].capture)
    ensures forall k :: 0 <= k < |r| ==> Strip(r[k]) == r[k]
  {
    if ms == [] then []
    else
      BlockTexts(ms[..|ms| - 1]) + [NormalizeBlock(ms[|ms| - 1].capture)]
  }

  /** Menu choices (rpt.py:67-70): strip each caption. */
  function StrippedTexts(ms: seq<Match>): (r: seq<string>)
    ensures |r| == |ms|
    ensures forall k :: 0 <= k < |ms| ==> r[k] == Strip(ms[k].capture)
    ensures forall k :: 0 <= k < |r| ==> Strip(r[k]) == r[k]
  {
    if ms == [] then []
    else
      StripIdempotent(ms[|ms| - 1].capture);
      StrippedTexts(ms[..|ms| - 1]) + [Strip(ms[|ms| - 1].capture)]
  }

  /** The loop of rpt.py:58-60: append each decoded, stripped body; stop with None at a body the codec rejects. */
  method AppendDecoded(acc: seq<string>, singles: seq<Match>, decode: string -> Option<string>)
    returns (dialogues: Option<seq<string>>)
    ensures dialogues.Some? <==> DecodedTexts(singles, decode).Some?
    ensures dialogues.Some? ==> dialogues.value == acc + DecodedTexts(singles, decode).value
  {
    var ds := acc;
    for k := 0 to |singles|
      invariant DecodedTexts(singles[..k], decode).Some?
      invariant ds == acc + DecodedTexts(singles[..k], decode).value
    {
      var raw := decode(singles[k].capture);
      assert singles[..k + 1][..k] == singles[..k];
      if raw.None? {
        return None;
      }
      ds := ds + [Strip(raw.value)];
    }
    assert singles[..|singles|] == singles;
    return Some(ds);
  }

  /** The loop of rpt.py:62-65: append each normalised block. */
  method AppendBlocks(acc: seq<string>, multis: seq<Match>) returns (dialogues: seq<string>)
    ensures dialogues == acc + BlockTexts(multis)
  {
    dialogues := acc;
    for k := 0 to |multis|
      invariant dialogues == acc + BlockTexts(multis[..k])
    {
      var raw := multis[k].capture;
      assert multis[..k + 1][..k] == multis[..k];
      dialogues := dialogues + [NormalizeBlock(raw)];
    }
    assert multis[..|multis|] == multis;
  }

  /** The loop of rpt.py:68-70: append each stripped menu caption. */
  method AppendChoices(acc: seq<string>, menus: seq<Match>) returns (dialogues: seq<string>)
    ensures dialogues == acc + StrippedTexts(menus)
  {
    dialogues := acc;
    for k := 0 to |menus|
      invariant dialogues == acc + StrippedTexts(menus[..k])
    {
      var choice := Strip(menus[k].capture);
      assert menus[..k + 1][..k] == menus[..k];
      dialogues := dialogues + [choice];
    }
    assert menus[..|menus|] == menus;
  }

  /**
   * What `extract_dialogues` returns for one script: the single-line
   * dialogue, then the triple-quoted blocks, then the menu choices, each
   * group in document order, every text stripped; None when the codec
   * rejects some single-line body.
   */
  function Dialogues(content: string, names: seq<string>, decode: string -> Option<string>): (r: Option<seq<string>>)
    ensures r.None? <==> exists m :: m in FindAll(SingleLine(names), content) && decode(m.capture).None?
    ensures r.Some? ==> forall k :: 0 <= k < |r.value| ==> Strip(r.value[k]) == r.value[k]
  {
    var ms := FindAll(SingleLine(names), content);
    match DecodedTexts(ms, decode)
    case None =>
      var k :| 0 <= k < |ms| && decode(ms[k].capture).None?;
      assert ms[k] in ms;
      None
    case Some(singles) =>
      var multis := BlockTexts(FindAll(MultiLine(names), content));
      var menus := StrippedTexts(FindAll(MenuChoice, content));
      StrippedJoin(singles, multis, menus);
      Some(singles + multis + menus)
  }

  /** Three lists of stripped texts, one after the other, are stripped texts. */
  lemma StrippedJoin(a: seq<string>, b: seq<string>, c: seq<string>)
    requires forall k :: 0 <= k < |a| ==> Strip(a[k]) == a[k]
    requires forall k :: 0 <= k < |b| ==> Strip(b[k]) == b[k]
    requires forall k :: 0 <= k < |c| ==> Strip(c[k]) == c[k]
    ensures forall k :: 0 <= k < |a + b + c| ==> Strip((a + b + c)[k]) == (a + b + c)[k]
  {
    forall k | 0 <= k < |a + b + c| ensures Strip((a + b + c)[k]) == (a + b + c)[k] {
      if k >= |a + b| {
        assert (a + b + c)[k] == c[k - |a + b|];
      } else if k >= |a| {
        assert (a + b + c)[k] == b[k - |a|];
      }
    }
  }

  /**
   * `extract_dialogues` on the text of one script: every single-line
   * dialogue, then every triple-quoted block, then every menu choice, each
   * group in document order. `decode` stands for Python's `unicode_escape`
   * codec, with None where it raises. The names are those found by
   * `gather_char_names`: at least one, each an identifier.
   */
  method ExtractDialogues(content: string, names: seq<string>, decode: string -> Option<string>)
    returns (dialogues: Option<seq<string>>)
    requires names != [] && forall k :: 0 <= k < |names| ==> IsIdentifier(names[k])
    ensures dialogues.Some? <==> DecodedTexts(FindAll(SingleLine(names), content), decode).Some?
    ensures dialogues.Some? ==>
              dialogues.value == DecodedTexts(FindAll(SingleLine(names), content), decode).value
                                 + BlockTexts(FindAll(MultiLine(names), content))
                                 + StrippedTexts(FindAll(MenuChoice, content))
    ensures dialogues == Dialogues(content, names, decode)
  {
    var singles := FindAll(SingleLine(names), content);
    var multis := FindAll(MultiLine(names), content);
    var menus := FindAll(MenuChoice, content);
    var decoded := AppendDecoded([], singles, decode);
    if decoded.None? {
      return None;
    }
    assert decoded.value == DecodedTexts(singles, decode).value;
    var ds := AppendBlocks(decoded.value, multis);
    ds := AppendChoices(ds, menus);
    return Some(ds);
  }

  // ------------------------------------------------- extract_screen_texts

  /** `extract_screen_texts` on the text of `screens.rpy`: the captions in document order. */
  function ExtractScreenTexts(content: string): (texts: seq<string>)
    ensures forall k :: 0 <= k < |texts| ==> texts[k] != [] && '"' !in texts[k]
  {
    var ms := FindAll(ScreenText, content);
    FindAllHits(ScreenText, content);
    assert forall k :: 0 <= k < |ms| ==> MatchScreen(content, ms[k].start) == Some(Hit(ms[k].from, ms[k].end, ms[k].capture));
    Captures(ms)
  }
}
