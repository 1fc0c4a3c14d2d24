/**
 * Hand-written scanners for the five regular expressions of rpt.py and for
 * `finditer` over them. Each pattern is deterministic under backtracking
 * (every greedy run is followed by a character outside its class), so a
 * scanner that takes the longest run and never backs up finds exactly the
 * match the regular-expression engine finds:
 *
 *   CharDefine   `^\s*(?:\$|define)\s+(?P<short>\w+)\s*=\s*Character\(`   (rpt.py:9-12)
 *   SingleLine   `^\s*(?P<char>N1|N2|...)\s+"(?P<text>(?:[^"\\]|\\.)*)"`     (rpt.py:41-44)
 *   MultiLine    `^\s*(?P<char>N1|N2|...)\s+"""\s*\n(?P<text>.*?)\s*"""`     (rpt.py:45-48)
 *   MenuChoice   `^\s*"([^"]+)"\s*:`                                          (rpt.py:67)
 *   ScreenText   `(label|textbutton)\s+_\("([^"]+)"\)`                        (rpt.py:82)
 *
 * `^` is the MULTILINE anchor (start of text or after a newline), `\s` may
 * cross lines, and `.` in MultiLine also matches newlines (DOTALL).
 */
module Recognizers {
  import opened Wrappers
  import opened Text

  /** A successful match attempt: where its group starts, where the match ends, what the group captured. */
  datatype Hit = Hit(from: nat, end: nat, capture: string)

  /** One match found by `finditer`: where it starts, then as for Hit. */
  datatype Match = Match(start: nat, from: nat, end: nat, capture: string)

  datatype Recognizer =
    | CharDefine
    | SingleLine(names: seq<string>)
    | MultiLine(names: seq<string>)
    | MenuChoice
    | ScreenText

  const TripleQuote := "\"\"\""

  /** The end of the longest run of whitespace starting at `p`. */
  function SkipSpaces(text: string, p: nat): (q: nat)
    requires p <= |text|
    ensures p <= q <= |text|
    ensures forall k :: p <= k < q ==> IsSpace(text[k])
    ensures q == |text| || !IsSpace(text[q])
    decreases |text| - p
  {
    if p == |text| || !IsSpace(text[p]) then p else SkipSpaces(text, p + 1)
  }

  /** The end of the longest run of word characters starting at `p`. */
  function SkipWord(text: string, p: nat): (q: nat)
    requires p <= |text|
    ensures p <= q <= |text|
    ensures forall k :: p <= k < q ==> IsWordChar(text[k])
    ensures q == |text| || !IsWordChar(text[q])
    decreases |text| - p
  {
    if p == |text| || !IsWordChar(text[p]) then p else SkipWord(text, p + 1)
  }

  /**
   * A match attempted at `p` ends after `p`, inside the text, and its group is
   * the slice of the text at `from`, inside the match.
   */
  predicate Placed(text: string, p: nat, h: Hit) {
    p <= h.from && h.from + |h.capture| <= h.end <= |text| && p < h.end
    && text[h.from..h.from + |h.capture|] == h.capture
  }

  /** Where the MULTILINE anchor `^` matches. */
  predicate LineStart(text: string, p: nat) {
    p == 0 || (0 < p <= |text| && text[p - 1] == '\n')
  }

  /** The literal `lit` occurs in `text` at `p`. */
  predicate HasAt(text: string, p: nat, lit: string) {
    p + |lit| <= |text| && text[p..p + |lit|] == lit
  }

  /** The first `ch` at or after `i`. */
  function FindChar(text: string, i: nat, ch: char): (r: Option<nat>)
    requires i <= |text|
    ensures r.Some? ==> i <= r.value < |text| && text[r.value] == ch
    ensures r.Some? ==> forall k :: i <= k < r.value ==> text[k] != ch
    ensures r.None? ==> forall k :: i <= k < |text| ==> text[k] != ch
    decreases |text| - i
  {
    if i == |text| then None
    else if text[i] == ch then Some(i)
    else FindChar(text, i + 1, ch)
  }

  // ---------------------------------------------------------------- CharDefine

  /** An attempt of the character-definition pattern at `p`; captures the short name. */
  function MatchDefine(text: string, p: nat): (h: Option<Hit>)
    requires p <= |text|
    ensures h.Some? ==> LineStart(text, p) && Placed(text, p, h.value)
    ensures h.Some? ==> IsIdentifier(h.value.capture)
    ensures h.Some? ==> 10 <= h.value.end && HasAt(text, h.value.end - 10, "Character(")
  {
    if !LineStart(text, p) then None
    else
      var q := SkipSpaces(text, p);
      var k := if HasAt(text, q, "$") then q + 1 else if HasAt(text, q, "define") then q + 6 else q;
      if k == q then None
      else
        var w := SkipSpaces(text, k);
        if w == k then None else DefineTail(text, w)
  }

  /** `(\w+)\s*=\s*Character\(` at `w`, the part of the pattern after the keyword and its spaces. */
  function DefineTail(text: string, w: nat): (h: Option<Hit>)
    requires w <= |text|
    ensures h.Some? ==> h.value.from == w && Placed(text, w, h.value)
    ensures h.Some? ==> IsIdentifier(h.value.capture)
    ensures h.Some? ==> 10 <= h.value.end && HasAt(text, h.value.end - 10, "Character(")
  {
    var n := SkipWord(text, w);
    if n == w then None
    else
      var a := SkipSpaces(text, n);
      if !HasAt(text, a, "=") then None
      else
        var b := SkipSpaces(text, a + 1);
        if !HasAt(text, b, "Character(") then None
        else Some(Hit(w, b + 10, text[w..n]))
  }

  // ---------------------------------------------------------------- SingleLine

  /** What `(?:[^"\\]|\\.)*` matches in full: no bare quote, every backslash escapes a non-newline. */
  predicate IsLiteralBody(s: string)
    decreases |s|
  {
    s == []
    || (s[0] != '"' && s[0] != '\\' && IsLiteralBody(s[1..]))
    || (s[0] == '\\' && |s| >= 2 && s[1] != '\n' && IsLiteralBody(s[2..]))
  }

  /** The position of the quote that closes a string literal whose body starts at `b`. */
  function LiteralEnd(text: string, b: nat): (e: Option<nat>)
    requires b <= |text|
    ensures e.Some? ==> b <= e.value < |text| && text[e.value] == '"'
    ensures e.Some? ==> IsLiteralBody(text[b..e.value])
    decreases |text| - b
  {
    if b == |text| then None
    else if text[b] == '"' then Some(b)
    else if text[b] == '\\' then
      if b + 1 < |text| && text[b + 1] != '\n' then
        var e := LiteralEnd(text, b + 2);
        if e.Some? then
          assert text[b..e.value][2..] == text[b + 2..e.value];
          e
        else None
      else None
    else
      var e := LiteralEnd(text, b + 1);
      if e.Some? then
        assert text[b..e.value][1..] == text[b + 1..e.value];
        e
      else None
  }

  /**
   * `"(?:[^"\\]|\\.)*"` finds the first unescaped quote: whenever a quote at
   * `e` closes a literal body starting at `b`, that is the quote found.
   */
  lemma {:induction false} LiteralEndComplete(text: string, b: nat, e: nat)
    requires b <= e < |text| && text[e] == '"' && IsLiteralBody(text[b..e])
    ensures LiteralEnd(text, b) == Some(e)
    decreases e - b
  {
    if b < e {
      var s := text[b..e];
      assert s[0] == text[b];
      if text[b] == '\\' {
        assert s[1] == text[b + 1] && s[2..] == text[b + 2..e];
        LiteralEndComplete(text, b + 2, e);
      } else {
        assert s[1..] == text[b + 1..e];
        LiteralEndComplete(text, b + 1, e);
      }
    }
  }

  /** The part of SingleLine after the speaker's name: `\s+"(...)"`. */
  function SingleTail(text: string, a: nat): (h: Option<Hit>)
    requires a <= |text|
    ensures h.Some? ==> Placed(text, a, h.value) && IsLiteralBody(h.value.capture)
    ensures h.Some? ==> a < h.value.from - 1 && text[h.value.from - 1] == '"'
                        && forall k :: a <= k < h.value.from - 1 ==> IsSpace(text[k])
    ensures h.Some? ==> h.value.end == h.value.from + |h.value.capture| + 1 && text[h.value.end - 1] == '"'
  {
    var w := SkipSpaces(text, a);
    if w == a || !HasAt(text, w, "\"") then None
    else
      match LiteralEnd(text, w + 1)
      case None => None
      case Some(e) => Some(Hit(w + 1, e + 1, text[w + 1..e]))
  }

  // ---------------------------------------------------------------- MultiLine

  /** The position just after the last newline in `text[o..z]`. */
  function LastNewline(text: string, o: nat, z: nat): (s: Option<nat>)
    requires o <= z <= |text|
    ensures s.Some? ==> o < s.value <= z && text[s.value - 1] == '\n'
    ensures s.Some? ==> forall k :: s.value <= k < z ==> text[k] != '\n'
    ensures s.None? ==> forall k :: o <= k < z ==> text[k] != '\n'
    decreases z - o
  {
    if z == o then None
    else if text[z - 1] == '\n' then Some(z)
    else LastNewline(text, o, z - 1)
  }

  /** Where `\s*"""` can follow. */
  predicate ClosesAt(text: string, x: nat)
    requires x <= |text|
  {
    HasAt(text, SkipSpaces(text, x), TripleQuote)
  }

  /** The lazy `.*?`: the first position at or after `x` where `\s*"""` follows. */
  function LazyClose(text: string, x: nat): (y: Option<nat>)
    requires x <= |text|
    ensures y.Some? ==> x <= y.value <= |text| && ClosesAt(text, y.value)
    ensures y.Some? ==> forall z :: x <= z < y.value ==> !ClosesAt(text, z)
    ensures y.None? ==> forall z :: x <= z <= |text| ==> !ClosesAt(text, z)
    decreases |text| - x
  {
    if ClosesAt(text, x) then Some(x)
    else if x == |text| then None
    else LazyClose(text, x + 1)
  }

  /** The part of MultiLine after the speaker's name: `\s+"""\s*\n(.*?)\s*"""`. */
  function MultiTail(text: string, a: nat): (h: Option<Hit>)
    requires a <= |text|
    ensures h.Some? ==> Placed(text, a, h.value)
    ensures h.Some? <==> MultiOpening(text, a).Some? && MultiBody(text, MultiOpening(text, a).value).Some?
    ensures h.Some? ==> h == MultiBody(text, MultiOpening(text, a).value)
  {
    match MultiOpening(text, a)
    case None => None
    case Some(s) => MultiBody(text, s)
  }

  /** `\s+"""\s*\n` from `a`: where the body of a multi-line dialogue starts. */
  function MultiOpening(text: string, a: nat): (s: Option<nat>)
    requires a <= |text|
    ensures s.Some? ==> SkipSpaces(text, a) + 3 < s.value <= |text| && text[s.value - 1] == '\n'
    ensures s.Some? ==> a < SkipSpaces(text, a) && HasAt(text, SkipSpaces(text, a), TripleQuote)
    ensures s.Some? ==> s == LineBreakAfter(text, SkipSpaces(text, a) + 3)
  {
    var w := SkipSpaces(text, a);
    if w == a || !HasAt(text, w, TripleQuote) then None
    else LineBreakAfter(text, w + 3)
  }

  /** `\s*\n` from `o` with backtracking: just after the last newline of the whitespace run at `o`. */
  function LineBreakAfter(text: string, o: nat): (s: Option<nat>)
    requires o <= |text|
    ensures s.Some? ==> o < s.value <= |text| && text[s.value - 1] == '\n'
    ensures s.Some? ==> forall k :: o <= k < s.value - 1 ==> IsSpace(text[k])
    ensures s.Some? ==> forall k :: s.value <= k < SkipSpaces(text, o) ==> text[k] != '\n'
  {
    LastNewline(text, o, SkipSpaces(text, o))
  }

  /** `(.*?)\s*"""` from `s`: the shortest body after which the closing quotes follow. */
  function MultiBody(text: string, s: nat): (h: Option<Hit>)
    requires s <= |text|
    ensures h.Some? ==> h.value.from == s && Placed(text, s, h.value)
    ensures h.Some? ==> ClosesAt(text, s + |h.value.capture|)
    ensures h.Some? ==> forall z :: s <= z < s + |h.value.capture| ==> !ClosesAt(text, z)
    ensures h.Some? ==> h.value.end == SkipSpaces(text, s + |h.value.capture|) + 3
  {
    match LazyClose(text, s)
    case None => None
    case Some(x) =>
      var body := text[s..x];
      assert s + |body| == x;
      Some(Hit(s, SkipSpaces(text, x) + 3, body))
  }

  // ---------------------------------------------------------------- speakers

  /** The tail of a single-line (`multi` false) or multi-line dialogue pattern. */
  function DialogueTail(multi: bool, text: string, a: nat): (h: Option<Hit>)
    requires a <= |text|
    ensures h.Some? ==> Placed(text, a, h.value)
    ensures h.Some? && !multi ==> IsLiteralBody(h.value.capture) && text[h.value.end - 1] == '"'
  {
    if multi then MultiTail(text, a) else SingleTail(text, a)
  }

  /** `name` can open the dialogue at `q`: it occurs there and the rest of the pattern matches after it. */
  predicate SpeaksAt(multi: bool, text: string, q: nat, name: string)
    requires q <= |text|
  {
    HasAt(text, q, name) && DialogueTail(multi, text, q + |name|).Some?
  }

  /**
   * The alternation `N1|N2|...` tries the names in list order from `i`: the
   * index of the first name that can open the dialogue, or `|names|`.
   */
  function FirstSpeaker(multi: bool, text: string, q: nat, names: seq<string>, i: nat): (k: nat)
    requires q <= |text| && i <= |names|
    ensures i <= k <= |names|
    ensures k < |names| ==> SpeaksAt(multi, text, q, names[k])
    ensures forall j :: i <= j < k ==> !SpeaksAt(multi, text, q, names[j])
    decreases |names| - i
  {
    if i == |names| || SpeaksAt(multi, text, q, names[i]) then i
    else FirstSpeaker(multi, text, q, names, i + 1)
  }

  /** The speaker and the rest of a dialogue pattern at `q`, for the first name that works. */
  function SpeakerMatch(multi: bool, text: string, q: nat, names: seq<string>): (h: Option<Hit>)
    requires q <= |text|
    ensures h.Some? ==> Placed(text, q, h.value)
    ensures h.None? <==> forall k :: 0 <= k < |names| ==> !SpeaksAt(multi, text, q, names[k])
  {
    var k := FirstSpeaker(multi, text, q, names, 0);
    if k == |names| then None else DialogueTail(multi, text, q + |names[k]|)
  }

  /**
   * SingleLine (`multi` false) or MultiLine at `p`: a match exactly when `p`
   * starts a line and, after the indentation, some name opens the dialogue.
   */
  function MatchDialogue(multi: bool, text: string, p: nat, names: seq<string>): (h: Option<Hit>)
    requires p <= |text|
    ensures h.Some? ==> LineStart(text, p) && Placed(text, p, h.value)
    ensures h.Some? <==> LineStart(text, p)
                         && exists k :: 0 <= k < |names| && SpeaksAt(multi, text, SkipSpaces(text, p), names[k])
  {
    if !LineStart(text, p) then None
    else SpeakerMatch(multi, text, SkipSpaces(text, p), names)
  }

  // ---------------------------------------------------------------- MenuChoice

  function MatchMenu(text: string, p: nat): (h: Option<Hit>)
    requires p <= |text|
    ensures h.Some? ==> LineStart(text, p) && Placed(text, p, h.value)
    ensures h.Some? ==> h.value.capture != [] && '"' !in h.value.capture
  {
    if !LineStart(text, p) then None
    else
      var q := SkipSpaces(text, p);
      if !HasAt(text, q, "\"") then None
      else
        match FindChar(text, q + 1, '"')
        case None => None
        case Some(b) =>
          if b == q + 1 then None
          else
            var c := SkipSpaces(text, b + 1);
            if HasAt(text, c, ":") then Some(Hit(q + 1, c + 1, text[q + 1..b])) else None
  }

  // ---------------------------------------------------------------- ScreenText

  function MatchScreen(text: string, p: nat): (h: Option<Hit>)
    requires p <= |text|
    ensures h.Some? ==> Placed(text, p, h.value)
    ensures h.Some? ==> h.value.capture != [] && '"' !in h.value.capture
  {
    var k := if HasAt(text, p, "label") then p + 5 else if HasAt(text, p, "textbutton") then p + 10 else p;
    if k == p then None
    else
      var w := SkipSpaces(text, k);
      if w == k || !HasAt(text, w, "_(\"") then None
      else
        match FindChar(text, w + 3, '"')
        case None => None
        case Some(b) =>
          if b == w + 3 || !HasAt(text, b, "\")") then None
          else Some(Hit(w + 3, b + 2, text[w + 3..b]))
  }

  // ---------------------------------------------------------------- finditer

  /** One attempt of the pattern at position `p`. */
  function MatchAt(r: Recognizer, text: string, p: nat): (h: Option<Hit>)
    requires p <= |text|
    ensures h.Some? ==> Placed(text, p, h.value)
  {
    match r
    case CharDefine => MatchDefine(text, p)
    case SingleLine(names) => MatchDialogue(false, text, p, names)
    case MultiLine(names) => MatchDialogue(true, text, p, names)
    case MenuChoice => MatchMenu(text, p)
    case ScreenText => MatchScreen(text, p)
  }

  /** An attempt of `r` at every position of `text`; no match can start at the very end. */
  function Attempts(r: Recognizer, text: string): (attempt: nat -> Option<Hit>)
  {
    (q: nat) => if q < |text| then MatchAt(r, text, q) else None
  }

  /** Every successful attempt before `n` ends after it starts and no later than `n`. */
  ghost predicate Advances(attempt: nat -> Option<Hit>, n: nat) {
    forall q: nat :: q < n && attempt(q).Some? ==> q < attempt(q).value.end <= n
  }

  lemma AttemptsAdvance(r: Recognizer, text: string)
    ensures Advances(Attempts(r, text), |text|)
  {
  }

  /**
   * `finditer` from `p`: try each position in turn; after a match, resume
   * where it ended. The matches come out in document order and do not overlap.
   */
  function FindFrom(attempt: nat -> Option<Hit>, n: nat, p: nat): (ms: seq<Match>)
    requires p <= n && Advances(attempt, n)
    ensures forall k :: 0 <= k < |ms| ==> p <= ms[k].start < ms[k].end <= n
    ensures forall k :: 0 <= k < |ms| - 1 ==> ms[k].end <= ms[k + 1].start
    decreases n - p
  {
    if p == n then []
    else
      var h := attempt(p);
      if h.Some? then
        var rest := FindFrom(attempt, n, h.value.end);
        var ms := [Match(p, h.value.from, h.value.end, h.value.capture)] + rest;
        assert forall k :: 1 <= k < |ms| ==> ms[k] == rest[k - 1];
        ms
      else FindFrom(attempt, n, p + 1)
  }

  /** Each reported match is what the pattern matches at its start. */
  lemma {:induction false} FindFromHits(attempt: nat -> Option<Hit>, n: nat, p: nat)
    requires p <= n && Advances(attempt, n)
    ensures forall k :: 0 <= k < |FindFrom(attempt, n, p)| ==>
              attempt(FindFrom(attempt, n, p)[k].start)
              == Some(Hit(FindFrom(attempt, n, p)[k].from, FindFrom(attempt, n, p)[k].end, FindFrom(attempt, n, p)[k].capture))
    decreases n - p
  {
    if p < n {
      var h := attempt(p);
      if h.Some? {
        FindFromHits(attempt, n, h.value.end);
        var rest := FindFrom(attempt, n, h.value.end);
        var ms := FindFrom(attempt, n, p);
        assert ms == [Match(p, h.value.from, h.value.end, h.value.capture)] + rest;
        assert forall k :: 1 <= k < |ms| ==> ms[k] == rest[k - 1];
      } else {
        FindFromHits(attempt, n, p + 1);
      }
    }
  }

  /**
   * `finditer` misses no match: every position where the pattern matches is
   * the start of a reported match or lies inside one (the non-overlapping rule).
   */
  lemma {:induction false} FindFromComplete(attempt: nat -> Option<Hit>, n: nat, p: nat, q: nat)
    requires p <= q < n && Advances(attempt, n) && attempt(q).Some?
    ensures exists k :: 0 <= k < |FindFrom(attempt, n, p)|
              && FindFrom(attempt, n, p)[k].start <= q < FindFrom(attempt, n, p)[k].end
    decreases n - p
  {
    var ms := FindFrom(attempt, n, p);
    var h := attempt(p);
    if h.Some? {
      var rest := FindFrom(attempt, n, h.value.end);
      assert ms == [Match(p, h.value.from, h.value.end, h.value.capture)] + rest;
      if q < h.value.end {
        assert ms[0].start <= q < ms[0].end;
      } else {
        FindFromComplete(attempt, n, h.value.end, q);
        var k :| 0 <= k < |rest| && rest[k].start <= q < rest[k].end;
        assert ms[k + 1] == rest[k];
      }
    } else {
      FindFromComplete(attempt, n, p + 1, q);
    }
  }

  /** `pattern.finditer(text)`: non-overlapping matches, in document order. */
  function FindAll(r: Recognizer, text: string): (ms: seq<Match>)
    ensures forall k :: 0 <= k < |ms| ==> ms[k].start < ms[k].end <= |text|
    ensures forall k :: 0 <= k < |ms| - 1 ==> ms[k].end <= ms[k + 1].start
  {
    AttemptsAdvance(r, text);
    FindFrom(Attempts(r, text), |text|, 0)
  }

  /** Each match `finditer` reports is the match of the pattern at its start. */
  lemma FindAllHits(r: Recognizer, text: string)
    ensures forall k :: 0 <= k < |FindAll(r, text)| ==>
              MatchAt(r, text, FindAll(r, text)[k].start)
              == Some(Hit(FindAll(r, text)[k].from, FindAll(r, text)[k].end, FindAll(r, text)[k].capture))
  {
    AttemptsAdvance(r, text);
    FindFromHits(Attempts(r, text), |text|, 0);
  }

  /** Every position where the pattern matches is covered by a match `finditer` reports. */
  lemma FindAllComplete(r: Recognizer, text: string, q: nat)
    requires q < |text| && MatchAt(r, text, q).Some?
    ensures exists k :: 0 <= k < |FindAll(r, text)| && FindAll(r, text)[k].start <= q < FindAll(r, text)[k].end
  {
    AttemptsAdvance(r, text);
    var ms := FindFrom(Attempts(r, text), |text|, 0);
    assert Attempts(r, text)(q).Some?;
    FindFromComplete(Attempts(r, text), |text|, 0, q);
    assert exists k :: 0 <= k < |ms| && ms[k].start <= q < ms[k].end;
    assert FindAll(r, text) == ms;
  }

  /** The captured groups of a list of matches, in order. */
  function Captures(ms: seq<Match>): (r: seq<string>)
    ensures |r| == |ms| && forall k :: 0 <= k < |ms| ==> r[k] == ms[k].capture
  {
    seq(|ms|, k requires 0 <= k < |ms| => ms[k].capture)
  }
}
