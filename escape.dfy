/**
 * The template escaper `quote` (rpt.py:14-20) and the decoding that a reader of
 * the template applies to undo it.
 */
module Escape {
  import opened Wrappers
  import opened Text

  /** `quote(s)`: double every backslash, then write every newline as backslash-n. */
  function Quote(s: string): (r: string)
    ensures '\n' !in r
  {
    ReplaceChar(ReplaceChar(s, '\\', "\\\\"), '\n', "\\n")
  }

  /** How `quote` writes one character. */
  function EscapeChar(c: char): (r: string)
  {
    if c == '\\' then "\\\\" else if c == '\n' then "\\n" else [c]
  }

  /** Character-by-character escaping: the reference the two-pass `quote` is checked against. */
  function EscapeEach(s: string): string
  {
    if s == [] then [] else EscapeChar(s[0]) + EscapeEach(s[1..])
  }

  /**
   * The two whole-string replacements act character by character: each
   * backslash becomes two backslashes, each newline becomes backslash-n, and
   * every other character is copied.
   */
  lemma {:induction false} QuoteIsCharwise(s: string)
    ensures Quote(s) == EscapeEach(s)
  {
    if s != [] {
      var first := if s[0] == '\\' then "\\\\" else [s[0]];
      var rest := ReplaceChar(s[1..], '\\', "\\\\");
      assert ReplaceChar(s, '\\', "\\\\") == first + rest;
      ReplaceCharConcat(first, rest, '\n', "\\n");
      assert ReplaceChar(first, '\n', "\\n") == EscapeChar(s[0]) by {
        if s[0] == '\\' {
          assert ReplaceChar(first, '\n', "\\n") == [first[0]] + ReplaceChar(first[1..], '\n', "\\n");
        } else if s[0] == '\n' {
          assert ReplaceChar(first, '\n', "\\n") == "\\n" + ReplaceChar(first[1..], '\n', "\\n");
        } else {
          assert ReplaceChar(first, '\n', "\\n") == first + ReplaceChar(first[1..], '\n', "\\n");
        }
      }
      QuoteIsCharwise(s[1..]);
    }
  }

  lemma {:induction false} EscapeEachConcat(a: string, b: string)
    ensures EscapeEach(a + b) == EscapeEach(a) + EscapeEach(b)
  {
    if a == [] {
      assert a + b == b;
    } else {
      assert (a + b)[1..] == a[1..] + b;
      EscapeEachConcat(a[1..], b);
    }
  }

  lemma {:induction false} EscapeEachLast(s: string)
    requires s != [] && s[|s| - 1] != '\n'
    ensures EscapeEach(s) != [] && EscapeEach(s)[|EscapeEach(s)| - 1] == s[|s| - 1]
    decreases |s|
  {
    var e := EscapeChar(s[0]);
    assert EscapeEach(s) == e + EscapeEach(s[1..]);
    if |s| == 1 {
      assert EscapeEach(s[1..]) == [];
    } else {
      EscapeEachLast(s[1..]);
    }
  }

  /** Unless it is a newline, the last character of a text is the last character of its quoted form. */
  lemma QuoteLast(s: string)
    requires s != [] && s[|s| - 1] != '\n'
    ensures Quote(s) != [] && Quote(s)[|Quote(s)| - 1] == s[|s| - 1]
  {
    QuoteIsCharwise(s);
    EscapeEachLast(s);
  }

  /** A text that ends visibly still ends visibly once quoted, so `rstrip` leaves its quoted form alone. */
  lemma QuoteEndsVisible(s: string)
    requires s != [] && !IsSpace(s[|s| - 1])
    ensures Quote(s) != [] && !IsSpace(Quote(s)[|Quote(s)| - 1])
  {
    QuoteLast(s);
  }

  /**
   * Decoding of a template payload, left to right: backslash-backslash gives a
   * backslash, backslash-n gives a newline; any other use of a backslash is
   * not something `quote` produces.
   */
  function Unquote(s: string): (r: Option<string>)
    decreases |s|
  {
    if s == [] then Some([])
    else if s[0] != '\\' then
      match Unquote(s[1..])
      case Some(t) => Some([s[0]] + t)
      case None => None
    else if |s| >= 2 && (s[1] == '\\' || s[1] == 'n') then
      match Unquote(s[2..])
      case Some(t) => Some([if s[1] == 'n' then '\n' else '\\'] + t)
      case None => None
    else None
  }

  /** Decoding recovers the original string: `quote` loses nothing. */
  lemma {:induction false} UnquoteQuote(s: string)
    ensures Unquote(Quote(s)) == Some(s)
  {
    QuoteIsCharwise(s);
    UnquoteEscapeEach(s);
  }

  lemma {:induction false} UnquoteEscapeEach(s: string)
    ensures Unquote(EscapeEach(s)) == Some(s)
  {
    if s != [] {
      var e := EscapeEach(s);
      UnquoteEscapeEach(s[1..]);
      assert e == EscapeChar(s[0]) + EscapeEach(s[1..]);
      if s[0] == '\\' || s[0] == '\n' {
        assert e[2..] == EscapeEach(s[1..]);
      } else {
        assert e[0] == s[0] && e[1..] == EscapeEach(s[1..]);
        assert Unquote(e) == Some([s[0]] + s[1..]);
      }
      assert [s[0]] + s[1..] == s;
    }
  }

  /** Distinct texts have distinct quoted forms. */
  lemma QuoteInjective(a: string, b: string)
    requires Quote(a) == Quote(b)
    ensures a == b
  {
    UnquoteQuote(a);
    UnquoteQuote(b);
  }
}
