/**
 * `deduplicate_rpt` (rpt.py:85-121) on the lines of a `.rpt` template as
 * `readlines` returns them. A record is a source line `< text`, normally
 * followed by a translation line `> text` and a blank line. The filter
 * keeps the first record for each source text and drops later records
 * with the same text, and it writes every kept line with each `\n`
 * replaced by `\r\n`.
 *
 * The specification below describes the result line by line: a line is
 * dropped exactly when it is a source line whose payload occurred before,
 * or when it belongs to the run of `>` and blank lines that follows such a
 * line. The loop's lookahead in the kept branch does not change which
 * lines survive.
 */
module Dedup {
  import opened Text

  /** `line.startswith("< ")`: the source line of a record. */
  predicate IsSource(l: string) {
    StartsWith(l, "< ")
  }

  /** What source lines are compared by: the text after `< `, right-stripped. */
  function Payload(l: string): (r: string)
    requires IsSource(l)
    ensures 2 + |r| <= |l| && (r == [] || !IsSpace(r[|r| - 1]))
  {
    RStripSpec(l[2..]);
    RStrip(l[2..])
  }

  /** The payload is the text after the marker with its trailing whitespace, and only that, cut off. */
  lemma PayloadDropsOnlySpaces(l: string)
    requires IsSource(l)
    ensures Payload(l) == l[2..2 + |Payload(l)|]
    ensures forall k :: 2 + |Payload(l)| <= k < |l| ==> IsSpace(l[k])
  {
    RStripSpec(l[2..]);
    forall k | 2 + |Payload(l)| <= k < |l| ensures IsSpace(l[k]) {
      assert l[k] == l[2..][k - 2];
    }
  }

  /** A line the skip loop passes over: it starts with `>` or is blank. */
  predicate IsTransOrBlank(l: string) {
    StartsWith(l, ">") || Strip(l) == []
  }

  /** Every emitted line has its `\n` written as `\r\n`. */
  function Norm(l: string): (r: string)
    ensures '\n' !in l ==> r == l
    ensures forall k :: 0 <= k < |r| && r[k] == '\n' ==> 0 < k && r[k - 1] == '\r'
  {
    CrlfOnly(l);
    ReplaceChar(l, '\n', "\r\n")
  }

  /** After the rewrite every newline is the end of a CRLF pair. */
  lemma {:induction false} CrlfOnly(l: string)
    ensures forall k :: 0 <= k < |ReplaceChar(l, '\n', "\r\n")| && ReplaceChar(l, '\n', "\r\n")[k] == '\n' ==>
              0 < k && ReplaceChar(l, '\n', "\r\n")[k - 1] == '\r'
  {
    if l != [] {
      var head := if l[0] == '\n' then "\r\n" else [l[0]];
      var tail := ReplaceChar(l[1..], '\n', "\r\n");
      CrlfOnly(l[1..]);
      var r := ReplaceChar(l, '\n', "\r\n");
      assert r == head + tail;
      forall k | 0 <= k < |r| && r[k] == '\n' ensures 0 < k && r[k - 1] == '\r' {
        if k < |head| {
          assert r[k] == head[k];
          if k == 1 {
            assert r[0] == head[0];
          }
        } else {
          assert r[k] == tail[k - |head|];
          if k > |head| {
            assert r[k - 1] == tail[k - |head| - 1];
          }
        }
      }
    }
  }

  function NormEach(ls: seq<string>): (r: seq<string>)
    ensures |r| == |ls| && forall k :: 0 <= k < |ls| ==> r[k] == Norm(ls[k])
  {
    seq(|ls|, k requires 0 <= k < |ls| => Norm(ls[k]))
  }

  lemma NormEachSnoc(ls: seq<string>, l: string)
    ensures NormEach(ls + [l]) == NormEach(ls) + [Norm(l)]
  {
    assert NormEach(ls + [l])[|ls|] == Norm(l);
  }

  /** The payloads of the source lines among the first `n` lines: the `seen` set. */
  function SeenPayloads(lines: seq<string>, n: nat): set<string>
    requires n <= |lines|
  {
    if n == 0 then {}
    else SeenPayloads(lines, n - 1) + (if IsSource(lines[n - 1]) then {Payload(lines[n - 1])} else {})
  }

  /** A source line whose payload some earlier source line already carries. */
  predicate IsRepeatedSource(lines: seq<string>, i: nat)
    requires i < |lines|
  {
    IsSource(lines[i]) && Payload(lines[i]) in SeenPayloads(lines, i)
  }

  /** A `>` or blank line in the run that follows a repeated source line. */
  predicate InDroppedTail(lines: seq<string>, i: nat)
    requires i < |lines|
    decreases i
  {
    0 < i && IsTransOrBlank(lines[i]) && (IsRepeatedSource(lines, i - 1) || InDroppedTail(lines, i - 1))
  }

  /** The lines that survive. */
  predicate Keep(lines: seq<string>, i: nat)
    requires i < |lines|
  {
    !IsRepeatedSource(lines, i) && !InDroppedTail(lines, i)
  }

  /** The surviving lines among the first `n`, in order, before line endings are rewritten. */
  function Kept(lines: seq<string>, n: nat): seq<string>
    requires n <= |lines|
  {
    if n == 0 then []
    else Kept(lines, n - 1) + (if Keep(lines, n - 1) then [lines[n - 1]] else [])
  }

  /** The positions of the surviving lines among the first `n`. */
  function KeptIndices(lines: seq<string>, n: nat): (idx: seq<nat>)
    requires n <= |lines|
    ensures forall j :: 0 <= j < |idx| ==> idx[j] < n && Keep(lines, idx[j])
    ensures forall j, k :: 0 <= j < k < |idx| ==> idx[j] < idx[k]
    ensures forall i :: 0 <= i < n && Keep(lines, i) ==> i in idx
  {
    if n == 0 then []
    else KeptIndices(lines, n - 1) + (if Keep(lines, n - 1) then [n - 1] else [])
  }

  /**
   * `deduplicate_rpt` between reading and writing the file: the output is
   * the kept lines, each with its line ending rewritten.
   */
  method Deduplicate(lines: seq<string>) returns (output: seq<string>)
    ensures output == NormEach(Kept(lines, |lines|))
  {
    var seen: set<string> := {};
    output := [];
    var i := 0;
    while i < |lines|
      invariant i <= |lines|
      invariant output == NormEach(Kept(lines, i))
      invariant seen == SeenPayloads(lines, i)
      invariant i < |lines| ==> !InDroppedTail(lines, i)
      decreases |lines| - i
    {
      if StartsWith(lines[i], "< ") {
        var src := RStrip(lines[i][2..]);
        if src !in seen {
          seen := seen + {src};
          output, i := CopyRecord(lines, i, output);
        } else {
          RepeatedSourceDropped(lines, i);
          i := i + 1;
          i := SkipDroppedRun(lines, i);
        }
      } else {
        OtherLineStep(lines, i, output);
        output := output + [ReplaceChar(lines[i], '\n', "\r\n")];
        i := i + 1;
      }
    }
  }

  /** A line that is neither a source line nor dropped is copied, CRLF-terminated, and the loop goes on at the next line. */
  lemma OtherLineStep(lines: seq<string>, i: nat, output: seq<string>)
    requires i < |lines| && !InDroppedTail(lines, i) && !StartsWith(lines[i], "< ")
    requires output == NormEach(Kept(lines, i))
    ensures output + [ReplaceChar(lines[i], '\n', "\r\n")] == NormEach(Kept(lines, i + 1))
    ensures SeenPayloads(lines, i + 1) == SeenPayloads(lines, i)
    ensures i + 1 < |lines| ==> !InDroppedTail(lines, i + 1)
  {
    OtherLineKept(lines, i);
    NormEachSnoc(Kept(lines, i), lines[i]);
    if i + 1 < |lines| {
      NotDroppedAfterKept(lines, i + 1);
    }
  }

  /**
   * A source line whose payload is new (rpt.py:100-110): it is copied,
   * then the `>` line right after it if there is one, then the blank lines
   * that follow.
   */
  method CopyRecord(lines: seq<string>, i: nat, output: seq<string>) returns (out: seq<string>, j: nat)
    requires i < |lines| && !InDroppedTail(lines, i)
    requires IsSource(lines[i]) && Payload(lines[i]) !in SeenPayloads(lines, i)
    requires output == NormEach(Kept(lines, i))
    ensures i < j <= |lines| && (j < |lines| ==> !InDroppedTail(lines, j))
    ensures out == NormEach(Kept(lines, j))
    ensures SeenPayloads(lines, j) == SeenPayloads(lines, i) + {Payload(lines[i])}
  {
    FirstSourceKept(lines, i);
    NormEachSnoc(Kept(lines, i), lines[i]);
    out := output + [ReplaceChar(lines[i], '\n', "\r\n")];
    j := i + 1;
    if j < |lines| && StartsWith(lines[j], ">") {
      TranslationKept(lines, j);
      NormEachSnoc(Kept(lines, j), lines[j]);
      out := out + [ReplaceChar(lines[j], '\n', "\r\n")];
      j := j + 1;
    }
    out, j := CopyBlankRun(lines, j, out);
  }

  /**
   * The blank lines after a kept record (rpt.py:108-110): each is copied,
   * and the loop stops at the first line that is not blank.
   */
  method CopyBlankRun(lines: seq<string>, i: nat, output: seq<string>) returns (out: seq<string>, j: nat)
    requires 0 < i <= |lines| && Keep(lines, i - 1)
    requires output == NormEach(Kept(lines, i))
    ensures i <= j <= |lines| && (j < |lines| ==> Strip(lines[j]) != [] && !InDroppedTail(lines, j))
    ensures out == NormEach(Kept(lines, j)) && SeenPayloads(lines, j) == SeenPayloads(lines, i)
  {
    out, j := output, i;
    while j < |lines| && Strip(lines[j]) == []
      invariant i <= j <= |lines| && Keep(lines, j - 1)
      invariant out == NormEach(Kept(lines, j))
      invariant SeenPayloads(lines, j) == SeenPayloads(lines, i)
      decreases |lines| - j
    {
      BlankLineKept(lines, j);
      NormEachSnoc(Kept(lines, j), lines[j]);
      out := out + [ReplaceChar(lines[j], '\n', "\r\n")];
      j := j + 1;
    }
    if j < |lines| {
      NotDroppedAfterKept(lines, j);
    }
  }

  /**
   * The rest of a repeated record (rpt.py:112-115): every following line
   * that starts with `>` or is blank is passed over.
   */
  method SkipDroppedRun(lines: seq<string>, i: nat) returns (j: nat)
    requires 0 < i <= |lines|
    requires IsRepeatedSource(lines, i - 1) || InDroppedTail(lines, i - 1)
    ensures i <= j <= |lines| && (j < |lines| ==> !IsTransOrBlank(lines[j]) && !InDroppedTail(lines, j))
    ensures Kept(lines, j) == Kept(lines, i) && SeenPayloads(lines, j) == SeenPayloads(lines, i)
  {
    j := i;
    while j < |lines| && (StartsWith(lines[j], ">") || Strip(lines[j]) == [])
      invariant i <= j <= |lines|
      invariant IsRepeatedSource(lines, j - 1) || InDroppedTail(lines, j - 1)
      invariant Kept(lines, j) == Kept(lines, i) && SeenPayloads(lines, j) == SeenPayloads(lines, i)
      decreases |lines| - j
    {
      DroppedLineStep(lines, j);
      j := j + 1;
    }
  }

  /** A source line starts with `<`, so the skip loop never passes over one. */
  lemma SourceNotTransOrBlank(l: string)
    ensures IsSource(l) ==> !IsTransOrBlank(l)
  {
    if IsSource(l) {
      assert l[0] == '<';
      StripEmptyIff(l);
    }
  }

  lemma NotSourceWhenTranslation(l: string)
    requires StartsWith(l, ">")
    ensures !IsSource(l)
  {
    assert l[0] == '>';
  }

  lemma NotSourceWhenBlank(l: string)
    requires Strip(l) == []
    ensures !IsSource(l)
  {
    SourceNotTransOrBlank(l);
  }

  /** A line that is not a source line and follows a surviving line survives too. */
  lemma KeptAfterKept(lines: seq<string>, j: nat)
    requires 0 < j < |lines| && Keep(lines, j - 1) && !IsSource(lines[j])
    ensures Keep(lines, j)
  {
  }

  /** A line that follows a surviving line is never part of a dropped run. */
  lemma NotDroppedAfterKept(lines: seq<string>, j: nat)
    requires 0 < j < |lines| && Keep(lines, j - 1)
    ensures !InDroppedTail(lines, j)
  {
  }

  /** One step of the blank-line loop: a blank line after a surviving line survives and adds nothing to `seen`. */
  lemma BlankLineKept(lines: seq<string>, j: nat)
    requires 0 < j < |lines| && Keep(lines, j - 1) && Strip(lines[j]) == []
    ensures Keep(lines, j)
    ensures Kept(lines, j + 1) == Kept(lines, j) + [lines[j]]
    ensures SeenPayloads(lines, j + 1) == SeenPayloads(lines, j)
  {
    NotSourceWhenBlank(lines[j]);
    KeptAfterKept(lines, j);
  }

  /** A source line whose payload is new survives and adds its payload to `seen`. */
  lemma FirstSourceKept(lines: seq<string>, i: nat)
    requires i < |lines| && !InDroppedTail(lines, i)
    requires IsSource(lines[i]) && Payload(lines[i]) !in SeenPayloads(lines, i)
    ensures Keep(lines, i) && Kept(lines, i + 1) == Kept(lines, i) + [lines[i]]
    ensures SeenPayloads(lines, i + 1) == SeenPayloads(lines, i) + {Payload(lines[i])}
  {
  }

  /** The `>` line right after a surviving source line survives and adds nothing to `seen`. */
  lemma TranslationKept(lines: seq<string>, j: nat)
    requires 0 < j < |lines| && Keep(lines, j - 1) && IsSource(lines[j - 1]) && StartsWith(lines[j], ">")
    ensures Keep(lines, j) && Kept(lines, j + 1) == Kept(lines, j) + [lines[j]]
    ensures SeenPayloads(lines, j + 1) == SeenPayloads(lines, j)
  {
    NotSourceWhenTranslation(lines[j]);
    KeptAfterKept(lines, j);
  }

  /** A source line whose payload was seen is dropped and leaves `seen` as it was. */
  lemma RepeatedSourceDropped(lines: seq<string>, i: nat)
    requires i < |lines| && IsSource(lines[i]) && Payload(lines[i]) in SeenPayloads(lines, i)
    ensures IsRepeatedSource(lines, i) && Kept(lines, i + 1) == Kept(lines, i)
    ensures SeenPayloads(lines, i + 1) == SeenPayloads(lines, i)
  {
  }

  /** A line that is not a source line and is not part of a dropped run survives and adds nothing to `seen`. */
  lemma OtherLineKept(lines: seq<string>, i: nat)
    requires i < |lines| && !InDroppedTail(lines, i) && !StartsWith(lines[i], "< ")
    ensures Keep(lines, i) && Kept(lines, i + 1) == Kept(lines, i) + [lines[i]]
    ensures SeenPayloads(lines, i + 1) == SeenPayloads(lines, i)
  {
  }

  /** One step of the skip loop: a `>` or blank line after a dropped line is dropped and is not a source line. */
  lemma DroppedLineStep(lines: seq<string>, j: nat)
    requires 0 < j < |lines| && IsTransOrBlank(lines[j])
    requires IsRepeatedSource(lines, j - 1) || InDroppedTail(lines, j - 1)
    ensures InDroppedTail(lines, j) && !IsSource(lines[j]) && !Keep(lines, j)
    ensures Kept(lines, j + 1) == Kept(lines, j) && SeenPayloads(lines, j + 1) == SeenPayloads(lines, j)
  {
    SourceNotTransOrBlank(lines[j]);
  }

  /** A line that is neither a source line nor a `>` or blank line always passes through. */
  lemma PlainLineKept(lines: seq<string>, i: nat)
    requires i < |lines| && !IsSource(lines[i]) && !IsTransOrBlank(lines[i])
    ensures Keep(lines, i)
  {
  }

  /** `seen` holds exactly the payloads of the earlier source lines. */
  lemma {:induction false} SeenPayloadsIff(lines: seq<string>, n: nat, p: string)
    requires n <= |lines|
    ensures p in SeenPayloads(lines, n) <==> exists k :: 0 <= k < n && IsSource(lines[k]) && Payload(lines[k]) == p
    decreases n
  {
    if n > 0 {
      SeenPayloadsIff(lines, n - 1, p);
      if exists k :: 0 <= k < n && IsSource(lines[k]) && Payload(lines[k]) == p {
        var k :| 0 <= k < n && IsSource(lines[k]) && Payload(lines[k]) == p;
        if k < n - 1 {
          assert p in SeenPayloads(lines, n - 1);
        }
      }
    }
  }

  /** A source line survives exactly when no earlier source line has its payload. */
  lemma KeptSourceIffFirst(lines: seq<string>, i: nat)
    requires i < |lines| && IsSource(lines[i])
    ensures Keep(lines, i) <==> forall k :: 0 <= k < i && IsSource(lines[k]) ==> Payload(lines[k]) != Payload(lines[i])
  {
    SourceNotTransOrBlank(lines[i]);
    SeenPayloadsIff(lines, i, Payload(lines[i]));
  }

  /** Two surviving source lines never share a payload. */
  lemma KeptSourcesDistinct(lines: seq<string>, a: nat, b: nat)
    requires a < b < |lines| && IsSource(lines[a]) && IsSource(lines[b])
    requires Keep(lines, a) && Keep(lines, b)
    ensures Payload(lines[a]) != Payload(lines[b])
  {
    KeptSourceIffFirst(lines, b);
  }

  /** Some source line carrying each payload survives. */
  lemma {:induction false} CarrierKept(lines: seq<string>, n: nat, p: string)
    requires n <= |lines| && p in SeenPayloads(lines, n)
    ensures exists i :: 0 <= i < n && IsSource(lines[i]) && Payload(lines[i]) == p && Keep(lines, i)
    decreases n
  {
    if p in SeenPayloads(lines, n - 1) {
      CarrierKept(lines, n - 1, p);
    } else {
      SourceNotTransOrBlank(lines[n - 1]);
      assert Keep(lines, n - 1);
    }
  }

  /**
   * Every payload of the input is kept exactly once, on the first source
   * line that carries it.
   */
  lemma FirstCarrierKept(lines: seq<string>, i: nat)
    requires i < |lines| && IsSource(lines[i])
    requires forall k :: 0 <= k < i && IsSource(lines[k]) ==> Payload(lines[k]) != Payload(lines[i])
    ensures Keep(lines, i)
    ensures forall k :: i < k < |lines| && IsSource(lines[k]) && Payload(lines[k]) == Payload(lines[i]) ==> !Keep(lines, k)
  {
    KeptSourceIffFirst(lines, i);
    forall k | i < k < |lines| && IsSource(lines[k]) && Payload(lines[k]) == Payload(lines[i])
      ensures !Keep(lines, k)
    {
      KeptSourceIffFirst(lines, k);
    }
  }

  /** Each payload that occurs in the input occurs on a surviving source line. */
  lemma PayloadsRetained(lines: seq<string>, p: string)
    requires exists k :: 0 <= k < |lines| && IsSource(lines[k]) && Payload(lines[k]) == p
    ensures exists i :: 0 <= i < |lines| && IsSource(lines[i]) && Payload(lines[i]) == p && Keep(lines, i)
  {
    SeenPayloadsIff(lines, |lines|, p);
    CarrierKept(lines, |lines|, p);
  }

  /**
   * A line is in a dropped run exactly when some repeated source line
   * precedes it with nothing but `>` and blank lines in between.
   */
  lemma InDroppedTailIff(lines: seq<string>, i: nat)
    requires i < |lines|
    ensures InDroppedTail(lines, i) <==>
            exists s :: 0 <= s < i && IsRepeatedSource(lines, s)
                        && forall k :: s < k <= i ==> IsTransOrBlank(lines[k])
  {
    if InDroppedTail(lines, i) {
      var s := DroppedRunStart(lines, i);
    }
    if exists s :: 0 <= s < i && IsRepeatedSource(lines, s)
                   && forall k :: s < k <= i ==> IsTransOrBlank(lines[k]) {
      var s :| 0 <= s < i && IsRepeatedSource(lines, s)
               && forall k :: s < k <= i ==> IsTransOrBlank(lines[k]);
      DroppedAfterRepeated(lines, s, i);
    }
  }

  /** The repeated source line a dropped run starts from. */
  lemma {:induction false} DroppedRunStart(lines: seq<string>, i: nat) returns (s: nat)
    requires i < |lines| && InDroppedTail(lines, i)
    ensures s < i && IsRepeatedSource(lines, s)
    ensures forall k :: s < k <= i ==> IsTransOrBlank(lines[k])
    decreases i
  {
    if IsRepeatedSource(lines, i - 1) {
      s := i - 1;
    } else {
      s := DroppedRunStart(lines, i - 1);
    }
  }

  /** Every line of a run of `>` and blank lines after a repeated source line is dropped. */
  lemma {:induction false} DroppedAfterRepeated(lines: seq<string>, s: nat, i: nat)
    requires s < i < |lines| && IsRepeatedSource(lines, s)
    requires forall k :: s < k <= i ==> IsTransOrBlank(lines[k])
    ensures InDroppedTail(lines, i)
    decreases i
  {
    if s < i - 1 {
      DroppedAfterRepeated(lines, s, i - 1);
    }
  }

  /**
   * A repeated record is dropped whole: the source line and every `>` or
   * blank line after it.
   */
  lemma RepeatedRecordDropped(lines: seq<string>, s: nat, e: nat)
    requires s < e <= |lines| && IsRepeatedSource(lines, s)
    requires forall k :: s < k < e ==> IsTransOrBlank(lines[k])
    ensures forall k :: s <= k < e ==> !Keep(lines, k)
  {
    forall k | s < k < e ensures InDroppedTail(lines, k) {
      InDroppedTailIff(lines, k);
    }
  }

  /**
   * A kept record is kept whole: every line after a surviving source line,
   * up to the next source line, survives too.
   */
  lemma KeptRecordStays(lines: seq<string>, s: nat, e: nat)
    requires s < e <= |lines| && IsSource(lines[s]) && Keep(lines, s)
    requires forall k :: s < k < e ==> !IsSource(lines[k])
    ensures forall k :: s <= k < e ==> Keep(lines, k)
  {
    SourceNotTransOrBlank(lines[s]);
    forall k | s < k < e ensures !InDroppedTail(lines, k) {
      InDroppedTailIff(lines, k);
    }
  }

  /** The surviving lines, in input order: a subsequence of the input. */
  lemma {:induction false} KeptIsSubsequence(lines: seq<string>, n: nat)
    requires n <= |lines|
    ensures |Kept(lines, n)| == |KeptIndices(lines, n)|
    ensures forall j :: 0 <= j < |Kept(lines, n)| ==> Kept(lines, n)[j] == lines[KeptIndices(lines, n)[j]]
    decreases n
  {
    if n > 0 {
      KeptIsSubsequence(lines, n - 1);
    }
  }

  /** No two source lines have the same payload. */
  predicate DistinctPayloads(ls: seq<string>) {
    forall a, b :: 0 <= a < b < |ls| && IsSource(ls[a]) && IsSource(ls[b]) ==> Payload(ls[a]) != Payload(ls[b])
  }

  /** The surviving source lines carry pairwise distinct payloads. */
  lemma KeptPayloadsDistinct(lines: seq<string>)
    ensures DistinctPayloads(Kept(lines, |lines|))
  {
    var out := Kept(lines, |lines|);
    var idx := KeptIndices(lines, |lines|);
    KeptIsSubsequence(lines, |lines|);
    forall a, b | 0 <= a < b < |out| && IsSource(out[a]) && IsSource(out[b])
      ensures Payload(out[a]) != Payload(out[b])
    {
      KeptSourcesDistinct(lines, idx[a], idx[b]);
    }
  }

  /** A line as `readlines` gives it: a newline, if any, only at its end. */
  predicate OneLine(l: string) {
    forall k :: 0 <= k < |l| - 1 ==> l[k] != '\n'
  }

  /** Right-stripping ignores a trailing line ending, LF or CRLF. */
  lemma RStripLineEnding(y: string)
    ensures RStrip(y + "\n") == RStrip(y) && RStrip(y + "\r\n") == RStrip(y)
  {
    assert (y + "\n")[..|y|] == y;
    assert (y + "\r\n")[..|y| + 1] == y + "\r";
    assert (y + "\r")[..|y|] == y;
  }

  /** Written with CRLF, a line without a newline reads back and is rewritten as the same line. */
  lemma NormTerminated(r: string)
    requires '\n' !in r
    ensures Norm(r + "\n") == r + "\r\n"
  {
    ReplaceCharConcat(r, "\n", '\n', "\r\n");
    assert ReplaceChar("\n", '\n', "\r\n") == "\r\n" + ReplaceChar([], '\n', "\r\n");
  }

  /** Rewriting the line ending of a line keeps whether it is a source line and what its payload is. */
  lemma NormKeepsPayload(l: string)
    requires OneLine(l)
    ensures IsSource(Norm(l)) <==> IsSource(l)
    ensures IsSource(l) ==> Payload(Norm(l)) == Payload(l)
  {
    if '\n' in l {
      var x := l[..|l| - 1];
      assert l == x + "\n";
      NormTerminated(x);
      if |x| >= 2 {
        assert l[..2] == x[..2] == Norm(l)[..2];
        assert l[2..] == x[2..] + "\n" && Norm(l)[2..] == x[2..] + "\r\n";
        RStripLineEnding(x[2..]);
      } else if |x| == 1 {
        assert Norm(l)[1] == '\r' && l[1] == '\n';
      }
    }
  }

  /**
   * The source lines `deduplicate_rpt` writes carry pairwise distinct
   * payloads: the CRLF rewrite does not change a payload.
   */
  lemma OutputPayloadsDistinct(lines: seq<string>)
    requires forall i :: 0 <= i < |lines| ==> OneLine(lines[i])
    ensures DistinctPayloads(NormEach(Kept(lines, |lines|)))
  {
    var kept := Kept(lines, |lines|);
    var out := NormEach(kept);
    var idx := KeptIndices(lines, |lines|);
    KeptIsSubsequence(lines, |lines|);
    KeptPayloadsDistinct(lines);
    forall a, b | 0 <= a < b < |out| && IsSource(out[a]) && IsSource(out[b])
      ensures Payload(out[a]) != Payload(out[b])
    {
      NormKeepsPayload(lines[idx[a]]);
      NormKeepsPayload(lines[idx[b]]);
    }
  }

  lemma {:induction false} KeptAll(lines: seq<string>, n: nat)
    requires n <= |lines| && forall i :: 0 <= i < n ==> Keep(lines, i)
    ensures Kept(lines, n) == lines[..n]
    decreases n
  {
    if n > 0 {
      KeptAll(lines, n - 1);
      assert lines[..n] == lines[..n - 1] + [lines[n - 1]];
    }
  }

  /** Input without repeated payloads passes through unchanged, apart from line endings. */
  lemma NoRepeatsKeepsAll(lines: seq<string>)
    requires DistinctPayloads(lines)
    ensures Kept(lines, |lines|) == lines
  {
    forall i | 0 <= i < |lines| ensures Keep(lines, i) {
      if IsSource(lines[i]) {
        KeptSourceIffFirst(lines, i);
      } else {
        InDroppedTailIff(lines, i);
        if InDroppedTail(lines, i) {
          var s :| 0 <= s < i && IsRepeatedSource(lines, s)
                   && forall k :: s < k <= i ==> IsTransOrBlank(lines[k]);
          SeenPayloadsIff(lines, s, Payload(lines[s]));
        }
      }
    }
    KeptAll(lines, |lines|);
    assert lines[..|lines|] == lines;
  }

  /** A second pass over what the first pass kept keeps all of it. */
  lemma SecondPassKeepsAll(lines: seq<string>)
    ensures Kept(Kept(lines, |lines|), |Kept(lines, |lines|)|) == Kept(lines, |lines|)
  {
    KeptPayloadsDistinct(lines);
    NoRepeatsKeepsAll(Kept(lines, |lines|));
  }

  /**
   * Reading a text file with universal newlines: `\r\n` and a lone `\r`
   * both become `\n`.
   */
  function UniversalNewlines(s: string): string
    decreases |s|
  {
    if s == [] then []
    else if s[0] == '\r' then "\n" + UniversalNewlines(if 1 < |s| && s[1] == '\n' then s[2..] else s[1..])
    else [s[0]] + UniversalNewlines(s[1..])
  }

  /**
   * A line read with universal newlines holds no `\r`; written with CRLF
   * endings and read again, it comes back unchanged. So the second pass
   * sees exactly the lines the first pass kept.
   */
  lemma {:induction false} ReadBackNorm(l: string)
    requires '\r' !in l
    ensures UniversalNewlines(Norm(l)) == l
    decreases |l|
  {
    if l != [] {
      assert '\r' !in l[1..];
      ReadBackNorm(l[1..]);
      var rest := Norm(l[1..]);
      if l[0] == '\n' {
        assert Norm(l) == "\r\n" + rest;
        assert Norm(l)[2..] == rest;
      } else {
        assert Norm(l) == [l[0]] + rest;
        assert Norm(l)[1..] == rest;
      }
      assert l == [l[0]] + l[1..];
    }
  }
}
