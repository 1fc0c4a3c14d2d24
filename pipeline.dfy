/**
 * Steps 3 to 7 of `main` (rpt.py:222-255) over the texts of the scripts,
 * in the order they are processed: gather the character names, extract
 * the dialogue of every script, keep the first occurrence of each
 * non-empty text and write one record per text. The two fatal exits of
 * `main` are the outcomes NoCharacters and NoDialogue; NoScripts is the
 * exit for an empty script list, and CannotDecode the exception the
 * `unicode_escape` codec raises, which ends the run before any dialogue
 * is written.
 */
module Pipeline {
  import opened Wrappers
  import opened Text
  import opened Escape
  import opened Unique
  import opened Registry
  import opened Recognizers
  import opened Dialogue
  import opened Template
  import opened Dedup

  datatype Failure = NoScripts | NoCharacters | CannotDecode | NoDialogue

  datatype Outcome =
    | Written(names: seq<string>, texts: seq<string>, records: seq<string>)
    | Failed(reason: Failure)

  /** The dialogue of every script in turn (rpt.py:231-233); None when some script's cannot be decoded. */
  function AllDialogues(files: seq<string>, names: seq<string>, decode: string -> Option<string>): (r: Option<seq<string>>)
    ensures r.Some? ==> forall k :: 0 <= k < |r.value| ==> Strip(r.value[k]) == r.value[k]
    decreases |files|
  {
    if files == [] then Some([])
    else
      match AllDialogues(files[..|files| - 1], names, decode)
      case None => None
      case Some(init) =>
        match Dialogues(files[|files| - 1], names, decode)
        case None => None
        case Some(last) =>
          StrippedConcat(init, last);
          Some(init + last)
  }

  /** The lists of `parts` one after the other, or None when some part is None. */
  function JoinAll(parts: seq<Option<seq<string>>>): Option<seq<string>>
    decreases |parts|
  {
    if parts == [] then Some([])
    else
      match JoinAll(parts[..|parts| - 1])
      case None => None
      case Some(init) =>
        match parts[|parts| - 1]
        case None => None
        case Some(last) => Some(init + last)
  }

  /** The join is None exactly when some part is. */
  lemma {:induction false} JoinAllNoneIff(parts: seq<Option<seq<string>>>)
    ensures JoinAll(parts).None? <==> exists f :: 0 <= f < |parts| && parts[f].None?
    decreases |parts|
  {
    if parts != [] {
      var init := parts[..|parts| - 1];
      JoinAllNoneIff(init);
      if JoinAll(init).None? {
        var f :| 0 <= f < |init| && init[f].None?;
        assert parts[f] == init[f];
      }
      if exists f :: 0 <= f < |parts| && parts[f].None? {
        var f :| 0 <= f < |parts| && parts[f].None?;
        if f < |init| {
          assert init[f] == parts[f];
        }
      }
    }
  }

  /** The dialogue of each script, script by script. */
  function PerScriptDialogues(files: seq<string>, names: seq<string>, decode: string -> Option<string>): (r: seq<Option<seq<string>>>)
    ensures |r| == |files| && forall f :: 0 <= f < |files| ==> r[f] == Dialogues(files[f], names, decode)
  {
    seq(|files|, f requires 0 <= f < |files| => Dialogues(files[f], names, decode))
  }

  /** Collecting the dialogue over the scripts is joining the dialogue of the single scripts. */
  lemma {:induction false} AllDialoguesJoin(files: seq<string>, names: seq<string>, decode: string -> Option<string>)
    ensures AllDialogues(files, names, decode) == JoinAll(PerScriptDialogues(files, names, decode))
    decreases |files|
  {
    if files != [] {
      var init := files[..|files| - 1];
      AllDialoguesJoin(init, names, decode);
      assert PerScriptDialogues(files, names, decode)[..|files| - 1] == PerScriptDialogues(init, names, decode);
    }
  }

  /** The texts of all scripts are missing exactly when one script's dialogue cannot be decoded. */
  lemma AllDialoguesNoneIff(files: seq<string>, names: seq<string>, decode: string -> Option<string>)
    ensures AllDialogues(files, names, decode).None? <==>
            exists f :: 0 <= f < |files| && Dialogues(files[f], names, decode).None?
  {
    var parts := PerScriptDialogues(files, names, decode);
    AllDialoguesJoin(files, names, decode);
    JoinAllNoneIff(parts);
    if exists f :: 0 <= f < |files| && Dialogues(files[f], names, decode).None? {
      var f :| 0 <= f < |files| && Dialogues(files[f], names, decode).None?;
      assert parts[f].None?;
    }
  }

  /**
   * The loop of rpt.py:231-233: extend the list with the dialogue of each
   * script in turn; the codec's exception stops it.
   */
  method ExtractAll(files: seq<string>, names: seq<string>, decode: string -> Option<string>)
    returns (all: Option<seq<string>>)
    requires names != [] && forall k :: 0 <= k < |names| ==> IsIdentifier(names[k])
    ensures all == AllDialogues(files, names, decode)
  {
    var texts: seq<string> := [];
    for f := 0 to |files|
      invariant AllDialogues(files[..f], names, decode) == Some(texts)
    {
      var d := ExtractDialogues(files[f], names, decode);
      if d.None? {
        AllDialoguesNoneIff(files, names, decode);
        return None;
      }
      AllDialoguesStep(files, names, decode, f, texts);
      texts := texts + d.value;
    }
    assert files[..|files|] == files;
    return Some(texts);
  }

  /** One more script extends the collected texts by that script's dialogue. */
  lemma AllDialoguesStep(files: seq<string>, names: seq<string>, decode: string -> Option<string>, f: nat, texts: seq<string>)
    requires f < |files| && AllDialogues(files[..f], names, decode) == Some(texts)
    ensures Dialogues(files[f], names, decode).Some? ==>
            AllDialogues(files[..f + 1], names, decode) == Some(texts + Dialogues(files[f], names, decode).value)
  {
    assert files[..f + 1][..f] == files[..f];
  }

  /** Two lists of stripped texts concatenate to a list of stripped texts. */
  lemma StrippedConcat(a: seq<string>, b: seq<string>)
    requires forall k :: 0 <= k < |a| ==> Strip(a[k]) == a[k]
    requires forall k :: 0 <= k < |b| ==> Strip(b[k]) == b[k]
    ensures forall k :: 0 <= k < |a + b| ==> Strip((a + b)[k]) == (a + b)[k]
  {
    forall k | 0 <= k < |a + b| ensures Strip((a + b)[k]) == (a + b)[k] {
      if k >= |a| {
        assert (a + b)[k] == b[k - |a|];
      }
    }
  }

  /** The records the writer produced for `texts`: a source line, a translation line, an empty line. */
  predicate IsRecordsOf(records: seq<string>, texts: seq<string>, fill: bool) {
    |records| == 3 * |texts|
    && forall k :: 0 <= k < |texts| ==>
         records[3 * k] == SourceLine(texts[k])
         && records[3 * k + 1] == TranslationLine(texts[k], fill)
         && records[3 * k + 2] == []
  }

  /**
   * `main` from the list of scripts to the records of the template; `decode`
   * stands for the `unicode_escape` codec (None where it raises) and `fill`
   * for `--fill-template`.
   */
  method Generate(files: seq<string>, decode: string -> Option<string>, fill: bool) returns (o: Outcome)
    ensures o == Failed(NoScripts) <==> files == []
    ensures o == Failed(NoCharacters) <==> files != [] && AllDefinedNames(files) == []
    ensures o == Failed(CannotDecode) <==>
              files != [] && AllDefinedNames(files) != []
              && AllDialogues(files, FirstOccurrences(AllDefinedNames(files)), decode).None?
    ensures o == Failed(NoDialogue) <==>
              files != [] && AllDefinedNames(files) != []
              && AllDialogues(files, FirstOccurrences(AllDefinedNames(files)), decode).Some?
              && NonEmpty(AllDialogues(files, FirstOccurrences(AllDefinedNames(files)), decode).value) == []
    ensures o.Written? ==>
              o.names == FirstOccurrences(AllDefinedNames(files))
              && AllDialogues(files, o.names, decode).Some?
              && o.texts == FirstOccurrences(NonEmpty(AllDialogues(files, o.names, decode).value))
              && o.texts != []
              && IsRecordsOf(o.records, o.texts, fill)
    ensures o.Written? ==> Kept(Terminated(o.records), |o.records|) == Terminated(o.records)
  {
    if files == [] {
      return Failed(NoScripts);
    }
    var names := GatherCharNames(files);
    if names == [] {
      assert forall n :: n !in AllDefinedNames(files);
      return Failed(NoCharacters);
    }
    assert AllDefinedNames(files) != [];
    var extracted := ExtractAll(files, names, decode);
    if extracted.None? {
      return Failed(CannotDecode);
    }
    var all := extracted.value;
    var unique := UniqueTexts(all);
    if unique == [] {
      assert forall t :: t !in NonEmpty(all);
      return Failed(NoDialogue);
    }
    assert NonEmpty(all) != [];
    var records := WriteRecords(unique, fill);
    forall k | 0 <= k < |unique| ensures unique[k] != [] && Strip(unique[k]) == unique[k] {
      assert unique[k] in all;
    }
    RecordsSurviveDedup(unique, fill, records);
    return Written(names, unique, records);
  }

  /** The lines of a file as `readlines` returns them: each line with its `\n`. */
  function Terminated(ls: seq<string>): (r: seq<string>)
    ensures |r| == |ls| && forall i :: 0 <= i < |ls| ==> r[i] == ls[i] + "\n"
  {
    seq(|ls|, i requires 0 <= i < |ls| => ls[i] + "\n")
  }

  /** The payload `deduplicate_rpt` compares for a record's source line is the quoted text itself. */
  lemma SourcePayload(t: string)
    requires t != [] && Strip(t) == t
    ensures IsSource(SourceLine(t) + "\n") && Payload(SourceLine(t) + "\n") == Quote(t)
  {
    var q := Quote(t);
    var _ := StripSlice(t);
    QuoteEndsVisible(t);
    var l := (SourceLine(t) + "\n")[2..];
    assert l == q + "\n";
    assert l[..|l| - 1] == q && IsSpace(l[|l| - 1]);
    assert RStrip(l) == RStrip(q);
    assert RStrip(q) == q;
  }

  /** The three lines of the record for one text, each read back with its newline. */
  lemma RecordKinds(t: string, fill: bool)
    requires t != [] && Strip(t) == t
    ensures '\n' !in SourceLine(t) && '\n' !in TranslationLine(t, fill)
    ensures IsSource(SourceLine(t) + "\n") && Payload(SourceLine(t) + "\n") == Quote(t)
    ensures !IsSource(TranslationLine(t, fill) + "\n") && !IsSource([] + "\n")
  {
    SourcePayload(t);
    OtherLinesNotSource(t, fill);
  }

  /** Neither the translation line nor the empty line of a record reads back as a source line. */
  lemma OtherLinesNotSource(t: string, fill: bool)
    ensures !IsSource(TranslationLine(t, fill) + "\n") && !IsSource([] + "\n")
  {
    assert (TranslationLine(t, fill) + "\n")[0] == '>';
  }

  /** Only the first line of each record is a source line, and its payload is the quoted text. */
  lemma RecordLineKind(texts: seq<string>, fill: bool, records: seq<string>, i: nat)
    requires forall k :: 0 <= k < |texts| ==> texts[k] != [] && Strip(texts[k]) == texts[k]
    requires IsRecordsOf(records, texts, fill) && i < |records|
    ensures '\n' !in records[i]
    ensures IsSource(records[i] + "\n") <==> i % 3 == 0
    ensures i % 3 == 0 ==> IsSource(records[i] + "\n") && Payload(records[i] + "\n") == Quote(texts[i / 3])
  {
    var k, r := i / 3, i % 3;
    assert i == 3 * k + r && k < |texts|;
    RecordAt(texts, fill, records, k, r);
    RecordLineKinds(texts[k], fill, r);
  }

  /** Line `r` of record `k` is line `r` of the record of text `k`. */
  lemma RecordAt(texts: seq<string>, fill: bool, records: seq<string>, k: nat, r: nat)
    requires IsRecordsOf(records, texts, fill) && k < |texts| && r < 3
    ensures records[3 * k + r] == RecordLine(texts[k], fill, r)
  {
    if r == 0 {
      assert records[3 * k] == SourceLine(texts[k]);
    } else if r == 1 {
      assert records[3 * k + 1] == TranslationLine(texts[k], fill);
    } else {
      assert records[3 * k + 2] == [];
    }
  }

  /** Line `r` of the record of `t`. */
  function RecordLine(t: string, fill: bool, r: nat): string {
    if r == 0 then SourceLine(t) else if r == 1 then TranslationLine(t, fill) else []
  }

  /** Read back, only line 0 of a record is a source line, and its payload is the quoted text. */
  lemma RecordLineKinds(t: string, fill: bool, r: nat)
    requires t != [] && Strip(t) == t
    ensures '\n' !in RecordLine(t, fill, r)
    ensures IsSource(RecordLine(t, fill, r) + "\n") <==> r == 0
    ensures r == 0 ==> Payload(RecordLine(t, fill, r) + "\n") == Quote(t)
  {
    RecordKinds(t, fill);
  }

  /**
   * `deduplicate_rpt` leaves the records of distinct dialogue texts as they
   * were written: every line is kept, and writing it back with CRLF
   * endings reproduces the written line.
   */
  lemma RecordsSurviveDedup(texts: seq<string>, fill: bool, records: seq<string>)
    requires NoDuplicates(texts)
    requires forall k :: 0 <= k < |texts| ==> texts[k] != [] && Strip(texts[k]) == texts[k]
    requires IsRecordsOf(records, texts, fill)
    ensures Kept(Terminated(records), |records|) == Terminated(records)
    ensures forall i :: 0 <= i < |records| ==> Norm(Terminated(records)[i]) == records[i] + "\r\n"
  {
    var lines := Terminated(records);
    forall a, b | 0 <= a < b < |lines| && IsSource(lines[a]) && IsSource(lines[b])
      ensures Payload(lines[a]) != Payload(lines[b])
    {
      RecordLineKind(texts, fill, records, a);
      RecordLineKind(texts, fill, records, b);
      assert a / 3 < b / 3;
      if Quote(texts[a / 3]) == Quote(texts[b / 3]) {
        QuoteInjective(texts[a / 3], texts[b / 3]);
      }
    }
    NoRepeatsKeepsAll(lines);
    forall i | 0 <= i < |records| ensures Norm(lines[i]) == records[i] + "\r\n" {
      RecordLineKind(texts, fill, records, i);
      NormTerminated(records[i]);
    }
  }
}
