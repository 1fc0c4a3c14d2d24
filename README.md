# rpt.py in Dafny

`rpt.py` builds a Ren'Py `.rpt` translation template from a game's `.rpy`
scripts. It does four things:

- It finds the character short names declared by `define NAME = Character(`
  or `$ NAME = Character(`.
- It uses those names to pull out single-line dialogue, triple-quoted
  dialogue blocks and menu choices. It also pulls the captions of
  `label _("…")` and `textbutton _("…")` out of `screens.rpy`.
- It keeps the first occurrence of each non-empty text and writes one record
  per text: `< quoted text`, `> quoted text or nothing`, then an empty line.
- It runs `deduplicate_rpt` over the written file. This pass drops every
  record whose source text already appeared, and rewrites all line endings
  as CRLF.

This project models that core and proves what each part promises. The
modules follow the script's parts:

| file | module | models |
|---|---|---|
| `text.dfy` | `Text` | the `str` methods the script uses: `strip`, `rstrip`, `lstrip`, `startswith`, `replace`, `splitlines`, `join` |
| `escape.dfy` | `Escape` | `quote` and its inverse |
| `unique.dfy` | `Unique` | first-occurrence de-duplication of a list |
| `recognizers.dfy` | `Recognizers` | one scanner for each of the five regular expressions, plus `finditer` |
| `registry.dfy` | `Registry` | `gather_char_names` |
| `dialogue.dfy` | `Dialogue` | `extract_dialogues`, `extract_screen_texts` |
| `template.dfy` | `Template` | the unique-text loop and the record writer of `main` |
| `dedup.dfy` | `Dedup` | `deduplicate_rpt` |
| `pipeline.dfy` | `Pipeline` | `main` from names to records, with its fatal exits and the codec's exception |

### How the regular expressions are modelled

Each regular expression becomes a scanner that takes the longest run at
every step and never backs up. This gives the same match as Python's engine
because, at every position, at most one way to continue a greedy run
can lead to a match. Most runs are followed by a character outside their
own class. The string body `(?:[^"\\]|\\.)*"` is the exception: an
escaped `\"` belongs to the run. Its alternatives are still disjoint at
each position, so the first unescaped quote is the only place it can end
(`LiteralEndComplete`).

There are three exceptions to "never backs up":

- In the triple-quoted pattern, `\s*\n` ends at the last newline of the
  whitespace run (`LastNewline`).
- The lazy `.*?` stops at the first position where `\s*"""` can follow
  (`LazyClose`).
- The speaker alternation tries the names in list order and falls through
  to the next name when the rest of the pattern fails (`SpeakerMatch`).

`finditer` tries every position in turn and resumes where the last match
ended (`FindFrom`). It is proved complete: every position where the pattern
matches lies inside a reported match (`FindAllComplete`).

### How deduplicate_rpt is specified

`deduplicate_rpt` is specified line by line by `Keep`. A line is dropped
exactly in two cases:

- it is a source line whose payload an earlier source line already carried;
- it is in the run of `>` and blank lines that directly follows such a line.

The lookahead in the kept branch (rpt.py:102-110) does not change which
lines survive. `Deduplicate` follows the loop of rpt.py:94-118 and is proved
to return exactly the kept lines, each with `\n` rewritten as `\r\n`. Its
kept-record branch is the helper method `CopyRecord`, and its inner loops are
the helper methods `CopyBlankRun` and `SkipDroppedRun`. Each branch takes one
step lemma that says which lines survive and how `seen` grows.

## Model

| member | source | states |
|---|---|---|
| Text.RStripSpec | rpt.py:97 | `rstrip` keeps a prefix that is empty or ends in a non-space, and drops only whitespace |
| Text.LStripSpec | rpt.py:60 | `lstrip` keeps a suffix that is empty or starts with a non-space, and drops only whitespace |
| Text.StripSlice | rpt.py:60 | `strip` returns the slice between the leading and the trailing whitespace, and that slice neither starts nor ends with whitespace |
| Text.StripEmptyIff | rpt.py:108 | `line.strip() == ""` holds exactly when every character of the line is whitespace |
| Text.StripIdempotent | rpt.py:69 | stripping twice gives the same result as stripping once |
| Text.StripAfterRStrip | rpt.py:64-65 | right-stripping every line before the final `strip` does not change what `strip` does to a one-line block |
| Text.ReplaceChar | rpt.py:18-19 | after `replace(c, rep)`, with `c` not in `rep`, no `c` is left, and without a `c` the string is unchanged |
| Text.ReplaceCharConcat | rpt.py:100 | a one-character `replace` distributes over concatenation |
| Text.SplitLines | rpt.py:64 | `splitlines` yields pieces that hold no line break, and yields no pieces exactly for the empty string |
| Text.SplitLinesSingle | rpt.py:64 | a non-empty string without line breaks splits into itself |
| Escape.Quote | rpt.py:14-20 | the quoted text holds no newline, so a record line stays one line |
| Escape.QuoteIsCharwise | rpt.py:18-19 | the two whole-string replacements act character by character: a backslash becomes two backslashes, a newline becomes backslash-n, and every other character is copied |
| Escape.UnquoteQuote | rpt.py:14-20 | decoding left to right (`\\` gives a backslash, `\n` gives a newline) recovers the original text |
| Escape.UnquoteEscapeEach | rpt.py:18-19 | the character-by-character escaping is undone by decoding |
| Escape.EscapeEachConcat | rpt.py:18-19 | escaping distributes over concatenation |
| Escape.QuoteInjective | rpt.py:14-20 | distinct texts have distinct quoted forms |
| Escape.EscapeEachLast | rpt.py:18-19 | character-by-character escaping keeps the last character unless it is a newline |
| Escape.QuoteLast | rpt.py:18-19 | quoting keeps the last character of a text unless it is a newline |
| Escape.QuoteEndsVisible | rpt.py:18-19 | a text that ends in a non-space still ends in a non-space after quoting |
| Recognizers.MatchDefine | rpt.py:9-12 | a definition match starts at a line start, captures an identifier, and ends just after `Character(` |
| Recognizers.DefineTail | rpt.py:10 | the part after the keyword captures an identifier where it starts and ends just after `Character(` |
| Recognizers.LiteralEnd | rpt.py:42 | a position it returns holds a quote, and the body before it is a sequence of non-quote, non-backslash characters and backslash escapes of non-newlines |
| Recognizers.LiteralEndComplete | rpt.py:42 | whenever a quote closes a valid literal body, that quote is the one found |
| Recognizers.SingleTail | rpt.py:42 | the single-line tail captures a valid literal body; the opening quote follows at least one whitespace character, every character before it is whitespace, and the match ends just after the closing quote |
| Recognizers.LastNewline | rpt.py:46 | `\s*\n` ends just after the last newline of the whitespace run, and no newline follows it within the run |
| Recognizers.LazyClose | rpt.py:46 | the lazy body ends at the first position from which `\s*"""` follows; when there is none, no position closes |
| Recognizers.MultiOpening | rpt.py:46 | `\s+"""\s*\n` matches only after at least one space and the opening quotes; the body then starts just after the last newline of the whitespace run that follows those quotes, so strictly past them |
| Recognizers.LineBreakAfter | rpt.py:46 | `\s*\n` with backtracking: the body starts just after the last newline of the whitespace run, only spaces come before it, and no newline of the run comes after it |
| Recognizers.MultiBody | rpt.py:46 | `(.*?)\s*"""`: the capture is the shortest body after which `\s*"""` follows, and the match ends just after those closing quotes |
| Recognizers.MultiTail | rpt.py:46 | the triple-quoted tail matches exactly when the opening matches and a closing follows, and it is then the shortest body from where the opening ends |
| Recognizers.DialogueTail | rpt.py:42-46 | either tail lies after the speaker, and a single-line tail captures a valid literal body and ends at a quote |
| Recognizers.FirstSpeaker | rpt.py:40-46 | the alternation picks the first name, in list order, that occurs at the position and is followed by the rest of the pattern; no earlier name works |
| Recognizers.SpeakerMatch | rpt.py:40-46 | the speaker part fails exactly when no listed name can open the dialogue there |
| Recognizers.MatchDialogue | rpt.py:41-48 | a dialogue pattern matches at a position exactly when it starts a line and, after the indentation, some listed name opens the dialogue |
| Recognizers.MatchMenu | rpt.py:67 | a menu match starts at a line start and captures a non-empty text without `"` |
| Recognizers.MatchScreen | rpt.py:82 | a label or button match captures a non-empty text without `"` |
| Recognizers.AttemptsAdvance | rpt.py:30 | every successful attempt ends after it starts, so `finditer` makes progress |
| Recognizers.FindFrom | rpt.py:30 | `finditer` reports matches in document order, without overlap, within the text |
| Recognizers.FindFromHits | rpt.py:30 | each reported match is the pattern's match at its start |
| Recognizers.FindFromComplete | rpt.py:30 | every position where the pattern matches lies inside a reported match |
| Recognizers.FindAll | rpt.py:58-70 | the matches of `finditer` over the whole text are ordered and do not overlap |
| Recognizers.FindAllHits | rpt.py:58-70 | each match of `finditer` over the whole text is the pattern's match at its start |
| Recognizers.FindAllComplete | rpt.py:58-70 | `finditer` misses no match: every matching position is covered by a reported match |
| Registry.DefinedNames | rpt.py:28-31 | the names one script defines, in document order, are all identifiers |
| Registry.CapturedNamesAreIdentifiers | rpt.py:30-31 | every `short` group DEFINE_RE captures is an identifier |
| Registry.FlattenMembership | rpt.py:28-31 | a name is in the concatenated per-script lists exactly when it is in one of them |
| Registry.AllDefinedNamesFlatten | rpt.py:28-31 | the names over the scripts are the per-script lists concatenated in script order |
| Registry.AllDefinedNamesMembership | rpt.py:28-31 | a name is found over the scripts exactly when some script defines it |
| Registry.AllDefinedNamesAreIdentifiers | rpt.py:28-31 | every name found over the scripts is an identifier |
| Registry.AddNewNames | rpt.py:30-33 | the inner loop extends the first occurrences of the names seen so far by the first occurrences of this script's names |
| Registry.GatherCharNames | rpt.py:22-34 | the result is the first occurrences of the defined names, over scripts in order and within each script in order. It has no duplicates, lists exactly the names some script defines, and each is an identifier |
| Unique.FirstOccurrences | rpt.py:32-33 | keeping first occurrences yields a list without duplicates and with exactly the elements of the input |
| Unique.FirstOccurrencesSnoc | rpt.py:32-33 | appending an element adds it exactly when it is not yet listed |
| Unique.FirstIndexInPrefix | rpt.py:32-33 | an element's first occurrence in a prefix is its first occurrence in the whole list |
| Unique.FirstOccurrencesOrder | rpt.py:27-34 | the result lists elements in the order of their first occurrence in the input |
| Unique.FirstOccurrencesOfDistinct | rpt.py:238-241 | an input without repeats comes back unchanged |
| Dialogue.JoinStrippedLines | rpt.py:64-65 | joining right-stripped lines with `"\n"` gives a text whose only line breaks are newlines and whose lines do not end in whitespace |
| Dialogue.NormalizeBlock | rpt.py:64-65 | a triple-quoted body comes out stripped, with only newline line breaks and no line ending in whitespace |
| Dialogue.JoinedBlockShape | rpt.py:64-65 | lines without breaks, right-stripped, joined with `"\n"` and stripped, give a stripped text whose only breaks are newlines and whose lines do not end in whitespace |
| Dialogue.NormalizeSingleLine | rpt.py:64-65 | a body with one internal line becomes that line, stripped |
| Dialogue.DecodedTexts | rpt.py:58-60 | the texts exist exactly when every single-line body decodes; text k is then the stripped decoding of match k |
| Dialogue.BlockTexts | rpt.py:62-65 | text k is the normalised block of triple-quoted match k, and it is stripped |
| Dialogue.StrippedTexts | rpt.py:67-70 | text k is the stripped caption of menu match k |
| Dialogue.AppendDecoded | rpt.py:58-60 | the loop appends the decoded single-line texts in match order, and stops with no result exactly when some body cannot be decoded |
| Dialogue.AppendBlocks | rpt.py:62-65 | the loop appends the normalised blocks in match order |
| Dialogue.AppendChoices | rpt.py:68-70 | the loop appends the stripped menu choices in match order |
| Dialogue.Dialogues | rpt.py:51-72 | there is no result exactly when some single-line match has a body the codec rejects; otherwise every extracted text is stripped |
| Dialogue.StrippedJoin | rpt.py:58-70 | the three groups of stripped texts, one after the other, are all stripped |
| Dialogue.ExtractDialogues | rpt.py:51-72 | the result exists exactly when every single-line body decodes, and is then the single-line texts, then the triple-quoted texts, then the menu choices, each group in document order |
| Dialogue.ExtractScreenTexts | rpt.py:74-83 | every caption is non-empty and holds no `"` |
| Template.NonEmpty | rpt.py:239 | exactly the non-empty texts of the input are kept |
| Template.UniqueTexts | rpt.py:236-241 | the result is the first occurrences of the non-empty texts. It has no empty text and no duplicate, and holds exactly the non-empty texts of the input |
| Template.UniqueTextsOrder | rpt.py:236-241 | unique texts keep the order of their first occurrence |
| Template.WriteRecords | rpt.py:247-252 | each text yields exactly three lines in order: `< ` and its quoted form, `> ` and its quoted form (when filling) or nothing, then an empty line |
| Template.SourceLine | rpt.py:249-251 | the source line holds no newline, so it stays one line of the file |
| Template.TranslationLine | rpt.py:250-252 | the translation line holds no newline, filled or not |
| Template.SourceLineRoundTrip | rpt.py:249-251 | what follows the `< ` marker decodes back to the text |
| Template.TranslationLineRoundTrip | rpt.py:250-252 | what follows the `> ` marker decodes back to the text when the template is filled, and to nothing otherwise |
| Template.RecordsStep | rpt.py:248-252 | writing the record of one more text extends the three-lines-per-text layout by that text's record |
| Template.FilledTranslationEqualsSource | rpt.py:250-252 | with `--fill-template`, the translation payload equals the source payload |
| Template.SourceLinesDistinct | rpt.py:249-251 | distinct texts get distinct source lines |
| Dedup.Payload | rpt.py:97 | the payload fits after the `< ` marker and does not end in whitespace |
| Dedup.PayloadDropsOnlySpaces | rpt.py:97 | the payload is the text after the marker up to a point, and only whitespace follows that point |
| Dedup.Norm | rpt.py:100 | the rewrite leaves a line without `\n` unchanged, and every newline it leaves ends a CRLF pair |
| Dedup.CrlfOnly | rpt.py:100 | after replacing `\n` by `\r\n`, every newline is preceded by a carriage return |
| Dedup.KeptIndices | rpt.py:94-118 | the surviving positions are increasing, each survives, and every surviving position is listed |
| Dedup.Deduplicate | rpt.py:85-121 | the output is exactly the surviving lines, in input order, each with `\n` rewritten as `\r\n` |
| Dedup.CopyRecord | rpt.py:98-110 | copying a source line with a new payload, its `>` line and its blank lines emits exactly the surviving lines up to where it stops, adds the payload to `seen`, and stops at a line that is not in a dropped run |
| Dedup.CopyBlankRun | rpt.py:107-110 | the blank lines after a kept record are copied up to the first non-blank line; the output stays the surviving lines so far, `seen` is unchanged, and the line it stops at is not in a dropped run |
| Dedup.SkipDroppedRun | rpt.py:111-115 | every `>` or blank line after a repeated source line is passed over; no surviving line is skipped, `seen` is unchanged, and the line it stops at is neither `>` nor blank nor in a dropped run |
| Dedup.FirstSourceKept | rpt.py:96-100 | a source line whose payload is not in `seen` survives and adds its payload to `seen` |
| Dedup.TranslationKept | rpt.py:102-104 | the `>` line right after a surviving source line survives and leaves `seen` unchanged |
| Dedup.RepeatedSourceDropped | rpt.py:96-113 | a source line whose payload is in `seen` is dropped and leaves `seen` unchanged |
| Dedup.OtherLineStep | rpt.py:116-118 | a line that is neither a source line nor dropped is written CRLF-terminated, the output stays the surviving lines so far, `seen` is unchanged, and the next line is not in a dropped run |
| Dedup.OtherLineKept | rpt.py:116-118 | a line that is not a source line and not in a dropped run survives and leaves `seen` unchanged |
| Dedup.KeptAfterKept | rpt.py:102-110 | a line that is not a source line and follows a surviving line survives |
| Dedup.NotDroppedAfterKept | rpt.py:107-110 | the line after a surviving line is never in a dropped run |
| Dedup.BlankLineKept | rpt.py:108-110 | a blank line after a surviving line survives and leaves `seen` unchanged |
| Dedup.DroppedLineStep | rpt.py:114-115 | a `>` or blank line after a dropped line is dropped, is not a source line, and leaves `seen` unchanged |
| Dedup.SourceNotTransOrBlank | rpt.py:114 | a source line is neither a `>` line nor blank, so a skip never passes over one |
| Dedup.NotSourceWhenTranslation | rpt.py:102 | a `>` line is not a source line |
| Dedup.NotSourceWhenBlank | rpt.py:108 | a blank line is not a source line |
| Dedup.PlainLineKept | rpt.py:116-118 | a line that is neither a source line nor a `>` or blank line always survives |
| Dedup.SeenPayloadsIff | rpt.py:97-99 | `seen` holds exactly the payloads of the earlier source lines |
| Dedup.KeptSourceIffFirst | rpt.py:96-99 | a source line survives exactly when no earlier source line has its payload |
| Dedup.KeptSourcesDistinct | rpt.py:96-99 | two surviving source lines never share a payload |
| Dedup.CarrierKept | rpt.py:96-100 | every payload among the first lines survives on some source line |
| Dedup.FirstCarrierKept | rpt.py:96-100 | the first source line with a payload survives, and no later one with that payload does |
| Dedup.PayloadsRetained | rpt.py:96-100 | every payload of the input survives on some source line |
| Dedup.InDroppedTailIff | rpt.py:111-115 | a line is dropped with a repeated record exactly when a repeated source line precedes it with only `>` and blank lines in between |
| Dedup.DroppedRunStart | rpt.py:111-115 | every line of a dropped run has a repeated source line before it with only `>` and blank lines in between |
| Dedup.DroppedAfterRepeated | rpt.py:111-115 | every line of a run of `>` and blank lines after a repeated source line is in a dropped run |
| Dedup.RepeatedRecordDropped | rpt.py:111-115 | a repeated source line and every `>` or blank line after it are dropped |
| Dedup.KeptRecordStays | rpt.py:98-118 | after a surviving source line, every line up to the next source line survives |
| Dedup.KeptIsSubsequence | rpt.py:94-118 | the surviving lines are the input lines at the surviving positions, in order |
| Dedup.KeptPayloadsDistinct | rpt.py:85-121 | no two surviving source lines share a payload |
| Dedup.RStripLineEnding | rpt.py:97 | `rstrip` removes a trailing LF or CRLF and nothing more than it would remove without it |
| Dedup.NormKeepsPayload | rpt.py:97-100 | for a line whose only newline is at its end, the CRLF rewrite keeps whether it is a source line and its payload |
| Dedup.OutputPayloadsDistinct | rpt.py:85-121 | no two source lines of the written output share a payload |
| Dedup.KeptAll | rpt.py:94-118 | when every line survives, the output is the input |
| Dedup.NoRepeatsKeepsAll | rpt.py:94-118 | input without repeated payloads passes through whole |
| Dedup.SecondPassKeepsAll | rpt.py:85-121 | a second pass over what the first pass kept keeps all of it, so running the pass twice equals running it once |
| Dedup.ReadBackNorm | rpt.py:91-100 | a line read with universal newlines, written with CRLF and read again, comes back unchanged |
| Pipeline.AllDialogues | rpt.py:231-233 | when every script decodes, every text of every script is stripped |
| Pipeline.StrippedConcat | rpt.py:231-233 | appending the stripped texts of one script to stripped texts keeps every text stripped |
| Pipeline.JoinAllNoneIff | rpt.py:231-233 | joining per-script results fails exactly when one of them failed |
| Pipeline.AllDialoguesJoin | rpt.py:231-233 | the dialogue over the scripts is the per-script dialogue joined in script order |
| Pipeline.AllDialoguesNoneIff | rpt.py:231-233 | the dialogue over the scripts is missing exactly when some script has a body the codec rejects |
| Pipeline.AllDialoguesStep | rpt.py:231-233 | one more decodable script extends the collected texts by exactly that script's dialogue |
| Pipeline.ExtractAll | rpt.py:230-233 | the loop over the scripts returns the dialogue over all of them, and stops with no result at the first script that cannot be decoded |
| Pipeline.Generate | rpt.py:222-255 | it fails with NoScripts, NoCharacters, CannotDecode or NoDialogue exactly when there is no script, no definition, a dialogue body the codec rejects, or no non-empty text. Otherwise the names are the first occurrences of the defined names, the texts are the first occurrences of the non-empty extracted texts, the records are three lines per text, and, with each written line read back as that line plus its newline, dedup keeps every record line |
| Pipeline.SourcePayload | rpt.py:97 | for a record's source line, the payload `deduplicate_rpt` compares is the quoted text |
| Dedup.NormTerminated | rpt.py:100 | a written record line that is read back and normalised is the line with CRLF |
| Pipeline.OtherLinesNotSource | rpt.py:250-252 | a record's translation line and its blank line never read back as source lines |
| Pipeline.RecordKinds | rpt.py:249-252 | for one stripped non-empty text, no record line holds a newline; read back, the source line is a source line whose payload is the quoted text, and the translation and blank lines are not source lines |
| Pipeline.RecordAt | rpt.py:248-252 | line `3k + r` of the records is line `r` of the record of text `k` |
| Pipeline.RecordLineKinds | rpt.py:249-252 | read back, line 0 of a record is the only source line, its payload is the quoted text, and no line holds a newline |
| Pipeline.RecordLineKind | rpt.py:249-252 | only the first line of each record is a source line, and its payload is the quoted text |
| Pipeline.RecordsSurviveDedup | rpt.py:247-255 | `deduplicate_rpt` keeps every line of the records written for distinct, stripped, non-empty texts, and writes each line back as it was written |

## Left out

- The command line is not modelled: `argparse`, `glob` discovery, moving `script.rpy` to the front, the `print` messages and the `sys.exit` texts (rpt.py:123-150, 216-220, 257-258). `Generate` takes the script texts in the order they are processed, and returns the fatal exits and the codec's exception as `Failure` values.
- File I/O is not modelled: opening, reading and writing files (rpt.py:29, 55, 79-80, 91-92, 120-121, 157, 214, 247). Text is given as strings and the template as a sequence of lines. The universal-newline reading of the template is modelled only by `Dedup.UniversalNewlines` and `Pipeline.Terminated`, which reads each written line back as that line plus its newline.
- The `screens.rpy` section of the template is not modelled (rpt.py:152-214). `extract_screen_texts` is modelled, but writing its records with LF endings is not. The hard-coded empty-slot, quit-prompt and joystick strings are static data, also not modelled. `Generate` therefore describes a run without `screens.rpy`, where the template starts empty.
- The `unicode_escape` codec (rpt.py:59) is a function parameter `decode`, not a model of the codec. It returns None for a body the codec rejects (a truncated `\x` escape, an unknown `\N{...}` name). The uncaught `UnicodeDecodeError` that then ends the run is the outcome `Failed(CannotDecode)`; the traceback itself is not modelled.
- `\w` is modelled as ASCII letters, digits and `_`. Python's `\w` on `str` also matches non-ASCII letters, so a name containing them is not recognised by the model.
- `build_patterns` (rpt.py:36-49) is not modelled as a regex compiler. `re.escape` and the general regex engine are replaced by the scanners described above.
- Dialogue.ExtractDialogues: requires the names to be non-empty identifiers. This always holds for the names `gather_char_names` returns. It means `^\s*` never has to give back a space for a name to match, so the leading whitespace run can be taken whole.
- Some loops are split into helper methods: the inner loop of `gather_char_names` (`AddNewNames`), the two inner loops of `deduplicate_rpt` (`CopyBlankRun`, `SkipDroppedRun`), the three loops of `extract_dialogues`, and the loop over the scripts in `main` (`ExtractAll`). They keep the same iteration order and state.
- Pipeline.RecordsSurviveDedup, Pipeline.Generate: take each written line to read back as that line plus `\n`. A text containing a carriage return breaks this: `quote` leaves the carriage return unescaped, so the line would read back as two lines. Neither the lemma nor the dedup clause of `Generate` covers that case.
- Record boundaries in `deduplicate_rpt` follow the code, not the shorter description of a record as one `>` line plus blank lines:
  - After a repeated source line, the code (rpt.py:114) skips every following line that starts with `>` or is blank, in any mix.
  - After a kept source line, later `>` lines pass through the outer loop (rpt.py:116-118). `KeptRecordStays` states this.
