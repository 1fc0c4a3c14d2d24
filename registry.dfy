/**
 * `gather_char_names` (rpt.py:22-34): the short names of all characters
 * defined by `define NAME = Character(` or `$ NAME = Character(` lines, over
 * the scripts in the given order, each name once, in order of first definition.
 */
module Registry {
  import opened Wrappers
  import opened Text
  import opened Recognizers
  import opened Unique

  /** The names defined in one script, in document order (`DEFINE_RE.finditer`). */
  function DefinedNames(text: string): (r: seq<string>)
    ensures forall k :: 0 <= k < |r| ==> IsIdentifier(r[k])
  {
    CapturedNamesAreIdentifiers(text);
    Captures(FindAll(CharDefine, text))
  }

  /** The names defined in each script in turn, repeats included. */
  function AllDefinedNames(files: seq<string>): seq<string>
  {
    if files == [] then []
    else AllDefinedNames(files[..|files| - 1]) + DefinedNames(files[|files| - 1])
  }

  /** Every name DEFINE_RE captures is an identifier (`\w+`). */
  lemma CapturedNamesAreIdentifiers(text: string)
    ensures forall k :: 0 <= k < |Captures(FindAll(CharDefine, text))| ==> IsIdentifier(Captures(FindAll(CharDefine, text))[k])
  {
    var ms := FindAll(CharDefine, text);
    FindAllHits(CharDefine, text);
    forall k | 0 <= k < |ms| ensures IsIdentifier(ms[k].capture) {
      assert MatchDefine(text, ms[k].start) == Some(Hit(ms[k].from, ms[k].end, ms[k].capture));
    }
  }

  /** The lists of `parts` one after the other. */
  function Flatten(parts: seq<seq<string>>): seq<string>
    decreases |parts|
  {
    if parts == [] then [] else Flatten(parts[..|parts| - 1]) + parts[|parts| - 1]
  }

  /** A string is in the concatenation exactly when it is in one of the parts. */
  lemma {:induction false} FlattenMembership(parts: seq<seq<string>>, n: string)
    ensures n in Flatten(parts) <==> exists f :: 0 <= f < |parts| && n in parts[f]
    decreases |parts|
  {
    if parts != [] {
      var init := parts[..|parts| - 1];
      FlattenMembership(init, n);
      if n in Flatten(init) {
        var f :| 0 <= f < |init| && n in init[f];
        assert parts[f] == init[f];
      }
      if exists f :: 0 <= f < |parts| && n in parts[f] {
        var f :| 0 <= f < |parts| && n in parts[f];
        if f < |init| {
          assert init[f] == parts[f];
        }
      }
    }
  }

  /** The names each script defines, script by script. */
  function PerScript(files: seq<string>): (r: seq<seq<string>>)
    ensures |r| == |files| && forall f :: 0 <= f < |files| ==> r[f] == DefinedNames(files[f])
  {
    seq(|files|, f requires 0 <= f < |files| => DefinedNames(files[f]))
  }

  /** Listing the names over the scripts is concatenating the lists of the single scripts. */
  lemma {:induction false} AllDefinedNamesFlatten(files: seq<string>)
    ensures AllDefinedNames(files) == Flatten(PerScript(files))
    decreases |files|
  {
    if files != [] {
      var init := files[..|files| - 1];
      AllDefinedNamesFlatten(init);
      assert PerScript(files)[..|files| - 1] == PerScript(init);
    }
  }

  /** A name is listed over several scripts exactly when some script defines it. */
  lemma AllDefinedNamesMembership(files: seq<string>, n: string)
    ensures n in AllDefinedNames(files) <==> exists f :: 0 <= f < |files| && n in DefinedNames(files[f])
  {
    var parts := PerScript(files);
    AllDefinedNamesFlatten(files);
    FlattenMembership(parts, n);
    if exists f :: 0 <= f < |files| && n in DefinedNames(files[f]) {
      var f :| 0 <= f < |files| && n in DefinedNames(files[f]);
      assert n in parts[f];
    }
  }

  /** Every name found over several scripts is an identifier. */
  lemma {:induction false} AllDefinedNamesAreIdentifiers(files: seq<string>)
    ensures forall k :: 0 <= k < |AllDefinedNames(files)| ==> IsIdentifier(AllDefinedNames(files)[k])
    decreases |files|
  {
    if files != [] {
      AllDefinedNamesAreIdentifiers(files[..|files| - 1]);
    }
  }

  /**
   * The inner loop of `gather_char_names`: append each name of `found` that
   * is not in `names` yet. With `names` the first occurrences of `prefix`,
   * the result is the first occurrences of `prefix + found`.
   */
  method AddNewNames(names: seq<string>, ghost prefix: seq<string>, found: seq<string>) returns (r: seq<string>)
    requires names == FirstOccurrences(prefix)
    ensures r == FirstOccurrences(prefix + found)
  {
    r := names;
    assert prefix + found[..0] == prefix;
    for j := 0 to |found|
      invariant r == FirstOccurrences(prefix + found[..j])
    {
      var short := found[j];
      ghost var seen := prefix + found[..j];
      assert found[..j + 1] == found[..j] + [short];
      assert prefix + found[..j + 1] == seen + [short];
      FirstOccurrencesSnoc(seen, short);
      if short !in r {
        r := r + [short];
      }
    }
    assert found[..|found|] == found;
  }

  /**
   * `gather_char_names` over the texts of the scripts: for each script, the
   * names its define lines capture are appended unless already listed.
   */
  method GatherCharNames(files: seq<string>) returns (names: seq<string>)
    ensures names == FirstOccurrences(AllDefinedNames(files))
    ensures NoDuplicates(names)
    ensures forall n :: n in names <==> exists f :: 0 <= f < |files| && n in DefinedNames(files[f])
    ensures forall k :: 0 <= k < |names| ==> IsIdentifier(names[k])
  {
    names := [];
    for f := 0 to |files|
      invariant names == FirstOccurrences(AllDefinedNames(files[..f]))
    {
      names := AddNewNames(names, AllDefinedNames(files[..f]), DefinedNames(files[f]));
      assert files[..f + 1][..f] == files[..f];
    }
    assert files[..|files|] == files;
    forall n ensures n in names <==> exists f :: 0 <= f < |files| && n in DefinedNames(files[f]) {
      AllDefinedNamesMembership(files, n);
    }
    AllDefinedNamesAreIdentifiers(files);
    forall k | 0 <= k < |names| ensures IsIdentifier(names[k]) {
      var all := AllDefinedNames(files);
      assert names[k] in all;
      var i :| 0 <= i < |all| && all[i] == names[k];
    }
  }
}
