/**
 * The names of the files the processing engine writes
 * (backend/app/video_processor/service.py, `_detect_style`, `_extract_title`
 * and `_cleanup_title`): which engine style a file holds, and the video
 * title its name carries.
 */
module OutputFiles {
  import opened Results
  import opened Text
  import opened Schemas

  /** An entry of the scratch directory: its name, whether it is a regular file, and its text. */
  datatype DirEntry = DirEntry(name: string, isFile: bool, content: string)

  /** The engine style's lower-case name occurs in the lower-cased file name. */
  predicate StyleInName(filename: string, style: string) {
    Contains(Lower(filename), Lower(style))
  }

  /** The first of `names` at index `i` or later that `filename` names. */
  function FirstNamedFrom(filename: string, names: seq<string>, i: nat): (r: Option<string>)
    requires i <= |names|
    ensures r.None? ==> forall j :: i <= j < |names| ==> !StyleInName(filename, names[j])
    ensures r.Some? ==> exists j :: (i <= j < |names| && names[j] == r.value &&
      StyleInName(filename, r.value) && forall k :: i <= k < j ==> !StyleInName(filename, names[k]))
    decreases |names| - i
  {
    if i == |names| then None
    else if StyleInName(filename, names[i]) then Some(names[i])
    else FirstNamedFrom(filename, names, i + 1)
  }

  /** The first engine style, in catalog order, that `filename` names. */
  function FirstStyle(filename: string): Option<string> {
    FirstNamedFrom(filename, EngineStyles(), 0)
  }

  /** `_detect_style`: scans the catalog in order and returns the first style named in the file name. */
  method DetectStyle(filename: string) returns (style: Option<string>)
    ensures style == FirstStyle(filename)
    ensures style.None? ==> forall j :: 0 <= j < |EngineStyles()| ==> !StyleInName(filename, EngineStyles()[j])
    ensures style.Some? ==> style.value in EngineStyles() && StyleInName(filename, style.value)
  {
    var lowerName := Lower(filename);
    var names := EngineStyles();
    var i := 0;
    while i < |names|
      invariant 0 <= i <= |names|
      invariant FirstNamedFrom(filename, names, i) == FirstStyle(filename)
    {
      if Contains(lowerName, Lower(names[i])) {
        return Some(names[i]);
      }
      i := i + 1;
    }
    return None;
  }

  /** Python's `name.rfind(c)`. */
  function LastIndexOf(s: string, c: char): (r: int)
    ensures -1 <= r < |s|
    ensures r >= 0 ==> s[r] == c && forall k :: r < k < |s| ==> s[k] != c
    ensures r == -1 ==> c !in s
  {
    if s == [] then -1
    else if s[|s| - 1] == c then |s| - 1
    else LastIndexOf(s[..|s| - 1], c)
  }

  /** `Path.stem`: the name without its final suffix; a leading or trailing dot starts none. */
  function Stem(name: string): (r: string)
    ensures StartsWith(name, r)
    ensures r != name ==> 0 < |r| < |name| - 1 && name[|r|] == '.' && '.' !in name[|r| + 1..]
    ensures r == name <==> !exists k :: 0 < k < |name| - 1 && name[k] == '.' && '.' !in name[k + 1..]
  {
    var i := LastIndexOf(name, '.');
    if 0 < i < |name| - 1 then
      name[..i]
    else
      assert !exists k :: 0 < k < |name| - 1 && name[k] == '.' && '.' !in name[k + 1..] by {
        forall k | 0 < k < |name| - 1 && name[k] == '.' ensures '.' in name[k + 1..] {
          assert name[k] in name;
          assert name[k + 1..][i - k - 1] == '.';
        }
      }
      name
  }

  /** A name with a non-empty, dot-free extension after a non-empty stem loses exactly that extension. */
  lemma StemOfSuffixed(stem: string, ext: string)
    requires stem != "" && ext != "" && '.' !in ext
    ensures Stem(stem + "." + ext) == stem
  {
    var name := stem + "." + ext;
    assert name[|stem| + 1..] == ext;
    var r := Stem(name);
    assert 0 < |stem| < |name| - 1 && name[|stem|] == '.' && '.' !in name[|stem| + 1..];
    assert name[..|stem|] == stem;
  }

  const TitleSeparators: set<char> := {' ', '-', '_'}

  /** Each underscore and each hyphen of `value` replaced by a space, everything else kept. */
  function SpacedOut(value: string): (r: string)
    ensures |r| == |value|
    ensures forall i :: 0 <= i < |value| ==> r[i] == if value[i] in {'_', '-'} then ' ' else value[i]
  {
    ReplaceChar(ReplaceChar(value, '_', ' '), '-', ' ')
  }

  /** `r` is the slice of `value` at `a` with its underscores and hyphens spaced out; only blanks, `_` and `-` lie outside it. */
  predicate SpacedSliceAt(value: string, r: string, a: int) {
    0 <= a <= |value| - |r| && r == SpacedOut(value[a..a + |r|]) &&
    (forall k :: 0 <= k < a ==> value[k] in PyWhitespace + {'_', '-'}) &&
    (forall k :: a + |r| <= k < |value| ==> value[k] in PyWhitespace + {'_', '-'})
  }

  /**
   * `_cleanup_title`: underscores and hyphens become spaces, then the ends are
   * stripped. What is left is one slice of the title, spaced out, with nothing
   * but whitespace, underscores and hyphens cut from either end.
   */
  function CleanupTitle(value: string): (r: string)
    ensures '_' !in r && '-' !in r
    ensures r != [] ==> r[0] !in PyWhitespace && r[|r| - 1] !in PyWhitespace
    ensures exists a :: SpacedSliceAt(value, r, a)
  {
    CleanupIsSlice(value);
    PyStrip(SpacedOut(value))
  }

  lemma CleanupIsSlice(value: string)
    ensures exists a :: SpacedSliceAt(value, PyStrip(SpacedOut(value)), a)
  {
    var c := SpacedOut(value);
    var r := PyStrip(c);
    var a :| SliceWithin(c, r, a, PyWhitespace);
    SpacedSliceOfStrip(value, c, r, a);
  }

  /** A slice of the spaced-out title with only blanks outside it is a spaced-out slice of the title. */
  lemma SpacedSliceOfStrip(value: string, c: string, r: string, a: int)
    requires c == SpacedOut(value) && SliceWithin(c, r, a, PyWhitespace)
    ensures SpacedSliceAt(value, r, a)
  {
    SpacedOutOfSlice(value, a, a + |r|);
    forall k | 0 <= k < a || a + |r| <= k < |value| ensures value[k] in PyWhitespace + {'_', '-'} {
      SpacedOutBlank(value, k);
    }
  }

  /** Spacing out commutes with slicing. */
  lemma SpacedOutOfSlice(value: string, a: int, b: int)
    requires 0 <= a <= b <= |value|
    ensures SpacedOut(value)[a..b] == SpacedOut(value[a..b])
  {
    var c := SpacedOut(value);
    forall i | 0 <= i < b - a ensures c[a..b][i] == SpacedOut(value[a..b])[i] {
      assert c[a..b][i] == c[a + i];
    }
  }

  /** A blank in the spaced-out title was a blank, an underscore or a hyphen. */
  lemma SpacedOutBlank(value: string, k: int)
    requires 0 <= k < |value| && SpacedOut(value)[k] in PyWhitespace
    ensures value[k] in PyWhitespace + {'_', '-'}
  {
  }

  /** `needle` occurs at `i` in `hay` and nowhere before. */
  predicate FirstOccurrence(needle: string, hay: string, i: int) {
    OccursAt(needle, hay, i) && forall j :: 0 <= j < i ==> !OccursAt(needle, hay, j)
  }

  /**
   * `_extract_title`: the text of the stem before the first case-insensitive
   * occurrence of the style name, without trailing separators; the whole stem
   * when the name does not occur or nothing is left before it. Either way
   * the result is cleaned up.
   */
  function ExtractTitle(stem: string, apiStyle: string): (r: string)
    ensures '_' !in r && '-' !in r
  {
    var index := Find(Lower(stem), Lower(apiStyle));
    if index == -1 then CleanupTitle(stem)
    else
      var titlePart := TrimEnd(stem[..index], TitleSeparators);
      CleanupTitle(if titlePart == "" then stem else titlePart)
  }

  /** The title cut off before the first case-insensitive occurrence `i` of the style name. */
  function TitleBefore(stem: string, i: nat): string
    requires i <= |stem|
  {
    var titlePart := TrimEnd(stem[..i], TitleSeparators);
    CleanupTitle(if titlePart == "" then stem else titlePart)
  }

  /** Without an occurrence of the style name the whole stem is the title; otherwise the text before the first one. */
  lemma ExtractTitleCases(stem: string, apiStyle: string)
    ensures (forall i :: !OccursAt(Lower(apiStyle), Lower(stem), i)) ==> ExtractTitle(stem, apiStyle) == CleanupTitle(stem)
    ensures forall i :: FirstOccurrence(Lower(apiStyle), Lower(stem), i) ==>
      i <= |stem| && ExtractTitle(stem, apiStyle) == TitleBefore(stem, i)
  {
    var hay := Lower(stem);
    var needle := Lower(apiStyle);
    var index := Find(hay, needle);
    assert |hay| == |stem|;
    forall i | FirstOccurrence(needle, hay, i)
      ensures i <= |stem| && ExtractTitle(stem, apiStyle) == TitleBefore(stem, i)
    {
      assert index != -1;
      assert !(index < i);
      assert index == i;
    }
  }

  lemma ReplaceAbsent(s: string, a: char, b: char)
    requires a !in s
    ensures ReplaceChar(s, a, b) == s
  {
  }

  /**
   * A title written before the style name, as in `"My Talk - Summary"`,
   * is what extraction gives back, provided the style name does not occur earlier.
   */
  lemma ExtractTitleRoundTrip(title: string, style: string)
    requires title != [] && '_' !in title && '-' !in title
    requires title[0] !in PyWhitespace && title[|title| - 1] !in PyWhitespace
    requires forall j :: 0 <= j < |title| + 3 ==> !OccursAt(Lower(style), Lower(title + " - " + style), j)
    ensures ExtractTitle(title + " - " + style, style) == title
  {
    var stem := title + " - " + style;
    var n := |title| + 3;
    assert stem[n..] == style;
    assert Lower(stem)[n..n + |style|] == Lower(style);
    assert OccursAt(Lower(style), Lower(stem), n);
    var index := Find(Lower(stem), Lower(style));
    assert index == n;
    assert stem[..index] == title + " - ";
    assert title[|title| - 1] in title;
    TrimEndSuffix(title, " - ", TitleSeparators);
    ReplaceAbsent(title, '_', ' ');
    ReplaceAbsent(title, '-', ' ');
    assert TrimStart(title, PyWhitespace) == title;
    assert TrimEnd(title, PyWhitespace) == title;
  }

  /** Every engine style has a result key, and it is one of the five non-empty field names. */
  lemma ResultKeyOfEngineStyle(style: string)
    requires style in EngineStyles()
    ensures Lookup(ApiStyleToResultKey, style).Some?
    ensures Lookup(ApiStyleToResultKey, style).value in ResultFieldNames
    ensures Lookup(ApiStyleToResultKey, style).value != ""
  {
    var key := Lookup(ApiStyleToResultKey, style).value;
    ResultKeysAreFields();
    var j :| 0 <= j < |ApiStyleToResultKey| && ApiStyleToResultKey[j] == (style, key);
    assert ResultFieldNames[j] == key;
    FieldNamesNonEmpty();
  }

  lemma FieldNamesNonEmpty()
    ensures forall i :: 0 <= i < |ResultFieldNames| ==> ResultFieldNames[i] != ""
  {
  }

  /** What one directory entry contributes to the parse. */
  datatype FileRead = Skipped | Read(style: string, key: string, content: string, title: string)

  /**
   * One iteration of `_parse_outputs`: a regular file whose name names an
   * engine style contributes that style's result key, its stripped text and
   * the title its name carries. Every engine style has a non-empty result
   * key, so the key lookup never turns a file away.
   */
  function ReadEntry(e: DirEntry): (r: FileRead)
    ensures r.Read? <==> e.isFile && FirstStyle(e.name).Some?
    ensures r.Read? ==> r.style == FirstStyle(e.name).value && r.key in ResultFieldNames
    ensures r.Read? ==> Lookup(ApiStyleToResultKey, r.style) == Some(r.key)
    ensures r.Read? ==> r.content == PyStrip(e.content) && r.title == ExtractTitle(Stem(e.name), r.style)
  {
    if !e.isFile then Skipped
    else match FirstStyle(e.name)
      case None => Skipped
      case Some(style) =>
        ResultKeyOfEngineStyle(style);
        match Lookup(ApiStyleToResultKey, style)
        case None => Skipped
        case Some(key) =>
          if key == "" then Skipped
          else Read(style, key, PyStrip(e.content), ExtractTitle(Stem(e.name), style))
  }
}
