/**
 * Reading back what the processing engine wrote
 * (backend/app/video_processor/service.py, `_parse_outputs`): each regular
 * file whose name mentions an engine style becomes the text of that style's
 * result, and the first file that yields a title names the video. The
 * directory is given as its list of entries in sorted order.
 */
module OutputParser {
  import opened Results
  import opened Text
  import opened Schemas
  import opened OutputFiles

  /** What each entry of the directory contributes, in listing order. */
  function ReadAll(dir: seq<DirEntry>): (r: seq<FileRead>)
    ensures |r| == |dir| && forall i :: 0 <= i < |dir| ==> r[i] == ReadEntry(dir[i])
  {
    seq(|dir|, i requires 0 <= i < |dir| => ReadEntry(dir[i]))
  }

  /** The results map after the reads, in order: a later read of a key overwrites. */
  function ResultsOf(rs: seq<FileRead>): map<string, string> {
    if rs == [] then map[]
    else
      var prev := ResultsOf(rs[..|rs| - 1]);
      var r := rs[|rs| - 1];
      if r.Read? then prev[r.key := r.content] else prev
  }

  /** The title after the reads, in order: set by a read while it is still empty. */
  function TitleOf(rs: seq<FileRead>): string {
    if rs == [] then ""
    else
      var prev := TitleOf(rs[..|rs| - 1]);
      var r := rs[|rs| - 1];
      if r.Read? && prev == "" then r.title else prev
  }

  function ParsedResults(dir: seq<DirEntry>): map<string, string> {
    ResultsOf(ReadAll(dir))
  }

  function ParsedTitle(dir: seq<DirEntry>): string {
    TitleOf(ReadAll(dir))
  }

  /** The loop body's tests for one entry: a regular file, a detected style, a non-empty result key. */
  method ReadOne(entry: DirEntry) returns (r: FileRead)
    ensures r == ReadEntry(entry)
  {
    if !entry.isFile {
      return Skipped;
    }
    var apiStyle := DetectStyle(entry.name);
    if apiStyle.None? {
      return Skipped;
    }
    var resultKey := Lookup(ApiStyleToResultKey, apiStyle.value);
    if resultKey.None? || resultKey.value == "" {
      return Skipped;
    }
    return Read(apiStyle.value, resultKey.value, PyStrip(entry.content), ExtractTitle(Stem(entry.name), apiStyle.value));
  }

  /** `_parse_outputs`, over the directory listing in sorted order. */
  method ParseOutputs(dir: seq<DirEntry>) returns (results: map<string, string>, videoTitle: string)
    ensures results == ParsedResults(dir) && videoTitle == ParsedTitle(dir)
    ensures forall k :: k in results ==> k in ResultFieldNames
  {
    ghost var rs := ReadAll(dir);
    results := map[];
    videoTitle := "";
    var i := 0;
    while i < |dir|
      invariant 0 <= i <= |dir|
      invariant results == ResultsOf(rs[..i]) && videoTitle == TitleOf(rs[..i])
    {
      var r := ReadOne(dir[i]);
      FoldSnoc(rs, i);
      if r.Read? {
        results := results[r.key := r.content];
        if videoTitle == "" {
          videoTitle := r.title;
        }
      }
      i := i + 1;
    }
    assert rs[..|dir|] == rs;
    ParsedKeysAreFields(dir);
  }

  /** One more read, as the loop body applies it. */
  lemma FoldSnoc(rs: seq<FileRead>, i: nat)
    requires i < |rs|
    ensures ResultsOf(rs[..i + 1]) == if rs[i].Read? then ResultsOf(rs[..i])[rs[i].key := rs[i].content] else ResultsOf(rs[..i])
    ensures TitleOf(rs[..i + 1]) == if rs[i].Read? && TitleOf(rs[..i]) == "" then rs[i].title else TitleOf(rs[..i])
  {
    assert rs[..i + 1][..i] == rs[..i];
  }

  /** A key is present exactly when some read contributes to it. */
  lemma {:induction false} ResultsKeys(rs: seq<FileRead>, k: string)
    ensures k in ResultsOf(rs) <==> exists i :: 0 <= i < |rs| && rs[i].Read? && rs[i].key == k
    decreases |rs|
  {
    if rs != [] {
      var init := rs[..|rs| - 1];
      ResultsKeys(init, k);
      if exists i :: 0 <= i < |rs| && rs[i].Read? && rs[i].key == k {
        var i :| 0 <= i < |rs| && rs[i].Read? && rs[i].key == k;
        if i < |rs| - 1 {
          assert init[i] == rs[i];
        }
      }
      if exists i :: 0 <= i < |init| && init[i].Read? && init[i].key == k {
        var i :| 0 <= i < |init| && init[i].Read? && init[i].key == k;
        assert rs[i] == init[i];
      }
    }
  }

  /** The last read of a key decides its content. */
  lemma {:induction false} ResultsLastWins(rs: seq<FileRead>, i: nat)
    requires i < |rs| && rs[i].Read?
    requires forall j :: i < j < |rs| && rs[j].Read? ==> rs[j].key != rs[i].key
    ensures rs[i].key in ResultsOf(rs) && ResultsOf(rs)[rs[i].key] == rs[i].content
    decreases |rs|
  {
    if i < |rs| - 1 {
      var init := rs[..|rs| - 1];
      assert init[i] == rs[i];
      ResultsLastWins(init, i);
    }
  }

  /** The title is the first non-empty title among the reads, or empty when there is none. */
  lemma {:induction false} TitleIsFirst(rs: seq<FileRead>)
    ensures TitleOf(rs) == "" <==> forall i :: 0 <= i < |rs| && rs[i].Read? ==> rs[i].title == ""
    ensures TitleOf(rs) != "" ==> exists i :: (0 <= i < |rs| && rs[i].Read? &&
      rs[i].title == TitleOf(rs) &&
      forall j :: 0 <= j < i && rs[j].Read? ==> rs[j].title == "")
    decreases |rs|
  {
    if rs != [] {
      var init := rs[..|rs| - 1];
      TitleIsFirst(init);
      assert forall i :: 0 <= i < |init| ==> init[i] == rs[i];
      if TitleOf(init) != "" {
        var i :| 0 <= i < |init| && init[i].Read? && init[i].title == TitleOf(init) &&
          forall j :: 0 <= j < i && init[j].Read? ==> init[j].title == "";
        assert rs[i].title == TitleOf(rs);
      }
    }
  }

  /** Every key of the parsed results is one of the five result fields. */
  lemma ParsedKeysAreFields(dir: seq<DirEntry>)
    ensures forall k :: k in ParsedResults(dir) ==> k in ResultFieldNames
  {
    var rs := ReadAll(dir);
    forall k | k in ResultsOf(rs) ensures k in ResultFieldNames {
      ResultsKeys(rs, k);
    }
  }

  /** A key is present exactly when some regular file names a style with that result key. */
  lemma ParsedKeysFromEntries(dir: seq<DirEntry>, k: string)
    ensures k in ParsedResults(dir) <==>
      exists i :: 0 <= i < |dir| && ReadEntry(dir[i]).Read? && ReadEntry(dir[i]).key == k
  {
    ResultsKeys(ReadAll(dir), k);
  }

  /** The last file contributing to a key decides its content, stored stripped. */
  lemma ParsedLastWins(dir: seq<DirEntry>, i: nat)
    requires i < |dir| && ReadEntry(dir[i]).Read?
    requires forall j :: i < j < |dir| && ReadEntry(dir[j]).Read? ==> ReadEntry(dir[j]).key != ReadEntry(dir[i]).key
    ensures ReadEntry(dir[i]).key in ParsedResults(dir)
    ensures ParsedResults(dir)[ReadEntry(dir[i]).key] == PyStrip(dir[i].content)
  {
    ResultsLastWins(ReadAll(dir), i);
  }

  /** The title comes from the first contributing file whose name yields a non-empty title. */
  lemma ParsedTitleIsFirst(dir: seq<DirEntry>)
    ensures ParsedTitle(dir) == "" <==>
      forall i :: 0 <= i < |dir| && ReadEntry(dir[i]).Read? ==> ReadEntry(dir[i]).title == ""
    ensures ParsedTitle(dir) != "" ==> exists i :: (0 <= i < |dir| && ReadEntry(dir[i]).Read? &&
      ReadEntry(dir[i]).title == ParsedTitle(dir) &&
      forall j :: 0 <= j < i && ReadEntry(dir[j]).Read? ==> ReadEntry(dir[j]).title == "")
  {
    TitleIsFirst(ReadAll(dir));
  }
}
