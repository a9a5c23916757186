/**
 * The style catalog and the request and result records of the video
 * processing endpoint (backend/app/video_processor/schemas.py).
 *
 * Python dictionaries keep insertion order, and the service iterates over
 * them, so each of the two tables is an ordered list of (key, value) pairs.
 */
module Schemas {
  import opened Results

  type Table = seq<(string, string)>

  /** The user-facing style names a request may carry, in declaration order. */
  const AllowedStyles: seq<string> :=
    ["Summary", "Educational", "Balanced", "QA Generation", "Narrative"]

  /** User-facing style name to the name the processing engine understands. */
  const RequestToApiStyle: Table := [
    ("Summary", "Summary"),
    ("Educational", "Educational"),
    ("Balanced", "Balanced and Detailed"),
    ("QA Generation", "Q&A Generation"),
    ("Narrative", "Narrative Rewriting")
  ]

  /** Engine-facing style name to the field of the results record. */
  const ApiStyleToResultKey: Table := [
    ("Summary", "summary"),
    ("Educational", "educational"),
    ("Balanced and Detailed", "balanced"),
    ("Q&A Generation", "qa_generation"),
    ("Narrative Rewriting", "narrative")
  ]

  /** The names of the five optional fields of the results record, in declaration order. */
  const ResultFieldNames: seq<string> :=
    ["summary", "educational", "balanced", "qa_generation", "narrative"]

  function Keys(t: Table): (r: seq<string>)
    ensures |r| == |t| && forall i :: 0 <= i < |t| ==> r[i] == t[i].0
  {
    if t == [] then [] else Keys(t[..|t| - 1]) + [t[|t| - 1].0]
  }

  function Values(t: Table): (r: seq<string>)
    ensures |r| == |t| && forall i :: 0 <= i < |t| ==> r[i] == t[i].1
  {
    if t == [] then [] else Values(t[..|t| - 1]) + [t[|t| - 1].1]
  }

  predicate Distinct(s: seq<string>) {
    forall i, j :: 0 <= i < j < |s| ==> s[i] != s[j]
  }

  /** `t.get(k)`: the value stored under `k` (the last pair wins, as in a dict literal). */
  function Lookup(t: Table, k: string): (r: Option<string>)
    ensures r.None? <==> k !in Keys(t)
    ensures r.Some? ==> exists i :: 0 <= i < |t| && t[i] == (k, r.value)
  {
    if t == [] then None
    else if t[|t| - 1].0 == k then Some(t[|t| - 1].1)
    else Lookup(t[..|t| - 1], k)
  }

  /** `{value: key for key, value in t.items()}`: later pairs overwrite earlier ones. */
  function Invert(t: Table): (m: map<string, string>)
    ensures m.Keys == set i | 0 <= i < |t| :: t[i].1
  {
    if t == [] then map[] else Invert(t[..|t| - 1])[t[|t| - 1].1 := t[|t| - 1].0]
  }

  /** When no two keys share a value, the inverse sends each value back to its key. */
  lemma {:induction false} InvertDistinct(t: Table, i: nat)
    requires Distinct(Values(t)) && i < |t|
    ensures t[i].1 in Invert(t) && Invert(t)[t[i].1] == t[i].0
    decreases |t|
  {
    var init := t[..|t| - 1];
    if i < |t| - 1 {
      assert Values(init) == Values(t)[..|t| - 1];
      InvertDistinct(init, i);
      assert Values(t)[i] != Values(t)[|t| - 1];
    }
  }

  /** With distinct keys, `Lookup` finds the value paired with a key. */
  lemma {:induction false} LookupDistinct(t: Table, i: nat)
    requires Distinct(Keys(t)) && i < |t|
    ensures Lookup(t, t[i].0) == Some(t[i].1)
    decreases |t|
  {
    var init := t[..|t| - 1];
    if i < |t| - 1 {
      assert Keys(init) == Keys(t)[..|t| - 1];
      assert Keys(t)[i] != Keys(t)[|t| - 1];
      LookupDistinct(init, i);
    }
  }

  /** The request-style list is the key list of the translation table, in the same order. */
  lemma AllowedStylesAreTableKeys()
    ensures AllowedStyles == Keys(RequestToApiStyle)
  {
  }

  /** Every engine-facing name has a result key, and no other name has one. */
  lemma TableValuesAreResultKeys()
    ensures Values(RequestToApiStyle) == Keys(ApiStyleToResultKey)
  {
  }

  /** The translation is injective, so the service's inverse table is well defined. */
  lemma TablesAreInjective()
    ensures Distinct(Keys(RequestToApiStyle)) && Distinct(Values(RequestToApiStyle))
    ensures Distinct(Keys(ApiStyleToResultKey)) && Distinct(Values(ApiStyleToResultKey))
  {
    RequestTableInjective();
    ResultTableInjective();
  }

  lemma RequestTableInjective()
    ensures Distinct(Keys(RequestToApiStyle)) && Distinct(Values(RequestToApiStyle))
  {
    DistinctHeads(Keys(RequestToApiStyle));
    DistinctHeads(Values(RequestToApiStyle));
  }

  lemma ResultTableInjective()
    ensures Distinct(Keys(ApiStyleToResultKey)) && Distinct(Values(ApiStyleToResultKey))
  {
    DistinctHeads(Keys(ApiStyleToResultKey));
    DistinctHeads(Values(ApiStyleToResultKey));
  }

  /** Strings that start with different characters are different. */
  lemma DistinctHeads(s: seq<string>)
    requires forall i :: 0 <= i < |s| ==> s[i] != []
    requires forall i, j :: 0 <= i < j < |s| ==> s[i][0] != s[j][0]
    ensures Distinct(s)
  {
  }

  /** The result keys are exactly the five fields of `VideoProcessResults`. */
  lemma ResultKeysAreFields()
    ensures Values(ApiStyleToResultKey) == ResultFieldNames
  {
  }

  /** The engine-facing style names, in catalog order. */
  function EngineStyles(): (r: seq<string>)
    ensures r == Values(RequestToApiStyle) && r == Keys(ApiStyleToResultKey) && Distinct(r)
  {
    AllowedStylesAreTableKeys();
    TableValuesAreResultKeys();
    TablesAreInjective();
    Keys(ApiStyleToResultKey)
  }

  /** The request-to-engine translation of a known style name. */
  function ApiStyleOf(style: string): (r: string)
    requires style in AllowedStyles
    ensures exists i :: 0 <= i < |RequestToApiStyle| && RequestToApiStyle[i] == (style, r)
    ensures r in EngineStyles()
  {
    AllowedStylesAreTableKeys();
    Lookup(RequestToApiStyle, style).value
  }

  // ----- records -----

  /** `VideoProcessRequest`. */
  datatype VideoProcessRequest = VideoProcessRequest(
    videoUrl: string,
    styles: Option<seq<string>>,
    outputLanguage: string)

  /**
   * Builds a request from a body in which `styles` and `output_language`
   * may be omitted; omitted fields take the record's defaults.
   */
  function NewRequest(videoUrl: string, styles: Option<seq<string>>, outputLanguage: Option<string>): (r: VideoProcessRequest)
    ensures r.videoUrl == videoUrl && r.styles == styles
    ensures outputLanguage.None? ==> r.outputLanguage == "English"
    ensures outputLanguage.Some? ==> r.outputLanguage == outputLanguage.value
  {
    VideoProcessRequest(videoUrl, styles, if outputLanguage.Some? then outputLanguage.value else "English")
  }

  /** `VideoProcessResults`: five optional text fields. */
  datatype VideoProcessResults = VideoProcessResults(
    summary: Option<string>,
    educational: Option<string>,
    balanced: Option<string>,
    qaGeneration: Option<string>,
    narrative: Option<string>)

  /** The field of a results record that bears the given result key. */
  function ResultField(r: VideoProcessResults, key: string): Option<string> {
    if key == "summary" then r.summary
    else if key == "educational" then r.educational
    else if key == "balanced" then r.balanced
    else if key == "qa_generation" then r.qaGeneration
    else if key == "narrative" then r.narrative
    else None
  }

  function Get(m: map<string, string>, k: string): Option<string> {
    if k in m then Some(m[k]) else None
  }

  /** `VideoProcessResults(**m)`: keys that name no field are ignored. */
  function ResultsFromMap(m: map<string, string>): VideoProcessResults {
    VideoProcessResults(Get(m, "summary"), Get(m, "educational"), Get(m, "balanced"),
                        Get(m, "qa_generation"), Get(m, "narrative"))
  }

  /** Each field of the built record holds exactly what the map stores under its key. */
  lemma ResultsFromMapFields(m: map<string, string>, key: string)
    requires key in ResultFieldNames
    ensures ResultField(ResultsFromMap(m), key) == Get(m, key)
  {
  }

  /** A record built from a non-empty map of result keys has at least one populated field. */
  lemma ResultsFromMapPopulated(m: map<string, string>)
    requires m != map[] && forall k :: k in m ==> k in ResultFieldNames
    ensures exists key :: key in ResultFieldNames && ResultField(ResultsFromMap(m), key).Some?
  {
    var k :| k in m;
    ResultsFromMapFields(m, k);
  }

  /** `VideoProcessMetadata`; the processing time is a clock reading supplied by the caller. */
  datatype VideoProcessMetadata = VideoProcessMetadata(
    processingTime: real,
    language: string,
    stylesProcessed: seq<string>)

  /** `VideoProcessData`. */
  datatype VideoProcessData = VideoProcessData(
    videoUrl: string,
    videoTitle: string,
    processedAt: string,
    results: VideoProcessResults,
    metadata: VideoProcessMetadata)

  /** `VideoProcessResponse`: the success envelope. */
  datatype VideoProcessResponse = VideoProcessResponse(status: string, data: VideoProcessData)

  /** `ErrorResponse`: the error envelope. */
  datatype ErrorResponse = ErrorResponse(status: string, error: string, code: int)

  function SuccessEnvelope(data: VideoProcessData): (r: VideoProcessResponse)
    ensures r.status == "success" && r.data == data
  {
    VideoProcessResponse("success", data)
  }

  function ErrorEnvelope(message: string, code: int): (r: ErrorResponse)
    ensures r.status == "error" && r.error == message && r.code == code
  {
    ErrorResponse("error", message, code)
  }
}
