/**
 * The video processing orchestrator (backend/app/video_processor/service.py).
 *
 * The processing engine, the scratch directory and the clock are
 * parameters: an `EngineClient` says which styles the engine advertises
 * (or that asking failed) and what processing a URL yields, and the
 * directory the engine writes is a list of entries in sorted order.
 */
module Service {
  import opened Results
  import opened Text
  import opened Schemas
  import opened VideoErrors
  import opened OutputFiles
  import opened OutputParser

  // ===== URL gate =====

  /** The four `YOUTUBE_URL_PATTERNS`, in order. */
  datatype UrlPattern = WatchPage | ShortLink | EmbedPage | LegacyPage

  const YouTubeUrlPatterns: seq<UrlPattern> := [WatchPage, ShortLink, EmbedPage, LegacyPage]

  /** The literal part each pattern starts with: `https?://(www\.)?` spelled out as its literal forms. */
  function Heads(p: UrlPattern): seq<string> {
    match p
    case WatchPage =>
      ["http://youtube.com/watch?", "http://www.youtube.com/watch?",
       "https://youtube.com/watch?", "https://www.youtube.com/watch?"]
    case ShortLink => ["http://youtu.be/", "https://youtu.be/"]
    case EmbedPage =>
      ["http://youtube.com/embed/", "http://www.youtube.com/embed/",
       "https://youtube.com/embed/", "https://www.youtube.com/embed/"]
    case LegacyPage =>
      ["http://youtube.com/v/", "http://www.youtube.com/v/",
       "https://youtube.com/v/", "https://www.youtube.com/v/"]
  }

  /** Whether `.*v=[^&]` matches at the start of `t` (`.` stops at a newline). */
  function HasVParam(t: string): bool
    decreases |t|
  {
    if |t| < 3 then false
    else if t[0] == 'v' && t[1] == '=' && t[2] != '&' then true
    else if t[0] == '\n' then false
    else HasVParam(t[1..])
  }

  /**
   * Whether the part of a pattern after its literal head matches at the start
   * of `t`: `.*v=[^&]+` for the watch page, `[^?]+` for the others.
   */
  predicate TailMatches(watch: bool, t: string) {
    if watch then HasVParam(t) else |t| >= 1 && t[0] != '?'
  }

  /** `re.match(pattern, value) is not None`. */
  predicate MatchesPattern(value: string, p: UrlPattern) {
    exists i :: 0 <= i < |Heads(p)| && StartsWith(value, Heads(p)[i]) &&
      TailMatches(p == WatchPage, value[|Heads(p)[i]|..])
  }

  // The language each regular expression denotes, as a reference: the
  // strings that the expression matches in full.

  /** `t` is `m + "v=" + id` with no newline in `m` and a non-empty `id` free of `&`. */
  ghost predicate VParamAt(t: string, i: int) {
    0 <= i && i + 3 <= |t| && t[i] == 'v' && t[i + 1] == '=' &&
    (forall k :: 0 <= k < i ==> t[k] != '\n') &&
    (forall k :: i + 2 <= k < |t| ==> t[k] != '&')
  }

  ghost predicate TailFullMatch(watch: bool, t: string) {
    if watch then exists i :: VParamAt(t, i)
    else |t| >= 1 && forall k :: 0 <= k < |t| ==> t[k] != '?'
  }

  ghost predicate FullMatch(p: UrlPattern, s: string) {
    exists i :: 0 <= i < |Heads(p)| && StartsWith(s, Heads(p)[i]) &&
      TailFullMatch(p == WatchPage, s[|Heads(p)[i]|..])
  }

  lemma {:induction false} HasVParamWitness(t: string) returns (i: nat)
    requires HasVParam(t)
    ensures i + 3 <= |t| && t[i] == 'v' && t[i + 1] == '=' && t[i + 2] != '&'
    ensures forall k :: 0 <= k < i ==> t[k] != '\n'
    decreases |t|
  {
    if t[0] == 'v' && t[1] == '=' && t[2] != '&' {
      i := 0;
    } else {
      var j := HasVParamWitness(t[1..]);
      i := j + 1;
    }
  }

  lemma {:induction false} HasVParamOfWitness(t: string, i: nat)
    requires i + 3 <= |t| && t[i] == 'v' && t[i + 1] == '=' && t[i + 2] != '&'
    requires forall k :: 0 <= k < i ==> t[k] != '\n'
    ensures HasVParam(t)
    decreases i
  {
    if !(t[0] == 'v' && t[1] == '=' && t[2] != '&') {
      HasVParamOfWitness(t[1..], i - 1);
    }
  }

  /** For one literal head: the tail matches at the start iff some prefix matches in full. */
  lemma HeadPrefixMatch(url: string, h: string, watch: bool)
    ensures (StartsWith(url, h) && TailMatches(watch, url[|h|..])) <==>
      exists k :: |h| <= k <= |url| && StartsWith(url[..k], h) && TailFullMatch(watch, url[..k][|h|..])
  {
    if StartsWith(url, h) && TailMatches(watch, url[|h|..]) {
      var k := PrefixOfMatch(url, h, watch);
    }
    if exists k :: |h| <= k <= |url| && StartsWith(url[..k], h) && TailFullMatch(watch, url[..k][|h|..]) {
      var k :| |h| <= k <= |url| && StartsWith(url[..k], h) && TailFullMatch(watch, url[..k][|h|..]);
      MatchOfPrefix(url, h, watch, k);
    }
  }

  /** A match at the start ends a prefix that matches in full. */
  lemma PrefixOfMatch(url: string, h: string, watch: bool) returns (k: nat)
    requires StartsWith(url, h) && TailMatches(watch, url[|h|..])
    ensures |h| <= k <= |url| && StartsWith(url[..k], h) && TailFullMatch(watch, url[..k][|h|..])
  {
    var n := |h|;
    var t := url[n..];
    if watch {
      var i := HasVParamWitness(t);
      k := n + i + 3;
      assert url[..k][n..] == t[..i + 3];
      assert VParamAt(t[..i + 3], i);
    } else {
      k := n + 1;
      assert url[..k][n..] == t[..1];
    }
    assert url[..k][..n] == url[..n];
  }

  /** A prefix that matches in full makes the whole URL match at the start. */
  lemma MatchOfPrefix(url: string, h: string, watch: bool, k: int)
    requires |h| <= k <= |url| && StartsWith(url[..k], h) && TailFullMatch(watch, url[..k][|h|..])
    ensures StartsWith(url, h) && TailMatches(watch, url[|h|..])
  {
    var n := |h|;
    var t := url[n..];
    var t' := url[..k][n..];
    assert t' == t[..k - n];
    assert url[..k][..n] == url[..n];
    if watch {
      var i :| VParamAt(t', i);
      HasVParamOfWitness(t, i);
    }
  }

  /**
   * `re.match` anchors at the start and leaves the tail free: a URL matches a
   * pattern exactly when some prefix of it is in the pattern's language.
   */
  lemma MatchIsPrefixMatch(url: string, p: UrlPattern)
    ensures MatchesPattern(url, p) <==> exists k :: 0 <= k <= |url| && FullMatch(p, url[..k])
  {
    var hs := Heads(p);
    var w := p == WatchPage;
    if MatchesPattern(url, p) {
      var i :| 0 <= i < |hs| && StartsWith(url, hs[i]) && TailMatches(w, url[|hs[i]|..]);
      HeadPrefixMatch(url, hs[i], w);
      var k :| |hs[i]| <= k <= |url| && StartsWith(url[..k], hs[i]) && TailFullMatch(w, url[..k][|hs[i]|..]);
      assert FullMatch(p, url[..k]);
    }
    if exists k :: 0 <= k <= |url| && FullMatch(p, url[..k]) {
      var k :| 0 <= k <= |url| && FullMatch(p, url[..k]);
      var i :| 0 <= i < |hs| && StartsWith(url[..k], hs[i]) && TailFullMatch(w, url[..k][|hs[i]|..]);
      HeadPrefixMatch(url, hs[i], w);
    }
  }

  const InvalidUrlMessage: string := "Invalid YouTube URL."

  /** `any(re.match(pattern, value) for pattern in YOUTUBE_URL_PATTERNS)`. */
  predicate MatchesAnyPattern(value: string) {
    exists i :: 0 <= i < |YouTubeUrlPatterns| && MatchesPattern(value, YouTubeUrlPatterns[i])
  }

  lemma AnyPatternIsPrefixMatch(url: string)
    ensures MatchesAnyPattern(url) <==> exists p, k :: 0 <= k <= |url| && FullMatch(p, url[..k])
  {
    if MatchesAnyPattern(url) {
      var i :| 0 <= i < |YouTubeUrlPatterns| && MatchesPattern(url, YouTubeUrlPatterns[i]);
      MatchIsPrefixMatch(url, YouTubeUrlPatterns[i]);
    }
    if exists p, k :: 0 <= k <= |url| && FullMatch(p, url[..k]) {
      var p, k :| 0 <= k <= |url| && FullMatch(p, url[..k]);
      MatchIsPrefixMatch(url, p);
      var i := match p case WatchPage => 0 case ShortLink => 1 case EmbedPage => 2 case LegacyPage => 3;
      assert YouTubeUrlPatterns[i] == p;
    }
  }

  /** `_validate_video_url`: `None` when the URL is accepted, the raised error otherwise. */
  function ValidateVideoUrl(videoUrl: string): (r: Option<VideoError>)
    ensures r.None? <==> exists p, k :: 0 <= k <= |videoUrl| && FullMatch(p, videoUrl[..k])
    ensures r.Some? ==> r.value == VideoError(VideoValidation, InvalidUrlMessage)
  {
    AnyPatternIsPrefixMatch(videoUrl);
    if MatchesAnyPattern(videoUrl) then None
    else Some(VideoError(VideoValidation, InvalidUrlMessage))
  }

  lemma WatchUrlAccepted()
    ensures ValidateVideoUrl("https://www.youtube.com/watch?v=abc123").None?
  {
    var url := "https://www.youtube.com/watch?v=abc123";
    assert StartsWith(url, Heads(WatchPage)[3]);
    assert url[|Heads(WatchPage)[3]|..] == "v=abc123";
    assert HasVParam("v=abc123");
    assert MatchesPattern(url, YouTubeUrlPatterns[0]);
  }

  lemma ShortUrlAccepted()
    ensures ValidateVideoUrl("https://youtu.be/abc123").None?
  {
    var url := "https://youtu.be/abc123";
    assert StartsWith(url, Heads(ShortLink)[1]);
    assert MatchesPattern(url, YouTubeUrlPatterns[1]);
  }

  /** Every literal head is `http:` followed by `//`, or `https://` followed by a YouTube host. */
  lemma HeadsBegin(p: UrlPattern, i: nat)
    requires i < |Heads(p)|
    ensures |Heads(p)[i]| > 8
    ensures Heads(p)[i][4] == ':' || Heads(p)[i][8] == 'y' || Heads(p)[i][8] == 'w'
  {
  }

  /** A URL of the form `https://` followed by a host that does not start like YouTube's matches no pattern. */
  lemma OtherHostNoMatch(url: string)
    requires |url| > 8 && url[4] == 's' && url[8] != 'y' && url[8] != 'w'
    ensures !MatchesAnyPattern(url)
  {
    forall p: UrlPattern, i | 0 <= i < |Heads(p)| ensures !StartsWith(url, Heads(p)[i]) {
      var h := Heads(p)[i];
      HeadsBegin(p, i);
    }
  }

  /** An accepted URL is never empty, so it can stand in for a missing title. */
  lemma AcceptedUrlNonEmpty(url: string)
    requires ValidateVideoUrl(url).None?
    ensures |url| > 8
  {
    AnyPatternIsPrefixMatch(url);
    var i :| 0 <= i < |YouTubeUrlPatterns| && MatchesPattern(url, YouTubeUrlPatterns[i]);
    var p := YouTubeUrlPatterns[i];
    var j :| 0 <= j < |Heads(p)| && StartsWith(url, Heads(p)[j]);
    HeadsBegin(p, j);
  }

  lemma OtherHostRejected()
    ensures ValidateVideoUrl("https://example.com/not-youtube") == Some(VideoError(VideoValidation, InvalidUrlMessage))
  {
    OtherHostNoMatch("https://example.com/not-youtube");
  }

  // ===== styles =====

  /** The names of `xs`, in order, whose membership in `pool` is `wanted`. */
  function Filter(xs: seq<string>, pool: set<string>, wanted: bool): (r: seq<string>)
    ensures forall x :: x in r <==> x in xs && (x in pool) == wanted
    ensures |r| <= |xs|
    ensures (forall i :: 0 <= i < |xs| ==> (xs[i] in pool) == wanted) ==> r == xs
  {
    if xs == [] then []
    else (if (xs[0] in pool) == wanted then [xs[0]] else []) + Filter(xs[1..], pool, wanted)
  }

  /** Filtering keeps the input order: filtering a concatenation concatenates the filtered halves. */
  lemma {:induction false} FilterAppend(a: seq<string>, b: seq<string>, pool: set<string>, wanted: bool)
    ensures Filter(a + b, pool, wanted) == Filter(a, pool, wanted) + Filter(b, pool, wanted)
    decreases |a|
  {
    if a == [] {
      assert a + b == b;
    } else {
      assert (a + b)[1..] == a[1..] + b;
      FilterAppend(a[1..], b, pool, wanted);
    }
  }

  /** The invalid names of a list followed by one more name: that name is listed last exactly when it is invalid. */
  lemma InvalidStylesSnoc(styles: seq<string>, x: string)
    ensures InvalidStyles(styles + [x]) == InvalidStyles(styles) + (if x in AllowedStyles then [] else [x])
  {
    FilterAppend(styles, [x], AllowedStyleSet(), false);
  }

  function AllowedStyleSet(): (r: set<string>)
    ensures forall x :: x in r <==> x in AllowedStyles
  {
    set i | 0 <= i < |AllowedStyles| :: AllowedStyles[i]
  }

  /** `[style for style in styles if style not in ALLOWED_STYLES]`. */
  function InvalidStyles(styles: seq<string>): seq<string> {
    Filter(styles, AllowedStyleSet(), false)
  }

  function ListMessage(prefix: string, names: seq<string>): string {
    prefix + Join(names, ", ") + "."
  }

  /** `_validate_styles`: raises iff some name is not an allowed style. */
  function ValidateStyles(styles: seq<string>): (r: Option<VideoError>)
    ensures r.None? <==> forall i :: 0 <= i < |styles| ==> styles[i] in AllowedStyles
    ensures r.Some? ==> r.value == VideoError(VideoValidation, ListMessage("Invalid styles: ", InvalidStyles(styles)))
  {
    var invalid := InvalidStyles(styles);
    if invalid != [] then
      assert invalid[0] in styles && invalid[0] !in AllowedStyles;
      Some(VideoError(VideoValidation, ListMessage("Invalid styles: ", invalid)))
    else
      assert forall i :: 0 <= i < |styles| ==> styles[i] in AllowedStyles by {
        forall i | 0 <= i < |styles| ensures styles[i] in AllowedStyles {
          assert styles[i] !in invalid;
        }
      }
      None
  }

  /** Every rejected name appears, literally, in the error message. */
  lemma InvalidStyleNamed(styles: seq<string>, x: string)
    requires x in styles && x !in AllowedStyles
    ensures ValidateStyles(styles).Some? && Contains(ValidateStyles(styles).value.message, x)
  {
    var invalid := InvalidStyles(styles);
    var i :| 0 <= i < |invalid| && invalid[i] == x;
    var j := JoinHasPart(invalid, ", ", i);
    var msg := ListMessage("Invalid styles: ", invalid);
    assert OccursAt(x, msg, j + 16) by {
      assert msg == "Invalid styles: " + (Join(invalid, ", ") + ".");
    }
  }

  lemma {:induction false} JoinHasPart(parts: seq<string>, sep: string, i: nat) returns (j: nat)
    requires i < |parts|
    ensures OccursAt(parts[i], Join(parts, sep), j)
    decreases |parts|
  {
    var n := |parts|;
    if n == 1 {
      j := 0;
    } else if i == n - 1 {
      var pre := Join(parts[..n - 1], sep) + sep;
      j := |pre|;
      assert Join(parts, sep) == pre + parts[i];
    } else {
      j := JoinHasPart(parts[..n - 1], sep, i);
      var whole := Join(parts, sep);
      assert whole == Join(parts[..n - 1], sep) + (sep + parts[n - 1]);
      assert whole[j..j + |parts[i]|] == Join(parts[..n - 1], sep)[j..j + |parts[i]|];
    }
  }

  /** Translation of validated request styles into engine-facing names. */
  function ToApiStyles(styles: seq<string>): (r: seq<string>)
    requires forall i :: 0 <= i < |styles| ==> styles[i] in AllowedStyles
    ensures |r| == |styles| && forall i :: 0 <= i < |r| ==> r[i] == ApiStyleOf(styles[i])
  {
    seq(|styles|, i requires 0 <= i < |styles| => ApiStyleOf(styles[i]))
  }

  const StylesUnavailableMessage: string := "Failed to retrieve available styles."
  const NoCompatibleMessage: string := "No compatible styles returned by the API."
  const UnsupportedPrefix: string := "Styles not supported by the API: "

  /**
   * No styles requested: every catalog style the engine advertises, in
   * catalog order; none at all is an engine failure.
   */
  function ResolveDefault(available: set<string>): (r: Result<seq<string>, VideoError>)
    ensures r.Success? <==> exists i :: 0 <= i < |EngineStyles()| && EngineStyles()[i] in available
    ensures r.Success? ==> r.value == Filter(EngineStyles(), available, true)
    ensures r.Success? ==> forall x :: x in r.value <==> x in EngineStyles() && x in available
    ensures r.Failure? ==> r.error == VideoError(ExternalService, NoCompatibleMessage)
  {
    var resolved := Filter(EngineStyles(), available, true);
    if resolved == [] then
      assert forall i :: 0 <= i < |EngineStyles()| ==> EngineStyles()[i] !in resolved;
      Failure(VideoError(ExternalService, NoCompatibleMessage))
    else
      assert resolved[0] in EngineStyles();
      Success(resolved)
  }

  /**
   * Styles requested: their engine-facing names, in request order, provided
   * the engine advertises every one; otherwise the unsupported names are listed.
   */
  function ResolveExplicit(styles: seq<string>, available: set<string>): (r: Result<seq<string>, VideoError>)
    requires forall i :: 0 <= i < |styles| ==> styles[i] in AllowedStyles
    ensures r.Success? <==> forall i :: 0 <= i < |styles| ==> ApiStyleOf(styles[i]) in available
    ensures r.Success? ==> r.value == ToApiStyles(styles)
    ensures r.Failure? ==>
      r.error == VideoError(VideoValidation, ListMessage(UnsupportedPrefix, Filter(ToApiStyles(styles), available, false)))
  {
    var apiStyles := ToApiStyles(styles);
    var unsupported := Filter(apiStyles, available, false);
    if unsupported != [] then
      assert unsupported[0] in apiStyles && unsupported[0] !in available;
      Failure(VideoError(VideoValidation, ListMessage(UnsupportedPrefix, unsupported)))
    else
      assert forall i :: 0 <= i < |apiStyles| ==> apiStyles[i] !in unsupported;
      Success(apiStyles)
  }

  /**
   * `_resolve_styles`: asks the engine for its styles (`None` means the call
   * raised) and picks the engine-facing styles to request. The service calls
   * it only with styles that passed `_validate_styles`.
   */
  function ResolveStyles(styles: Option<seq<string>>, available: Option<set<string>>): (r: Result<seq<string>, VideoError>)
    requires styles.Some? ==> forall i :: 0 <= i < |styles.value| ==> styles.value[i] in AllowedStyles
    ensures available.None? ==> r == Failure(VideoError(ExternalService, StylesUnavailableMessage))
    ensures available.Some? && styles.None? ==> r == ResolveDefault(available.value)
    ensures available.Some? && styles.Some? ==> r == ResolveExplicit(styles.value, available.value)
  {
    if available.None? then Failure(VideoError(ExternalService, StylesUnavailableMessage))
    else if styles.None? then ResolveDefault(available.value)
    else ResolveExplicit(styles.value, available.value)
  }

  /** `api_to_request`: the inverse of the request-to-engine table. */
  function ApiToRequest(): map<string, string> {
    Invert(RequestToApiStyle)
  }

  /**
   * `_resolve_processed_styles`: explicit styles are echoed; otherwise each
   * selected engine style is mapped back to its request name, and a name the
   * catalog does not know is passed through.
   */
  function ResolveProcessedStyles(styles: Option<seq<string>>, selected: seq<string>): (r: seq<string>)
    ensures styles.Some? ==> r == styles.value
    ensures styles.None? ==> |r| == |selected|
    ensures styles.None? ==> forall i :: 0 <= i < |selected| && selected[i] in EngineStyles() ==>
      r[i] in AllowedStyles && ApiStyleOf(r[i]) == selected[i]
    ensures styles.None? ==> forall i :: 0 <= i < |selected| && selected[i] !in EngineStyles() ==>
      r[i] == selected[i]
  {
    if styles.Some? then styles.value
    else
      var inverse := ApiToRequest();
      var r := seq(|selected|, i requires 0 <= i < |selected| =>
                   if selected[i] in inverse then inverse[selected[i]] else selected[i]);
      assert forall i :: 0 <= i < |selected| && selected[i] in EngineStyles() ==>
               r[i] in AllowedStyles && ApiStyleOf(r[i]) == selected[i] by {
        forall i | 0 <= i < |selected| && selected[i] in EngineStyles()
          ensures r[i] in AllowedStyles && ApiStyleOf(r[i]) == selected[i]
        {
          BackToRequestStyle(selected[i]);
        }
      }
      assert forall i :: 0 <= i < |selected| && selected[i] !in EngineStyles() ==> r[i] == selected[i] by {
        forall i | 0 <= i < |selected| && selected[i] !in EngineStyles() ensures r[i] == selected[i] {
          assert selected[i] !in inverse;
        }
      }
      r
  }

  lemma BackToRequestStyle(e: string)
    requires e in EngineStyles()
    ensures e in ApiToRequest() && ApiToRequest()[e] in AllowedStyles && ApiStyleOf(ApiToRequest()[e]) == e
  {
    var t := RequestToApiStyle;
    var j :| 0 <= j < |t| && Values(t)[j] == e;
    InvertDistinct(t, j);
    AllowedStylesAreTableKeys();
    TablesAreInjective();
    assert Keys(t)[j] == t[j].0;
    LookupDistinct(t, j);
  }

  /** Explicit `["Summary"]` resolves to the engine's `Summary` and is echoed unchanged. */
  lemma SummaryRoundTrip(available: set<string>)
    requires "Summary" in available
    ensures ResolveStyles(Some(["Summary"]), Some(available)) == Success(["Summary"])
    ensures ResolveProcessedStyles(Some(["Summary"]), ["Summary"]) == ["Summary"]
  {
    SummaryTranslatesToItself();
    assert ResolveExplicit(["Summary"], available) == Success(["Summary"]);
  }

  lemma SummaryTranslatesToItself()
    ensures ToApiStyles(["Summary"]) == ["Summary"]
  {
    LookupDistinct(RequestToApiStyle, 0);
  }

  // ===== the pipeline =====

  /** What the engine's `process_youtube_url` does: writes files, times out, or fails otherwise. */
  datatype EngineOutcome = Completed(outputs: seq<DirEntry>) | TimedOut | Failed

  /**
   * A `GetOutVideoAPI` client: the styles `get_available_styles` reports
   * (`None` when it raises), and the outcome of processing a URL with the
   * given styles and output language.
   */
  datatype EngineClient = EngineClient(
    availableStyles: Option<set<string>>,
    process: (string, seq<string>, string) -> EngineOutcome)

  /** A `VideoProcessingService`: the client injected at construction, if any. */
  datatype VideoProcessingService = VideoProcessingService(apiClient: Option<EngineClient>)

  const MissingKeyMessage: string := "OPENAI_API_KEY is not configured."

  /**
   * `_get_api_client`: the injected client, or else a new client built from
   * the configured key (`newClient` stands for the constructor); an absent
   * or empty key is a configuration error.
   */
  function GetApiClient(service: VideoProcessingService, apiKey: Option<string>,
                        newClient: string -> EngineClient): (r: Result<EngineClient, VideoError>)
    ensures service.apiClient.Some? ==> r == Success(service.apiClient.value)
    ensures service.apiClient.None? ==>
      (r.Failure? <==> apiKey.None? || apiKey.value == "")
    ensures r.Failure? ==> r.error == VideoError(Configuration, MissingKeyMessage)
    ensures service.apiClient.None? && r.Success? ==> r.value == newClient(apiKey.value)
  {
    if service.apiClient.Some? then Success(service.apiClient.value)
    else if apiKey.None? || apiKey.value == "" then Failure(VideoError(Configuration, MissingKeyMessage))
    else Success(newClient(apiKey.value))
  }

  /**
   * `process_video`. The checks run in a fixed order and the first failure is
   * the answer: URL, style names, client, style resolution, engine call,
   * empty results. `processingTime` and `processedAt` are the clock readings.
   */
  method ProcessVideo(service: VideoProcessingService, apiKey: Option<string>, newClient: string -> EngineClient,
                      videoUrl: string, styles: Option<seq<string>>, outputLanguage: string,
                      processingTime: real, processedAt: string)
    returns (r: Result<VideoProcessData, VideoError>)
    // 1. the URL
    ensures ValidateVideoUrl(videoUrl).Some? ==> r == Failure(VideoError(VideoValidation, InvalidUrlMessage))
    // 2. the style names
    ensures ValidateVideoUrl(videoUrl).None? && styles.Some? && ValidateStyles(styles.value).Some? ==>
      r == Failure(ValidateStyles(styles.value).value)
    // 3. the client
    ensures StylesAccepted(videoUrl, styles) && GetApiClient(service, apiKey, newClient).Failure? ==>
      r == Failure(VideoError(Configuration, MissingKeyMessage))
    // 4. style resolution
    ensures StylesAccepted(videoUrl, styles) && GetApiClient(service, apiKey, newClient).Success? ==>
      var api := GetApiClient(service, apiKey, newClient).value;
      ResolveStyles(styles, api.availableStyles).Failure? ==>
        r == Failure(ResolveStyles(styles, api.availableStyles).error)
    // 5. the engine call and 6. the results
    ensures StylesAccepted(videoUrl, styles) && GetApiClient(service, apiKey, newClient).Success? ==>
      var api := GetApiClient(service, apiKey, newClient).value;
      var selected := ResolveStyles(styles, api.availableStyles);
      selected.Success? ==>
        match api.process(videoUrl, selected.value, outputLanguage)
        case TimedOut => r == Failure(VideoError(ProcessingTimeout, "Video processing timed out."))
        case Failed => r == Failure(VideoError(ExternalService, "Video processing failed."))
        case Completed(dir) =>
          if ParsedResults(dir) == map[] then
            r == Failure(VideoError(ExternalService, "No processed results were returned."))
          else
            r == Success(VideoProcessData(
              videoUrl,
              if ParsedTitle(dir) != "" then ParsedTitle(dir) else videoUrl,
              processedAt,
              ResultsFromMap(ParsedResults(dir)),
              VideoProcessMetadata(processingTime, outputLanguage, ResolveProcessedStyles(styles, selected.value))))
    // what every success has
    ensures r.Success? ==> r.value.videoUrl == videoUrl && r.value.metadata.language == outputLanguage
    ensures r.Success? ==> r.value.videoTitle != ""
    ensures r.Success? ==> exists key :: key in ResultFieldNames && ResultField(r.value.results, key).Some?
    ensures r.Success? && styles.Some? ==> r.value.metadata.stylesProcessed == styles.value
  {
    var urlError := ValidateVideoUrl(videoUrl);
    if urlError.Some? {
      return Failure(urlError.value);
    }
    if styles.Some? {
      var stylesError := ValidateStyles(styles.value);
      if stylesError.Some? {
        return Failure(stylesError.value);
      }
    }
    var client := GetApiClient(service, apiKey, newClient);
    if client.Failure? {
      return Failure(client.error);
    }
    var api := client.value;
    var selected := ResolveStyles(styles, api.availableStyles);
    if selected.Failure? {
      return Failure(selected.error);
    }
    var outcome := api.process(videoUrl, selected.value, outputLanguage);
    match outcome {
      case TimedOut =>
        return Failure(VideoError(ProcessingTimeout, "Video processing timed out."));
      case Failed =>
        return Failure(VideoError(ExternalService, "Video processing failed."));
      case Completed(dir) =>
        var results, videoTitle := ParseOutputs(dir);
        if results == map[] {
          return Failure(VideoError(ExternalService, "No processed results were returned."));
        }
        ParsedKeysAreFields(dir);
        ResultsFromMapPopulated(results);
        AcceptedUrlNonEmpty(videoUrl);
        var stylesProcessed := ResolveProcessedStyles(styles, selected.value);
        return Success(VideoProcessData(
          videoUrl,
          if videoTitle != "" then videoTitle else videoUrl,
          processedAt,
          ResultsFromMap(results),
          VideoProcessMetadata(processingTime, outputLanguage, stylesProcessed)));
    }
  }

  /** The URL and the style names passed their checks. */
  predicate StylesAccepted(videoUrl: string, styles: Option<seq<string>>) {
    ValidateVideoUrl(videoUrl).None? && (styles.Some? ==> ValidateStyles(styles.value).None?)
  }
}
