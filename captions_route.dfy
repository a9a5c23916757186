/**
 * The demo captions endpoint (frontend/src/app/api/youtube-captions/route.ts):
 * it reads a video id out of the posted URL and renders a fixed list of
 * timed captions as a Markdown document, with a horizontal rule after every
 * fifth caption but the last.
 */
module CaptionsRoute {
  import opened Results
  import opened Text

  // ----- the video id -----

  /** The three alternatives of the URL expression, in the order it tries them. */
  const Markers: seq<string> := ["youtube.com/watch?v=", "youtu.be/", "youtube.com/embed/"]

  /** The characters `[^&\n?#]` refuses. */
  const Excluded: set<char> := {'&', '\n', '?', '#'}

  /** The length of the longest prefix of `s` free of excluded characters. */
  function IdLength(s: string): (n: nat)
    ensures n <= |s|
    ensures forall k :: 0 <= k < n ==> s[k] !in Excluded
    ensures n < |s| ==> s[n] in Excluded
    decreases |s|
  {
    if |s| > 0 && s[0] !in Excluded then 1 + IdLength(s[1..]) else 0
  }

  /** Marker `m` occurs at `p` and is followed by at least one character the group accepts. */
  predicate MarkerMatch(url: string, p: int, m: string) {
    OccursAt(m, url, p) && p + |m| < |url| && url[p + |m|] !in Excluded
  }

  /** The group captured after marker `m` at `p`: the greedy run of accepted characters. */
  function IdAt(url: string, p: int, m: string): (id: string)
    requires MarkerMatch(url, p, m)
    ensures id != [] && forall k :: 0 <= k < |id| ==> id[k] !in Excluded
    ensures p + |m| + |id| <= |url| && url[p + |m|..p + |m| + |id|] == id
    ensures p + |m| + |id| == |url| || url[p + |m| + |id|] in Excluded
  {
    var rest := url[p + |m|..];
    rest[..IdLength(rest)]
  }

  /** The expression at start position `p`, trying the markers from index `j` on. */
  function MatchAt(url: string, p: nat, j: nat): (r: Option<string>)
    requires j <= |Markers|
    ensures r.Some? <==> exists i :: j <= i < |Markers| && MarkerMatch(url, p, Markers[i])
    ensures r.Some? ==> exists i :: (j <= i < |Markers| && MarkerMatch(url, p, Markers[i]) &&
      r.value == IdAt(url, p, Markers[i]))
    decreases |Markers| - j
  {
    if j == |Markers| then None
    else if MarkerMatch(url, p, Markers[j]) then Some(IdAt(url, p, Markers[j]))
    else MatchAt(url, p, j + 1)
  }

  /** The unanchored search: the first start position, from `p` on, at which the expression matches. */
  function FindIdFrom(url: string, p: nat): Option<string>
    decreases |url| - p
  {
    if p >= |url| then None
    else match MatchAt(url, p, 0)
      case Some(id) => Some(id)
      case None => FindIdFrom(url, p + 1)
  }

  /** `url.match(...)` and `videoIdMatch[1]`: the id, or `None` when the expression does not match. */
  function ExtractVideoId(url: string): (r: Option<string>)
    ensures r.Some? <==> exists p, i :: 0 <= p && 0 <= i < |Markers| && MarkerMatch(url, p, Markers[i])
    ensures r.Some? ==> exists p, i :: (0 <= p && 0 <= i < |Markers| && MarkerMatch(url, p, Markers[i]) &&
      r.value == IdAt(url, p, Markers[i]) &&
      forall q, i2 :: 0 <= q < p && 0 <= i2 < |Markers| ==> !MarkerMatch(url, q, Markers[i2]))
    ensures r.Some? ==> r.value != [] && forall k :: 0 <= k < |r.value| ==> r.value[k] !in Excluded
  {
    FindIdFromLeftmost(url, 0);
    FindIdFrom(url, 0)
  }

  /** The search from `p` finds a match exactly when one starts at `p` or later, and it takes the leftmost. */
  lemma {:induction false} FindIdFromLeftmost(url: string, p: nat)
    ensures FindIdFrom(url, p).Some? <==>
      exists q, i :: p <= q && 0 <= i < |Markers| && MarkerMatch(url, q, Markers[i])
    ensures FindIdFrom(url, p).Some? ==> exists q, i :: (p <= q && 0 <= i < |Markers| &&
      MarkerMatch(url, q, Markers[i]) && FindIdFrom(url, p).value == IdAt(url, q, Markers[i]) &&
      forall q2, i2 :: p <= q2 < q && 0 <= i2 < |Markers| ==> !MarkerMatch(url, q2, Markers[i2]))
    decreases |url| - p
  {
    if p >= |url| {
      forall q, i | p <= q && 0 <= i < |Markers| ensures !MarkerMatch(url, q, Markers[i]) {
      }
    } else if MatchAt(url, p, 0).None? {
      FindIdFromLeftmost(url, p + 1);
      forall q, i | p <= q && 0 <= i < |Markers| && MarkerMatch(url, q, Markers[i]) ensures p + 1 <= q {
      }
    }
  }

  lemma ShortLinkId(id: string, rest: string)
    requires id != [] && forall k :: 0 <= k < |id| ==> id[k] !in Excluded
    requires rest == [] || rest[0] in Excluded
    ensures ExtractVideoId("youtu.be/" + id + rest) == Some(id)
  {
    var url := "youtu.be/" + id + rest;
    assert !MarkerMatch(url, 0, Markers[0]) by {
      assert url[5] == '.';
    }
    assert url[..9] == Markers[1];
    IdOfRun(url, 0, Markers[1], id);
    assert MatchAt(url, 0, 0) == Some(id);
  }

  lemma WatchLinkId(id: string, rest: string)
    requires id != [] && forall k :: 0 <= k < |id| ==> id[k] !in Excluded
    requires rest == [] || rest[0] in Excluded
    ensures ExtractVideoId("youtube.com/watch?v=" + id + rest) == Some(id)
  {
    var url := "youtube.com/watch?v=" + id + rest;
    assert url[..20] == Markers[0];
    IdOfRun(url, 0, Markers[0], id);
    assert MatchAt(url, 0, 0) == Some(id);
  }

  lemma EmbedLinkId(id: string, rest: string)
    requires id != [] && forall k :: 0 <= k < |id| ==> id[k] !in Excluded
    requires rest == [] || rest[0] in Excluded
    ensures ExtractVideoId("youtube.com/embed/" + id + rest) == Some(id)
  {
    var url := "youtube.com/embed/" + id + rest;
    assert !MarkerMatch(url, 0, Markers[0]) by {
      assert url[12] == 'e';
    }
    assert !MarkerMatch(url, 0, Markers[1]) by {
      assert url[5] == 'b';
    }
    assert url[..18] == Markers[2];
    IdOfRun(url, 0, Markers[2], id);
    assert MatchAt(url, 0, 0) == Some(id);
  }

  /** The group after `m` at `p` is a run of accepted characters ended by an excluded one or the end. */
  lemma IdOfRun(url: string, p: nat, m: string, id: string)
    requires id != [] && forall k :: 0 <= k < |id| ==> id[k] !in Excluded
    requires OccursAt(m, url, p) && p + |m| + |id| <= |url| && url[p + |m|..p + |m| + |id|] == id
    requires p + |m| + |id| == |url| || url[p + |m| + |id|] in Excluded
    ensures MarkerMatch(url, p, m) && IdAt(url, p, m) == id
  {
    assert url[p + |m|] == id[0];
    var rest := url[p + |m|..];
    IdLengthOfRun(rest, |id|);
    assert rest[..|id|] == id;
  }

  lemma {:induction false} IdLengthOfRun(s: string, n: nat)
    requires n <= |s| && (forall k :: 0 <= k < n ==> s[k] !in Excluded) && (n < |s| ==> s[n] in Excluded)
    ensures IdLength(s) == n
    decreases n
  {
    if n > 0 {
      IdLengthOfRun(s[1..], n - 1);
    }
  }

  lemma MarkerLengths()
    ensures forall i :: 0 <= i < |Markers| ==> |Markers[i]| >= 9
  {
  }

  /** A marker with nothing after it is not a match: `youtu.be/` alone is an invalid URL. */
  lemma BareMarkerRejected()
    ensures ExtractVideoId("youtu.be/") == None
  {
    var url := "youtu.be/";
    MarkerLengths();
    forall p, i | 0 <= p && 0 <= i < |Markers| ensures !MarkerMatch(url, p, Markers[i]) {
      assert p + |Markers[i]| >= |url|;
    }
  }

  // ----- timestamps -----

  /** `${Math.floor(t / 60)}:${(t % 60).toString().padStart(2, '0')}` for a whole, non-negative number of seconds. */
  function FormatTimestamp(t: nat): string {
    NatToString(t / 60) + ":" + PadStart2(NatToString(t % 60))
  }

  /** Reads `m:ss` back: decimal minutes, a colon, exactly two decimal digits of seconds below 60. */
  function ParseTimestamp(s: string): Option<nat> {
    if |s| >= 4 && s[|s| - 3] == ':' && AllDigits(s[..|s| - 3]) && AllDigits(s[|s| - 2..]) &&
       DigitsValue(s[|s| - 2..]) < 60 then
      Some(DigitsValue(s[..|s| - 3]) * 60 + DigitsValue(s[|s| - 2..]))
    else None
  }

  /** A parsed timestamp shows its value's whole minutes and, below 60, its remaining seconds. */
  lemma ParsedTimestampFields(s: string)
    ensures ParseTimestamp(s).Some? ==>
      DigitsValue(s[|s| - 2..]) < 60 &&
      ParseTimestamp(s).value / 60 == DigitsValue(s[..|s| - 3]) &&
      ParseTimestamp(s).value % 60 == DigitsValue(s[|s| - 2..])
  {
    if ParseTimestamp(s).Some? {
      var m := DigitsValue(s[..|s| - 3]);
      var sec := DigitsValue(s[|s| - 2..]);
      assert ParseTimestamp(s).value == m * 60 + sec;
      DivModOfMinutes(m, sec);
    }
  }

  lemma DivModOfMinutes(m: nat, sec: nat)
    requires sec < 60
    ensures (m * 60 + sec) / 60 == m && (m * 60 + sec) % 60 == sec
  {
  }

  /** The seconds are always two digits, so the timestamp reads back as the number it shows. */
  lemma TimestampRoundTrip(t: nat)
    ensures ParseTimestamp(FormatTimestamp(t)) == Some(t)
  {
    var m := NatToString(t / 60);
    var sec := NatToString(t % 60);
    var ss := PadStart2(sec);
    var s := FormatTimestamp(t);
    assert |sec| <= 2 by {
      if t % 60 >= 10 {
        assert (t % 60) / 10 < 10;
      }
    }
    assert |ss| == 2 && AllDigits(ss) && DigitsValue(ss) == t % 60 by {
      DigitsValueOfNatToString(t % 60);
      if |sec| == 1 {
        DigitsValueLeadingZero(sec);
      }
    }
    assert s[..|s| - 3] == m && s[|s| - 2..] == ss;
    DigitsValueOfNatToString(t / 60);
    assert ParseTimestamp(s) == Some(DigitsValue(m) * 60 + DigitsValue(ss));
  }

  // ----- the Markdown document -----

  /** A mock caption: its text and its start and end, in whole seconds. */
  datatype Caption = Caption(text: string, start: nat, end: nat)

  /** The fixed list of timed captions the demo endpoint serves. */
  const MockCaptions: seq<Caption> := [
    Caption("Welcome to this comprehensive tutorial on modern web development.", 0, 4),
    Caption("Today we'll be exploring the latest technologies and best practices.", 4, 8),
    Caption("We'll start with the fundamentals and gradually move to advanced concepts.", 8, 12),
    Caption("First, let's understand the importance of clean architecture and design patterns.", 12, 16),
    Caption("Writing maintainable and scalable code is essential for long-term success.", 16, 20),
    Caption("We'll explore various frameworks and libraries that can accelerate development.", 20, 24),
    Caption("Understanding these tools will make you a more efficient developer.", 24, 28),
    Caption("Let's dive into some practical examples and hands-on coding exercises.", 28, 32),
    Caption("I'll demonstrate how to implement these concepts in real-world projects.", 32, 36),
    Caption("Remember, practice is the key to mastering any programming skill.", 36, 40),
    Caption("Don't hesitate to experiment and try new approaches to problem-solving.", 40, 44),
    Caption("The more you code, the better you'll become at identifying patterns.", 44, 48),
    Caption("Let's continue with more advanced topics and cutting-edge techniques.", 48, 52),
    Caption("These skills will be invaluable throughout your development career.", 52, 56),
    Caption("We'll also cover performance optimization and security best practices.", 56, 60),
    Caption("Understanding these aspects is crucial for building production-ready applications.", 60, 64),
    Caption("Let's explore some real-world case studies and practical implementations.", 64, 68),
    Caption("I'll share some tips and tricks that I've learned over the years.", 68, 72),
    Caption("These insights will help you avoid common pitfalls and improve your workflow.", 72, 76),
    Caption("Remember to always stay updated with the latest industry trends.", 76, 80),
    Caption("The technology landscape is constantly evolving, and continuous learning is essential.", 80, 84),
    Caption("Let's wrap up with some final thoughts and next steps for your learning journey.", 84, 88),
    Caption("Thank you for watching, and I hope you found this tutorial helpful.", 88, 92),
    Caption("Don't forget to like, subscribe, and share this video with your colleagues.", 92, 96),
    Caption("Happy coding, and see you in the next tutorial!", 96, 100)
  ]

  const Separator: string := "---\n\n"

  const Title: string := "# Video Captions\n\n"

  function IdLine(videoId: string): string {
    "**Video ID:** " + videoId + "\n\n"
  }

  /** The total duration, the last caption's end, when there are captions. */
  function DurationLine(captions: seq<Caption>): string {
    if |captions| > 0 then "**Total Duration:** " + FormatTimestamp(captions[|captions| - 1].end) + "\n\n" else ""
  }

  /** The title, the video id, the total duration when there are captions, and a rule. */
  function Header(videoId: string, captions: seq<Caption>): string {
    Title + IdLine(videoId) + DurationLine(captions) + Separator
  }

  /** One caption's heading (its start time) and text. */
  function Section(c: Caption): string {
    "## " + FormatTimestamp(c.start) + "\n\n" + c.text + "\n\n"
  }

  /** A rule follows caption `i` of `n` when `i + 1` is a multiple of five and it is not the last. */
  predicate SeparatorAfter(i: nat, n: nat) {
    (i + 1) % 5 == 0 && i < n - 1
  }

  /** The section of each caption, in input order. */
  function Sections(captions: seq<Caption>): (r: seq<string>)
    ensures |r| == |captions|
  {
    if captions == [] then [] else Sections(captions[..|captions| - 1]) + [Section(captions[|captions| - 1])]
  }

  /** The rule, if any, that follows section `i` of `n`. */
  function Rule(i: nat, n: nat): string {
    if SeparatorAfter(i, n) then Separator else ""
  }

  /** The rules after the first `k` of `n` sections, in order. */
  function RulesUpTo(k: nat, n: nat): (r: seq<string>)
    ensures |r| == k
  {
    if k == 0 then [] else RulesUpTo(k - 1, n) + [Rule(k - 1, n)]
  }

  /** The rule after each of `n` sections, in order. */
  function Rules(n: nat): (r: seq<string>)
    ensures |r| == n
  {
    RulesUpTo(n, n)
  }

  /** Entry `i` of `Sections` is caption `i`'s section. */
  lemma {:induction false} SectionOf(captions: seq<Caption>, i: nat)
    requires i < |captions|
    ensures Sections(captions)[i] == Section(captions[i])
    decreases |captions|
  {
    var init := captions[..|captions| - 1];
    assert Sections(captions) == Sections(init) + [Section(captions[|captions| - 1])];
    if i < |captions| - 1 {
      SectionOf(init, i);
      assert init[i] == captions[i];
    }
  }

  /** Entry `i` of `RulesUpTo(k, n)` is the rule after section `i` of `n`. */
  lemma {:induction false} RuleOf(k: nat, n: nat, i: nat)
    requires i < k
    ensures RulesUpTo(k, n)[i] == Rule(i, n)
    decreases k
  {
    if i < k - 1 {
      RuleOf(k - 1, n, i);
    }
  }

  /** The first `k` sections, each followed by its rule: what the `forEach` has appended after `k` turns. */
  function Layout(sections: seq<string>, rules: seq<string>, k: nat): string
    requires |rules| == |sections| && k <= |sections|
  {
    if k == 0 then "" else Layout(sections, rules, k - 1) + sections[k - 1] + rules[k - 1]
  }

  /** The `captions` text of the response. */
  function CaptionsMarkdown(videoId: string, captions: seq<Caption>): string {
    Header(videoId, captions) + Layout(Sections(captions), Rules(|captions|), |captions|)
  }

  /** The `markdown +=` sequence of `POST`. */
  method BuildMarkdown(videoId: string, captions: seq<Caption>) returns (markdown: string)
    ensures markdown == CaptionsMarkdown(videoId, captions)
  {
    ghost var sections := Sections(captions);
    ghost var rules := Rules(|captions|);
    var header := BuildHeader(videoId, captions);
    markdown := header;
    assert markdown == header + Layout(sections, rules, 0);
    for index := 0 to |captions|
      invariant markdown == header + Layout(sections, rules, index)
    {
      var section := BuildSection(captions[index]);
      SectionOf(captions, index);
      ghost var before := markdown;
      markdown := markdown + section;
      if (index + 1) % 5 == 0 && index < |captions| - 1 {
        markdown := markdown + "---\n\n";
      }
      RuleOf(|captions|, |captions|, index);
      assert markdown == before + sections[index] + rules[index];
      LayoutGrows(header, sections, rules, index, before, markdown);
    }
  }

  /** The title, video id, duration and rule that `POST` writes before the sections. */
  method BuildHeader(videoId: string, captions: seq<Caption>) returns (markdown: string)
    ensures markdown == Header(videoId, captions)
  {
    markdown := "# Video Captions\n\n";
    markdown := markdown + "**Video ID:** " + videoId + "\n\n";
    assert markdown == Title + IdLine(videoId);
    var duration := "";
    if |captions| > 0 {
      var lastCaption := captions[|captions| - 1];
      duration := "**Total Duration:** " + NatToString(lastCaption.end / 60) + ":" +
                  PadStart2(NatToString(lastCaption.end % 60)) + "\n\n";
    }
    assert duration == DurationLine(captions);
    markdown := markdown + duration;
    markdown := markdown + "---\n\n";
  }

  /** The `forEach` body: one caption's heading and text. */
  method BuildSection(caption: Caption) returns (section: string)
    ensures section == Section(caption)
  {
    var minutes := caption.start / 60;
    var seconds := caption.start % 60;
    var timestamp := NatToString(minutes) + ":" + PadStart2(NatToString(seconds));
    section := "## " + timestamp + "\n\n" + caption.text + "\n\n";
  }

  /** The loop step of `BuildMarkdown`, over any header: appending section `i` and its rule extends the layout by one. */
  lemma LayoutGrows(header: string, sections: seq<string>, rules: seq<string>, i: nat, before: string, after: string)
    requires |rules| == |sections| && i < |sections|
    requires before == header + Layout(sections, rules, i)
    requires after == before + sections[i] + rules[i]
    ensures after == header + Layout(sections, rules, i + 1)
  {
    var prev := Layout(sections, rules, i);
    assert Layout(sections, rules, i + 1) == prev + sections[i] + rules[i];
    ConcatAssoc(header, prev, sections[i]);
    ConcatAssoc(header, prev + sections[i], rules[i]);
  }

  /** One more turn adds the next section's and rule's lengths. */
  lemma LayoutStepLength(sections: seq<string>, rules: seq<string>, i: nat)
    requires |rules| == |sections| && i < |sections|
    ensures |Layout(sections, rules, i + 1)| == |Layout(sections, rules, i)| + |sections[i]| + |rules[i]|
  {
  }

  /** The document only grows: what the first turns appended is a prefix of what later turns have. */
  lemma {:induction false} LayoutPrefix(sections: seq<string>, rules: seq<string>, i: nat, j: nat)
    requires |rules| == |sections| && i <= j <= |sections|
    ensures |Layout(sections, rules, i)| <= |Layout(sections, rules, j)|
    ensures Layout(sections, rules, j)[..|Layout(sections, rules, i)|] == Layout(sections, rules, i)
    decreases j
  {
    if i < j {
      var prev := Layout(sections, rules, j - 1);
      var next := Layout(sections, rules, j);
      assert next == prev + (sections[j - 1] + rules[j - 1]);
      assert next[..|prev|] == prev;
      LayoutPrefix(sections, rules, i, j - 1);
      PrefixOfPrefix(Layout(sections, rules, i), prev, next);
    }
  }

  /** Section `i` sits right after the sections, and rules, before it. */
  lemma SectionInLayout(sections: seq<string>, rules: seq<string>, i: nat)
    requires |rules| == |sections| && i < |sections|
    ensures OccursAt(sections[i], Layout(sections, rules, |sections|), |Layout(sections, rules, i)|)
  {
    var before := Layout(sections, rules, i);
    var upTo := Layout(sections, rules, i + 1);
    assert upTo == before + (sections[i] + rules[i]);
    OccursBetween(before, sections[i], rules[i]);
    LayoutPrefix(sections, rules, i + 1, |sections|);
    OccursInExtension(sections[i], upTo, Layout(sections, rules, |sections|), |before|);
  }

  /** Caption `i`'s section sits in the document right after the entries of the captions before it. */
  lemma SectionInPlace(videoId: string, captions: seq<Caption>, i: nat)
    requires i < |captions|
    ensures OccursAt(Section(captions[i]), CaptionsMarkdown(videoId, captions),
                     |Header(videoId, captions)| + |Layout(Sections(captions), Rules(|captions|), i)|)
  {
    SectionOf(captions, i);
    SectionInDocument(Header(videoId, captions), Sections(captions), Rules(|captions|), i,
                      Section(captions[i]), CaptionsMarkdown(videoId, captions));
  }

  /** Generic form of `SectionInPlace`: after any header, section `i` starts where the first `i` end. */
  lemma SectionInDocument(header: string, sections: seq<string>, rules: seq<string>, i: nat,
                           section: string, document: string)
    requires |rules| == |sections| && i < |sections|
    requires section == sections[i] && document == header + Layout(sections, rules, |sections|)
    ensures OccursAt(section, document, |header| + |Layout(sections, rules, i)|)
  {
    SectionInLayout(sections, rules, i);
    OccursAfterPrefix(sections[i], header, Layout(sections, rules, |sections|), |Layout(sections, rules, i)|);
  }

  /** The sections appear in input order and do not overlap. */
  lemma {:induction false} SectionsInOrder(sections: seq<string>, rules: seq<string>, i: nat, j: nat)
    requires |rules| == |sections| && i < j <= |sections|
    ensures |Layout(sections, rules, i)| + |sections[i]| <= |Layout(sections, rules, j)|
    decreases j
  {
    LayoutStepLength(sections, rules, j - 1);
    if i < j - 1 {
      SectionsInOrder(sections, rules, i, j - 1);
    }
  }

  /** No rule follows the last caption: the document ends with its section. */
  lemma EndsWithLastSection(videoId: string, captions: seq<Caption>)
    requires |captions| > 0
    ensures CaptionsMarkdown(videoId, captions) ==
      Header(videoId, captions) + Layout(Sections(captions), Rules(|captions|), |captions| - 1) + Section(captions[|captions| - 1])
  {
    var n := |captions|;
    RuleOf(n, n, n - 1);
    SectionOf(captions, n - 1);
    EndsWithLast(Header(videoId, captions), Sections(captions), Rules(n));
  }

  /** Generic form of `EndsWithLastSection`: when the last rule is empty the layout ends with the last section. */
  lemma EndsWithLast(header: string, sections: seq<string>, rules: seq<string>)
    requires |rules| == |sections| > 0 && rules[|rules| - 1] == ""
    ensures header + Layout(sections, rules, |sections|) ==
      header + Layout(sections, rules, |sections| - 1) + sections[|sections| - 1]
  {
    var n := |sections|;
    var prev := Layout(sections, rules, n - 1);
    assert Layout(sections, rules, n) == prev + sections[n - 1] + rules[n - 1];
    assert prev + sections[n - 1] + rules[n - 1] == prev + sections[n - 1];
    ConcatAssoc(header, prev, sections[n - 1]);
  }

  /** Without captions there is no duration line and nothing after the rule. */
  lemma NoCaptions(videoId: string)
    ensures CaptionsMarkdown(videoId, []) == "# Video Captions\n\n**Video ID:** " + videoId + "\n\n---\n\n"
  {
  }

  /** How many of the first `k` of `n` captions are followed by a rule. */
  function SeparatorsBefore(k: nat, n: nat): nat {
    if k == 0 then 0 else SeparatorsBefore(k - 1, n) + (if SeparatorAfter(k - 1, n) then 1 else 0)
  }

  lemma {:induction false} SeparatorsBeforeLast(k: nat, n: nat)
    requires k < n
    ensures SeparatorsBefore(k, n) == k / 5
    decreases k
  {
    if k > 0 {
      SeparatorsBeforeLast(k - 1, n);
    }
  }

  /** `n` captions carry `(n - 1) / 5` rules between them. */
  lemma SeparatorCount(n: nat)
    requires n >= 1
    ensures SeparatorsBefore(n, n) == (n - 1) / 5
  {
    SeparatorsBeforeLast(n - 1, n);
  }

  /** The demo's 25 captions carry four rules, after the 5th, 10th, 15th and 20th. */
  lemma DemoSeparators()
    ensures |MockCaptions| == 25
    ensures SeparatorsBefore(|MockCaptions|, |MockCaptions|) == 4
    ensures !SeparatorAfter(24, |MockCaptions|)
  {
    SeparatorCount(25);
  }

  /** The demo's last caption ends at 100 seconds: the total duration reads `1:40`. */
  lemma DemoDuration()
    ensures DurationLine(MockCaptions) == "**Total Duration:** 1:40\n\n"
  {
    assert MockCaptions[|MockCaptions| - 1].end == 100;
    assert FormatTimestamp(100) == "1:40";
  }

  // ----- the word count -----

  /** `s.split(/\s+/)`: the text cut at every maximal whitespace run. */
  function WhitespaceSplit(s: string): (r: seq<string>)
    ensures |r| >= 1
    ensures forall k :: 0 <= k < |r| ==> forall c :: c in r[k] ==> c !in JsWhitespace
    ensures s != [] && s[|s| - 1] in JsWhitespace ==> r[|r| - 1] == []
    decreases |s|
  {
    if s == [] then [""]
    else
      var prev := WhitespaceSplit(s[..|s| - 1]);
      var c := s[|s| - 1];
      if c in JsWhitespace then
        if |s| >= 2 && s[|s| - 2] in JsWhitespace then prev else prev + [""]
      else prev[..|prev| - 1] + [prev[|prev| - 1] + [c]]
  }

  /** The number of maximal whitespace runs in `s`. */
  function WhitespaceRuns(s: string): nat
    decreases |s|
  {
    if s == [] then 0
    else
      var c := s[|s| - 1];
      WhitespaceRuns(s[..|s| - 1]) + (if c in JsWhitespace && (|s| == 1 || s[|s| - 2] !in JsWhitespace) then 1 else 0)
  }

  /** Each whitespace run becomes one cut: the count is one more than the number of runs. */
  lemma {:induction false} SplitCountsRuns(s: string)
    ensures |WhitespaceSplit(s)| == WhitespaceRuns(s) + 1
    decreases |s|
  {
    if s != [] {
      SplitCountsRuns(s[..|s| - 1]);
    }
  }

  /** `s` with every maximal whitespace run replaced by one space. */
  function Collapse(s: string): string
    decreases |s|
  {
    if s == [] then ""
    else
      var prev := Collapse(s[..|s| - 1]);
      var c := s[|s| - 1];
      if c in JsWhitespace then
        if |s| >= 2 && s[|s| - 2] in JsWhitespace then prev else prev + " "
      else prev + [c]
  }

  /** The pieces are the text between the runs: joined by single spaces they give the collapsed text. */
  lemma {:induction false} SplitJoinsToCollapse(s: string)
    ensures Join(WhitespaceSplit(s), " ") == Collapse(s)
    decreases |s|
  {
    if s != [] {
      var init := s[..|s| - 1];
      var prev := WhitespaceSplit(init);
      SplitJoinsToCollapse(init);
      var c := s[|s| - 1];
      var collapsed := Collapse(init);
      assert Join(prev, " ") == collapsed;
      if c in JsWhitespace {
        if |s| >= 2 && s[|s| - 2] in JsWhitespace {
          assert WhitespaceSplit(s) == prev && Collapse(s) == collapsed;
        } else {
          assert WhitespaceSplit(s) == prev + [""] && Collapse(s) == collapsed + " ";
          JoinAppend(prev, "", " ");
        }
      } else {
        assert WhitespaceSplit(s) == prev[..|prev| - 1] + [prev[|prev| - 1] + [c]];
        assert Collapse(s) == collapsed + [c];
        JoinExtendLast(prev, " ", [c]);
      }
    }
  }

  // ----- the handler -----

  /** The request body: unreadable (not JSON, or no object to take `url` from), or its `url`, if any. */
  datatype RequestBody = Unreadable | JsonBody(url: Option<string>)

  /** `NextResponse.json(...)`: an error with its status, or the success payload (status 200). */
  datatype CaptionsResponse =
    | ErrorReply(status: int, error: string)
    | CaptionsReply(captions: string, wordCount: nat, videoId: string, totalCaptions: nat)

  const UrlRequiredMessage: string := "YouTube URL is required"
  const InvalidUrlMessage: string := "Invalid YouTube URL"
  const FailureMessage: string := "Failed to extract captions. Please try again."

  /** `POST`: the demo serves `MockCaptions` for every accepted URL. */
  method Post(body: RequestBody) returns (response: CaptionsResponse)
    ensures body.Unreadable? ==> response == ErrorReply(500, FailureMessage)
    ensures body.JsonBody? && (body.url.None? || body.url.value == "") ==>
      response == ErrorReply(400, UrlRequiredMessage)
    ensures body.JsonBody? && body.url.Some? && body.url.value != "" && ExtractVideoId(body.url.value).None? ==>
      response == ErrorReply(400, InvalidUrlMessage)
    ensures response.CaptionsReply? <==>
      body.JsonBody? && body.url.Some? && body.url.value != "" && ExtractVideoId(body.url.value).Some?
    ensures response.CaptionsReply? ==>
      var id := ExtractVideoId(body.url.value).value;
      response == CaptionsReply(CaptionsMarkdown(id, MockCaptions),
                                WhitespaceRuns(CaptionsMarkdown(id, MockCaptions)) + 1, id, |MockCaptions|)
  {
    if body.Unreadable? {
      return ErrorReply(500, FailureMessage);
    }
    if body.url.None? || body.url.value == "" {
      return ErrorReply(400, UrlRequiredMessage);
    }
    var videoIdMatch := ExtractVideoId(body.url.value);
    if videoIdMatch.None? {
      return ErrorReply(400, InvalidUrlMessage);
    }
    response := CaptionsFor(videoIdMatch.value, MockCaptions);
  }

  /** The success payload of `POST` for a video id and its captions. */
  method CaptionsFor(videoId: string, captions: seq<Caption>) returns (response: CaptionsResponse)
    ensures response == CaptionsReply(CaptionsMarkdown(videoId, captions),
                                      WhitespaceRuns(CaptionsMarkdown(videoId, captions)) + 1, videoId, |captions|)
  {
    var markdown := BuildMarkdown(videoId, captions);
    var wordCount := CountWords(markdown);
    return CaptionsReply(markdown, wordCount, videoId, |captions|);
  }

  /** `markdown.split(/\s+/).length`: one more than the number of whitespace runs. */
  method CountWords(s: string) returns (n: nat)
    ensures n == WhitespaceRuns(s) + 1
  {
    n := |WhitespaceSplit(s)|;
    SplitCountsRuns(s);
  }
}
