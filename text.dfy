/**
 * String helpers shared by the backend and the front end: the library calls
 * the source relies on (`str.join`, `str.split`, `str.find`, `str.lower`,
 * `str.strip`, `String.prototype.trim`, `str(int)`, `padStart`), written out.
 */
module Text {

  // ----- prefixes and occurrences -----

  predicate StartsWith(s: string, prefix: string) {
    |prefix| <= |s| && s[..|prefix|] == prefix
  }

  /** `needle` occurs in `hay` starting at index `i`. */
  predicate OccursAt(needle: string, hay: string, i: int) {
    0 <= i && i + |needle| <= |hay| && hay[i..i + |needle|] == needle
  }

  /** A piece of a prefix of `all` still occurs in `h + all`, shifted by `|h|`. */
  lemma OccursInPlace(h: string, before: string, piece: string, tail: string, all: string)
    requires |before + (piece + tail)| <= |all| && all[..|before + (piece + tail)|] == before + (piece + tail)
    ensures OccursAt(piece, h + all, |h| + |before|)
  {
    var upTo := before + (piece + tail);
    OccursBetween(before, piece, tail);
    OccursInExtension(piece, upTo, all, |before|);
    OccursAfterPrefix(piece, h, all, |before|);
  }

  lemma OccursSubst(needle: string, needle2: string, hay: string, hay2: string, i: int)
    requires OccursAt(needle, hay, i) && needle == needle2 && hay == hay2
    ensures OccursAt(needle2, hay2, i)
  {
  }

  lemma ConcatAssoc(a: string, b: string, c: string)
    ensures (a + b) + c == a + (b + c)
  {
  }

  lemma PrefixOfPrefix(a: string, b: string, c: string)
    requires |a| <= |b| && b[..|a|] == a
    requires |b| <= |c| && c[..|b|] == b
    ensures |a| <= |c| && c[..|a|] == a
  {
    assert c[..|a|] == c[..|b|][..|a|];
  }

  lemma OccursBetween(a: string, needle: string, b: string)
    ensures OccursAt(needle, a + (needle + b), |a|)
  {
    assert (a + (needle + b))[|a|..|a| + |needle|] == needle;
  }

  lemma OccursInExtension(needle: string, hay: string, big: string, i: int)
    requires OccursAt(needle, hay, i) && |hay| <= |big| && big[..|hay|] == hay
    ensures OccursAt(needle, big, i)
  {
    assert big[i..i + |needle|] == big[..|hay|][i..i + |needle|];
  }

  lemma OccursAfterPrefix(needle: string, pre: string, hay: string, i: int)
    requires OccursAt(needle, hay, i)
    ensures OccursAt(needle, pre + hay, |pre| + i)
  {
    assert (pre + hay)[|pre| + i..|pre| + i + |needle|] == hay[i..i + |needle|];
  }

  /** Python's `hay.find(needle, i)`: the first occurrence at or after `i`, or -1. */
  function FindFrom(hay: string, needle: string, i: nat): (r: int)
    requires i <= |hay|
    ensures r == -1 || (i <= r && OccursAt(needle, hay, r))
    ensures forall j :: i <= j && (r == -1 || j < r) ==> !OccursAt(needle, hay, j)
    decreases |hay| - i
  {
    if i + |needle| > |hay| then -1
    else if hay[i..i + |needle|] == needle then i
    else FindFrom(hay, needle, i + 1)
  }

  /** Python's `hay.find(needle)`. */
  function Find(hay: string, needle: string): int {
    FindFrom(hay, needle, 0)
  }

  /** Python's `needle in hay` on strings. */
  predicate Contains(hay: string, needle: string) {
    Find(hay, needle) != -1
  }

  // ----- case -----

  /** `str.lower()` restricted to ASCII letters. */
  function LowerChar(c: char): char {
    if 'A' <= c <= 'Z' then (c as int + 32) as char else c
  }

  function Lower(s: string): (r: string)
    ensures |r| == |s|
  {
    seq(|s|, i requires 0 <= i < |s| => LowerChar(s[i]))
  }

  // ----- replacing and trimming -----

  /** `s.replace(a, b)` for single characters. */
  function ReplaceChar(s: string, a: char, b: char): (r: string)
    ensures |r| == |s|
    ensures forall i :: 0 <= i < |s| ==> r[i] == if s[i] == a then b else s[i]
    ensures a != b ==> a !in r
    ensures forall c :: c !in s && c != b ==> c !in r
  {
    seq(|s|, i requires 0 <= i < |s| => if s[i] == a then b else s[i])
  }

  /** Removes the leading characters that belong to `ws`. */
  function TrimStart(s: string, ws: set<char>): (r: string)
    ensures |r| <= |s| && r == s[|s| - |r|..]
    ensures forall k :: 0 <= k < |s| - |r| ==> s[k] in ws
    ensures r != [] ==> r[0] !in ws
    decreases |s|
  {
    if |s| > 0 && s[0] in ws then TrimStart(s[1..], ws) else s
  }

  /** Removes the trailing characters that belong to `ws` (Python's `rstrip(chars)`). */
  function TrimEnd(s: string, ws: set<char>): (r: string)
    ensures |r| <= |s| && r == s[..|r|]
    ensures forall k :: |r| <= k < |s| ==> s[k] in ws
    ensures r != [] ==> r[|r| - 1] !in ws
    decreases |s|
  {
    if |s| > 0 && s[|s| - 1] in ws then TrimEnd(s[..|s| - 1], ws) else s
  }

  /** Trailing separators after a word are exactly what `TrimEnd` removes. */
  lemma {:induction false} TrimEndSuffix(s: string, t: string, ws: set<char>)
    requires forall k :: 0 <= k < |t| ==> t[k] in ws
    requires s == [] || s[|s| - 1] !in ws
    ensures TrimEnd(s + t, ws) == s
    decreases |t|
  {
    if t == [] {
      assert s + t == s;
    } else {
      var u := s + t;
      assert u[..|u| - 1] == s + t[..|t| - 1];
      TrimEndSuffix(s, t[..|t| - 1], ws);
    }
  }

  /** `r` is the slice of `s` that starts at `a`, and every character of `s` outside it is in `ws`. */
  predicate SliceWithin(s: string, r: string, a: int, ws: set<char>) {
    0 <= a <= |s| - |r| && r == s[a..a + |r|] &&
    (forall k :: 0 <= k < a ==> s[k] in ws) && (forall k :: a + |r| <= k < |s| ==> s[k] in ws)
  }

  /** Both ends' characters in `ws` removed: a slice of `s` with only `ws` characters outside it. */
  function Trim(s: string, ws: set<char>): (r: string)
    ensures forall c :: c !in s ==> c !in r
    ensures r != [] ==> r[0] !in ws && r[|r| - 1] !in ws
    ensures exists a :: SliceWithin(s, r, a, ws)
  {
    var t := TrimStart(s, ws);
    var r := TrimEnd(t, ws);
    assert r != [] ==> r[0] == t[0];
    SliceOfSlice(s, t, r, ws);
    r
  }

  /** A prefix, cut off before only `ws` characters, of a suffix that only `ws` characters precede. */
  lemma SliceOfSlice(s: string, t: string, r: string, ws: set<char>)
    requires |t| <= |s| && t == s[|s| - |t|..] && forall k :: 0 <= k < |s| - |t| ==> s[k] in ws
    requires |r| <= |t| && r == t[..|r|] && forall k :: |r| <= k < |t| ==> t[k] in ws
    ensures SliceWithin(s, r, |s| - |t|, ws)
  {
    var a := |s| - |t|;
    assert r == s[a..a + |r|];
    forall k | a + |r| <= k < |s| ensures s[k] in ws {
      assert s[k] == t[k - a];
    }
  }

  /** The characters Python's `str.strip()` removes (`str.isspace()`). */
  const PyWhitespace: set<char> :=
    {'\t', '\n', '\U{000B}', '\U{000C}', '\r', '\U{001C}', '\U{001D}', '\U{001E}', '\U{001F}', ' ',
     '\U{0085}', '\U{00A0}', '\U{1680}', '\U{2000}', '\U{2001}', '\U{2002}', '\U{2003}', '\U{2004}',
     '\U{2005}', '\U{2006}', '\U{2007}', '\U{2008}', '\U{2009}', '\U{200A}', '\U{2028}', '\U{2029}',
     '\U{202F}', '\U{205F}', '\U{3000}'}

  /** The characters JavaScript's `trim()` removes and its regular expressions call `\s`. */
  const JsWhitespace: set<char> :=
    {'\t', '\n', '\U{000B}', '\U{000C}', '\r', ' ', '\U{00A0}', '\U{1680}', '\U{2000}', '\U{2001}',
     '\U{2002}', '\U{2003}', '\U{2004}', '\U{2005}', '\U{2006}', '\U{2007}', '\U{2008}', '\U{2009}',
     '\U{200A}', '\U{2028}', '\U{2029}', '\U{202F}', '\U{205F}', '\U{3000}', '\U{FEFF}'}

  /** The characters a JavaScript `.` does not match. */
  const JsLineTerminators: set<char> := {'\n', '\r', '\U{2028}', '\U{2029}'}

  /** Python's `s.strip()`. */
  function PyStrip(s: string): string {
    Trim(s, PyWhitespace)
  }

  /** JavaScript's `s.trim()`. */
  function JsTrim(s: string): string {
    Trim(s, JsWhitespace)
  }

  lemma {:induction false} TrimEmptyIff(s: string, ws: set<char>)
    ensures Trim(s, ws) == [] <==> forall k :: 0 <= k < |s| ==> s[k] in ws
  {
    var t := TrimStart(s, ws);
    if t != [] {
      assert s[|s| - |t|] == t[0];
    }
  }

  lemma TrimKeepsFirst(s: string, ws: set<char>)
    requires |s| > 0 && s[0] !in ws
    ensures Trim(s, ws) != [] && Trim(s, ws)[0] == s[0]
  {
    assert TrimStart(s, ws) == s;
    TrimEmptyIff(s, ws);
  }

  // ----- joining and splitting -----

  /** `sep.join(parts)` / `parts.join(sep)`. */
  function Join(parts: seq<string>, sep: string): string
  {
    if |parts| == 0 then ""
    else if |parts| == 1 then parts[0]
    else Join(parts[..|parts| - 1], sep) + sep + parts[|parts| - 1]
  }

  lemma JoinAppend(parts: seq<string>, p: string, sep: string)
    requires |parts| >= 1
    ensures Join(parts + [p], sep) == Join(parts, sep) + sep + p
  {
    assert (parts + [p])[..|parts|] == parts;
  }

  /** Extending the last part extends the joined string by the same text. */
  lemma JoinExtendLast(parts: seq<string>, sep: string, x: string)
    requires |parts| >= 1
    ensures Join(parts[..|parts| - 1] + [parts[|parts| - 1] + x], sep) == Join(parts, sep) + x
  {
    var n := |parts|;
    var q := parts[..n - 1] + [parts[n - 1] + x];
    assert q[..n - 1] == parts[..n - 1];
  }

  /** A join whose last part is non-empty is non-empty. */
  lemma JoinNonEmpty(parts: seq<string>, sep: string)
    requires |parts| >= 1 && parts[|parts| - 1] != ""
    ensures Join(parts, sep) != ""
  {
  }

  /** `s.split(c)` for a single separator character. */
  function SplitOn(s: string, c: char): (r: seq<string>)
    ensures |r| >= 1
    ensures forall k :: 0 <= k < |r| ==> c !in r[k]
    decreases |s|
  {
    if s == [] then [""]
    else
      var prev := SplitOn(s[..|s| - 1], c);
      if s[|s| - 1] == c then prev + [""]
      else prev[..|prev| - 1] + [prev[|prev| - 1] + [s[|s| - 1]]]
  }

  lemma {:induction false} SplitOnAppend(x: string, c: char, p: string)
    requires c !in p
    ensures SplitOn(x + [c] + p, c) == SplitOn(x, c) + [p]
    decreases |p|
  {
    var s := x + [c] + p;
    if p == [] {
      assert s[..|s| - 1] == x;
    } else {
      var q := p[..|p| - 1];
      assert s[..|s| - 1] == x + [c] + q;
      SplitOnAppend(x, c, q);
      assert q + [p[|p| - 1]] == p;
    }
  }

  lemma {:induction false} SplitOnFree(p: string, c: char)
    requires c !in p
    ensures SplitOn(p, c) == [p]
    decreases |p|
  {
    if p != [] {
      SplitOnFree(p[..|p| - 1], c);
      assert p[..|p| - 1] + [p[|p| - 1]] == p;
    }
  }

  /** Splitting a join on a separator that occurs in no part gives the parts back. */
  lemma {:induction false} SplitOnJoin(parts: seq<string>, c: char)
    requires |parts| >= 1
    requires forall k :: 0 <= k < |parts| ==> c !in parts[k]
    ensures SplitOn(Join(parts, [c]), c) == parts
    decreases |parts|
  {
    if |parts| == 1 {
      SplitOnFree(parts[0], c);
    } else {
      var init := parts[..|parts| - 1];
      var last := parts[|parts| - 1];
      assert Join(parts, [c]) == Join(init, [c]) + [c] + last;
      SplitOnJoin(init, c);
      SplitOnAppend(Join(init, [c]), c, last);
      assert init + [last] == parts;
    }
  }

  /** Joining the pieces of a split restores the string. */
  lemma {:induction false} JoinSplitOn(s: string, c: char)
    ensures Join(SplitOn(s, c), [c]) == s
    decreases |s|
  {
    if s != [] {
      var init := s[..|s| - 1];
      var prev := SplitOn(init, c);
      JoinSplitOn(init, c);
      if s[|s| - 1] == c {
        JoinAppend(prev, "", [c]);
        assert init + [c] == s;
      } else {
        JoinExtendLast(prev, [c], [s[|s| - 1]]);
        assert init + [s[|s| - 1]] == s;
      }
    }
  }

  // ----- decimal numbers -----

  predicate IsDigit(c: char) {
    '0' <= c <= '9'
  }

  predicate AllDigits(s: string) {
    forall k :: 0 <= k < |s| ==> IsDigit(s[k])
  }

  function DigitChar(d: nat): (c: char)
    requires d < 10
    ensures IsDigit(c) && c as int - '0' as int == d
  {
    ('0' as int + d) as char
  }

  /** The decimal digits of `n`, without leading zeros (JavaScript `toString()`, Python `str`). */
  function NatToString(n: nat): (r: string)
    ensures |r| >= 1 && AllDigits(r)
    ensures |r| > 1 ==> r[0] != '0'
    ensures n < 10 <==> |r| == 1
    decreases n
  {
    if n < 10 then [DigitChar(n)] else NatToString(n / 10) + [DigitChar(n % 10)]
  }

  /** The value of a string of decimal digits. */
  function DigitsValue(s: string): nat
    requires AllDigits(s)
  {
    if s == [] then 0
    else DigitsValue(s[..|s| - 1]) * 10 + (s[|s| - 1] as int - '0' as int)
  }

  lemma {:induction false} DigitsValueOfNatToString(n: nat)
    ensures DigitsValue(NatToString(n)) == n
    decreases n
  {
    if n >= 10 {
      var r := NatToString(n);
      DigitsValueOfNatToString(n / 10);
      assert r[..|r| - 1] == NatToString(n / 10);
    }
  }

  lemma {:induction false} DigitsValueLeadingZero(s: string)
    requires AllDigits(s)
    ensures AllDigits("0" + s) && DigitsValue("0" + s) == DigitsValue(s)
    decreases |s|
  {
    if s != [] {
      var init := s[..|s| - 1];
      DigitsValueLeadingZero(init);
      assert ("0" + s)[..|s|] == "0" + init;
    }
  }

  /** Python's `str(i)` for an integer. */
  function IntToString(i: int): string {
    if i < 0 then "-" + NatToString(-i) else NatToString(i)
  }

  /** JavaScript's `s.padStart(2, '0')`. */
  function PadStart2(s: string): (r: string)
    ensures |s| <= 2 ==> |r| == 2
    ensures |s| >= 2 ==> r == s
  {
    if |s| >= 2 then s else if |s| == 1 then "0" + s else "00"
  }
}
