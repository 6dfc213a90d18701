/** The patterns of tools/release_check.py and tools/sync_version.py that a changelog is read with:
    versions, dates, version headings, breaking markers and release links. */
module ChangelogText {
  import opened Wrappers
  import SemVer
  import opened TextSearch

  type Lines = seq<string>

  // ---- Character classes ----

  /** White space as `\s` and `strip` understand it. */
  predicate IsSpace(c: char) {
    || c == ' ' || '\U{9}' <= c <= '\U{d}' || '\U{1c}' <= c <= '\U{1f}' || c == '\U{85}' || c == '\U{a0}'
    || c == '\U{1680}' || '\U{2000}' <= c <= '\U{200a}' || c == '\U{2028}' || c == '\U{2029}'
    || c == '\U{202f}' || c == '\U{205f}' || c == '\U{3000}'
  }

  function SkipSpace(s: string, i: nat): (r: nat)
    requires i <= |s|
    ensures i <= r <= |s| && (r < |s| ==> !IsSpace(s[r])) && forall k :: i <= k < r ==> IsSpace(s[k])
    decreases |s| - i
  {
    if i < |s| && IsSpace(s[i]) then SkipSpace(s, i + 1) else i
  }

  /** `rstrip`. */
  function StripEnd(s: string): string {
    if s != "" && IsSpace(s[|s| - 1]) then StripEnd(s[..|s| - 1]) else s
  }

  /** The end of the run of digits at `i`. */
  function SkipDigits(s: string, i: nat): (r: nat)
    requires i <= |s|
    ensures i <= r <= |s| && (r < |s| ==> !SemVer.IsDigit(s[r])) && forall k :: i <= k < r ==> SemVer.IsDigit(s[k])
    decreases |s| - i
  {
    if i < |s| && SemVer.IsDigit(s[i]) then SkipDigits(s, i + 1) else i
  }

  function IndexOfChar(s: string, c: char, from: nat): (k: Option<nat>)
    requires from <= |s|
    ensures k.Some? ==> from <= k.value < |s| && s[k.value] == c && forall j :: from <= j < k.value ==> s[j] != c
    ensures k.None? ==> forall j :: from <= j < |s| ==> s[j] != c
    decreases |s| - from
  {
    if from == |s| then None
    else if s[from] == c then Some(from)
    else IndexOfChar(s, c, from + 1)
  }

  // ---- Versions ----

  predicate IdChar(c: char) {
    SemVer.IsDigit(c) || 'a' <= c <= 'z' || 'A' <= c <= 'Z' || c == '-'
  }

  /** The pieces of `s` between the dots. */
  function Dotted(s: string): (ids: seq<string>)
    ensures ids != []
    decreases |s|
  {
    var k := IndexOfChar(s, '.', 0);
    if k.None? then [s] else [s[..k.value]] + Dotted(s[k.value + 1..])
  }

  predicate AllIds(ids: seq<string>) {
    forall i :: 0 <= i < |ids| ==> ids[i] != ""
  }

  predicate AllCanonical(ids: seq<string>) {
    forall i :: 0 <= i < |ids| ==> SemVer.Canonical(ids[i])
  }

  /** Identifiers joined by dots. */
  predicate IsDotted(s: string) {
    (forall i :: 0 <= i < |s| ==> IdChar(s[i]) || s[i] == '.') && AllIds(Dotted(s))
  }

  /** What follows the three numbers of a version. */
  predicate IsTail(s: string) {
    var plus := IndexOfChar(s, '+', 0);
    var pre := if plus.None? then s else s[..plus.value];
    && (plus.Some? ==> IsDotted(s[plus.value + 1..]))
    && (pre != "" ==> pre[0] == '-' && IsDotted(pre[1..]) && AllCanonical(Dotted(pre[1..])))
  }

  function Prerelease(s: string): Option<seq<string>> {
    var plus := IndexOfChar(s, '+', 0);
    var pre := if plus.None? then s else s[..plus.value];
    if pre == "" then None else Some(Dotted(pre[1..]))
  }

  /** Where two runs of digits, each ended by a dot, end. */
  function TwoNumbers(s: string): (r: Option<(nat, nat)>)
    ensures r.Some? ==> 0 < r.value.0 && r.value.0 + 1 < r.value.1 < |s|
    ensures r.Some? ==> forall k :: 0 <= k <= r.value.1 ==> SemVer.IsDigit(s[k]) || s[k] == '.'
  {
    var i := SkipDigits(s, 0);
    if i == 0 || i == |s| || s[i] != '.' then None
    else
      var j := SkipDigits(s, i + 1);
      if j == i + 1 || j == |s| || s[j] != '.' then None else Some((i, j))
  }

  /** `SEMVER_RE`, and the version it denotes; build data is read and dropped. */
  function ReadVersion(s: string): Option<SemVer.Version> {
    match TwoNumbers(s)
    case None => None
    case Some((i, j)) =>
      var k := SkipDigits(s, j + 1);
      var major, minor, patch := s[..i], s[i + 1..j], s[j + 1..k];
      if !SemVer.IsNumeric(major) || !SemVer.IsNumeric(minor) || !SemVer.IsNumeric(patch) then None
      else if !AllCanonical([major, minor, patch]) || !IsTail(s[k..]) then None
      else Some(SemVer.Version(SemVer.Value(major), SemVer.Value(minor), SemVer.Value(patch), Prerelease(s[k..])))
  }

  /** What a heading takes for a version: two numbers and dots, and one more digit. */
  predicate LooksLikeVersion(s: string) {
    TwoNumbers(s).Some? && TwoNumbers(s).value.1 + 1 < |s| && SemVer.IsDigit(s[TwoNumbers(s).value.1 + 1])
  }

  predicate VersionChar(c: char) {
    IdChar(c) || c == '.' || c == '+'
  }

  lemma TailChars(s: string)
    requires IsTail(s)
    ensures forall i :: 0 <= i < |s| ==> VersionChar(s[i])
  {
    hide AllCanonical, AllIds, Dotted;
    var plus := IndexOfChar(s, '+', 0);
    var pre := if plus.None? then s else s[..plus.value];
    forall i | 0 <= i < |s|
      ensures VersionChar(s[i])
    {
      if i < |pre| {
        assert s[i] == pre[i] && (i > 0 ==> pre[i] == pre[1..][i - 1]);
      } else if i > |pre| {
        assert s[i] == s[plus.value + 1..][i - plus.value - 1];
      }
    }
  }

  /** A version has the shape a heading asks for, one spelling of its numbers, and no bracket. */
  lemma VersionsAreRead(s: string)
    requires ReadVersion(s).Some?
    ensures LooksLikeVersion(s) && SemVer.CanonicalVersion(ReadVersion(s).value)
    ensures forall i :: 0 <= i < |s| ==> VersionChar(s[i])
  {
    hide IsTail, AllIds, Dotted, SemVer.Value, SemVer.Canonical;
    var (i, j) := TwoNumbers(s).value;
    var k := SkipDigits(s, j + 1);
    TailChars(s[k..]);
    forall n | 0 <= n < |s|
      ensures VersionChar(s[n])
    {
      if n >= k {
        assert s[n] == s[k..][n - k];
      }
    }
    PrereleaseIsCanonical(s[k..]);
    assert AllCanonical([s[..i], s[i + 1..j], s[j + 1..k]]);
  }

  lemma PrereleaseIsCanonical(s: string)
    requires IsTail(s)
    ensures Prerelease(s).Some? ==> AllCanonical(Prerelease(s).value)
  {
    hide AllCanonical, AllIds, Dotted, IsDotted;
  }

  // ---- Dates ----

  function Digit(s: string, i: nat): nat
    requires i < |s| && SemVer.IsDigit(s[i])
  {
    s[i] as int - '0' as int
  }

  function DaysIn(year: nat, month: nat): nat {
    if month == 2 then (if year % 4 == 0 && (year % 100 != 0 || year % 400 == 0) then 29 else 28)
    else if month == 4 || month == 6 || month == 9 || month == 11 then 30
    else 31
  }

  /** `YYYY-MM-DD`, a day of the calendar. */
  predicate IsoDate(s: string) {
    && |s| == 10 && s[4] == '-' && s[7] == '-'
    && (forall i :: 0 <= i < 10 && i != 4 && i != 7 ==> SemVer.IsDigit(s[i]))
    && var year := 1000 * Digit(s, 0) + 100 * Digit(s, 1) + 10 * Digit(s, 2) + Digit(s, 3);
       var month, day := 10 * Digit(s, 5) + Digit(s, 6), 10 * Digit(s, 8) + Digit(s, 9);
       year >= 1 && 1 <= month <= 12 && 1 <= day <= DaysIn(year, month)
  }

  // ---- Version headings ----

  /** The date after the bracket: empty if there is none. A dash wants at least one character, and
      takes the last white space if there is nothing else. */
  function DateAfter(rest: string): Option<string> {
    var t := SkipSpace(rest, 0);
    if t == |rest| then Some("")
    else if rest[t] != '—' then None
    else
      var u := SkipSpace(rest, t + 1);
      if u < |rest| then Some(rest[u..])
      else if u > t + 1 then Some(rest[|rest| - 1..])
      else None
  }

  /** `VERSION_HEADING_RE` on one line: the version, and the date or nothing. */
  function VersionHeading(line: string): Option<(string, string)> {
    if !StartsWith(line, "##") then None
    else
      var a := SkipSpace(line, 2);
      if a == 2 || a == |line| || line[a] != '[' then None
      else
        match IndexOfChar(line, ']', a + 1)
        case None => None
        case Some(b) =>
          if !LooksLikeVersion(line[a + 1..b]) then None
          else
            match DateAfter(line[b + 1..])
            case None => None
            case Some(date) => Some((line[a + 1..b], date))
  }

  /** The heading a cut writes. */
  function Rendered(version: string, date: string): string {
    "## [" + version + "] — " + date
  }

  lemma DateIsRead(date: string)
    requires IsoDate(date)
    ensures DateAfter(" — " + date) == Some(date)
  {
    var rest := " — " + date;
    assert rest[0] == ' ' && rest[1] == '—' && rest[2] == ' ' && rest[3] == date[0];
    assert SkipSpace(rest, 0) == 1 && SkipSpace(rest, 2) == 3;
    assert rest[3..] == date;
  }

  /** It reads back as that release. */
  lemma RenderedIsRead(version: string, date: string)
    requires ReadVersion(version).Some? && IsoDate(date)
    ensures VersionHeading(Rendered(version, date)) == Some((version, date))
    ensures StripEnd(Rendered(version, date)) == Rendered(version, date)
    ensures StartsWith(Rendered(version, date), "## ") && '\r' !in Rendered(version, date)
  {
    hide ReadVersion, LooksLikeVersion, DateAfter, IsoDate, VersionChar, SkipSpace, IndexOfChar;
    var line, rest := Rendered(version, date), " — " + date;
    VersionsAreRead(version);
    DateIsRead(date);
    BracketsAreFound(version, rest);
    assert line == "## [" + version + "]" + rest;
    NoReturnIn(version, date);
  }

  lemma BracketsAreFound(version: string, rest: string)
    requires forall i :: 0 <= i < |version| ==> VersionChar(version[i])
    ensures var line := "## [" + version + "]" + rest;
      && StartsWith(line, "##") && StartsWith(line, "## ") && SkipSpace(line, 2) == 3 && line[3] == '['
      && IndexOfChar(line, ']', 4) == Some(4 + |version|)
      && line[4..4 + |version|] == version && line[5 + |version|..] == rest
  {
    var line := "## [" + version + "]" + rest;
    assert line[..2] == "##" && line[..3] == "## " && line[2] == ' ' && line[3] == '[';
    assert SkipSpace(line, 2) == 3;
    assert forall k :: 4 <= k < 4 + |version| ==> line[k] == version[k - 4] && VersionChar(version[k - 4]);
    assert line[4 + |version|] == ']';
  }

  lemma NoReturnIn(version: string, date: string)
    requires IsoDate(date) && forall i :: 0 <= i < |version| ==> VersionChar(version[i])
    ensures '\r' !in Rendered(version, date) && StripEnd(Rendered(version, date)) == Rendered(version, date)
  {
    hide IsoDate;
    var line := Rendered(version, date);
    DateChars(date);
    assert line[|line| - 1] == date[|date| - 1];
    assert '\r' !in version && '\r' !in date && '\r' !in "## [" && '\r' !in "] — ";
  }

  lemma DateChars(date: string)
    requires IsoDate(date)
    ensures |date| == 10 && forall i :: 0 <= i < |date| ==> SemVer.IsDigit(date[i]) || date[i] == '-'
  {
  }

  // ---- Categories ----

  predicate IsWordChar(c: char) {
    'a' <= c <= 'z' || 'A' <= c <= 'Z' || '0' <= c <= '9' || c == '_'
  }

  function SkipWord(s: string, i: nat): (r: nat)
    requires i <= |s|
    ensures i <= r <= |s| && (r < |s| ==> !IsWordChar(s[r])) && forall k :: i <= k < r ==> IsWordChar(s[k])
    decreases |s| - i
  {
    if i < |s| && IsWordChar(s[i]) then SkipWord(s, i + 1) else i
  }

  /** `CATEGORY_HEADING_RE` where a line begins, `t` being the text from there. */
  function CategoryAt(t: string): Option<string> {
    if !StartsWith(t, "###") then None
    else
      var a := SkipSpace(t, 3);
      var b := SkipWord(t, a);
      if a > 3 && b > a then Some(t[a..b]) else None
  }

  predicate IsWord(word: string) {
    word != "" && forall k :: 0 <= k < |word| ==> IsWordChar(word[k])
  }

  lemma CategoryIsWord(t: string)
    ensures CategoryAt(t).Some? ==> IsWord(CategoryAt(t).value)
  {
  }

  lemma WordIsCategory(word: string, more: string)
    requires IsWord(word)
    ensures CategoryAt("### " + word + "\n" + more) == Some(word)
  {
    var t := "### " + word + "\n" + more;
    assert t[..3] == "###" && t[3] == ' ' && t[4] == word[0] && !IsSpace(word[0]);
    assert SkipSpace(t, 3) == 4;
    assert forall k :: 4 <= k < 4 + |word| ==> t[k] == word[k - 4];
    assert t[4 + |word|] == '\n' && SkipWord(t, 4) == 4 + |word|;
    assert t[4..4 + |word|] == word;
  }

  lemma PlainLineIsNoCategory(line: string, more: string)
    requires !StartsWith(line, "###")
    ensures CategoryAt(line + "\n" + more) == None
  {
    var t := line + "\n" + more;
    assert "###" == ['#', '#', '#'];
    if |line| < 3 {
      assert t[|line|] == '\n';
    } else {
      assert t[..3] == line[..3];
    }
  }

  // ---- Breaking markers ----

  /** Letters are compared without regard to case, as `IGNORECASE` does. */
  function Folded(c: char): char {
    if 'A' <= c <= 'Z' then (c as int + 32) as char
    else if c == '\U{17f}' then 's'
    else if c == '\U{212a}' then 'k'
    else if c == '\U{130}' || c == '\U{131}' then 'i'
    else c
  }

  predicate FoldedAt(s: string, i: nat, m: string) {
    i + |m| <= |s| && forall k :: 0 <= k < |m| ==> Folded(s[i + k]) == m[k]
  }

  const MARKER := "**breaking changes:**"

  /** `BREAKING_MARKER_RE` at `i`: where the match ends, and whether it says "present". */
  function MarkerAt(s: string, i: nat): (r: Option<(nat, bool)>)
    ensures r.Some? ==> i < r.value.0 <= |s| && s[i] == '*'
  {
    if !FoldedAt(s, i, MARKER) then None
    else
      assert Folded(s[i]) == MARKER[0];
      var j := SkipSpace(s, i + |MARKER|);
      if FoldedAt(s, j, "none") then Some((j + 4, false))
      else if FoldedAt(s, j, "present") then Some((j + 7, true))
      else None
  }

  function MarkersFrom(s: string, i: nat): seq<bool>
    requires i <= |s|
    decreases |s| - i
  {
    if i == |s| then []
    else
      match MarkerAt(s, i)
      case None => MarkersFrom(s, i + 1)
      case Some((end, present)) => [present] + MarkersFrom(s, end)
  }

  /** Every marker of a body; true for "present". */
  function Markers(body: Lines): seq<bool> {
    MarkersFrom(Terminated(body, "\n"), 0)
  }

  predicate HasBreakingEntry(body: Lines) {
    Contains(Terminated(body, "\n"), "**BREAKING:**")
  }

  lemma {:induction false} NoMarkerBefore(s: string, i: nat, j: nat)
    requires i <= j <= |s| && forall k :: i <= k < j ==> s[k] != '*'
    ensures MarkersFrom(s, i) == MarkersFrom(s, j)
    decreases j - i
  {
    if i < j {
      NoMarkerBefore(s, i + 1, j);
    }
  }

  lemma {:induction false} NoStarInText(lines: Lines)
    requires forall i :: 0 <= i < |lines| ==> '*' !in lines[i]
    ensures '*' !in Terminated(lines, "\n")
  {
    if lines != [] {
      NoStarInText(lines[1..]);
    }
  }

  const NONE := "**Breaking changes:** none"

  /** Lines without a star, and one marker line: one marker. */
  lemma OneMarker(lines: Lines)
    requires forall i :: 0 <= i < |lines| ==> '*' !in lines[i]
    ensures Markers(lines + [NONE, ""]) == [false]
  {
    hide MarkerAt, MarkersFrom, NONE;
    var before, mark := Terminated(lines, "\n"), NONE + "\n\n";
    NoStarInText(lines);
    TerminatedConcat(lines, [NONE, ""], "\n");
    assert Terminated([NONE, ""], "\n") == mark by {
      assert [NONE, ""][1..] == [""] && [""][1..] == [];
    }
    MarkerAfter(before, "\n\n");
    assert before + (NONE + "\n\n") == before + NONE + "\n\n";
  }

  lemma MarkerAfter(before: string, rest: string)
    requires '*' !in before && '*' !in rest
    ensures MarkersFrom(before + NONE + rest, 0) == [false]
  {
    hide MarkerAt, MarkersFrom, NONE;
    var s, end := before + NONE + rest, |before| + |NONE|;
    assert forall k :: 0 <= k < |before| ==> s[k] == before[k];
    assert forall k :: end <= k < |s| ==> s[k] == rest[k - end];
    NoMarkerBefore(s, 0, |before|);
    assert s[|before|..end] == NONE;
    MarkerIsRead(s, |before|);
    OneStep(s, |before|, end);
    NoMarkerBefore(s, end, |s|);
    OneStep(s, |s|, 0);
  }

  lemma OneStep(s: string, i: nat, end: nat)
    requires i <= |s|
    ensures i == |s| ==> MarkersFrom(s, i) == []
    ensures i < |s| && MarkerAt(s, i) == Some((end, false)) ==> MarkersFrom(s, i) == [false] + MarkersFrom(s, end)
  {
    hide MarkerAt;
  }

  lemma FoldedPiece(s: string, i: nat, text: string, k: nat, m: string)
    requires At(s, i, text) && FoldedAt(text, k, m)
    ensures FoldedAt(s, i + k, m)
  {
    forall n | 0 <= n < |m|
      ensures Folded(s[i + k + n]) == m[n]
    {
      assert s[i + k + n] == s[i..i + |text|][k + n];
    }
  }

  lemma MarkerIsRead(s: string, i: nat)
    requires At(s, i, NONE)
    ensures i < |s| && MarkerAt(s, i) == Some((i + |NONE|, false))
  {
    NoneFacts();
    hide FoldedAt, NONE, MARKER;
    FoldedPiece(s, i, NONE, 0, MARKER);
    FoldedPiece(s, i, NONE, |MARKER| + 1, "none");
    assert s[i + |MARKER|] == s[i..i + |NONE|][|MARKER|] && s[i + |MARKER| + 1] == s[i..i + |NONE|][|MARKER| + 1];
    assert SkipSpace(s, i + |MARKER|) == i + |MARKER| + 1;
  }

  lemma NoneFacts()
    ensures |NONE| == |MARKER| + 5 && NONE[|MARKER|] == ' ' && NONE[|MARKER| + 1] == 'n'
    ensures FoldedAt(NONE, 0, MARKER) && FoldedAt(NONE, |MARKER| + 1, "none")
  {
  }

  // ---- Release links ----

  /** `CHANGELOG_LINK_RE` at the start of `s`. */
  predicate IsLink(s: string) {
    && s != "" && s[0] == '['
    && var b := IndexOfChar(s, ']', 1);
       && b.Some? && LooksLikeVersion(s[1..b.value])
       && b.value + 1 < |s| && s[b.value + 1] == ':'
       && var u := SkipSpace(s, b.value + 2);
          UrlAt(s, u, "http://") || UrlAt(s, u, "https://")
  }

  predicate UrlAt(s: string, i: nat, scheme: string) {
    At(s, i, scheme) && i + |scheme| < |s| && !IsSpace(s[i + |scheme|])
  }

  predicate HasLink(lines: Lines) {
    exists i :: 0 <= i < |lines| && IsLink(Terminated(lines[i..], "\n"))
  }

  const UNRELEASED := "## [Unreleased]"

  lemma SameBracket(common: string, x: string)
    requires 1 <= |common| && IndexOfChar(common, ']', 1).Some?
    ensures IndexOfChar(common + x, ']', 1) == IndexOfChar(common, ']', 1)
  {
    assert forall k :: 0 <= k < |common| ==> (common + x)[k] == common[k];
  }

  lemma SameSpace(common: string, x: string, i: nat)
    requires i <= |common| && SkipSpace(common, i) < |common|
    ensures SkipSpace(common + x, i) == SkipSpace(common, i)
  {
    assert forall k :: 0 <= k < |common| ==> (common + x)[k] == common[k];
  }

  lemma SameUrl(common: string, x: string, u: nat, scheme: string)
    requires u + |scheme| < |common|
    ensures UrlAt(common + x, u, scheme) <==> UrlAt(common, u, scheme)
  {
    assert (common + x)[u..u + |scheme|] == common[u..u + |scheme|];
  }

  const MARK := UNRELEASED + "\n"

  lemma MarkFacts()
    ensures |MARK| == 16 && MARK[0] == '#' && MARK[14] == ']' && MARK[15] == '\n'
  {
  }

  /** A link that begins before the Unreleased heading ends before it. */
  lemma LinkBeforeHeading(before: string, x: string)
    ensures IsLink(before + MARK + x) <==> IsLink(before + MARK)
  {
    hide LooksLikeVersion, UrlAt, MARK, SkipSpace, IndexOfChar;
    var common, s := before + MARK, before + MARK + x;
    MarkFacts();
    assert s[0] == common[0];
    assert common[|before|] == '#' && common[|before| + 14] == ']' && common[|before| + 15] == '\n';
    BracketWithin(common, |before| + 14);
    SameBracket(common, x);
    var b := IndexOfChar(common, ']', 1).value;
    assert s[1..b] == common[1..b] && s[b + 1] == common[b + 1];
    if before != "" && common[b + 1] == ':' {
      assert b < |before| + 14;
      HashNotSpace(common, b + 2, |before|) by {
        assert b + 2 <= |before| by {
          NoColonInMark(before, b);
        }
      }
      SameSpace(common, x, b + 2);
      var u := SkipSpace(common, b + 2);
      SameUrl(common, x, u, "http://");
      SameUrl(common, x, u, "https://");
    } else if before == "" {
      assert common[0] == '#';
    }
  }

  lemma BracketWithin(s: string, k: nat)
    requires 1 <= k < |s| && s[k] == ']'
    ensures IndexOfChar(s, ']', 1).Some? && IndexOfChar(s, ']', 1).value <= k
    ensures s[IndexOfChar(s, ']', 1).value] == ']'
  {
  }

  lemma HashNotSpace(s: string, i: nat, k: nat)
    requires i <= k < |s| && s[k] == '#'
    ensures SkipSpace(s, i) <= k
  {
  }

  lemma NoColonInMark(before: string, b: nat)
    requires b + 1 < |before + MARK| && (before + MARK)[b] == ']' && (before + MARK)[b + 1] == ':'
    ensures b + 2 <= |before|
  {
    assert forall k :: |before| <= k < |before + MARK| ==> (before + MARK)[k] == MARK[k - |before|];
    assert ':' !in MARK;
  }
}
