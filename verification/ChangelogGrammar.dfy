/** The texts of the release tools as their patterns describe them, put together from their parts:
    which texts are versions, dates, headings, categories, breaking markers and release links. */
module ChangelogGrammar {
  import opened Wrappers
  import SemVer
  import opened TextSearch
  import opened ChangelogText

  // ---- Runs of characters ----

  /** The characters that count as white space. */
  const SPACES: set<char> := {
    ' ', '\t', '\n', '\r', '\U{b}', '\U{c}', '\U{1c}', '\U{1d}', '\U{1e}', '\U{1f}', '\U{85}', '\U{a0}', '\U{1680}',
    '\U{2000}', '\U{2001}', '\U{2002}', '\U{2003}', '\U{2004}', '\U{2005}', '\U{2006}', '\U{2007}', '\U{2008}', '\U{2009}',
    '\U{200a}', '\U{2028}', '\U{2029}', '\U{202f}', '\U{205f}', '\U{3000}'
  }

  lemma SpacesExactly(c: char)
    ensures IsSpace(c) <==> c in SPACES
  {
  }

  predicate Spaces(s: string) {
    forall i :: 0 <= i < |s| ==> IsSpace(s[i])
  }

  predicate Digits(s: string) {
    s != "" && forall i :: 0 <= i < |s| ==> '0' <= s[i] <= '9'
  }

  /** A run of spaces is skipped, and nothing after it. */
  lemma {:induction false} SkipsSpaces(before: string, gap: string, rest: string, i: nat)
    requires Spaces(gap) && (rest != "" ==> !IsSpace(rest[0])) && |before| <= i <= |before| + |gap|
    ensures SkipSpace(before + gap + rest, i) == |before| + |gap|
    decreases |before| + |gap| - i
  {
    var s := before + gap + rest;
    if i < |before| + |gap| {
      assert s[i] == gap[i - |before|];
      SkipsSpaces(before, gap, rest, i + 1);
    } else if rest != "" {
      assert s[i] == rest[0];
    }
  }

  lemma {:induction false} SkipsDigits(before: string, run: string, rest: string, i: nat)
    requires (forall k :: 0 <= k < |run| ==> SemVer.IsDigit(run[k])) && (rest != "" ==> !SemVer.IsDigit(rest[0]))
    requires |before| <= i <= |before| + |run|
    ensures SkipDigits(before + run + rest, i) == |before| + |run|
    decreases |before| + |run| - i
  {
    var s := before + run + rest;
    if i < |before| + |run| {
      assert s[i] == run[i - |before|];
      SkipsDigits(before, run, rest, i + 1);
    } else if rest != "" {
      assert s[i] == rest[0];
    }
  }

  lemma FindsChar(before: string, x: string, c: char, rest: string)
    requires c !in x
    ensures IndexOfChar(before + x + [c] + rest, c, |before|) == Some(|before| + |x|)
  {
    var s := before + x + [c] + rest;
    assert s[|before| + |x|] == c;
    assert forall k :: |before| <= k < |before| + |x| ==> s[k] == x[k - |before|];
  }

  lemma MissesChar(before: string, x: string, c: char)
    requires c !in x
    ensures IndexOfChar(before + x, c, |before|) == None
  {
    var s := before + x;
    assert forall k :: |before| <= k < |s| ==> s[k] == x[k - |before|];
  }

  lemma SliceIsSpaces(s: string, i: nat)
    requires i <= |s|
    ensures Spaces(s[i..SkipSpace(s, i)])
  {
  }

  /** What ends the text, and is taken off, are spaces, and no more spaces are before them. */
  lemma {:induction false} EndIsStripped(s: string)
    ensures exists gap :: Spaces(gap) && s == StripEnd(s) + gap
    ensures StripEnd(s) != "" ==> !IsSpace(StripEnd(s)[|StripEnd(s)| - 1])
  {
    hide IsSpace;
    if s != "" && IsSpace(s[|s| - 1]) {
      var shorter := s[..|s| - 1];
      EndIsStripped(shorter);
      var gap :| Spaces(gap) && shorter == StripEnd(shorter) + gap;
      assert s == StripEnd(shorter) + (gap + [s[|s| - 1]]);
    } else {
      assert Spaces("") && s == s + "";
    }
  }

  // ---- Versions ----

  /** A number without leading zeros. */
  predicate Numeral(x: string) {
    Digits(x) && (x[0] == '0' ==> x == "0")
  }

  /** Letters, digits and hyphens. */
  predicate Identifier(x: string) {
    x != "" && forall i :: 0 <= i < |x| ==> ('0' <= x[i] <= '9' || 'a' <= x[i] <= 'z' || 'A' <= x[i] <= 'Z' || x[i] == '-')
  }

  predicate Identifiers(ids: seq<string>) {
    ids != [] && forall i :: 0 <= i < |ids| ==> Identifier(ids[i])
  }

  predicate PrereleaseIds(ids: seq<string>) {
    Identifiers(ids) && forall i :: 0 <= i < |ids| ==> Digits(ids[i]) ==> Numeral(ids[i])
  }

  /** Three numbers, identifiers after a hyphen, and identifiers after a plus sign. */
  datatype Parts = Parts(major: string, minor: string, patch: string, pre: Option<seq<string>>, build: Option<seq<string>>)

  predicate Proper(p: Parts) {
    && Numeral(p.major) && Numeral(p.minor) && Numeral(p.patch)
    && (p.pre.Some? ==> PrereleaseIds(p.pre.value)) && (p.build.Some? ==> Identifiers(p.build.value))
  }

  function Listed(sign: string, ids: Option<seq<string>>): string {
    if ids.None? then "" else sign + Join(ids.value, ".")
  }

  function Spelled(p: Parts): string {
    p.major + "." + p.minor + "." + p.patch + Listed("-", p.pre) + Listed("+", p.build)
  }

  function Denoted(p: Parts): SemVer.Version
    requires Proper(p)
  {
    SemVer.Version(SemVer.Value(p.major), SemVer.Value(p.minor), SemVer.Value(p.patch), p.pre)
  }

  lemma {:induction false} JoinedIsDotted(ids: seq<string>)
    requires ids != [] && forall i :: 0 <= i < |ids| ==> '.' !in ids[i]
    ensures Dotted(Join(ids, ".")) == ids
  {
    var s := Join(ids, ".");
    if |ids| == 1 {
      MissesChar("", s, '.');
      assert "" + s == s;
    } else {
      var rest := Join(ids[1..], ".");
      FindsChar("", ids[0], '.', rest);
      assert "" + ids[0] + ['.'] + rest == s;
      assert s[..|ids[0]|] == ids[0] && s[|ids[0]| + 1..] == rest;
      JoinedIsDotted(ids[1..]);
    }
  }

  lemma {:induction false} DottedIsJoined(s: string)
    ensures Join(Dotted(s), ".") == s
    ensures forall i :: 0 <= i < |Dotted(s)| ==> '.' !in Dotted(s)[i] && forall c :: c in Dotted(s)[i] ==> c in s
    decreases |s|
  {
    var k := IndexOfChar(s, '.', 0);
    if k.Some? {
      var first, rest := s[..k.value], s[k.value + 1..];
      DottedIsJoined(rest);
      assert Dotted(s) == [first] + Dotted(rest);
      assert s == first + "." + rest;
    }
  }

  lemma {:induction false} JoinedChars(ids: seq<string>)
    requires Identifiers(ids)
    ensures Join(ids, ".") != ""
    ensures forall i :: 0 <= i < |Join(ids, ".")| ==> IdChar(Join(ids, ".")[i]) || Join(ids, ".")[i] == '.'
  {
    if |ids| > 1 {
      JoinedChars(ids[1..]);
    }
  }

  /** Identifiers between dots. */
  lemma DottedExactly(s: string)
    ensures IsDotted(s) <==> Identifiers(Dotted(s))
    ensures IsDotted(s) ==> Join(Dotted(s), ".") == s
  {
    var ids := Dotted(s);
    DottedIsJoined(s);
    if IsDotted(s) {
      forall i | 0 <= i < |ids|
        ensures Identifier(ids[i])
      {
        forall k | 0 <= k < |ids[i]|
          ensures IdChar(ids[i][k])
        {
          assert ids[i][k] in ids[i];
        }
      }
    }
    if Identifiers(ids) {
      JoinedChars(ids);
    }
  }

  lemma DottedOfIds(ids: seq<string>)
    requires Identifiers(ids)
    ensures Dotted(Join(ids, ".")) == ids && IsDotted(Join(ids, "."))
    ensures forall c :: c in Join(ids, ".") ==> IdChar(c) || c == '.'
  {
    JoinedIsDotted(ids);
    DottedExactly(Join(ids, "."));
  }

  lemma CanonicalExactly(ids: seq<string>)
    requires Identifiers(ids)
    ensures AllCanonical(ids) <==> PrereleaseIds(ids)
  {
    if AllCanonical(ids) {
      forall i | 0 <= i < |ids|
        ensures Digits(ids[i]) ==> Numeral(ids[i])
      {
        assert SemVer.Canonical(ids[i]);
      }
    }
  }

  predicate ProperTail(pre: Option<seq<string>>, build: Option<seq<string>>) {
    (pre.Some? ==> PrereleaseIds(pre.value)) && (build.Some? ==> Identifiers(build.value))
  }

  lemma TailOf(pre: Option<seq<string>>, build: Option<seq<string>>)
    requires ProperTail(pre, build)
    ensures var s := Listed("-", pre) + Listed("+", build);
      IsTail(s) && Prerelease(s) == pre && (s != "" ==> s[0] == '-' || s[0] == '+')
  {
    hide IsDotted, Dotted, AllCanonical;
    var x, y := Listed("-", pre), Listed("+", build);
    var s := x + y;
    if pre.Some? {
      DottedOfIds(pre.value);
      CanonicalExactly(pre.value);
      assert x[1..] == Join(pre.value, ".");
    }
    if build.Some? {
      DottedOfIds(build.value);
      FindsChar("", x, '+', Join(build.value, "."));
      assert "" + x + ['+'] + Join(build.value, ".") == s;
      assert s[..|x|] == x && s[|x| + 1..] == Join(build.value, ".");
    } else {
      MissesChar("", x, '+');
      assert "" + x == s == x;
    }
  }

  lemma PreIs(pre: string)
    requires pre != "" ==> pre[0] == '-' && IsDotted(pre[1..]) && AllCanonical(Dotted(pre[1..]))
    ensures var ids := if pre == "" then None else Some(Dotted(pre[1..]));
      pre == Listed("-", ids) && (ids.Some? ==> PrereleaseIds(ids.value))
  {
    hide IsDotted, Dotted, AllCanonical, Join;
    if pre != "" {
      DottedExactly(pre[1..]);
      CanonicalExactly(Dotted(pre[1..]));
      assert pre == "-" + pre[1..];
    }
  }

  lemma TailIs(s: string) returns (build: Option<seq<string>>)
    requires IsTail(s)
    ensures ProperTail(Prerelease(s), build) && s == Listed("-", Prerelease(s)) + Listed("+", build)
  {
    hide IsDotted, Dotted, AllCanonical, Join, PrereleaseIds, Identifiers;
    var plus := IndexOfChar(s, '+', 0);
    var pre := if plus.None? then s else s[..plus.value];
    PreIs(pre);
    build := None;
    if plus.Some? {
      var more := s[plus.value + 1..];
      DottedExactly(more);
      build := Some(Dotted(more));
      assert Listed("+", build) == "+" + more;
      assert s == pre + ("+" + more);
    }
  }

  lemma NumeralExactly(x: string)
    ensures Numeral(x) <==> SemVer.IsNumeric(x) && SemVer.Canonical(x)
  {
  }

  lemma ThreeWays(a: string, b: string, c: string, tail: string)
    ensures var s := a + "." + b + "." + c + tail;
      && s == "" + a + ("." + b + "." + c + tail) == (a + ".") + b + ("." + c + tail) == (a + "." + b + ".") + c + tail
      && s[|a|] == '.' && s[|a| + 1 + |b|] == '.'
  {
  }

  lemma Slices(a: string, b: string, c: string, tail: string)
    ensures var s := a + "." + b + "." + c + tail;
      && s[..|a|] == a && s[|a| + 1..|a| + 1 + |b|] == b
      && s[|a| + 1 + |b| + 1..|a| + 1 + |b| + 1 + |c|] == c && s[|a| + 1 + |b| + 1 + |c|..] == tail
  {
  }

  lemma NumbersAreFound(a: string, b: string, c: string, tail: string)
    requires Digits(a) && Digits(b) && Digits(c) && (tail != "" ==> !SemVer.IsDigit(tail[0]))
    ensures var s := a + "." + b + "." + c + tail;
      TwoNumbers(s) == Some((|a|, |a| + 1 + |b|)) && SkipDigits(s, |a| + 1 + |b| + 1) == |a| + 1 + |b| + 1 + |c|
  {
    hide SkipDigits;
    ThreeWays(a, b, c, tail);
    SkipsDigits("", a, "." + b + "." + c + tail, 0);
    SkipsDigits(a + ".", b, "." + c + tail, |a| + 1);
    SkipsDigits(a + "." + b + ".", c, tail, |a| + 1 + |b| + 1);
  }

  lemma Reassembled(s: string, i: nat, j: nat, k: nat)
    requires i < j < k <= |s| && s[i] == '.' && s[j] == '.'
    ensures s == s[..i] + "." + s[i + 1..j] + "." + s[j + 1..k] + s[k..]
  {
    assert s[i..] == "." + s[i + 1..];
    assert s[i + 1..] == s[i + 1..j] + s[j..];
    assert s[j..] == "." + s[j + 1..];
    assert s[j + 1..] == s[j + 1..k] + s[k..];
  }

  lemma ReadFrom(s: string, i: nat, j: nat, k: nat, a: string, b: string, c: string)
    requires TwoNumbers(s) == Some((i, j)) && SkipDigits(s, j + 1) == k && a == s[..i] && b == s[i + 1..j] && c == s[j + 1..k]
    requires Numeral(a) && Numeral(b) && Numeral(c) && IsTail(s[k..])
    ensures ReadVersion(s) == Some(SemVer.Version(SemVer.Value(a), SemVer.Value(b), SemVer.Value(c), Prerelease(s[k..])))
  {
    hide IsTail, Prerelease, SemVer.Value, SemVer.Canonical, SemVer.IsNumeric, TwoNumbers, SkipDigits, Numeral;
    NumeralExactly(a);
    NumeralExactly(b);
    NumeralExactly(c);
  }

  lemma PartsAreRead(a: string, b: string, c: string, tail: string)
    requires Numeral(a) && Numeral(b) && Numeral(c) && IsTail(tail) && (tail != "" ==> !SemVer.IsDigit(tail[0]))
    ensures ReadVersion(a + "." + b + "." + c + tail) ==
      Some(SemVer.Version(SemVer.Value(a), SemVer.Value(b), SemVer.Value(c), Prerelease(tail)))
  {
    hide IsTail, Prerelease, SemVer.Value, TwoNumbers, SkipDigits, ReadVersion;
    NumbersAreFound(a, b, c, tail);
    Slices(a, b, c, tail);
    ReadFrom(a + "." + b + "." + c + tail, |a|, |a| + 1 + |b|, |a| + 1 + |b| + 1 + |c|, a, b, c);
  }

  lemma SpelledParts(p: Parts)
    ensures Spelled(p) == p.major + "." + p.minor + "." + p.patch + (Listed("-", p.pre) + Listed("+", p.build))
  {
    hide Listed;
  }

  lemma SpelledIsRead(p: Parts)
    requires Proper(p)
    ensures ReadVersion(Spelled(p)) == Some(Denoted(p))
  {
    hide IsTail, Prerelease, SemVer.Value, ReadVersion, Listed, Spelled;
    TailOf(p.pre, p.build);
    PartsAreRead(p.major, p.minor, p.patch, Listed("-", p.pre) + Listed("+", p.build));
    SpelledParts(p);
  }

  lemma ReadIsSpelled(s: string) returns (p: Parts)
    requires ReadVersion(s).Some?
    ensures Proper(p) && s == Spelled(p) && ReadVersion(s).value == Denoted(p)
  {
    hide IsTail, Prerelease, SemVer.Value, Join, SemVer.Canonical, SemVer.IsNumeric, Listed;
    var (i, j) := TwoNumbers(s).value;
    var k := SkipDigits(s, j + 1);
    var build := TailIs(s[k..]);
    p := Parts(s[..i], s[i + 1..j], s[j + 1..k], Prerelease(s[k..]), build);
    assert AllCanonical([p.major, p.minor, p.patch]);
    ThreeCanonical(p.major, p.minor, p.patch);
    NumeralExactly(p.major);
    NumeralExactly(p.minor);
    NumeralExactly(p.patch);
    Reassembled(s, i, j, k);
  }

  lemma ThreeCanonical(x: string, y: string, z: string)
    requires AllCanonical([x, y, z])
    ensures SemVer.Canonical(x) && SemVer.Canonical(y) && SemVer.Canonical(z)
  {
    assert [x, y, z][0] == x && [x, y, z][1] == y && [x, y, z][2] == z;
  }

  /** A text is read as a version exactly if it spells its parts: sections 2, 9 and 10 of Semantic
      Versioning 2.0.0. */
  lemma VersionsExactly(s: string, v: SemVer.Version)
    ensures ReadVersion(s) == Some(v) <==> exists p :: Proper(p) && s == Spelled(p) && v == Denoted(p)
  {
    hide ReadVersion, Proper, Spelled, Denoted;
    if ReadVersion(s) == Some(v) {
      var p := ReadIsSpelled(s);
    }
    if p :| Proper(p) && s == Spelled(p) && v == Denoted(p) {
      SpelledIsRead(p);
    }
  }

  // ---- Dates ----

  /** Of the full centuries only those that four hundred divides. */
  predicate Leap(year: nat) {
    year % 4 == 0 && (year % 100 == 0 ==> year % 400 == 0)
  }

  /** The lengths of the months. */
  function Months(year: nat): seq<nat> {
    [31, if Leap(year) then 29 else 28, 31, 30, 31, 30, 31, 31, 30, 31, 30, 31]
  }

  function Figure(n: nat): char
    requires n < 10
  {
    "0123456789"[n]
  }

  function TwoFigures(n: nat): string
    requires n < 100
  {
    [Figure(n / 10), Figure(n % 10)]
  }

  function Day(year: nat, month: nat, day: nat): string
    requires year < 10000 && month < 100 && day < 100
  {
    TwoFigures(year / 100) + TwoFigures(year % 100) + "-" + TwoFigures(month) + "-" + TwoFigures(day)
  }

  predicate OnCalendar(year: nat, month: nat, day: nat) {
    1 <= year <= 9999 && 1 <= month <= 12 && 1 <= day <= Months(year)[month - 1]
  }

  lemma FigureIsDigit(n: nat)
    requires n < 10
    ensures SemVer.IsDigit(Figure(n)) && Figure(n) as int - '0' as int == n
  {
  }

  lemma FigureOf(c: char)
    requires SemVer.IsDigit(c)
    ensures 0 <= c as int - '0' as int < 10 && Figure(c as int - '0' as int) == c
  {
  }

  lemma LeapYears(year: nat)
    ensures DaysIn(year, 2) == if Leap(year) then 29 else 28
  {
  }

  lemma MonthsAreThose(year: nat, month: nat)
    requires 1 <= month <= 12
    ensures DaysIn(year, month) == Months(year)[month - 1]
  {
    hide Leap;
    if month == 2 {
      hide DaysIn;
      LeapYears(year);
    } else {
      OtherMonths(year, month);
    }
  }

  lemma OtherMonths(year: nat, month: nat)
    requires 1 <= month <= 12 && month != 2
    ensures DaysIn(year, month) == Months(year)[month - 1]
  {
    hide Leap;
    var lengths := Months(year);
    assert lengths[0] == 31 && lengths[2] == 31 && lengths[3] == 30 && lengths[4] == 31 && lengths[5] == 30;
    assert lengths[6] == 31 && lengths[7] == 31 && lengths[8] == 30 && lengths[9] == 31 && lengths[10] == 30 && lengths[11] == 31;
  }

  lemma DayIsDate(year: nat, month: nat, day: nat)
    requires OnCalendar(year, month, day)
    ensures IsoDate(Day(year, month, day))
  {
    hide Figure;
    MonthsAreThose(year, month);
    forall n: nat | n < 10
      ensures SemVer.IsDigit(Figure(n)) && Figure(n) as int - '0' as int == n
    {
      FigureIsDigit(n);
    }
    hide DaysIn, Months;
    var s := Day(year, month, day);
    assert s[0] == Figure(year / 100 / 10) && s[1] == Figure(year / 100 % 10) && s[2] == Figure(year % 100 / 10) && s[3] == Figure(year % 100 % 10);
    assert s[4] == '-' && s[5] == Figure(month / 10) && s[6] == Figure(month % 10);
    assert s[7] == '-' && s[8] == Figure(day / 10) && s[9] == Figure(day % 10);
  }

  lemma FourFigures(a: nat, b: nat, c: nat, d: nat)
    requires a < 10 && b < 10 && c < 10 && d < 10
    ensures var n := 1000 * a + 100 * b + 10 * c + d; n / 100 == 10 * a + b && n % 100 == 10 * c + d
  {
  }

  lemma TwoOf(x: char, y: char)
    requires SemVer.IsDigit(x) && SemVer.IsDigit(y)
    ensures var n := 10 * (x as int - '0' as int) + (y as int - '0' as int); 0 <= n < 100 && TwoFigures(n) == [x, y]
  {
    hide Figure;
    FigureOf(x);
    FigureOf(y);
  }

  lemma TenChars(s: string)
    requires |s| == 10 && s[4] == '-' && s[7] == '-'
    ensures s == [s[0], s[1]] + [s[2], s[3]] + "-" + [s[5], s[6]] + "-" + [s[8], s[9]]
  {
  }

  lemma DateIsDay(s: string) returns (year: nat, month: nat, day: nat)
    requires IsoDate(s)
    ensures OnCalendar(year, month, day) && s == Day(year, month, day)
  {
    hide TwoFigures, DaysIn, Months;
    year := 1000 * Digit(s, 0) + 100 * Digit(s, 1) + 10 * Digit(s, 2) + Digit(s, 3);
    month, day := 10 * Digit(s, 5) + Digit(s, 6), 10 * Digit(s, 8) + Digit(s, 9);
    MonthsAreThose(year, month);
    FourFigures(Digit(s, 0), Digit(s, 1), Digit(s, 2), Digit(s, 3));
    TwoOf(s[0], s[1]);
    TwoOf(s[2], s[3]);
    TwoOf(s[5], s[6]);
    TwoOf(s[8], s[9]);
    TenChars(s);
  }

  /** A text is a date exactly if it writes out a day of the calendar. */
  lemma DatesExactly(s: string)
    ensures IsoDate(s) <==> exists year, month, day :: OnCalendar(year, month, day) && s == Day(year, month, day)
  {
    hide IsoDate, Day;
    if IsoDate(s) {
      var year, month, day := DateIsDay(s);
    }
    if year, month, day :| OnCalendar(year, month, day) && s == Day(year, month, day) {
      DayIsDate(year, month, day);
    }
  }

  // ---- Headings ----

  /** Two numbers with dots after them, and a digit; anything may follow. */
  ghost predicate VersionShape(s: string) {
    exists a, b, c, rest :: Digits(a) && Digits(b) && Digits(c) && s == a + "." + b + "." + c + rest
  }

  /** Nothing but spaces, or a dash, perhaps between spaces, and a date; of spaces the last one. */
  ghost predicate DateText(rest: string, date: string) {
    || (date == "" && Spaces(rest))
    || exists a, b :: Spaces(a) && Spaces(b) && rest == a + "—" + b + date && date != "" && (IsSpace(date[0]) ==> |date| == 1)
  }

  /** The version in brackets, and the date after them. */
  ghost predicate HeadingText(line: string, version: string, date: string) {
    exists gap, rest ::
      && line == "##" + gap + "[" + version + "]" + rest && gap != "" && Spaces(gap)
      && VersionShape(version) && ']' !in version && DateText(rest, date)
  }

  lemma ShapesExactly(s: string)
    ensures LooksLikeVersion(s) <==> VersionShape(s)
  {
    hide SkipDigits;
    if LooksLikeVersion(s) {
      ShapeOf(s);
    }
    if a, b, c, rest :| Digits(a) && Digits(b) && Digits(c) && s == a + "." + b + "." + c + rest {
      ShapeIsFound(a, b, c, rest);
    }
  }

  lemma ShapeOf(s: string)
    requires LooksLikeVersion(s)
    ensures VersionShape(s)
  {
    var (i, j) := TwoNumbers(s).value;
    var a, b, c, rest := s[..i], s[i + 1..j], s[j + 1..j + 2], s[j + 2..];
    Reassembled(s, i, j, j + 2);
    assert Digits(a) && Digits(b) && Digits(c);
  }

  lemma ShapeIsFound(a: string, b: string, c: string, rest: string)
    requires Digits(a) && Digits(b) && Digits(c)
    ensures LooksLikeVersion(a + "." + b + "." + c + rest)
  {
    hide SkipDigits;
    var s := a + "." + b + "." + c + rest;
    ThreeWays(a, b, c, rest);
    SkipsDigits("", a, "." + b + "." + c + rest, 0);
    SkipsDigits(a + ".", b, "." + c + rest, |a| + 1);
    assert s[|a| + 1 + |b| + 1] == c[0];
  }

  lemma DateIsText(rest: string)
    ensures DateAfter(rest).Some? ==> DateText(rest, DateAfter(rest).value)
  {
    var t := SkipSpace(rest, 0);
    SliceIsSpaces(rest, 0);
    if t == |rest| {
      assert rest[0..t] == rest;
    } else if rest[t] == '—' {
      var u := SkipSpace(rest, t + 1);
      SliceIsSpaces(rest, t + 1);
      if u < |rest| {
        SplitAtDash(rest, t, u);
      } else if u > t + 1 {
        SplitAtDash(rest, t, u - 1);
        assert Spaces(rest[t + 1..u - 1]) by {
          assert rest[t + 1..u - 1] == rest[t + 1..u][..u - 1 - (t + 1)];
        }
      }
    }
  }

  lemma SplitAtDash(rest: string, t: nat, v: nat)
    requires t < v < |rest| && rest[t] == '—'
    ensures rest == rest[0..t] + "—" + rest[t + 1..v] + rest[v..] && rest[v..] != "" && rest[v..][0] == rest[v]
  {
  }

  lemma TextIsDate(rest: string, date: string)
    requires DateText(rest, date)
    ensures DateAfter(rest) == Some(date)
  {
    hide DateAfter, Spaces, IsSpace;
    if date == "" && Spaces(rest) {
      OnlySpaces(rest);
    } else {
      var a, b :| Spaces(a) && Spaces(b) && rest == a + "—" + b + date && date != "" && (IsSpace(date[0]) ==> |date| == 1);
      if IsSpace(date[0]) {
        LastSpace(a, b, date);
      } else {
        AfterDash(a, b, date);
      }
    }
  }

  lemma OnlySpaces(rest: string)
    requires Spaces(rest)
    ensures DateAfter(rest) == Some("")
  {
    hide IsSpace, SkipSpace;
    SkipsSpaces("", rest, "", 0);
    assert "" + rest + "" == rest;
  }

  lemma DashAt(a: string, rest: string)
    requires Spaces(a) && rest != "" && rest[0] == '—'
    ensures SkipSpace(a + rest, 0) == |a| && (a + rest)[|a|] == '—'
  {
    hide SkipSpace, Spaces;
    assert !IsSpace(rest[0]);
    SkipsSpaces("", a, rest, 0);
    assert "" + a + rest == a + rest;
  }

  lemma AfterDash(a: string, b: string, date: string)
    requires Spaces(a) && Spaces(b) && date != "" && !IsSpace(date[0])
    ensures DateAfter(a + "—" + b + date) == Some(date)
  {
    hide IsSpace, SkipSpace, Spaces;
    var rest := a + "—" + b + date;
    assert rest == a + ("—" + b + date) == (a + "—") + b + date;
    DashAt(a, "—" + b + date);
    SkipsSpaces(a + "—", b, date, |a| + 1);
    assert rest[|a| + 1 + |b|..] == date;
  }

  lemma LastSpace(a: string, b: string, date: string)
    requires Spaces(a) && Spaces(b) && |date| == 1 && IsSpace(date[0])
    ensures DateAfter(a + "—" + b + date) == Some(date)
  {
    assert Spaces(b + date);
    hide IsSpace, SkipSpace, Spaces;
    var rest := a + "—" + b + date;
    assert rest == a + ("—" + b + date) == (a + "—") + (b + date) + "";
    DashAt(a, "—" + b + date);
    SkipsSpaces(a + "—", b + date, "", |a| + 1);
    assert rest[|rest| - 1..] == date;
  }

  lemma DateTextsExactly(rest: string, date: string)
    ensures DateAfter(rest) == Some(date) <==> DateText(rest, date)
  {
    hide DateAfter, DateText;
    DateIsText(rest);
    if DateText(rest, date) {
      TextIsDate(rest, date);
    }
  }

  /** A heading is read as a version and a date exactly if it is put together from them. */
  lemma HeadingsExactly(line: string, version: string, date: string)
    ensures VersionHeading(line) == Some((version, date)) <==> HeadingText(line, version, date)
  {
    hide VersionHeading, HeadingText;
    if VersionHeading(line) == Some((version, date)) {
      HeadingIsText(line, version, date);
    }
    if HeadingText(line, version, date) {
      TextIsHeading(line, version, date);
    }
  }

  lemma HeadingIsText(line: string, version: string, date: string)
    requires VersionHeading(line) == Some((version, date))
    ensures HeadingText(line, version, date)
  {
    hide LooksLikeVersion, VersionShape, DateAfter, DateText, SkipSpace, IndexOfChar;
    var a := SkipSpace(line, 2);
    var b := IndexOfChar(line, ']', a + 1).value;
    var gap, rest := line[2..a], line[b + 1..];
    SliceIsSpaces(line, 2);
    ShapesExactly(version);
    DateTextsExactly(rest, date);
    Bracketed(line, a, b);
  }

  lemma Bracketed(line: string, a: nat, b: nat)
    requires StartsWith(line, "##") && 2 <= a < b < |line| && line[a] == '[' && line[b] == ']'
    ensures line == "##" + line[2..a] + "[" + line[a + 1..b] + "]" + line[b + 1..]
  {
    assert line[..2] == "##";
    assert line[2..] == line[2..a] + line[a..];
    assert line[a..] == "[" + line[a + 1..];
    assert line[a + 1..] == line[a + 1..b] + line[b..];
    assert line[b..] == "]" + line[b + 1..];
  }

  lemma TextIsHeading(line: string, version: string, date: string)
    requires HeadingText(line, version, date)
    ensures VersionHeading(line) == Some((version, date))
  {
    hide LooksLikeVersion, VersionShape, DateAfter, DateText, SkipSpace, IndexOfChar;
    var gap, rest :|
      && line == "##" + gap + "[" + version + "]" + rest && gap != "" && Spaces(gap)
      && VersionShape(version) && ']' !in version && DateText(rest, date);
    ShapesExactly(version);
    DateTextsExactly(rest, date);
    BracketsHere(gap, version, rest);
    SkipsSpaces("##", gap, "[" + version + "]" + rest, 2);
    FindsChar("##" + gap + "[", version, ']', rest);
  }

  lemma BracketsHere(gap: string, version: string, rest: string)
    ensures var line := "##" + gap + "[" + version + "]" + rest; var a := 2 + |gap|;
      && line == "##" + gap + ("[" + version + "]" + rest) == ("##" + gap + "[") + version + [']'] + rest
      && StartsWith(line, "##") && line[a] == '[' && line[a + 1..a + 1 + |version|] == version && line[a + 1 + |version| + 1..] == rest
  {
    assert "]" == [']'];
  }

  // ---- Categories, markers, links ----

  /** The word of a category line, and what comes after it. */
  ghost predicate CategoryText(t: string, word: string) {
    exists gap, rest :: t == "###" + gap + word + rest && gap != "" && Spaces(gap) && IsWord(word) && (rest != "" ==> !IsWordChar(rest[0]))
  }

  lemma {:induction false} SkipsWord(before: string, word: string, rest: string, i: nat)
    requires (forall k :: 0 <= k < |word| ==> IsWordChar(word[k])) && (rest != "" ==> !IsWordChar(rest[0]))
    requires |before| <= i <= |before| + |word|
    ensures SkipWord(before + word + rest, i) == |before| + |word|
    decreases |before| + |word| - i
  {
    var s := before + word + rest;
    if i < |before| + |word| {
      assert s[i] == word[i - |before|];
      SkipsWord(before, word, rest, i + 1);
    } else if rest != "" {
      assert s[i] == rest[0];
    }
  }

  lemma CategoriesExactly(t: string, word: string)
    ensures CategoryAt(t) == Some(word) <==> CategoryText(t, word)
  {
    hide CategoryAt;
    if CategoryAt(t) == Some(word) {
      CategoryIsText(t, word);
    }
    if CategoryText(t, word) {
      var gap, rest :| t == "###" + gap + word + rest && gap != "" && Spaces(gap) && IsWord(word) && (rest != "" ==> !IsWordChar(rest[0]));
      TextIsCategory(gap, word, rest);
    }
  }

  lemma CategoryIsText(t: string, word: string)
    requires CategoryAt(t) == Some(word)
    ensures CategoryText(t, word)
  {
    hide SkipSpace, SkipWord;
    var a := SkipSpace(t, 3);
    var b := SkipWord(t, a);
    SliceIsSpaces(t, 3);
    var gap, rest := t[3..a], t[b..];
    InThree(t, a, b);
    assert forall k :: 0 <= k < |word| ==> word[k] == t[a + k];
  }

  lemma InThree(t: string, a: nat, b: nat)
    requires StartsWith(t, "###") && 3 <= a <= b <= |t|
    ensures t == "###" + t[3..a] + t[a..b] + t[b..]
  {
    assert t[..3] == "###";
    assert t[a..] == t[a..b] + t[b..];
    assert t[3..] == t[3..a] + t[a..];
  }

  lemma TextIsCategory(gap: string, word: string, rest: string)
    requires gap != "" && Spaces(gap) && IsWord(word) && (rest != "" ==> !IsWordChar(rest[0]))
    ensures CategoryAt("###" + gap + word + rest) == Some(word)
  {
    hide SkipSpace, SkipWord;
    var t := "###" + gap + word + rest;
    assert t == "###" + gap + (word + rest) == ("###" + gap) + word + rest;
    assert IsWordChar((word + rest)[0]) && !IsSpace((word + rest)[0]);
    SkipsSpaces("###", gap, word + rest, 3);
    SkipsWord("###" + gap, word, rest, 3 + |gap|);
    assert t[3 + |gap|..3 + |gap| + |word|] == word;
    assert t[..3] == "###";
  }

  /** A lower-case letter in either case, or one of the letters that fold to it; anything else as it is. */
  predicate Spells(c: char, m: char) {
    || c == m
    || ('a' <= m <= 'z' && c as int == m as int - 32)
    || (m == 's' && c == '\U{17f}') || (m == 'k' && c == '\U{212a}') || (m == 'i' && (c == '\U{130}' || c == '\U{131}'))
  }

  predicate AnyCase(x: string, m: string) {
    |x| == |m| && forall k :: 0 <= k < |m| ==> Spells(x[k], m[k])
  }

  /** `m` has no capitals, nor letters that fold to others. */
  predicate IsFolded(m: string) {
    forall k :: 0 <= k < |m| ==> m[k] as int < 128 && !('A' <= m[k] <= 'Z')
  }

  lemma FoldedExactly(s: string, i: nat, m: string)
    requires IsFolded(m)
    ensures FoldedAt(s, i, m) <==> i + |m| <= |s| && AnyCase(s[i..i + |m|], m)
  {
    if i + |m| <= |s| {
      var piece := s[i..i + |m|];
      assert forall k :: 0 <= k < |m| ==> piece[k] == s[i + k];
    }
  }

  function AnswerOf(present: bool): string {
    if present then "present" else "none"
  }

  /** The marker, perhaps spaces, and an answer. */
  ghost predicate MarkerText(t: string, present: bool) {
    exists mark, gap, answer ::
      t == mark + gap + answer && AnyCase(mark, "**breaking changes:**") && Spaces(gap) && AnyCase(answer, AnswerOf(present))
  }

  lemma AnswersAreFolded(present: bool)
    ensures IsFolded(MARKER) && IsFolded(AnswerOf(present)) && |MARKER| == 21
  {
  }

  lemma AnswersDiffer(x: string)
    ensures AnyCase(x, "present") ==> x != "" && !IsSpace(x[0]) && Folded(x[0]) == 'p'
    ensures AnyCase(x, "none") ==> x != "" && !IsSpace(x[0]) && Folded(x[0]) == 'n'
  {
  }

  lemma MarkersExactly(s: string, i: nat, end: nat, present: bool)
    ensures MarkerAt(s, i) == Some((end, present)) <==> i < end <= |s| && MarkerText(s[i..end], present)
  {
    hide MarkerAt, MarkerText;
    if MarkerAt(s, i) == Some((end, present)) {
      MarkerIsText(s, i, end, present);
    }
    if i < end <= |s| && MarkerText(s[i..end], present) {
      TextIsMarker(s, i, end, present);
    }
  }

  lemma MarkerIsText(s: string, i: nat, end: nat, present: bool)
    requires MarkerAt(s, i) == Some((end, present))
    ensures i < end <= |s| && MarkerText(s[i..end], present)
  {
    hide FoldedAt, SkipSpace, AnyCase, IsFolded;
    var from := i + 21;
    AnswersAreFolded(present);
    FoldedExactly(s, i, MARKER);
    var j := SkipSpace(s, from);
    FoldedExactly(s, j, AnswerOf(present));
    SliceIsSpaces(s, from);
    assert s[i..end] == s[i..from] + s[from..j] + s[j..end];
  }

  lemma TextIsMarker(s: string, i: nat, end: nat, present: bool)
    requires i < end <= |s| && MarkerText(s[i..end], present)
    ensures MarkerAt(s, i) == Some((end, present))
  {
    hide AnyCase, Spaces, MarkerAt;
    var mark, gap, answer :|
      s[i..end] == mark + gap + answer && AnyCase(mark, "**breaking changes:**") && Spaces(gap) && AnyCase(answer, AnswerOf(present));
    PartsAreMarker(s, i, end, mark, gap, answer, present);
  }

  lemma PartsAreMarker(s: string, i: nat, end: nat, mark: string, gap: string, answer: string, present: bool)
    requires i < end <= |s| && s[i..end] == mark + gap + answer
    requires AnyCase(mark, MARKER) && Spaces(gap) && AnyCase(answer, AnswerOf(present))
    ensures MarkerAt(s, i) == Some((end, present))
  {
    hide FoldedAt, SkipSpace, AnyCase, IsFolded, IsSpace, MARKER, Spaces;
    AnswersAreFolded(present);
    AnswersAreFolded(!present);
    SameLength(mark, MARKER);
    SameLength(answer, AnswerOf(present));
    Within(s, i, end, mark, gap, answer);
    var j := i + 21 + |gap|;
    FoldedExactly(s, i, MARKER);
    FoldedExactly(s, j, AnswerOf(present));
    FoldedExactly(s, j, AnswerOf(!present));
    AnswersDiffer(answer);
    SkipsSpaces(s[..i + 21], gap, s[j..], i + 21);
    if present && FoldedAt(s, j, "none") {
      AnswersDiffer(s[j..j + 4]);
    }
  }

  lemma SameLength(x: string, m: string)
    ensures AnyCase(x, m) ==> |x| == |m|
  {
  }

  lemma SliceOfSlice(s: string, i: nat, end: nat, a: nat, b: nat)
    requires i <= end <= |s| && a <= b <= end - i
    ensures s[i..end][a..b] == s[i + a..i + b]
  {
    var inner := s[i..end];
    forall k | 0 <= k < b - a
      ensures inner[a..b][k] == s[i + a..i + b][k]
    {
      assert inner[a + k] == s[i + (a + k)];
    }
  }

  lemma Within(s: string, i: nat, end: nat, mark: string, gap: string, answer: string)
    requires i < end <= |s| && s[i..end] == mark + gap + answer
    ensures var from := i + |mark|; var j := from + |gap|;
      && end == j + |answer| && s[i..from] == mark && s[j..end] == answer && s == s[..from] + gap + s[j..]
      && (answer != "" ==> s[j] == answer[0] && s[j..] != "" && s[j..][0] == answer[0])
  {
    var from := i + |mark|;
    var j := from + |gap|;
    SliceOfSlice(s, i, end, 0, |mark|);
    SliceOfSlice(s, i, end, |mark|, |mark| + |gap|);
    SliceOfSlice(s, i, end, |mark| + |gap|, end - i);
    assert s[i..end][0..|mark|] == mark && s[i..end][|mark|..|mark| + |gap|] == gap && s[i..end][|mark| + |gap|..end - i] == answer;
    assert s == s[..from] + s[from..j] + s[j..];
  }

  /** The answers at all places where a marker begins. */
  function AllMarkers(s: string, i: nat): seq<bool>
    requires i <= |s|
    decreases |s| - i
  {
    if i == |s| then []
    else
      match MarkerAt(s, i)
      case None => AllMarkers(s, i + 1)
      case Some((_, present)) => [present] + AllMarkers(s, i + 1)
  }

  lemma FoldedChars(s: string, i: nat, m: string, n: nat)
    requires FoldedAt(s, i, m) && n < |m|
    ensures i + n < |s| && Folded(s[i + n]) == m[n]
  {
  }

  lemma MarkerChars()
    ensures |MARKER| == 21 && MARKER[0] == MARKER[1] == '*' && MARKER[2] == 'b'
    ensures forall n :: 2 <= n < 19 ==> MARKER[n] != '*'
  {
  }

  lemma AnswerChars(s: string, j: nat, answer: string, k: nat)
    requires (answer == "none" || answer == "present") && FoldedAt(s, j, answer) && j <= k < j + |answer|
    ensures k < |s| && Folded(s[k]) != '*' && Folded(s[k]) != 'b'
  {
    FoldedChars(s, j, answer, k - j);
  }

  /** What follows the mark is neither a star nor a "b". */
  lemma NoStarAfter(s: string, from: nat, j: nat, answer: string, k: nat)
    requires (answer == "none" || answer == "present") && FoldedAt(s, j, answer) && from <= j <= |s|
    requires (forall n :: from <= n < j ==> IsSpace(s[n])) && from <= k < j + |answer|
    ensures k < |s| && Folded(s[k]) != '*' && Folded(s[k]) != 'b'
  {
    if j <= k {
      AnswerChars(s, j, answer, k);
    }
  }

  lemma NoMarkInside(s: string, i: nat, j: nat, answer: string, k: nat)
    requires (answer == "none" || answer == "present") && FoldedAt(s, j, answer) && i + 21 <= j <= |s| && FoldedAt(s, i, MARKER)
    requires (forall n :: i + 21 <= n < j ==> IsSpace(s[n])) && i < k < j + |answer|
    ensures !FoldedAt(s, k, MARKER)
  {
    hide FoldedAt, IsSpace, MARKER, Folded;
    MarkerChars();
    if k < i + 19 {
      FoldedChars(s, i, MARKER, k - i);
      FoldedChars(s, i, MARKER, k - i + 1);
      if FoldedAt(s, k, MARKER) {
        FoldedChars(s, k, MARKER, 0);
        FoldedChars(s, k, MARKER, 1);
      }
    } else {
      var n := if k < i + 21 then i + 21 else k;
      NoStarAfter(s, i + 21, j, answer, n);
      if FoldedAt(s, k, MARKER) {
        FoldedChars(s, k, MARKER, n - k);
      }
    }
  }

  lemma MarkerShape(s: string, i: nat) returns (j: nat, answer: string)
    requires MarkerAt(s, i).Some?
    ensures i + 21 <= j <= |s| && (answer == "none" || answer == "present") && FoldedAt(s, j, answer) && FoldedAt(s, i, MARKER)
    ensures (forall n :: i + 21 <= n < j ==> IsSpace(s[n])) && MarkerAt(s, i).value.0 == j + |answer|
  {
    hide FoldedAt;
    MarkerChars();
    j := SkipSpace(s, i + 21);
    answer := if FoldedAt(s, j, "none") then "none" else "present";
  }

  /** Within a marker no other one begins. */
  lemma NoneInside(s: string, i: nat, k: nat)
    requires MarkerAt(s, i).Some? && i < k < MarkerAt(s, i).value.0
    ensures MarkerAt(s, k).None?
  {
    var j, answer := MarkerShape(s, i);
    NoMarkInside(s, i, j, answer, k);
  }

  lemma {:induction false} NoneBetween(s: string, i: nat, j: nat)
    requires i <= j <= |s| && forall k :: i <= k < j ==> MarkerAt(s, k).None?
    ensures AllMarkers(s, i) == AllMarkers(s, j)
    decreases j - i
  {
    if i < j {
      NoneBetween(s, i + 1, j);
    }
  }

  /** The search, which goes on after each marker, finds a marker wherever one begins. */
  lemma {:induction false} AllAreFound(s: string, i: nat)
    requires i <= |s|
    ensures MarkersFrom(s, i) == AllMarkers(s, i)
    decreases |s| - i
  {
    hide MarkerAt;
    if i < |s| {
      match MarkerAt(s, i)
      case None => AllAreFound(s, i + 1);
      case Some((end, present)) =>
        forall k | i < k < end
          ensures MarkerAt(s, k).None?
        {
          NoneInside(s, i, k);
        }
        NoneBetween(s, i + 1, end);
        AllAreFound(s, end);
    }
  }

  /** A breaking entry is in some line. */
  lemma EntriesExactly(body: Lines)
    ensures HasBreakingEntry(body) <==> exists i :: 0 <= i < |body| && Contains(body[i], "**BREAKING:**")
  {
    InSomeLine(body, "**BREAKING:**");
  }

  lemma {:induction false} InSomeLine(body: Lines, m: string)
    requires '\n' !in m && m != ""
    ensures Contains(Terminated(body, "\n"), m) <==> exists i :: 0 <= i < |body| && Contains(body[i], m)
  {
    if body != [] {
      var first, rest := body[0], Terminated(body[1..], "\n");
      InSomeLine(body[1..], m);
      InOneOfTwo(first, rest, m);
      assert Terminated(body, "\n") == first + "\n" + rest;
      assert forall i :: 0 <= i < |body| - 1 ==> body[1..][i] == body[i + 1];
    } else {
      assert Terminated(body, "\n") == "";
    }
  }

  lemma InOneOfTwo(x: string, y: string, m: string)
    requires '\n' !in m && m != ""
    ensures Contains(x + "\n" + y, m) <==> Contains(x, m) || Contains(y, m)
  {
    var s, line := x + "\n" + y, x + "\n";
    forall i: nat
      ensures At(s, i, m) <==> if i <= |x| then At(x, i, m) else At(y, i - |line|, m)
    {
      AtSplits(line, y, i, m);
      if i <= |x| {
        EndsBefore(x, i, m);
      }
    }
    if Contains(x, m) {
      var i :| 0 <= i <= |x| && At(x, i, m);
      assert At(s, i, m);
    }
    if Contains(y, m) {
      var i :| 0 <= i <= |y| && At(y, i, m);
      assert At(s, i + |line|, m);
    }
  }

  lemma EndsBefore(x: string, i: nat, m: string)
    requires '\n' !in m && m != "" && i <= |x|
    ensures At(x + "\n", i, m) <==> At(x, i, m)
  {
    var line := x + "\n";
    AtChars(line, i, m);
    assert line[|x|] == '\n' && m[|m| - 1] != '\n';
    assert i + |m| <= |x| ==> line[i..i + |m|] == x[i..i + |m|];
    assert At(line, i, m) ==> line[i + (|m| - 1)] == m[|m| - 1];
  }

  /** A version in brackets, a colon, and an address. */
  ghost predicate LinkText(s: string) {
    exists version, gap, scheme, rest ::
      && s == "[" + version + "]:" + gap + scheme + rest && VersionShape(version) && ']' !in version && Spaces(gap)
      && (scheme == "http://" || scheme == "https://") && rest != "" && !IsSpace(rest[0])
  }

  lemma LinksExactly(s: string)
    ensures IsLink(s) <==> LinkText(s)
  {
    hide IsLink, LinkText;
    if IsLink(s) {
      LinkIsText(s);
    }
    if LinkText(s) {
      TextIsLink(s);
    }
  }

  lemma LinkIsText(s: string)
    requires IsLink(s)
    ensures LinkText(s)
  {
    hide LooksLikeVersion, VersionShape, SkipSpace, IndexOfChar, UrlAt, LinkText, Spaces;
    var b := IndexOfChar(s, ']', 1).value;
    var u := SkipSpace(s, b + 2);
    ShapesExactly(s[1..b]);
    SliceIsSpaces(s, b + 2);
    IsLinkText(s, b, u, if UrlAt(s, u, "http://") then "http://" else "https://");
  }

  lemma IsLinkText(s: string, b: nat, u: nat, scheme: string)
    requires 1 <= b && b + 2 <= u <= |s| && s[0] == '[' && s[b] == ']' && s[b + 1] == ':' && UrlAt(s, u, scheme)
    requires VersionShape(s[1..b]) && ']' !in s[1..b] && Spaces(s[b + 2..u]) && (scheme == "http://" || scheme == "https://")
    ensures LinkText(s)
  {
    hide VersionShape, Spaces, UrlAt;
    Linked(s, b, u, scheme);
  }

  lemma UrlSplits(s: string, u: nat, scheme: string)
    requires UrlAt(s, u, scheme)
    ensures var rest := s[u + |scheme|..]; s[u..] == scheme + rest && rest != "" && !IsSpace(rest[0])
  {
  }

  lemma Linked(s: string, b: nat, u: nat, scheme: string)
    requires 1 <= b && b + 2 <= u <= |s| && s[0] == '[' && s[b] == ']' && s[b + 1] == ':' && UrlAt(s, u, scheme)
    ensures u + |scheme| < |s| && var rest := s[u + |scheme|..];
      s == "[" + s[1..b] + "]:" + s[b + 2..u] + scheme + rest && rest != "" && !IsSpace(rest[0])
  {
    UrlSplits(s, u, scheme);
    LinkSplits(s, b, u);
    var gap, rest := s[b + 2..u], s[u + |scheme|..];
    assert "[" + s[1..b] + "]:" + gap + (scheme + rest) == "[" + s[1..b] + "]:" + gap + scheme + rest;
  }

  lemma LinkSplits(s: string, b: nat, u: nat)
    requires 1 <= b && b + 2 <= u <= |s| && s[0] == '[' && s[b] == ']' && s[b + 1] == ':'
    ensures s == "[" + s[1..b] + "]:" + s[b + 2..u] + s[u..]
  {
    assert s[b..] == "]:" + s[b + 2..];
    assert s[1..] == s[1..b] + s[b..];
    assert s[b + 2..] == s[b + 2..u] + s[u..];
    assert s == "[" + s[1..];
  }

  lemma TextIsLink(s: string)
    requires LinkText(s)
    ensures IsLink(s)
  {
    hide VersionShape, IsLink, Spaces;
    var version, gap, scheme, rest :|
      && s == "[" + version + "]:" + gap + scheme + rest && VersionShape(version) && ']' !in version && Spaces(gap)
      && (scheme == "http://" || scheme == "https://") && rest != "" && !IsSpace(rest[0]);
    PartsAreLink(version, gap, scheme, rest);
  }

  lemma PartsAreLink(version: string, gap: string, scheme: string, rest: string)
    requires VersionShape(version) && ']' !in version && Spaces(gap)
    requires (scheme == "http://" || scheme == "https://") && rest != "" && !IsSpace(rest[0])
    ensures IsLink("[" + version + "]:" + gap + scheme + rest)
  {
    hide LooksLikeVersion, VersionShape, SkipSpace, IndexOfChar, UrlAt, IsLink, Spaces;
    ShapesExactly(version);
    LinkPieces(version, gap, scheme, rest);
    FindsChar("[", version, ']', ":" + gap + scheme + rest);
    SkipsSpaces("[" + version + "]:", gap, scheme + rest, |version| + 3);
    IsLinkHere("[" + version + "]:" + gap + scheme + rest, 1 + |version|, 3 + |version| + |gap|, scheme);
  }

  lemma IsLinkHere(s: string, b: nat, u: nat, scheme: string)
    requires scheme == "http://" || scheme == "https://"
    requires 1 <= b && b + 1 < |s| && s[0] == '[' && IndexOfChar(s, ']', 1) == Some(b) && s[b + 1] == ':'
    requires LooksLikeVersion(s[1..b]) && SkipSpace(s, b + 2) == u && UrlAt(s, u, scheme)
    ensures IsLink(s)
  {
    hide LooksLikeVersion, SkipSpace, IndexOfChar, UrlAt;
  }

  lemma LinkPieces(version: string, gap: string, scheme: string, rest: string)
    requires scheme == "http://" || scheme == "https://"
    requires rest != "" && !IsSpace(rest[0])
    ensures var s := "[" + version + "]:" + gap + scheme + rest; var b := 1 + |version|;
      && s == "[" + version + [']'] + (":" + gap + scheme + rest) == ("[" + version + "]:") + gap + (scheme + rest)
      && s[0] == '[' && s[1..b] == version && s[b + 1] == ':' && UrlAt(s, b + 2 + |gap|, scheme)
      && (scheme + rest)[0] == 'h'
  {
    var s, u := "[" + version + "]:" + gap + scheme + rest, 3 + |version| + |gap|;
    assert "]:" == [']'] + ":";
    assert s[u..u + |scheme|] == scheme && s[u + |scheme|] == rest[0];
  }
}
