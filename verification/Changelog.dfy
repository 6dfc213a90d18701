/** Cutting a release out of the changelog: `cut_changelog` of tools/prepare_release.py, and the
    check of the sections in tools/release_check.py. A changelog is a sequence of lines. */
module Changelog {
  import opened Wrappers
  import opened TextSearch
  import opened ChangelogText
  import SemVer

  const REQUIRED := {"Added", "Changed", "Fixed", "Removed"}
  const ALLOWED := REQUIRED + {"Deprecated", "Security"}

  // ---- Sections ----

  predicate IsHeading(line: string) {
    StartsWith(line, "## ")
  }

  datatype Section = Section(heading: string, body: Lines)

  /** How many lines come before the next heading. */
  function BodyLength(lines: Lines): (n: nat)
    ensures n <= |lines| && (n < |lines| ==> IsHeading(lines[n])) && forall i :: 0 <= i < n ==> !IsHeading(lines[i])
  {
    if lines == [] || IsHeading(lines[0]) then 0 else 1 + BodyLength(lines[1..])
  }

  /** The sections of lines that begin with a heading. */
  function Sections(lines: Lines): seq<Section> {
    if lines == [] then []
    else
      var n := BodyLength(lines[1..]);
      [Section(lines[0], lines[1..][..n])] + Sections(lines[1..][n..])
  }

  datatype File = File(preamble: Lines, sections: seq<Section>)

  function Parse(lines: Lines): File {
    var n := BodyLength(lines);
    File(lines[..n], Sections(lines[n..]))
  }

  function TextOf(sections: seq<Section>): Lines {
    if sections == [] then [] else [sections[0].heading] + sections[0].body + TextOf(sections[1..])
  }

  ghost predicate Proper(s: Section) {
    IsHeading(s.heading) && forall i :: 0 <= i < |s.body| ==> !IsHeading(s.body[i])
  }

  lemma {:induction false} BodyEnds(body: Lines, rest: Lines)
    requires (forall i :: 0 <= i < |body| ==> !IsHeading(body[i])) && (rest != [] ==> IsHeading(rest[0]))
    ensures BodyLength(body + rest) == |body|
  {
    if body == [] {
      assert body + rest == rest;
    } else {
      assert (body + rest)[1..] == body[1..] + rest;
      BodyEnds(body[1..], rest);
    }
  }

  lemma {:induction false} TextStarts(sections: seq<Section>)
    requires forall i :: 0 <= i < |sections| ==> Proper(sections[i])
    ensures TextOf(sections) != [] ==> IsHeading(TextOf(sections)[0])
  {
  }

  /** Parsing the text of sections gives these sections. */
  lemma {:induction false} SectionsReadBack(sections: seq<Section>)
    requires forall i :: 0 <= i < |sections| ==> Proper(sections[i])
    ensures Sections(TextOf(sections)) == sections
  {
    if sections != [] {
      var s, rest := sections[0], TextOf(sections[1..]);
      assert TextOf(sections) == [s.heading] + (s.body + rest);
      TextStarts(sections[1..]);
      BodyEnds(s.body, rest);
      assert (s.body + rest)[..|s.body|] == s.body && (s.body + rest)[|s.body|..] == rest;
      SectionsReadBack(sections[1..]);
    }
  }

  /** A parsed file consists of proper sections and is their text. */
  lemma {:induction false} SectionsAreProper(lines: Lines)
    requires lines != [] ==> IsHeading(lines[0])
    ensures forall i :: 0 <= i < |Sections(lines)| ==> Proper(Sections(lines)[i])
    ensures TextOf(Sections(lines)) == lines
    decreases |lines|
  {
    if lines != [] {
      hide BodyLength, IsHeading, Sections, TextOf;
      var n := BodyLength(lines[1..]);
      var first, rest := Section(lines[0], lines[1..][..n]), lines[1..][n..];
      assert rest != [] ==> rest[0] == lines[1..][n];
      FirstSection(lines);
      SectionsAreProper(rest);
      Reassemble(lines, n);
      TextOfFirst(first, Sections(rest));
    }
  }

  lemma FirstSection(lines: Lines)
    requires lines != []
    ensures var n := BodyLength(lines[1..]); var first := Section(lines[0], lines[1..][..n]);
      && Sections(lines) == [first] + Sections(lines[1..][n..])
      && (IsHeading(lines[0]) ==> Proper(first))
  {
    hide BodyLength, IsHeading;
  }

  lemma TextOfFirst(first: Section, rest: seq<Section>)
    ensures TextOf([first] + rest) == [first.heading] + first.body + TextOf(rest)
  {
    assert ([first] + rest)[1..] == rest;
  }

  lemma Reassemble(lines: Lines, n: nat)
    requires lines != [] && n <= |lines| - 1
    ensures lines == [lines[0]] + lines[1..][..n] + lines[1..][n..]
  {
  }

  lemma ParseIsExact(lines: Lines)
    ensures var f := Parse(lines);
      && lines == f.preamble + TextOf(f.sections)
      && (forall i :: 0 <= i < |f.preamble| ==> !IsHeading(f.preamble[i]))
      && forall i :: 0 <= i < |f.sections| ==> Proper(f.sections[i])
  {
    hide BodyLength, IsHeading, Sections, TextOf, Proper;
    var n := BodyLength(lines);
    assert lines[n..] != [] ==> lines[n..][0] == lines[n];
    SectionsAreProper(lines[n..]);
    assert lines == lines[..n] + lines[n..];
  }

  lemma ParseReadsBack(f: File)
    requires forall i :: 0 <= i < |f.preamble| ==> !IsHeading(f.preamble[i])
    requires forall i :: 0 <= i < |f.sections| ==> Proper(f.sections[i])
    ensures Parse(f.preamble + TextOf(f.sections)) == f
  {
    TextStarts(f.sections);
    BodyEnds(f.preamble, TextOf(f.sections));
    SectionsReadBack(f.sections);
    var lines := f.preamble + TextOf(f.sections);
    assert lines[..|f.preamble|] == f.preamble && lines[|f.preamble|..] == TextOf(f.sections);
  }

  // ---- Categories ----

  /** `### ` and one word. */
  predicate IsCategoryLine(line: string) {
    |line| > 4 && StartsWith(line, "### ") && forall i :: 4 <= i < |line| ==> IsWordChar(line[i])
  }

  function CategoriesOf(t: string): seq<string> {
    match CategoryAt(t)
    case None => []
    case Some(c) => [c]
  }

  /** Every category that the pattern finds, line by line; it may go on into later lines. */
  function Categories(body: Lines): seq<string> {
    if body == [] then [] else CategoriesOf(Terminated(body, "\n")) + Categories(body[1..])
  }

  /** `strip`, of which only the beginning matters here. */
  function Stripped(body: Lines): Lines {
    if body == [] then []
    else
      var i := SkipSpace(body[0], 0);
      if i == |body[0]| then Stripped(body[1..]) else [body[0][i..]] + body[1..]
  }

  predicate Distinct(xs: seq<string>) {
    forall i, j :: 0 <= i < j < |xs| ==> xs[i] != xs[j]
  }

  predicate Within(xs: seq<string>, allowed: set<string>) {
    forall i :: 0 <= i < |xs| ==> xs[i] in allowed
  }

  predicate Has(xs: seq<string>, required: set<string>) {
    forall c :: c in required ==> c in xs
  }

  /** What `cut_changelog` demands of every section: canonical category lines, no category twice or
      unknown, exactly one breaking marker. */
  predicate Canonical(body: Lines) {
    && (forall i :: 0 <= i < |body| ==> StartsWith(body[i], "###") ==> IsCategoryLine(body[i]))
    && Distinct(Categories(body)) && Within(Categories(body), ALLOWED)
    && |Markers(body)| == 1
  }

  // ---- Validity for a version ----

  /** Known categories, a marker, and an entry if it says so. */
  predicate SectionOk(body: Lines) {
    && Within(Categories(Stripped(body)), ALLOWED)
    && Markers(body) != [] && (Markers(body)[0] ==> HasBreakingEntry(body))
  }

  datatype Release = Release(version: string, date: string, body: Lines)

  predicate IsUnreleased(s: Section) {
    StartsWith(s.heading, "##") && var a := SkipSpace(s.heading, 2); a > 2 && At(s.heading, a, "[Unreleased]")
  }

  /** Version and date of a heading that is not Unreleased. */
  function ReleaseHeading(s: Section): Option<(string, string)> {
    if IsUnreleased(s) then None else VersionHeading(StripEnd(s.heading))
  }

  /** The bodies of the Unreleased sections. */
  function Unreleased(sections: seq<Section>): seq<Lines> {
    if sections == [] then []
    else (if IsUnreleased(sections[0]) then [sections[0].body] else []) + Unreleased(sections[1..])
  }

  function ReleasesOf(s: Section): seq<Release> {
    match ReleaseHeading(s)
    case None => []
    case Some(v) => [Release(v.0, v.1, s.body)]
  }

  /** The versioned sections; all others are ignored. */
  function Releases(sections: seq<Section>): seq<Release> {
    if sections == [] then [] else ReleasesOf(sections[0]) + Releases(sections[1..])
  }

  /** No versioned section comes before an Unreleased one. */
  predicate UnreleasedFirst(sections: seq<Section>) {
    sections == [] || IsUnreleased(sections[0]) || (ReleaseHeading(sections[0]).None? && UnreleasedFirst(sections[1..]))
  }

  predicate Newer(x: string, y: string) {
    ReadVersion(x).Some? && ReadVersion(y).Some? && SemVer.Cmp(ReadVersion(x).value, ReadVersion(y).value) > 0
  }

  predicate ReleaseOk(r: Release) {
    ReadVersion(r.version).Some? && SectionOk(r.body)
  }

  /** Newest first, no version twice. */
  predicate Descending(rs: seq<Release>) {
    && (forall i :: 0 <= i < |rs| ==> ReleaseOk(rs[i]))
    && (forall i :: 0 < i < |rs| ==> Newer(rs[i - 1].version, rs[i].version))
    && (forall i, j :: 0 <= i < j < |rs| ==> rs[i].version != rs[j].version)
  }

  predicate UnreleasedOk(body: Lines) {
    SectionOk(body) && Has(Categories(Stripped(body)), REQUIRED)
  }

  /** `_check_changelog_sections`: one leading Unreleased section with the required categories, then
      releases, newest first, the first being the dated `version`; and links to releases only if
      that version is `tagged`. */
  predicate ValidFor(version: string, sections: seq<Section>, linked: bool, tagged: bool) {
    var us, rs := Unreleased(sections), Releases(sections);
    && (linked ==> tagged)
    && |us| == 1 && UnreleasedOk(us[0]) && (rs != [] ==> UnreleasedFirst(sections))
    && Descending(rs)
    && rs != [] && rs[0].version == version && IsoDate(rs[0].date) && Has(Categories(Stripped(rs[0].body)), REQUIRED)
  }

  lemma RestOfConcat(x: seq<Section>, y: seq<Section>)
    requires x != []
    ensures x + y != [] && (x + y)[0] == x[0] && (x + y)[1..] == x[1..] + y
  {
  }

  // ---- Validity, section by section ----

  ghost predicate OnlyUnreleased(sections: seq<Section>, u: nat) {
    && u < |sections| && IsUnreleased(sections[u])
    && (forall i :: 0 <= i < |sections| && IsUnreleased(sections[i]) ==> i == u)
    && (forall i :: 0 <= i < u ==> ReleaseHeading(sections[i]).None?)
  }

  ghost predicate FirstRelease(sections: seq<Section>, c: nat) {
    && c < |sections| && ReleaseHeading(sections[c]).Some?
    && forall i :: 0 <= i < c ==> ReleaseHeading(sections[i]).None?
  }

  predicate SoundSection(s: Section) {
    ReleaseHeading(s).Some? ==> ReadVersion(ReleaseHeading(s).value.0).Some? && SectionOk(s.body)
  }

  predicate InOrder(s: Section, t: Section) {
    ReleaseHeading(s).Some? && ReleaseHeading(t).Some? ==> Newer(ReleaseHeading(s).value.0, ReleaseHeading(t).value.0)
  }

  /** One Unreleased section, before all versioned ones and complete; the first versioned one is
      `version`, dated and complete; every one is in order, and newer than all after it. */
  ghost predicate Sound(version: string, sections: seq<Section>, linked: bool, tagged: bool) {
    && (linked ==> tagged)
    && (exists u: nat :: OnlyUnreleased(sections, u) && UnreleasedOk(sections[u].body))
    && (exists c: nat ::
          && FirstRelease(sections, c) && ReleaseHeading(sections[c]).value.0 == version
          && IsoDate(ReleaseHeading(sections[c]).value.1) && Has(Categories(Stripped(sections[c].body)), REQUIRED))
    && (forall i :: 0 <= i < |sections| ==> SoundSection(sections[i]))
    && (forall i, j :: 0 <= i < j < |sections| ==> InOrder(sections[i], sections[j]))
  }

  /** Where the flags are that are set. */
  function Kept(flags: seq<bool>): seq<nat> {
    if flags == [] then []
    else Kept(flags[..|flags| - 1]) + if flags[|flags| - 1] then [|flags| - 1] else []
  }

  lemma {:induction false} KeptExactly(flags: seq<bool>)
    ensures forall k :: 0 <= k < |Kept(flags)| ==> Kept(flags)[k] < |flags| && flags[Kept(flags)[k]]
    ensures forall k, l :: 0 <= k < l < |Kept(flags)| ==> Kept(flags)[k] < Kept(flags)[l]
    ensures forall i :: 0 <= i < |flags| && flags[i] ==> i in Kept(flags)
  {
    if flags != [] {
      var n := |flags| - 1;
      var before, at := Kept(flags[..n]), Kept(flags);
      KeptExactly(flags[..n]);
      assert forall i :: 0 <= i < n ==> flags[..n][i] == flags[i];
      assert forall k :: 0 <= k < |before| ==> at[k] == before[k] && before[k] < n && flags[before[k]];
      assert at == before + if flags[n] then [n] else [];
      hide Kept;
      assert flags[n] ==> at[|before|] == n;
      forall i | 0 <= i < |flags| && flags[i]
        ensures i in at
      {
        assert i < n ==> i in before;
      }
    }
  }

  function ReleaseFlags(sections: seq<Section>): seq<bool> {
    seq(|sections|, i requires 0 <= i < |sections| => ReleaseHeading(sections[i]).Some?)
  }

  function UnreleasedFlags(sections: seq<Section>): seq<bool> {
    seq(|sections|, i requires 0 <= i < |sections| => IsUnreleased(sections[i]))
  }

  /** The k-th release is that of the k-th versioned section. */
  ghost predicate ReleaseAt(sections: seq<Section>, at: seq<nat>, k: nat) {
    k < |at| && k < |Releases(sections)| && at[k] < |sections| && ReleasesOf(sections[at[k]]) == [Releases(sections)[k]]
  }

  ghost predicate UnreleasedAt(sections: seq<Section>, at: seq<nat>, k: nat) {
    k < |at| && k < |Unreleased(sections)| && at[k] < |sections| && sections[at[k]].body == Unreleased(sections)[k]
  }

  lemma {:induction false} ReleasesAreKept(sections: seq<Section>)
    ensures |Releases(sections)| == |Kept(ReleaseFlags(sections))|
    ensures forall k :: 0 <= k < |Releases(sections)| ==> ReleaseAt(sections, Kept(ReleaseFlags(sections)), k)
  {
    hide IsUnreleased, VersionHeading, Releases, Unreleased;
    if sections == [] {
      NothingKept();
    } else {
      var n := |sections| - 1;
      var before, last := sections[..n], sections[n];
      ReleasesAreKept(before);
      assert sections == before + [last];
      FiltersConcat(before, [last]);
      OneSection(last);
      assert ReleaseFlags(sections)[..n] == ReleaseFlags(before);
      var at := Kept(ReleaseFlags(sections));
      forall k | 0 <= k < |Releases(sections)|
        ensures ReleaseAt(sections, at, k)
      {
        if k < |Releases(before)| {
          assert ReleaseAt(before, Kept(ReleaseFlags(before)), k);
        }
      }
    }
  }

  lemma NothingKept()
    ensures Releases([]) == [] && Unreleased([]) == []
  {
  }

  lemma {:induction false} UnreleasedAreKept(sections: seq<Section>)
    ensures |Unreleased(sections)| == |Kept(UnreleasedFlags(sections))|
    ensures forall k :: 0 <= k < |Unreleased(sections)| ==> UnreleasedAt(sections, Kept(UnreleasedFlags(sections)), k)
  {
    hide IsUnreleased, Releases, Unreleased;
    if sections == [] {
      NothingKept();
    } else {
      var n := |sections| - 1;
      var before, last := sections[..n], sections[n];
      UnreleasedAreKept(before);
      assert sections == before + [last];
      FiltersConcat(before, [last]);
      OneSection(last);
      assert UnreleasedFlags(sections)[..n] == UnreleasedFlags(before);
      var at := Kept(UnreleasedFlags(sections));
      forall k | 0 <= k < |Unreleased(sections)|
        ensures UnreleasedAt(sections, at, k)
      {
        if k < |Unreleased(before)| {
          assert UnreleasedAt(before, Kept(UnreleasedFlags(before)), k);
        }
      }
    }
  }

  ghost predicate Preceded(sections: seq<Section>, i: int) {
    exists j :: 0 <= j < i && j < |sections| && IsUnreleased(sections[j])
  }

  lemma {:induction false} FirstKind(sections: seq<Section>)
    ensures UnreleasedFirst(sections) <==> forall i :: 0 <= i < |sections| && ReleaseHeading(sections[i]).Some? ==> Preceded(sections, i)
  {
    hide IsUnreleased, VersionHeading, Preceded;
    if sections != [] {
      var rest := sections[1..];
      FirstKind(rest);
      forall i | 0 <= i < |sections|
        ensures i > 0 ==> rest[i - 1] == sections[i] && (Preceded(sections, i) <==> IsUnreleased(sections[0]) || Preceded(rest, i - 1))
        ensures i == 0 ==> !Preceded(sections, i)
      {
        PrecededTail(sections, i);
      }
      assert forall i :: 0 <= i < |rest| ==> rest[i] == sections[i + 1];
    }
  }

  lemma PrecededTail(sections: seq<Section>, i: nat)
    requires i < |sections|
    ensures i > 0 ==> (Preceded(sections, i) <==> IsUnreleased(sections[0]) || Preceded(sections[1..], i - 1))
    ensures i == 0 ==> !Preceded(sections, i)
  {
    hide IsUnreleased;
    var rest := sections[1..];
    if i > 0 && Preceded(sections, i) {
      var j :| 0 <= j < i && j < |sections| && IsUnreleased(sections[j]);
      assert j > 0 ==> rest[j - 1] == sections[j];
    }
    if i > 0 && Preceded(rest, i - 1) {
      var j :| 0 <= j < i - 1 && j < |rest| && IsUnreleased(rest[j]);
      assert sections[j + 1] == rest[j];
    }
  }

  /** Newer than the next is newer than all that follow. */
  lemma {:induction false} DescendingPairs(rs: seq<Release>, i: nat, j: nat)
    requires Descending(rs) && i < j < |rs|
    ensures Newer(rs[i].version, rs[j].version)
  {
    hide Newer, ReleaseOk;
    if i + 1 < j {
      DescendingPairs(rs, i, j - 1);
      NewerIsTransitive(rs[i].version, rs[j - 1].version, rs[j].version);
    }
  }

  ghost predicate Placed(sections: seq<Section>, i: nat, r: Release) {
    i < |sections| && ReleaseHeading(sections[i]) == Some((r.version, r.date)) && sections[i].body == r.body
  }

  lemma PlaceOf(sections: seq<Section>, k: nat) returns (i: nat)
    requires k < |Releases(sections)|
    ensures i < |sections| && k < |Kept(ReleaseFlags(sections))| && i == Kept(ReleaseFlags(sections))[k]
    ensures Placed(sections, i, Releases(sections)[k])
  {
    hide Releases, ReleaseHeading;
    ReleasesAreKept(sections);
    i := Kept(ReleaseFlags(sections))[k];
    assert ReleaseAt(sections, Kept(ReleaseFlags(sections)), k);
  }

  lemma ReleaseOf(sections: seq<Section>, i: nat) returns (k: nat)
    requires i < |sections| && ReleaseHeading(sections[i]).Some?
    ensures k < |Releases(sections)| && k < |Kept(ReleaseFlags(sections))| && i == Kept(ReleaseFlags(sections))[k]
    ensures Placed(sections, i, Releases(sections)[k])
  {
    hide Releases, ReleaseHeading, Placed;
    ReleasesAreKept(sections);
    KeptExactly(ReleaseFlags(sections));
    assert ReleaseFlags(sections)[i];
    k :| 0 <= k < |Kept(ReleaseFlags(sections))| && Kept(ReleaseFlags(sections))[k] == i;
    var j := PlaceOf(sections, k);
  }

  lemma DescendingIsSound(sections: seq<Section>)
    requires Descending(Releases(sections))
    ensures forall i :: 0 <= i < |sections| ==> SoundSection(sections[i])
    ensures forall i, j :: 0 <= i < j < |sections| ==> InOrder(sections[i], sections[j])
  {
    hide Releases, ReleaseHeading, SectionOk, Newer, ReadVersion, Kept, ReleaseFlags;
    forall i | 0 <= i < |sections|
      ensures SoundSection(sections[i])
    {
      if ReleaseHeading(sections[i]).Some? {
        var k := ReleaseOf(sections, i);
        assert ReleaseOk(Releases(sections)[k]);
      }
    }
    KeptExactly(ReleaseFlags(sections));
    forall i, j | 0 <= i < j < |sections|
      ensures InOrder(sections[i], sections[j])
    {
      if ReleaseHeading(sections[i]).Some? && ReleaseHeading(sections[j]).Some? {
        var k := ReleaseOf(sections, i);
        var l := ReleaseOf(sections, j);
        DescendingPairs(Releases(sections), k, l);
      }
    }
  }

  lemma SoundIsDescending(sections: seq<Section>)
    requires forall i :: 0 <= i < |sections| ==> SoundSection(sections[i])
    requires forall i, j :: 0 <= i < j < |sections| ==> InOrder(sections[i], sections[j])
    ensures Descending(Releases(sections))
  {
    hide Releases, ReleaseHeading, SectionOk, Newer, ReadVersion, Kept, ReleaseFlags;
    var rs := Releases(sections);
    forall k | 0 <= k < |rs|
      ensures ReleaseOk(rs[k])
    {
      var i := PlaceOf(sections, k);
      assert SoundSection(sections[i]);
    }
    KeptExactly(ReleaseFlags(sections));
    forall k, l | 0 <= k < l < |rs|
      ensures Newer(rs[k].version, rs[l].version) && rs[k].version != rs[l].version
    {
      var i := PlaceOf(sections, k);
      var j := PlaceOf(sections, l);
      assert InOrder(sections[i], sections[j]);
      NewerIsOther(rs[k].version, rs[l].version);
    }
  }

  lemma DescendingExactly(sections: seq<Section>)
    ensures Descending(Releases(sections)) <==>
      && (forall i :: 0 <= i < |sections| ==> SoundSection(sections[i]))
      && forall i, j :: 0 <= i < j < |sections| ==> InOrder(sections[i], sections[j])
  {
    hide Releases, Descending, SoundSection, InOrder;
    if Descending(Releases(sections)) {
      DescendingIsSound(sections);
    }
    if (forall i :: 0 <= i < |sections| ==> SoundSection(sections[i])) && (forall i, j :: 0 <= i < j < |sections| ==> InOrder(sections[i], sections[j])) {
      SoundIsDescending(sections);
    }
  }

  lemma FirstReleaseExactly(sections: seq<Section>)
    ensures Releases(sections) != [] ==>
      exists c: nat :: FirstRelease(sections, c) && ReleasesOf(sections[c]) == [Releases(sections)[0]]
    ensures (exists c: nat :: FirstRelease(sections, c)) ==> Releases(sections) != []
  {
    hide Releases, ReleaseHeading;
    var rs, at := Releases(sections), Kept(ReleaseFlags(sections));
    ReleasesAreKept(sections);
    KeptExactly(ReleaseFlags(sections));
    if rs != [] {
      assert ReleaseAt(sections, at, 0);
      assert ReleaseFlags(sections)[at[0]];
      assert forall k :: 0 <= k < |at| ==> at[0] <= at[k];
      forall i | 0 <= i < at[0]
        ensures ReleaseHeading(sections[i]).None?
      {
        assert ReleaseFlags(sections)[i] ==> i in at;
      }
      assert FirstRelease(sections, at[0]);
    }
    if c: nat :| FirstRelease(sections, c) {
      assert ReleaseFlags(sections)[c];
    }
  }

  lemma FirstReleaseIsOne(sections: seq<Section>, c: nat, d: nat)
    requires FirstRelease(sections, c) && FirstRelease(sections, d)
    ensures c == d
  {
  }

  lemma TheOnlyUnreleased(sections: seq<Section>) returns (u: nat)
    requires |Unreleased(sections)| == 1 && UnreleasedFirst(sections)
    ensures OnlyUnreleased(sections, u) && sections[u].body == Unreleased(sections)[0]
  {
    hide Unreleased, IsUnreleased, ReleaseHeading, UnreleasedFirst, Kept;
    var at := Kept(UnreleasedFlags(sections));
    UnreleasedAreKept(sections);
    KeptExactly(UnreleasedFlags(sections));
    u := at[0];
    assert UnreleasedAt(sections, at, 0) && UnreleasedFlags(sections)[u];
    forall i | 0 <= i < |sections| && IsUnreleased(sections[i])
      ensures i == u
    {
      assert UnreleasedFlags(sections)[i];
    }
    FirstKind(sections);
    forall i | 0 <= i < u
      ensures ReleaseHeading(sections[i]).None?
    {
      assert !Preceded(sections, i);
    }
  }

  lemma UnreleasedIsKept(sections: seq<Section>, u: nat)
    requires OnlyUnreleased(sections, u)
    ensures |Unreleased(sections)| == 1 && sections[u].body == Unreleased(sections)[0]
  {
    hide Unreleased, IsUnreleased, ReleaseHeading, Kept;
    var at := Kept(UnreleasedFlags(sections));
    UnreleasedAreKept(sections);
    KeptExactly(UnreleasedFlags(sections));
    assert |at| > 1 ==> at[0] < at[1];
    assert UnreleasedFlags(sections)[u];
    assert forall k :: 0 <= k < |at| ==> UnreleasedFlags(sections)[at[k]] && at[k] == u;
    assert u in at;
    assert |at| <= 1;
    assert UnreleasedAt(sections, at, 0);
  }

  lemma UnreleasedIsFirst(sections: seq<Section>, u: nat)
    requires OnlyUnreleased(sections, u)
    ensures UnreleasedFirst(sections)
  {
    hide IsUnreleased, VersionHeading, UnreleasedFirst;
    assert ReleaseHeading(sections[u]).None?;
    forall i | 0 <= i < |sections| && ReleaseHeading(sections[i]).Some?
      ensures Preceded(sections, i)
    {
      assert i > u;
    }
    FirstKind(sections);
  }

  lemma OnlyUnreleasedExactly(sections: seq<Section>)
    ensures |Unreleased(sections)| == 1 && UnreleasedFirst(sections) ==>
      exists u: nat :: OnlyUnreleased(sections, u) && sections[u].body == Unreleased(sections)[0]
    ensures forall u: nat :: OnlyUnreleased(sections, u) ==>
      |Unreleased(sections)| == 1 && UnreleasedFirst(sections) && sections[u].body == Unreleased(sections)[0]
  {
    hide Unreleased, UnreleasedFirst, IsUnreleased, ReleaseHeading;
    if |Unreleased(sections)| == 1 && UnreleasedFirst(sections) {
      var u := TheOnlyUnreleased(sections);
    }
    forall u: nat | OnlyUnreleased(sections, u)
      ensures |Unreleased(sections)| == 1 && UnreleasedFirst(sections) && sections[u].body == Unreleased(sections)[0]
    {
      UnreleasedIsKept(sections, u);
      UnreleasedIsFirst(sections, u);
    }
  }

  /** The check accepts exactly the sound changelogs. */
  lemma ValidExactlyIfSound(version: string, sections: seq<Section>, linked: bool, tagged: bool)
    ensures ValidFor(version, sections, linked, tagged) <==> Sound(version, sections, linked, tagged)
  {
    hide Releases, Unreleased, UnreleasedFirst, Descending, UnreleasedOk, SoundSection, InOrder, ReleaseHeading, IsUnreleased, IsoDate, Has, Stripped, Categories;
    DescendingExactly(sections);
    FirstReleaseExactly(sections);
    OnlyUnreleasedExactly(sections);
    if ValidFor(version, sections, linked, tagged) {
      var u: nat :| OnlyUnreleased(sections, u) && sections[u].body == Unreleased(sections)[0];
      var c: nat :| FirstRelease(sections, c) && ReleasesOf(sections[c]) == [Releases(sections)[0]];
    }
    if Sound(version, sections, linked, tagged) {
      var u: nat :| OnlyUnreleased(sections, u) && UnreleasedOk(sections[u].body);
      var c: nat :| FirstRelease(sections, c) && ReleasesOf(sections[c]) == [Releases(sections)[0]];
      forall d: nat | FirstRelease(sections, d)
        ensures d == c
      {
        FirstReleaseIsOne(sections, c, d);
      }
    }
  }

  lemma {:induction false} UnreleasedConcat(x: seq<Section>, y: seq<Section>)
    ensures Unreleased(x + y) == Unreleased(x) + Unreleased(y)
  {
    hide IsUnreleased;
    if x == [] {
      assert x + y == y;
    } else {
      UnreleasedConcat(x[1..], y);
      RestOfConcat(x, y);
      var first, rest, others := if IsUnreleased(x[0]) then [x[0].body] else [], Unreleased(x[1..]), Unreleased(y);
      assert first + (rest + others) == first + rest + others;
    }
  }

  lemma {:induction false} ReleasesConcat(x: seq<Section>, y: seq<Section>)
    ensures Releases(x + y) == Releases(x) + Releases(y)
  {
    hide ReleasesOf;
    if x == [] {
      assert x + y == y;
    } else {
      ReleasesConcat(x[1..], y);
      RestOfConcat(x, y);
      var first, rest, others := ReleasesOf(x[0]), Releases(x[1..]), Releases(y);
      assert first + (rest + others) == first + rest + others;
    }
  }

  lemma FiltersConcat(x: seq<Section>, y: seq<Section>)
    ensures Unreleased(x + y) == Unreleased(x) + Unreleased(y) && Releases(x + y) == Releases(x) + Releases(y)
  {
    hide Unreleased, Releases;
    UnreleasedConcat(x, y);
    ReleasesConcat(x, y);
  }

  lemma OneSection(s: Section)
    ensures Unreleased([s]) == (if IsUnreleased(s) then [s.body] else []) && Releases([s]) == ReleasesOf(s)
  {
    assert [s][1..] == [];
  }

  /** The sections, classified one after the other. */
  method Classify(sections: seq<Section>) returns (unreleased: seq<Lines>, releases: seq<Release>)
    ensures unreleased == Unreleased(sections) && releases == Releases(sections)
  {
    hide IsUnreleased;
    unreleased, releases := [], [];
    for i := 0 to |sections|
      invariant unreleased == Unreleased(sections[..i]) && releases == Releases(sections[..i])
    {
      var s := sections[i];
      FiltersConcat(sections[..i], [s]);
      OneSection(s);
      assert sections[..i + 1] == sections[..i] + [s];
      if IsUnreleased(s) {
        unreleased := unreleased + [s.body];
      } else {
        var heading := VersionHeading(StripEnd(s.heading));
        if heading.Some? {
          releases := releases + [Release(heading.value.0, heading.value.1, s.body)];
        }
      }
    }
    assert sections[..|sections|] == sections;
  }

  /** Every version is new, valid and older than the one before, and every body is in order. */
  method CheckReleases(releases: seq<Release>) returns (ok: bool)
    ensures ok <==> Descending(releases)
  {
    hide ReleaseOk, Newer;
    ok := true;
    var seen: set<string> := {};
    for i := 0 to |releases|
      invariant seen == set k | 0 <= k < i :: releases[k].version
      invariant ok <==> Descending(releases[..i])
    {
      var r := releases[i];
      DescendsOn(releases, i);
      if r.version in seen || !ReleaseOk(r) || (i > 0 && !Newer(releases[i - 1].version, r.version)) {
        ok := false;
      }
      seen := seen + {r.version};
    }
    assert releases[..|releases|] == releases;
  }

  lemma DescendsOn(rs: seq<Release>, n: nat)
    requires n < |rs|
    ensures Descending(rs[..n + 1]) <==>
      && Descending(rs[..n]) && ReleaseOk(rs[n]) && (n > 0 ==> Newer(rs[n - 1].version, rs[n].version))
      && forall k :: 0 <= k < n ==> rs[k].version != rs[n].version
  {
    hide ReleaseOk, Newer;
    var x, y := rs[..n], rs[..n + 1];
    assert forall k :: 0 <= k < n ==> x[k] == y[k] == rs[k];
    assert y[n] == rs[n];
    if Descending(y) {
      assert forall k :: 0 <= k < n ==> ReleaseOk(x[k]) by {
        assert forall k :: 0 <= k < n ==> ReleaseOk(y[k]);
      }
      assert n > 0 ==> Newer(y[n - 1].version, y[n].version);
      assert forall k :: 0 < k < n ==> Newer(x[k - 1].version, x[k].version) by {
        assert forall k :: 0 < k < n ==> Newer(y[k - 1].version, y[k].version);
      }
    }
  }

  /** The only release of the version: where it is. */
  method FindVersion(releases: seq<Release>, version: string) returns (at: Option<nat>)
    ensures at.Some? ==> at.value < |releases| && releases[at.value].version == version
    ensures at.Some? ==> forall k :: 0 <= k < |releases| && releases[k].version == version ==> k == at.value
    ensures at.None? ==> forall k :: 0 <= k < |releases| && releases[k].version == version ==>
      exists j :: 0 <= j < |releases| && j != k && releases[j].version == version
  {
    var found: seq<nat> := [];
    for i := 0 to |releases|
      invariant forall n :: 0 <= n < |found| ==> found[n] < i && releases[found[n]].version == version
      invariant forall m, n :: 0 <= m < n < |found| ==> found[m] < found[n]
      invariant forall k :: 0 <= k < i && releases[k].version == version ==> k in found
    {
      if releases[i].version == version {
        found := found + [i];
      }
    }
    if |found| != 1 {
      forall k | 0 <= k < |releases| && releases[k].version == version
        ensures exists j :: 0 <= j < |releases| && j != k && releases[j].version == version
      {
        assert k in found && found[0] != found[1];
        assert releases[found[0]].version == version && releases[found[1]].version == version;
      }
      return None;
    }
    return Some(found[0]);
  }

  /** `_check_changelog_sections`: the date of the current release, if nothing is wrong. */
  method CheckSections(version: string, sections: seq<Section>, linked: bool, tagged: bool) returns (date: Option<string>)
    ensures date.Some? <==> ValidFor(version, sections, linked, tagged)
    ensures date.Some? ==> date.value == Releases(sections)[0].date
  {
    hide UnreleasedFirst, Descending, UnreleasedOk, IsoDate, Categories, Stripped, Has;
    var ok := linked ==> tagged;
    var unreleased, releases := Classify(sections);
    if |unreleased| != 1 || (releases != [] && !UnreleasedFirst(sections)) {
      ok := false;
    }
    for i := 0 to |unreleased|
      invariant ok <==>
        && (linked ==> tagged) && |unreleased| == 1 && (releases != [] ==> UnreleasedFirst(sections))
        && forall k :: 0 <= k < i ==> UnreleasedOk(unreleased[k])
    {
      ok := ok && UnreleasedOk(unreleased[i]);
    }
    var descending := CheckReleases(releases);
    var current := FindVersion(releases, version);
    if current.None? {
      OnceIfDescending(releases, version);
      return None;
    }
    var r := releases[current.value];
    if !ok || !descending || releases[0].version != version || !IsoDate(r.date) || !Has(Categories(Stripped(r.body)), REQUIRED) {
      return None;
    }
    return Some(r.date);
  }

  lemma OnceIfDescending(rs: seq<Release>, version: string)
    requires forall k :: 0 <= k < |rs| && rs[k].version == version ==> exists j :: 0 <= j < |rs| && j != k && rs[j].version == version
    ensures Descending(rs) && rs != [] ==> rs[0].version != version
  {
  }

  // ---- The cut ----

  function EmptyCategories(cats: seq<string>): Lines {
    if cats == [] then [] else ["", "### " + cats[0], "", "- Keine."] + EmptyCategories(cats[1..])
  }

  /** The body of a fresh Unreleased section. */
  function EmptyBody(cats: seq<string>): Lines {
    EmptyCategories(cats) + [""] + [NONE, ""]
  }

  /** A line that is meant as a heading is one: not indented, not deeper than three. */
  predicate CanonicalHeadingLine(line: string) {
    var i := SkipSpace(line, 0);
    StartsWith(line[i..], "##") ==> i == 0 && (StartsWith(line, "## ") || StartsWith(line, "### "))
  }

  predicate LineFits(line: string) {
    '\r' !in line && CanonicalHeadingLine(line)
  }

  /** One leading Unreleased heading, and after it only versioned ones. */
  predicate HeadingsFit(sections: seq<Section>) {
    && |sections| >= 2 && sections[0].heading == UNRELEASED
    && forall i :: 1 <= i < |sections| ==> VersionHeading(sections[i].heading).Some?
  }

  predicate BodiesFit(sections: seq<Section>) {
    forall i :: 0 <= i < |sections| ==> Canonical(sections[i].body)
  }

  predicate LinesFit(lines: Lines) {
    forall i :: 0 <= i < |lines| ==> LineFits(lines[i])
  }

  /** What `cut_changelog` accepts; `tagged` tells whether the current version has a tag. */
  predicate Cuttable(lines: Lines, current: string, tagged: bool) {
    var sections := Parse(lines).sections;
    LinesFit(lines) && HeadingsFit(sections) && BodiesFit(sections) && ValidFor(current, sections, HasLink(lines), tagged)
  }

  /** The file after the cut, as sections: a fresh Unreleased one, then its old body under the new
      heading, then the history. */
  function Cut(f: File, target: string, date: string): File
    requires f.sections != []
  {
    var body := f.sections[0].body;
    File(f.preamble, [Section(UNRELEASED, EmptyBody(Categories(body))), Section(Rendered(target, date), body)] + f.sections[1..])
  }

  function CutText(lines: Lines, target: string, date: string): Lines
    requires Parse(lines).sections != []
  {
    var cut := Cut(Parse(lines), target, date);
    cut.preamble + TextOf(cut.sections)
  }

  method CheckLines(lines: Lines) returns (ok: bool)
    ensures ok <==> LinesFit(lines)
  {
    hide CanonicalHeadingLine;
    for i := 0 to |lines|
      invariant forall k :: 0 <= k < i ==> LineFits(lines[k])
    {
      if '\r' in lines[i] || !CanonicalHeadingLine(lines[i]) {
        return false;
      }
    }
    return true;
  }

  method CheckHeadings(sections: seq<Section>) returns (ok: bool)
    ensures ok <==> HeadingsFit(sections)
  {
    hide VersionHeading;
    if |sections| < 2 || sections[0].heading != UNRELEASED {
      return false;
    }
    for i := 1 to |sections|
      invariant forall k :: 1 <= k < i ==> VersionHeading(sections[k].heading).Some?
    {
      if VersionHeading(sections[i].heading).None? {
        return false;
      }
    }
    return true;
  }

  method CheckBodies(sections: seq<Section>) returns (ok: bool)
    ensures ok <==> BodiesFit(sections)
  {
    hide Canonical;
    for i := 0 to |sections|
      invariant forall k :: 0 <= k < i ==> Canonical(sections[k].body)
    {
      if !Canonical(sections[i].body) {
        return false;
      }
    }
    return true;
  }

  /** `cut_changelog`. The new content is spliced from pieces of the old lines. */
  method CutChangelog(lines: Lines, current: string, target: string, date: string, tagged: bool) returns (r: Result<Lines>)
    ensures r.Success? <==> Cuttable(lines, current, tagged) && (target == current ==> Repeated(lines, date))
    ensures r.Success? && target == current ==> r.value == lines
    ensures r.Success? && target != current ==> r.value == CutText(lines, target, date)
  {
    hide LinesFit, Parse, BodiesFit, ValidFor, TextOf, EmptyBody, HasLink, IsUnreleased, Releases, Categories, Rendered;
    var ok := CheckLines(lines);
    if !ok {
      return Failure;
    }
    var f := Parse(lines);
    ok := CheckHeadings(f.sections);
    if !ok {
      return Failure;
    }
    ok := CheckBodies(f.sections);
    if !ok {
      return Failure;
    }
    ParseIsExact(lines);
    var start := |f.preamble| + 1;
    var end := start + |f.sections[0].body|;
    Pieces(lines, f);
    var existing := CheckSections(current, f.sections, HasLink(lines), tagged);
    if existing.None? {
      return Failure;
    }
    SomeRelease(current, f.sections, HasLink(lines), tagged);
    var body := lines[start..end];
    if target == current {
      return if existing.value == date && body == EmptyBody(Categories(body)) then Success(lines) else Failure;
    }
    TextOfCut(f, target, date);
    return Success(lines[..start] + EmptyBody(Categories(body)) + [Rendered(target, date)] + body + lines[end..]);
  }

  lemma SomeRelease(version: string, sections: seq<Section>, linked: bool, tagged: bool)
    requires ValidFor(version, sections, linked, tagged)
    ensures Releases(sections) != []
  {
  }

  /** A second cut: the release is already there, with this date, and nothing new is unreleased. */
  predicate Repeated(lines: Lines, date: string) {
    var sections := Parse(lines).sections;
    && sections != [] && Releases(sections) != [] && Releases(sections)[0].date == date
    && sections[0].body == EmptyBody(Categories(sections[0].body))
  }

  lemma Pieces(lines: Lines, f: File)
    requires f.sections != [] && lines == f.preamble + TextOf(f.sections)
    ensures var start := |f.preamble| + 1; var end := start + |f.sections[0].body|;
      && end <= |lines|
      && lines[..start] == f.preamble + [f.sections[0].heading]
      && lines[start..end] == f.sections[0].body
      && lines[end..] == TextOf(f.sections[1..])
  {
    var s, rest := f.sections[0], TextOf(f.sections[1..]);
    assert lines == f.preamble + [s.heading] + s.body + rest;
  }

  lemma TextOfCut(f: File, target: string, date: string)
    requires f.sections != [] && f.sections[0].heading == UNRELEASED
    ensures var body := f.sections[0].body;
      f.preamble + TextOf(Cut(f, target, date).sections) ==
        f.preamble + [UNRELEASED] + EmptyBody(Categories(body)) + [Rendered(target, date)] + body + TextOf(f.sections[1..])
  {
    hide EmptyBody, Rendered, Categories;
    var body := f.sections[0].body;
    var sections := Cut(f, target, date).sections;
    assert sections[1..] == [Section(Rendered(target, date), body)] + f.sections[1..];
    assert sections[1..][1..] == f.sections[1..];
    assert TextOf(sections[1..]) == [Rendered(target, date)] + body + TextOf(f.sections[1..]);
  }

  // ---- The fresh body ----

  predicate AreWords(cats: seq<string>) {
    forall i :: 0 <= i < |cats| ==> IsWord(cats[i])
  }

  lemma OneMoreLine(line: string, rest: Lines)
    ensures Categories([line] + rest) == CategoriesOf(line + "\n" + Terminated(rest, "\n")) + Categories(rest)
  {
    hide CategoriesOf;
    assert ([line] + rest)[1..] == rest;
  }

  lemma PlainLine(line: string, rest: Lines)
    requires !StartsWith(line, "###")
    ensures Categories([line] + rest) == Categories(rest)
  {
    OneMoreLine(line, rest);
    PlainLineIsNoCategory(line, Terminated(rest, "\n"));
  }

  lemma FourLines(word: string, rest: Lines)
    requires IsWord(word)
    ensures Categories(["", "### " + word, "", "- Keine."] + rest) == [word] + Categories(rest)
  {
    hide Categories, CategoryAt;
    var line := "### " + word;
    assert "- Keine."[0] == '-' && "###"[0] == '#';
    assert ["", line, "", "- Keine."] + rest == [""] + ([line] + ([""] + (["- Keine."] + rest)));
    PlainLine("- Keine.", rest);
    PlainLine("", ["- Keine."] + rest);
    OneMoreLine(line, [""] + (["- Keine."] + rest));
    WordIsCategory(word, Terminated([""] + (["- Keine."] + rest), "\n"));
    PlainLine("", [line] + ([""] + (["- Keine."] + rest)));
  }

  lemma {:induction false} EmptyCategoriesAreRead(cats: seq<string>, rest: Lines)
    requires AreWords(cats)
    ensures Categories(EmptyCategories(cats) + rest) == cats + Categories(rest)
  {
    hide Categories, IsWord;
    if cats == [] {
      assert EmptyCategories(cats) + rest == rest;
    } else {
      var four, tail := ["", "### " + cats[0], "", "- Keine."], EmptyCategories(cats[1..]) + rest;
      EmptyCategoriesAreRead(cats[1..], rest);
      FourLines(cats[0], tail);
      assert EmptyCategories(cats) == four + EmptyCategories(cats[1..]);
      hide EmptyCategories;
      assert four + EmptyCategories(cats[1..]) + rest == four + tail;
      assert [cats[0]] + (cats[1..] + Categories(rest)) == cats + Categories(rest);
    }
  }

  lemma {:induction false} CategoriesAreWords(body: Lines)
    ensures AreWords(Categories(body))
  {
    hide CategoryAt, IsWord;
    if body != [] {
      CategoryIsWord(Terminated(body, "\n"));
      CategoriesAreWords(body[1..]);
    }
  }

  /** A line of a fresh body: no heading, no star, nothing that a check refuses. */
  predicate Fresh(line: string) {
    && LineFits(line) && !IsHeading(line) && '*' !in line && (line != "" ==> line[0] != '[')
    && (StartsWith(line, "###") ==> IsCategoryLine(line))
  }

  lemma PlainLinesAreFresh()
    ensures Fresh("") && Fresh("- Keine.")
    ensures LineFits(NONE) && !IsHeading(NONE) && NONE[0] != '[' && !StartsWith(NONE, "###")
  {
    assert "- Keine."[0] == '-' && NONE[0] == '*' && "##"[0] == '#' && "###"[0] == '#' && "## "[0] == '#';
    assert SkipSpace("- Keine.", 0) == 0 && SkipSpace(NONE, 0) == 0 && SkipSpace("", 0) == 0;
    assert "- Keine."[0..] == "- Keine." && NONE[0..] == NONE;
  }

  lemma CategoryLineIsFresh(word: string)
    requires AreWords([word])
    ensures Fresh("### " + word)
  {
    var line := "### " + word;
    assert [word][0] == word;
    assert line[0] == '#' && line[2] == '#' && line[..4] == "### " && line[..3] == "###";
    assert forall i :: 4 <= i < |line| ==> line[i] == word[i - 4] && IsWordChar(line[i]);
    assert forall i :: 0 <= i < 4 ==> line[i] == "### "[i];
    assert line[0..] == line;
  }

  lemma {:induction false} EmptyCategoriesAreFresh(cats: seq<string>)
    requires AreWords(cats)
    ensures forall i :: 0 <= i < |EmptyCategories(cats)| ==> Fresh(EmptyCategories(cats)[i])
  {
    hide Fresh;
    if cats != [] {
      assert AreWords([cats[0]]);
      CategoryLineIsFresh(cats[0]);
      PlainLinesAreFresh();
      EmptyCategoriesAreFresh(cats[1..]);
    }
  }

  lemma NoStar(line: string)
    ensures Fresh(line) ==> '*' !in line
  {
  }

  /** The fresh body has the categories of the old one, one marker, and passes every check. */
  lemma FreshBody(cats: seq<string>)
    requires AreWords(cats)
    ensures Categories(EmptyBody(cats)) == cats
    ensures Markers(EmptyBody(cats)) == [false]
    ensures forall i :: 0 <= i < |EmptyBody(cats)| ==> FreshOrMark(EmptyBody(cats)[i])
  {
    hide NONE, Markers, Categories, Fresh, LineFits, EmptyCategories, IsWord;
    var empty := EmptyCategories(cats);
    EmptyCategoriesAreFresh(cats);
    PlainLinesAreFresh();
    assert Markers(EmptyBody(cats)) == [false] by {
      forall i | 0 <= i < |empty + [""]|
        ensures '*' !in (empty + [""])[i]
      {
        NoStar((empty + [""])[i]);
      }
      OneMarker(empty + [""]);
    }
    assert EmptyBody(cats) == empty + ["", NONE, ""];
    EmptyCategoriesAreRead(cats, ["", NONE, ""]);
    assert Categories(["", NONE, ""]) == [] by {
      MarkIsNoCategory();
    }
  }

  predicate FreshOrMark(line: string) {
    Fresh(line) || line == NONE
  }

  lemma MarkIsNoCategory()
    ensures Categories(["", NONE, ""]) == []
  {
    hide Categories;
    assert NONE[0] == '*' && "###"[0] == '#';
    assert ["", NONE, ""] == [""] + ([NONE] + ([""] + []));
    PlainLine("", []);
    PlainLine(NONE, [""] + []);
    PlainLine("", [NONE] + ([""] + []));
    assert Categories([]) == [] by {
      NoCategories();
    }
  }

  lemma NoCategories()
    ensures Categories([]) == []
  {
  }

  lemma SpaceIsNoHash(line: string)
    requires line == "" || IsSpace(line[0])
    ensures !StartsWith(line, "###")
  {
    assert "###"[0] == '#';
  }

  lemma FewerHashes(line: string)
    ensures StartsWith(line, "###") ==> StartsWith(line, "##")
  {
    assert "###"[..2] == "##";
  }

  /** Where every indented line is no heading, stripping changes no category. */
  lemma {:induction false} StrippedHasSameCategories(body: Lines)
    requires LinesFit(body)
    ensures Categories(Stripped(body)) == Categories(body)
  {
    hide Categories;
    if body != [] {
      var line, rest := body[0], body[1..];
      var i := SkipSpace(line, 0);
      assert body == [line] + rest;
      if i == |line| {
        SpaceIsNoHash(line);
        PlainLine(line, rest);
        assert LinesFit(rest);
        StrippedHasSameCategories(rest);
      } else if i > 0 {
        assert LineFits(line);
        SpaceIsNoHash(line);
        PlainLine(line, rest);
        assert !StartsWith(line[i..], "##");
        FewerHashes(line[i..]);
        PlainLine(line[i..], rest);
      } else {
        assert line[0..] == line;
      }
    }
  }

  // ---- The order of versions ----

  lemma NewerIsTransitive(x: string, y: string, z: string)
    requires Newer(x, y) && Newer(y, z)
    ensures Newer(x, z)
  {
    hide ReadVersion, SemVer.CanonicalVersion, SemVer.Cmp;
    var a, b, c := ReadVersion(x).value, ReadVersion(y).value, ReadVersion(z).value;
    VersionsAreRead(x);
    VersionsAreRead(y);
    VersionsAreRead(z);
    SemVer.PrecedenceIsATotalOrder(a, b, c);
    SemVer.PrecedenceIsATotalOrder(b, c, a);
    SemVer.PrecedenceIsATotalOrder(c, b, a);
    SemVer.PrecedenceIsATotalOrder(a, c, b);
  }

  lemma NewerIsOther(x: string, y: string)
    requires Newer(x, y)
    ensures x != y
  {
    hide ReadVersion, SemVer.CanonicalVersion;
    VersionsAreRead(x);
    var a := ReadVersion(x).value;
    SemVer.PrecedenceIsATotalOrder(a, a, a);
  }

  /** Newest first is newest of all. */
  lemma {:induction false} FirstIsNewest(rs: seq<Release>, target: string, i: nat)
    requires Descending(rs) && i < |rs| && Newer(target, rs[0].version)
    ensures Newer(target, rs[i].version) && target != rs[i].version
  {
    hide Newer, ReleaseOk;
    if i > 0 {
      FirstIsNewest(rs, target, i - 1);
      NewerIsTransitive(target, rs[i - 1].version, rs[i].version);
    }
    NewerIsOther(target, rs[i].version);
  }

  lemma OneNewer(rs: seq<Release>, r: Release)
    requires Descending(rs) && ReleaseOk(r) && (rs != [] ==> Newer(r.version, rs[0].version))
    ensures Descending([r] + rs)
  {
    hide Newer, ReleaseOk;
    var all := [r] + rs;
    forall i | 0 < i < |all|
      ensures Newer(all[i - 1].version, all[i].version) && ReleaseOk(all[i])
      ensures all[0].version != all[i].version
    {
      FirstIsNewest(rs, r.version, i - 1);
    }
    forall i, j | 0 < i < j < |all|
      ensures all[i].version != all[j].version
    {
      assert all[i] == rs[i - 1] && all[j] == rs[j - 1];
    }
  }

  // ---- Laws of the cut ----

  lemma TwoHeadings(target: string, date: string, body: Lines, newest: Lines)
    requires ReadVersion(target).Some? && IsoDate(date)
    ensures IsUnreleased(Section(UNRELEASED, newest))
    ensures ReleasesOf(Section(UNRELEASED, newest)) == []
    ensures !IsUnreleased(Section(Rendered(target, date), body))
    ensures ReleasesOf(Section(Rendered(target, date), body)) == [Release(target, date, body)]
  {
    hide VersionHeading, ReadVersion, IsoDate;
    RenderedIsRead(target, date);
    VersionsAreRead(target);
    var h := Rendered(target, date);
    assert UNRELEASED[2] == ' ' && UNRELEASED[3] == '[' && SkipSpace(UNRELEASED, 2) == 3;
    assert UNRELEASED[3..] == "[Unreleased]" && UNRELEASED[..2] == "##";
    assert h[2] == ' ' && h[3] == '[' && SkipSpace(h, 2) == 3;
    assert SemVer.IsDigit(target[0]) && h[4] == target[0];
    AtChars(h, 3, "[Unreleased]");
    assert "[Unreleased]"[1] == 'U';
  }

  /** The sections of the cut file, classified. */
  lemma CutIsClassified(f: File, target: string, date: string)
    requires f.sections != [] && f.sections[0].heading == UNRELEASED && ReadVersion(target).Some? && IsoDate(date)
    ensures var body := f.sections[0].body; var cut := Cut(f, target, date).sections;
      && Unreleased(f.sections) == [body] + Unreleased(f.sections[1..]) && Releases(f.sections) == Releases(f.sections[1..])
      && Unreleased(cut) == [EmptyBody(Categories(body))] + Unreleased(f.sections[1..])
      && Releases(cut) == [Release(target, date, body)] + Releases(f.sections)
      && UnreleasedFirst(cut)
  {
    hide IsUnreleased, ReadVersion, IsoDate, Rendered, EmptyBody, Categories, Unreleased, Releases, ReleasesOf, UnreleasedFirst, UNRELEASED;
    var body, rest := f.sections[0].body, f.sections[1..];
    var oldest, newest, released := Section(UNRELEASED, body), Section(UNRELEASED, EmptyBody(Categories(body))), Section(Rendered(target, date), body);
    TwoHeadings(target, date, body, body);
    TwoHeadings(target, date, body, newest.body);
    OneSection(oldest);
    OneSection(newest);
    OneSection(released);
    assert f.sections == [oldest] + rest;
    FiltersConcat([oldest], rest);
    var cut := Cut(f, target, date).sections;
    assert cut == [newest] + ([released] + rest);
    FiltersConcat([released], rest);
    FiltersConcat([newest], [released] + rest);
    LeadingUnreleased(cut);
  }

  lemma LeadingUnreleased(sections: seq<Section>)
    requires sections != [] && IsUnreleased(sections[0])
    ensures UnreleasedFirst(sections)
  {
  }

  lemma EmptyBodyIsOk(body: Lines)
    requires UnreleasedOk(body) && LinesFit(body)
    ensures UnreleasedOk(EmptyBody(Categories(body)))
  {
    hide Categories, EmptyBody, Markers, Stripped, Fresh, NONE, LineFits;
    var empty := EmptyBody(Categories(body));
    StrippedHasSameCategories(body);
    CategoriesAreWords(body);
    FreshBody(Categories(body));
    assert LinesFit(empty) by {
      forall i | 0 <= i < |empty|
        ensures LineFits(empty[i])
      {
        assert FreshOrMark(empty[i]);
        FreshFits(empty[i]);
      }
    }
    StrippedHasSameCategories(empty);
  }

  lemma FreshFits(line: string)
    requires FreshOrMark(line)
    ensures LineFits(line)
  {
    PlainLinesAreFresh();
  }

  lemma BodyFits(lines: Lines)
    requires LinesFit(lines) && Parse(lines).sections != []
    ensures LinesFit(Parse(lines).sections[0].body)
  {
    hide Parse, LineFits;
    ParseIsExact(lines);
    Pieces(lines, Parse(lines));
  }

  /** A changelog that can be cut is, after the cut, valid for every greater target with a valid
      date, if and only if it has no links to releases or the target is tagged. */
  lemma CutIsValid(lines: Lines, current: string, target: string, date: string, tagged: bool, tagged': bool)
    requires Cuttable(lines, current, tagged) && Newer(target, current) && IsoDate(date)
    ensures ValidFor(target, Cut(Parse(lines), target, date).sections, HasLink(lines), tagged') <==> (HasLink(lines) ==> tagged')
  {
    hide Parse, Descending, ReadVersion, IsoDate, Rendered, EmptyBody, Categories, Stripped, SectionOk, UnreleasedFirst, Unreleased, Releases, Cut, UNRELEASED, Has, HasLink, BodiesFit, LineFits, VersionHeading;
    var f := Parse(lines);
    var body := f.sections[0].body;
    BodyFits(lines);
    CutIsClassified(f, target, date);
    EmptyBodyIsOk(body);
    assert ReleaseOk(Release(target, date, body));
    OneNewer(Releases(f.sections), Release(target, date, body));
  }

  lemma HeadingsOfCut(target: string, date: string)
    requires ReadVersion(target).Some? && IsoDate(date)
    ensures IsHeading(UNRELEASED) && IsHeading(Rendered(target, date)) && '\r' !in Rendered(target, date)
  {
    hide ReadVersion, IsoDate, Rendered;
    RenderedIsRead(target, date);
    assert UNRELEASED[..3] == "## ";
  }

  lemma NoHeadingInEmptyBody(body: Lines)
    ensures forall i :: 0 <= i < |EmptyBody(Categories(body))| ==> !IsHeading(EmptyBody(Categories(body))[i])
  {
    hide EmptyBody, Categories, LineFits, NONE, IsHeading;
    CategoriesAreWords(body);
    FreshBody(Categories(body));
    PlainLinesAreFresh();
    assert forall i :: 0 <= i < |EmptyBody(Categories(body))| ==> FreshOrMark(EmptyBody(Categories(body))[i]);
  }

  lemma CutIsProper(f: File, target: string, date: string)
    requires ReadVersion(target).Some? && IsoDate(date)
    requires f.sections != [] && forall i :: 0 <= i < |f.sections| ==> Proper(f.sections[i])
    ensures var cut := Cut(f, target, date); forall i :: 0 <= i < |cut.sections| ==> Proper(cut.sections[i])
  {
    hide ReadVersion, IsoDate, Rendered, EmptyBody, Categories, NONE, UNRELEASED, IsHeading, LineFits;
    var cut, body := Cut(f, target, date), f.sections[0].body;
    NoHeadingInEmptyBody(body);
    assert IsHeading(UNRELEASED) && IsHeading(Rendered(target, date)) by {
      HeadingsOfCut(target, date);
    }
    forall i | 0 <= i < |cut.sections|
      ensures Proper(cut.sections[i])
    {
      if i >= 2 {
        assert cut.sections[i] == f.sections[i - 1];
      } else {
        assert Proper(f.sections[0]);
      }
    }
  }

  lemma HeadingFits(line: string)
    requires IsHeading(line) && '\r' !in line
    ensures LineFits(line)
  {
    assert line[0] == "## "[0];
    assert SkipSpace(line, 0) == 0;
  }

  /** What the cut puts between the Unreleased heading and its old body. */
  function Added(body: Lines, target: string, date: string): Lines {
    EmptyBody(Categories(body)) + [Rendered(target, date)]
  }

  lemma AddedFits(body: Lines, target: string, date: string)
    requires ReadVersion(target).Some? && IsoDate(date)
    ensures LinesFit(Added(body, target, date))
    ensures forall i :: 0 <= i < |Added(body, target, date)| ==> Added(body, target, date)[i] == "" || Added(body, target, date)[i][0] != '['
  {
    hide ReadVersion, IsoDate, Rendered, EmptyBody, Categories, LineFits;
    CategoriesAreWords(body);
    FreshBody(Categories(body));
    PlainLinesAreFresh();
    RenderedIsRead(target, date);
    HeadingFits(Rendered(target, date));
    var newest, added := EmptyBody(Categories(body)), Added(body, target, date);
    assert Rendered(target, date)[0] == "## "[0];
    forall i | 0 <= i < |added|
      ensures LineFits(added[i]) && (added[i] == "" || added[i][0] != '[')
    {
      if i < |newest| {
        assert FreshOrMark(newest[i]);
      }
    }
  }

  /** The cut inserts lines after the Unreleased heading. */
  lemma CutInserts(lines: Lines, target: string, date: string)
    requires HeadingsFit(Parse(lines).sections)
    ensures var f := Parse(lines); var start := |f.preamble| + 1;
      && start <= |lines| && lines[..start] == f.preamble + [UNRELEASED]
      && CutText(lines, target, date) == lines[..start] + Added(f.sections[0].body, target, date) + lines[start..]
  {
    hide Parse, EmptyBody, Categories, Rendered, TextOf;
    var f := Parse(lines);
    var start := |f.preamble| + 1;
    ParseIsExact(lines);
    Pieces(lines, f);
    TextOfCut(f, target, date);
    var body, rest := f.sections[0].body, TextOf(f.sections[1..]);
    CutTwice(lines, start, |body|);
    Regroup(f.preamble + [UNRELEASED], EmptyBody(Categories(body)), [Rendered(target, date)], body, rest);
  }

  lemma CutTwice(lines: Lines, start: nat, n: nat)
    requires start + n <= |lines|
    ensures lines[start..] == lines[start..start + n] + lines[start + n..]
  {
  }

  lemma Regroup(x: Lines, y: Lines, z: Lines, u: Lines, v: Lines)
    ensures x + y + z + u + v == x + (y + z) + (u + v)
  {
  }

  // ---- Links ----

  lemma FirstChar(lines: Lines)
    requires lines != [] && (lines[0] == "" || lines[0][0] != '[')
    ensures !IsLink(Terminated(lines, "\n"))
  {
    var s := Terminated(lines, "\n");
    assert s[0] == if lines[0] == "" then '\n' else lines[0][0];
  }

  lemma BeforeTheMark(before: Lines, x: Lines)
    ensures IsLink(Terminated(before + [UNRELEASED] + x, "\n")) <==> IsLink(Terminated(before, "\n") + MARK)
  {
    hide IsLink, UNRELEASED, Terminated;
    TerminatedConcat(before + [UNRELEASED], x, "\n");
    TerminatedConcat(before, [UNRELEASED], "\n");
    MarkLine();
    LinkBeforeHeading(Terminated(before, "\n"), Terminated(x, "\n"));
  }

  lemma MarkLine()
    ensures Terminated([UNRELEASED], "\n") == MARK
  {
    assert [UNRELEASED][1..] == [];
  }

  /** Lines inserted after the Unreleased heading, none opening with a bracket, bring no link and
      take none away. */
  lemma InsertedKeepsLinks(lines: Lines, start: nat, added: Lines)
    requires 0 < start <= |lines| && lines[start - 1] == UNRELEASED
    requires forall i :: 0 <= i < |added| ==> added[i] == "" || added[i][0] != '['
    ensures HasLink(lines[..start] + added + lines[start..]) <==> HasLink(lines)
  {
    hide IsLink, Terminated, UNRELEASED;
    var longer := lines[..start] + added + lines[start..];
    forall i | 0 <= i < |longer|
      ensures i < start ==> IsLink(Terminated(longer[i..], "\n")) == IsLink(Terminated(lines[i..], "\n"))
      ensures start <= i < start + |added| ==> !IsLink(Terminated(longer[i..], "\n"))
      ensures start + |added| <= i ==> longer[i..] == lines[i - |added|..]
    {
      if i < start {
        var before := lines[i..start - 1];
        assert longer[i..] == before + [UNRELEASED] + (added + lines[start..]);
        assert lines[i..] == before + [UNRELEASED] + lines[start..];
        BeforeTheMark(before, added + lines[start..]);
        BeforeTheMark(before, lines[start..]);
      } else if i < start + |added| {
        assert longer[i..][0] == added[i - start];
        FirstChar(longer[i..]);
      }
    }
    if HasLink(longer) {
      var i :| 0 <= i < |longer| && IsLink(Terminated(longer[i..], "\n"));
      var k := if i < start then i else i - |added|;
      assert IsLink(Terminated(lines[k..], "\n"));
    }
    if HasLink(lines) {
      var k :| 0 <= k < |lines| && IsLink(Terminated(lines[k..], "\n"));
      var i := if k < start then k else k + |added|;
      assert IsLink(Terminated(longer[i..], "\n"));
    }
  }

  /** The cut file reads as the cut sections: the old Unreleased body and every older section are
      kept line for line. It passes every check for the target, unless it has links to releases and
      the target is not tagged; and a cut for the same target and date then leaves it unchanged. */
  lemma CutIsStable(lines: Lines, current: string, target: string, date: string, tagged: bool, tagged': bool)
    requires Cuttable(lines, current, tagged) && Newer(target, current) && IsoDate(date)
    ensures var f := Parse(lines); var cut := Cut(f, target, date); var lines' := CutText(lines, target, date);
      && Parse(lines') == cut
      && cut.preamble == f.preamble && cut.sections[1].body == f.sections[0].body && cut.sections[2..] == f.sections[1..]
      && (Cuttable(lines', target, tagged') <==> (HasLink(lines) ==> tagged'))
      && Repeated(lines', date)
  {
    hide Parse, LineFits, Canonical, VersionHeading, IsoDate, ReadVersion, Rendered, EmptyBody, Categories, HasLink, ValidFor, UNRELEASED, Releases, Unreleased;
    var f := Parse(lines);
    var cut, lines' := Cut(f, target, date), CutText(lines, target, date);
    var start, added := |f.preamble| + 1, Added(f.sections[0].body, target, date);
    ParseIsExact(lines);
    CutIsProper(f, target, date);
    ParseReadsBack(cut);
    CutInserts(lines, target, date);
    AddedFits(f.sections[0].body, target, date);
    assert lines[start - 1] == lines[..start][start - 1];
    InsertedKeepsLinks(lines, start, added);
    CutIsValid(lines, current, target, date, tagged, tagged');
    CutIsClassified(f, target, date);
    CategoriesAreWords(f.sections[0].body);
    FreshBody(Categories(f.sections[0].body));
    assert HeadingsFit(cut.sections) && BodiesFit(cut.sections) by {
      CutSectionsFit(f, target, date);
    }
    assert LinesFit(lines') by {
      assert forall i :: 0 <= i < |lines'| ==> lines'[i] in lines || lines'[i] in added;
    }
  }

  lemma CutSectionsFit(f: File, target: string, date: string)
    requires HeadingsFit(f.sections) && BodiesFit(f.sections) && ReadVersion(target).Some? && IsoDate(date)
    ensures HeadingsFit(Cut(f, target, date).sections) && BodiesFit(Cut(f, target, date).sections)
  {
    hide VersionHeading, ReadVersion, IsoDate, Rendered, EmptyBody, Categories, UNRELEASED, IsCategoryLine, Markers, LineFits;
    var cut, body := Cut(f, target, date).sections, f.sections[0].body;
    RenderedIsRead(target, date);
    CategoriesAreWords(body);
    FreshBody(Categories(body));
    PlainLinesAreFresh();
    assert Canonical(EmptyBody(Categories(body))) by {
      assert Canonical(body);
    }
    forall i | 0 <= i < |cut|
      ensures Canonical(cut[i].body) && (i > 0 ==> VersionHeading(cut[i].heading).Some?)
    {
      if i >= 2 {
        assert cut[i] == f.sections[i - 1];
      }
    }
  }
}
