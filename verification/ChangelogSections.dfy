/** What the tools ask of the body of one changelog section, said of its text. */
module ChangelogSections {
  import opened Wrappers
  import opened TextSearch
  import opened ChangelogText
  import opened ChangelogGrammar
  import Changelog

  /** Line `i` is the heading of a category. */
  ghost predicate CategoryIn(body: Lines, i: nat, word: string) {
    i < |body| && CategoryText(Terminated(body[i..], "\n"), word)
  }

  ghost predicate HasCategory(body: Lines, word: string) {
    exists i :: CategoryIn(body, i, word)
  }

  /** The words that a category can have, and those that must be there. */
  const KNOWN := {"Added", "Changed", "Fixed", "Removed", "Deprecated", "Security"}
  const NEEDED := {"Added", "Changed", "Fixed", "Removed"}

  lemma FirstLine(body: Lines, word: string)
    requires body != []
    ensures CategoryIn(body, 0, word) <==> Changelog.CategoriesOf(Terminated(body, "\n")) == [word]
    ensures forall i: nat :: CategoryIn(body, i + 1, word) <==> CategoryIn(body[1..], i, word)
  {
    hide CategoryText, CategoryAt;
    assert body[0..] == body;
    CategoriesExactly(Terminated(body, "\n"), word);
    forall i: nat
      ensures CategoryIn(body, i + 1, word) <==> CategoryIn(body[1..], i, word)
    {
      assert i < |body| - 1 ==> body[1..][i..] == body[i + 1..];
    }
  }

  /** A word is listed exactly if some line is its heading. */
  lemma {:induction false} ListedExactly(body: Lines, word: string)
    ensures word in Changelog.Categories(body) <==> HasCategory(body, word)
  {
    if body != [] {
      hide CategoryIn;
      FirstLine(body, word);
      ListedExactly(body[1..], word);
      AtMostOne(Terminated(body, "\n"));
      if i: nat :| CategoryIn(body, i, word) {
        assert i > 0 ==> CategoryIn(body[1..], i - 1, word);
      }
      if i: nat :| CategoryIn(body[1..], i, word) {
        assert CategoryIn(body, i + 1, word);
      }
    }
  }

  lemma AtMostOne(t: string)
    ensures |Changelog.CategoriesOf(t)| <= 1
  {
  }

  /** No two lines are headings of one category. */
  ghost predicate NoneTwice(body: Lines) {
    forall i: nat, j: nat, word :: CategoryIn(body, i, word) && CategoryIn(body, j, word) ==> i == j
  }

  lemma DistinctOneMore(x: string, xs: seq<string>)
    ensures Changelog.Distinct([x] + xs) <==> x !in xs && Changelog.Distinct(xs)
  {
    var all := [x] + xs;
    if Changelog.Distinct(all) {
      forall k | 0 <= k < |xs|
        ensures xs[k] != x
      {
        assert all[0] != all[k + 1];
      }
      forall i, j | 0 <= i < j < |xs|
        ensures xs[i] != xs[j]
      {
        assert all[i + 1] != all[j + 1];
      }
    }
    if x !in xs && Changelog.Distinct(xs) {
      assert forall k :: 0 < k < |all| ==> all[k] == xs[k - 1];
    }
  }

  /** The lines after the first one are those of the rest. */
  ghost predicate Shifts(body: Lines, rest: Lines) {
    && (forall i: nat, word :: CategoryIn(rest, i, word) ==> CategoryIn(body, i + 1, word))
    && (forall i: nat, word :: CategoryIn(body, i, word) && i > 0 ==> CategoryIn(rest, i - 1, word))
  }

  lemma RestShifts(body: Lines)
    requires body != []
    ensures Shifts(body, body[1..])
  {
    hide CategoryIn;
    forall i: nat, word | CategoryIn(body[1..], i, word)
      ensures CategoryIn(body, i + 1, word)
    {
      FirstLine(body, word);
    }
    forall i: nat, word | CategoryIn(body, i, word) && i > 0
      ensures CategoryIn(body[1..], i - 1, word)
    {
      FirstLine(body, word);
      assert i == (i - 1) + 1;
    }
  }

  lemma {:induction false} DistinctExactly(body: Lines)
    ensures Changelog.Distinct(Changelog.Categories(body)) <==> NoneTwice(body)
  {
    hide CategoryIn, Changelog.Distinct, Changelog.CategoriesOf, NoneTwice, HasCategory;
    if body != [] {
      var rest, here := body[1..], Changelog.CategoriesOf(Terminated(body, "\n"));
      DistinctExactly(rest);
      AtMostOne(Terminated(body, "\n"));
      RestShifts(body);
      if here == [] {
        assert Changelog.Categories(body) == Changelog.Categories(rest);
        NoFirst(body, rest);
      } else {
        assert here == [here[0]];
        assert Changelog.Categories(body) == [here[0]] + Changelog.Categories(rest);
        DistinctOneMore(here[0], Changelog.Categories(rest));
        ListedExactly(rest, here[0]);
        OneFirst(body, rest, here[0]);
      }
    } else {
      Nothing();
    }
  }

  lemma Nothing()
    ensures Changelog.Distinct(Changelog.Categories([])) && NoneTwice([])
  {
  }

  lemma NoFirst(body: Lines, rest: Lines)
    requires body != [] && rest == body[1..] && Changelog.CategoriesOf(Terminated(body, "\n")) == [] && Shifts(body, rest)
    ensures NoneTwice(body) <==> NoneTwice(rest)
  {
    hide CategoryIn, Changelog.CategoriesOf;
    forall i: nat, word | CategoryIn(body, i, word)
      ensures i > 0
    {
      FirstLine(body, word);
    }
    if NoneTwice(rest) {
      forall i: nat, j: nat, word | CategoryIn(body, i, word) && CategoryIn(body, j, word)
        ensures i == j
      {
        assert CategoryIn(rest, i - 1, word) && CategoryIn(rest, j - 1, word);
      }
    }
  }

  lemma OneFirst(body: Lines, rest: Lines, first: string)
    requires body != [] && rest == body[1..] && Changelog.CategoriesOf(Terminated(body, "\n")) == [first] && Shifts(body, rest)
    ensures NoneTwice(body) <==> NoneTwice(rest) && !HasCategory(rest, first)
  {
    hide CategoryIn, Changelog.CategoriesOf;
    forall word
      ensures CategoryIn(body, 0, word) <==> word == first
    {
      FirstLine(body, word);
    }
    if NoneTwice(body) {
      assert CategoryIn(body, 0, first);
      assert forall i: nat :: !CategoryIn(rest, i, first);
    }
    if NoneTwice(rest) && !HasCategory(rest, first) {
      forall i: nat, j: nat, word | CategoryIn(body, i, word) && CategoryIn(body, j, word)
        ensures i == j
      {
        assert i > 0 ==> CategoryIn(rest, i - 1, word);
        assert j > 0 ==> CategoryIn(rest, j - 1, word);
      }
    }
  }

  // ---- Markers ----

  /** A marker begins at `i`. */
  ghost predicate MarkedAt(t: string, i: nat, present: bool) {
    exists end :: i < end <= |t| && MarkerText(t[i..end], present)
  }

  ghost predicate FirstMarker(t: string, i: nat, present: bool) {
    MarkedAt(t, i, present) && forall k: nat, other :: MarkedAt(t, k, other) ==> i <= k
  }

  ghost predicate OnlyMarker(t: string, i: nat) {
    (exists present :: MarkedAt(t, i, present)) && forall k: nat, present :: MarkedAt(t, k, present) ==> k == i
  }

  lemma MarkedExactly(t: string, i: nat, present: bool)
    ensures MarkedAt(t, i, present) <==> MarkerAt(t, i).Some? && MarkerAt(t, i).value.1 == present
  {
    hide MarkerAt, MarkerText;
    forall end: nat
      ensures MarkerAt(t, i) == Some((end, present)) <==> i < end <= |t| && MarkerText(t[i..end], present)
    {
      MarkersExactly(t, i, end, present);
    }
    if MarkedAt(t, i, present) {
      var end :| i < end <= |t| && MarkerText(t[i..end], present);
      assert MarkerAt(t, i) == Some((end, present));
    }
    if MarkerAt(t, i).Some? && MarkerAt(t, i).value.1 == present {
      assert MarkerAt(t, i) == Some((MarkerAt(t, i).value.0, present));
    }
  }

  predicate NoneFrom(t: string, i: nat) {
    forall k :: i <= k < |t| ==> MarkerAt(t, k).None?
  }

  /** The first marker from `i` on is at `k`. */
  predicate FirstFrom(t: string, i: nat, k: nat) {
    i <= k < |t| && MarkerAt(t, k).Some? && forall l :: i <= l < k ==> MarkerAt(t, l).None?
  }

  lemma {:induction false} FirstOfAll(t: string, i: nat)
    requires i <= |t|
    ensures AllMarkers(t, i) == [] <==> NoneFrom(t, i)
    ensures AllMarkers(t, i) != [] ==> exists k: nat :: FirstFrom(t, i, k) && MarkerAt(t, k).value.1 == AllMarkers(t, i)[0]
    decreases |t| - i
  {
    hide MarkerAt;
    if i < |t| {
      FirstOfAll(t, i + 1);
      if MarkerAt(t, i).Some? {
        assert FirstFrom(t, i, i);
      } else if k: nat :| FirstFrom(t, i + 1, k) && MarkerAt(t, k).value.1 == AllMarkers(t, i + 1)[0] {
        assert FirstFrom(t, i, k);
      }
    }
  }

  /** The only marker from `i` on is at `k`. */
  predicate OnlyFrom(t: string, i: nat, k: nat) {
    FirstFrom(t, i, k) && NoneFrom(t, k + 1)
  }

  lemma {:induction false} OneOfAll(t: string, i: nat)
    requires i <= |t|
    ensures |AllMarkers(t, i)| == 1 <==> exists k: nat :: OnlyFrom(t, i, k)
    decreases |t| - i
  {
    hide MarkerAt, NoneFrom;
    if i < |t| {
      OneOfAll(t, i + 1);
      FirstOfAll(t, i + 1);
      if MarkerAt(t, i).Some? {
        if NoneFrom(t, i + 1) {
          assert OnlyFrom(t, i, i);
        }
        if k: nat :| OnlyFrom(t, i, k) {
          assert k == i;
        }
      } else {
        var next := i + 1;
        if k: nat :| OnlyFrom(t, i, k) {
          assert OnlyFrom(t, next, k);
        }
        if k: nat :| OnlyFrom(t, next, k) {
          assert OnlyFrom(t, i, k);
        }
      }
    }
  }

  lemma FirstExactly(t: string, present: bool)
    ensures MarkersFrom(t, 0) != [] && MarkersFrom(t, 0)[0] == present <==> exists i: nat :: FirstMarker(t, i, present)
  {
    hide MarkerAt, MarkedAt;
    forall i: nat, p: bool
      ensures MarkedAt(t, i, p) <==> MarkerAt(t, i).Some? && MarkerAt(t, i).value.1 == p
    {
      MarkedExactly(t, i, p);
    }
    AllAreFound(t, 0);
    FirstOfAll(t, 0);
    if i: nat :| FirstFrom(t, 0, i) && MarkerAt(t, i).value.1 == AllMarkers(t, 0)[0] {
      assert FirstMarker(t, i, AllMarkers(t, 0)[0]);
      if j: nat :| FirstMarker(t, j, present) {
        assert MarkedAt(t, i, AllMarkers(t, 0)[0]) && MarkedAt(t, j, present);
        assert i == j;
      }
    }
    if j: nat :| FirstMarker(t, j, present) {
      assert MarkedAt(t, j, present);
    }
  }

  lemma OnlyExactly(t: string)
    ensures |MarkersFrom(t, 0)| == 1 <==> exists i: nat :: OnlyMarker(t, i)
  {
    hide MarkerAt, MarkedAt;
    forall i: nat, p: bool
      ensures MarkedAt(t, i, p) <==> MarkerAt(t, i).Some? && MarkerAt(t, i).value.1 == p
    {
      MarkedExactly(t, i, p);
    }
    AllAreFound(t, 0);
    OneOfAll(t, 0);
    if i: nat :| OnlyFrom(t, 0, i) {
      assert MarkedAt(t, i, MarkerAt(t, i).value.1);
      assert OnlyMarker(t, i);
    }
    if i: nat :| OnlyMarker(t, i) {
      assert OnlyFrom(t, 0, i) by {
        forall k | 0 <= k < |t| && MarkerAt(t, k).Some?
          ensures k == i
        {
          assert MarkedAt(t, k, MarkerAt(t, k).value.1);
        }
      }
    }
  }

  // ---- Headings and bodies ----

  ghost predicate UnreleasedText(line: string) {
    exists gap, rest :: line == "##" + gap + "[Unreleased]" + rest && gap != "" && Spaces(gap)
  }

  /** A section is the Unreleased one exactly by its heading. */
  lemma UnreleasedHeadings(s: Changelog.Section)
    ensures Changelog.IsUnreleased(s) <==> UnreleasedText(s.heading)
  {
    hide SkipSpace;
    var line := s.heading;
    if Changelog.IsUnreleased(s) {
      var a := SkipSpace(line, 2);
      SliceIsSpaces(line, 2);
      InTwo(line, a, "[Unreleased]");
    }
    if gap, rest :| line == "##" + gap + "[Unreleased]" + rest && gap != "" && Spaces(gap) {
      GapIsSkipped(gap, "[Unreleased]", rest);
    }
  }

  lemma InTwo(line: string, a: nat, m: string)
    requires StartsWith(line, "##") && 2 <= a && At(line, a, m)
    ensures line == "##" + line[2..a] + m + line[a + |m|..]
  {
    assert line[..2] == "##";
    assert line[a..] == m + line[a + |m|..];
    assert line[2..] == line[2..a] + line[a..];
  }

  lemma GapIsSkipped(gap: string, m: string, rest: string)
    requires Spaces(gap) && m != "" && !IsSpace(m[0])
    ensures var line := "##" + gap + m + rest;
      StartsWith(line, "##") && SkipSpace(line, 2) == 2 + |gap| && At(line, 2 + |gap|, m)
  {
    hide SkipSpace, Spaces, IsSpace;
    var line := "##" + gap + m + rest;
    assert line == "##" + gap + (m + rest) && (m + rest)[0] == m[0];
    SkipsSpaces("##", gap, m + rest, 2);
    assert line[..2] == "##";
  }

  /** Stripping a body takes off the spaces before its text, and nothing else. */
  lemma {:induction false} BeginIsStripped(body: Lines)
    ensures exists gap :: Spaces(gap) && Terminated(body, "\n") == gap + Terminated(Changelog.Stripped(body), "\n")
    ensures Changelog.Stripped(body) != [] ==> Changelog.Stripped(body)[0] != "" && !IsSpace(Changelog.Stripped(body)[0][0])
  {
    if body == [] {
      assert Spaces("") && Terminated(body, "\n") == "" + Terminated(Changelog.Stripped(body), "\n");
    } else {
      var i := SkipSpace(body[0], 0);
      SliceIsSpaces(body[0], 0);
      if i == |body[0]| {
        BeginIsStripped(body[1..]);
        var gap :| Spaces(gap) && Terminated(body[1..], "\n") == gap + Terminated(Changelog.Stripped(body[1..]), "\n");
        assert body[0][0..i] == body[0];
        SpacesBefore(body[0], gap);
        assert Terminated(body, "\n") == (body[0] + "\n" + gap) + Terminated(Changelog.Stripped(body), "\n");
      } else {
        StrippedLine(body, i);
      }
    }
  }

  lemma SpacesBefore(line: string, gap: string)
    requires Spaces(line) && Spaces(gap)
    ensures Spaces(line + "\n" + gap)
  {
  }

  lemma StrippedLine(body: Lines, i: nat)
    requires body != [] && i <= |body[0]|
    ensures Terminated(body, "\n") == body[0][0..i] + Terminated([body[0][i..]] + body[1..], "\n")
  {
    var rest := [body[0][i..]] + body[1..];
    assert rest[0] == body[0][i..] && rest[1..] == body[1..];
    assert body[0] == body[0][0..i] + body[0][i..];
  }

  // ---- One section ----

  ghost predicate OnlyKnown(body: Lines) {
    forall word :: HasCategory(body, word) ==> word in KNOWN
  }

  /** Known categories only; a marker; and where the first one says so, a line with a breaking entry. */
  ghost predicate SaysAllOfIt(body: Lines) {
    && OnlyKnown(Changelog.Stripped(body))
    && exists i: nat, present ::
         && FirstMarker(Terminated(body, "\n"), i, present)
         && (present ==> exists k :: 0 <= k < |body| && Contains(body[k], "**BREAKING:**"))
  }

  lemma KnownExactly(body: Lines)
    ensures Changelog.Within(Changelog.Categories(body), Changelog.ALLOWED) <==> OnlyKnown(body)
  {
    hide Changelog.Categories, HasCategory;
    var words := Changelog.Categories(body);
    forall word
      ensures word in words <==> HasCategory(body, word)
    {
      ListedExactly(body, word);
    }
    assert Changelog.ALLOWED == KNOWN;
    if Changelog.Within(words, KNOWN) {
      assert forall word :: word in words ==> word in KNOWN;
    }
    if forall word :: HasCategory(body, word) ==> word in KNOWN {
      forall i | 0 <= i < |words|
        ensures words[i] in KNOWN
      {
        assert words[i] in words && HasCategory(body, words[i]);
      }
    }
  }

  /** The check of a section asks exactly that. */
  lemma SectionExactly(body: Lines)
    ensures Changelog.SectionOk(body) <==> SaysAllOfIt(body)
  {
    hide Changelog.Within, Changelog.Categories, HasCategory, Changelog.Stripped, HasBreakingEntry, FirstMarker, MarkersFrom;
    KnownExactly(Changelog.Stripped(body));
    EntriesExactly(body);
    var t := Terminated(body, "\n");
    FirstExactly(t, true);
    FirstExactly(t, false);
  }

  /** The Unreleased section has, besides, every category that must be there. */
  lemma UnreleasedExactly(body: Lines)
    ensures Changelog.UnreleasedOk(body) <==> SaysAllOfIt(body) && forall word :: word in NEEDED ==> HasCategory(Changelog.Stripped(body), word)
  {
    hide Changelog.SectionOk, SaysAllOfIt, Changelog.Categories, HasCategory, Changelog.Stripped;
    SectionExactly(body);
    forall word
      ensures word in Changelog.Categories(Changelog.Stripped(body)) <==> HasCategory(Changelog.Stripped(body), word)
    {
      ListedExactly(Changelog.Stripped(body), word);
    }
  }

  /** Three hash signs, a space, and a word. */
  ghost predicate WrittenOut(line: string) {
    exists word :: IsWord(word) && line == "### " + word
  }

  /** What looks like the heading of a category is written out as one. */
  ghost predicate HeadingsWrittenOut(body: Lines) {
    forall i :: 0 <= i < |body| && StartsWith(body[i], "###") ==> WrittenOut(body[i])
  }

  lemma HeadingsExactly(body: Lines)
    ensures HeadingsWrittenOut(body) <==> forall i :: 0 <= i < |body| ==> StartsWith(body[i], "###") ==> Changelog.IsCategoryLine(body[i])
  {
    hide WrittenOut, Changelog.IsCategoryLine;
    forall line: string
      ensures Changelog.IsCategoryLine(line) <==> WrittenOut(line)
    {
      LineExactly(line);
    }
  }

  ghost predicate MarkedOnce(body: Lines) {
    exists i: nat :: OnlyMarker(Terminated(body, "\n"), i)
  }

  /** What a cut asks of a section: category lines as they are written out, known ones, none twice,
      and one marker. */
  lemma CutSectionExactly(body: Lines)
    ensures Changelog.Canonical(body) <==> HeadingsWrittenOut(body) && OnlyKnown(body) && NoneTwice(body) && MarkedOnce(body)
  {
    hide Changelog.Within, Changelog.Distinct, Changelog.Categories, HasCategory, NoneTwice, OnlyMarker, MarkersFrom, Changelog.IsCategoryLine, HeadingsWrittenOut;
    HeadingsExactly(body);
    KnownExactly(body);
    DistinctExactly(body);
    OnlyExactly(Terminated(body, "\n"));
  }

  lemma LineExactly(line: string)
    ensures Changelog.IsCategoryLine(line) <==> WrittenOut(line)
  {
    if Changelog.IsCategoryLine(line) {
      assert line[..4] == "### ";
      assert IsWord(line[4..]) && line == "### " + line[4..];
    }
    if word :| IsWord(word) && line == "### " + word {
      assert line[..4] == "### ";
      assert forall k :: 4 <= k < |line| ==> line[k] == word[k - 4];
    }
  }
}
