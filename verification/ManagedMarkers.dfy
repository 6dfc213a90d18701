/** Which texts the parser of src/managed-block.ts accepts, and what it finds in them, said of the
    texts alone: markers of other versions, and the places of the two own ones. */
module ManagedMarkers {
  import opened Wrappers
  import opened TextSearch
  import opened ManagedBlock

  /** A comment on one line that begins or ends a managed block, and not of the current version. */
  ghost predicate IsForeign(before: string, opening: string, name: string, rest: string) {
    && (opening == "<!-- BEGIN " + STEM || opening == "<!-- END " + STEM)
    && OneLine(name) && !StartsWith(name + "-->" + rest, "V1 -->")
  }

  ghost predicate HoldsForeign(s: string) {
    exists before, opening, name, rest :: IsForeign(before, opening, name, rest) && s == before + opening + name + "-->" + rest
  }

  /** `m` occurs at `k` and nowhere else. */
  ghost predicate OnlyAt(s: string, m: string, k: nat) {
    At(s, k, m) && forall i: nat :: At(s, i, m) ==> i == k
  }

  ghost predicate Nowhere(s: string, m: string) {
    forall i: nat :: !At(s, i, m)
  }

  lemma SplitAt(s: string, i: nat, m: string)
    ensures At(s, i, m) <==> i <= |s| && StartsWith(s[i..], m)
    ensures At(s, i, m) ==> s[i..] == m + s[i + |m|..]
  {
    if At(s, i, m) {
      assert s[i..][..|m|] == m;
    }
    if i <= |s| && StartsWith(s[i..], m) {
      assert s[i..i + |m|] == s[i..][..|m|];
    }
  }

  lemma SplitInTwo(s: string, i: nat, j: nat)
    requires i <= j <= |s|
    ensures s[i..] == s[i..j] + s[j..] && s == s[..i] + s[i..]
  {
  }

  lemma SplitInFour(before: string, opening: string, name: string, close: string, rest: string)
    ensures var s := before + opening + name + close + rest;
      && s == before + (opening + (name + (close + rest)))
      && s[|before|..] == opening + (name + (close + rest))
      && s[|before + opening|..] == name + (close + rest)
      && s[|before + opening| + |name|..] == close + rest
      && s[|before + opening|..|before + opening| + |name|] == name
      && name + close + rest == name + (close + rest)
  {
  }

  lemma Pieces(s: string, i: nat, opening: string, j: nat, close: string)
    requires At(s, i, opening) && i + |opening| <= j && At(s, j, close)
    ensures j + |close| <= |s|
    ensures s == s[..i] + opening + s[i + |opening|..j] + close + s[j + |close|..]
    ensures s[i + |opening|..j] + close + s[j + |close|..] == s[i + |opening|..]
  {
    hide At, StartsWith;
    AtFits(s, j, close);
    SplitAt(s, i, opening);
    SplitAt(s, j, close);
    SplitInTwo(s, i, j);
    SplitInTwo(s, i + |opening|, j);
    var name, rest := s[i + |opening|..j], s[j + |close|..];
    SplitInFour(s[..i], opening, name, close, rest);
    assert s[i + |opening|..] == name + (close + rest);
  }

  lemma FoundIsForeign(s: string, i: nat, opening: string)
    requires opening == FOREIGN_BEGIN || opening == FOREIGN_END
    requires ForeignFrom(s, i, opening)
    ensures HoldsForeign(s)
  {
    hide STEM, At, OneLine, StartsWith, FOREIGN_BEGIN, FOREIGN_END, CURRENT_VERSION, CLOSE, IsForeign;
    var from := i + |opening|;
    var j :| from <= j <= |s| && At(s, j, CLOSE) && OneLine(s[from..j]);
    Pieces(s, i, opening, j, CLOSE);
    IsForeignHere(s[..i], opening, s[from..j], s[j + |CLOSE|..], s, from);
  }

  lemma IsForeignHere(before: string, opening: string, name: string, rest: string, s: string, from: nat)
    requires opening == FOREIGN_BEGIN || opening == FOREIGN_END
    requires OneLine(name) && from <= |s| && name + CLOSE + rest == s[from..] && !At(s, from, CURRENT_VERSION)
    ensures IsForeign(before, opening, name, rest) && CLOSE == "-->"
  {
    hide STEM, At, OneLine;
    SplitAt(s, from, CURRENT_VERSION);
  }

  lemma ForeignIsFound(before: string, opening: string, name: string, rest: string)
    requires IsForeign(before, opening, name, rest)
    ensures ForeignAt(before + opening + name + CLOSE + rest, |before|)
  {
    hide STEM, At, OneLine;
    var s, from := before + opening + name + CLOSE + rest, |before + opening|;
    SplitInFour(before, opening, name, CLOSE, rest);
    SplitAt(s, |before|, opening);
    SplitAt(s, from, CURRENT_VERSION);
    SplitAt(s, from + |name|, CLOSE);
    PrefixOfConcat(opening, name + (CLOSE + rest));
    PrefixOfConcat(CLOSE, rest);
    assert ForeignFrom(s, |before|, opening);
  }

  lemma PrefixOfConcat(x: string, y: string)
    ensures StartsWith(x + y, x)
  {
  }

  lemma ForeignExactly(s: string)
    ensures HasForeign(s) <==> HoldsForeign(s)
  {
    hide ForeignFrom, IsForeign;
    if HasForeign(s) {
      var i :| 0 <= i <= |s| && ForeignAt(s, i);
      if ForeignFrom(s, i, FOREIGN_BEGIN) {
        FoundIsForeign(s, i, FOREIGN_BEGIN);
      } else {
        FoundIsForeign(s, i, FOREIGN_END);
      }
    }
    if HoldsForeign(s) {
      var before, opening, name, rest :| IsForeign(before, opening, name, rest) && s == before + opening + name + "-->" + rest;
      ForeignIsFound(before, opening, name, rest);
    }
  }

  /** A marker does not overlap itself, so that the search finds it once exactly if it occurs once. */
  lemma OnceExactly(s: string, m: string)
    requires OpensOnce(m)
    ensures |Occurrences(s, m, 0)| == 1 ==> OnlyAt(s, m, Occurrences(s, m, 0)[0])
    ensures forall k: nat :: OnlyAt(s, m, k) ==> Occurrences(s, m, 0) == [k]
  {
    hide At;
    if |Occurrences(s, m, 0)| == 1 {
      var k := IndexOf(s, m, 0).value;
      AtFits(s, k, m);
      assert Occurrences(s, m, 0) == [k] + Occurrences(s, m, k + |m|);
      assert IndexOf(s, m, k + |m|).None?;
      forall i: nat | At(s, i, m)
        ensures i == k
      {
        AtFits(s, i, m);
        NoOverlap(s, m, k, i);
      }
    }
    forall k: nat | OnlyAt(s, m, k)
      ensures Occurrences(s, m, 0) == [k]
    {
      OneOccurrence(s, m, k);
    }
  }

  lemma AtFits(s: string, i: nat, m: string)
    ensures At(s, i, m) ==> i + |m| <= |s|
  {
  }

  lemma NoOverlap(s: string, m: string, k: nat, i: nat)
    requires OpensOnce(m) && At(s, k, m) && At(s, i, m)
    ensures i <= k || k + |m| <= i
  {
    AtChars(s, k, m);
    AtChars(s, i, m);
    assert s[i + 0] == '<';
    assert forall j :: 0 < j < |m| ==> s[k + j] == m[j] && m[j] != '<';
    assert i > k ==> i == k + (i - k);
  }

  /** Without a marker of another version, and with no own marker or one pair in order, a text is
      accepted, and no other; what is found are the places of the pair, and the line end. */
  lemma ParsedExactly(s: string)
    ensures Parse(s).Success? <==>
      && !HoldsForeign(s)
      && (|| (Nowhere(s, BEGIN) && Nowhere(s, END))
          || exists b: nat, e: nat :: OnlyAt(s, BEGIN, b) && OnlyAt(s, END, e) && b <= e)
    ensures Parse(s).Success? ==> Parse(s).value.eol == if Contains(s, "\r\n") then "\r\n" else "\n"
    ensures Parse(s).Success? && Nowhere(s, BEGIN) ==> Parse(s).value.span.None?
    ensures forall b: nat, e: nat :: Parse(s).Success? && OnlyAt(s, BEGIN, b) && OnlyAt(s, END, e) ==> Parse(s).value.span == Some((b, e + |END|))
  {
    MarkerFacts();
    ForeignExactly(s);
    hide HasForeign, HoldsForeign, Contains, At, BEGIN, END, OneLine;
    OnceExactly(s, BEGIN);
    OnceExactly(s, END);
    NoOccurrence(s, BEGIN);
    NoOccurrence(s, END);
  }
}
