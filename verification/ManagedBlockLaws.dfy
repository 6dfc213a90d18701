/** Installing undoes, replaces and verifies exactly; and the one kind of text where it does not. */
module ManagedBlockLaws {
  import opened Wrappers
  import opened TextSearch
  import opened ManagedBlock

  /** The text ends in a carriage return and has no CRLF line end: the added line feed makes one. */
  predicate LoneCr(t: string) {
    EndsWith(t, "\r") && !Contains(t, "\r\n")
  }

  function EolOf(t: string): string {
    if Contains(t, "\r\n") then "\r\n" else "\n"
  }

  predicate NeedsPrefix(t: string) {
    t != "" && !EndsWith(t, "\n")
  }

  function Before(t: string): string {
    t + if NeedsPrefix(t) then EolOf(t) else ""
  }

  /** What a first installation makes of `t`. */
  function Managed(w: Wording, t: string, b: Binding): string {
    Before(t) + Projection(w, b, EolOf(t), NeedsPrefix(t), true) + EolOf(t)
  }

  function InstallAll(w: Wording, s: string, bs: seq<Binding>): Result<string>
    decreases |bs|
  {
    if bs == [] then Success(s)
    else
      var next :- Install(w, s, bs[0]);
      InstallAll(w, next, bs[1..])
  }

  lemma BeforeIsClean(t: string)
    requires Unmanaged(t)
    ensures Clean(Before(t)) && AtLineStart(Before(t))
  {
    UnmanagedIsClean(t);
    if NeedsPrefix(t) {
      CleanEol(t, EolOf(t));
    } else {
      assert Before(t) == t;
      EndsWithChar(t, '\n');
    }
  }

  // ---- Parsing a framed block ----

  lemma MiddleIsClean(w: Wording, b: Binding, eol: string, prefixAdded: bool, suffixAdded: bool)
    requires IsEol(eol) && CleanBinding(b)
    ensures Clean(Middle(w, b, eol, prefixAdded, suffixAdded)) && AtLineStart(Middle(w, b, eol, prefixAdded, suffixAdded))
  {
    BodyIsClean(w, b);
    FlagsAreClean(w, prefixAdded, suffixAdded);
    TerminatedIsClean(BodyLines(w, b) + FlagLines(w, prefixAdded, suffixAdded), eol);
  }

  lemma ParseMarked(s: string, begin: nat, end: nat)
    requires Marks(s, Some(begin), Some(end)) && begin <= end
    ensures Parse(s) == Success(Parsed(EolOf(s), Some((begin, end + |END|))))
  {
    hide At, ForeignAt, Occurrences, BEGIN, END;
    MarkerFacts();
    assert At(s, begin, BEGIN) && At(s, end, END);
    OneOccurrence(s, BEGIN, begin);
    OneOccurrence(s, END, end);
    assert !HasForeign(s);
  }

  lemma FrameSlices(pre: string, block: string, eol: string)
    ensures var s := pre + block + eol;
      s[..|pre|] == pre && s[|pre|..|pre| + |block|] == block && s[|pre| + |block|..] == eol
  {
  }

  lemma Regroup(pre: string, first: string, mid: string, end: string, eol: string)
    ensures pre + (first + (mid + end)) + eol == pre + (first + (mid + (end + eol)))
    ensures |first + (mid + end)| == |first| + |mid| + |end|
  {
  }

  lemma ParseShape(pre: string, block: string, mid: string, eol: string)
    requires IsEol(eol) && Clean(pre) && AtLineStart(pre) && Clean(mid) && AtLineStart(mid)
    requires block == BEGIN + eol + (mid + END)
    ensures Parse(pre + block + eol) == Success(Parsed(EolOf(pre + block + eol), Some((|pre|, |pre| + |block|))))
  {
    hide Parse, Clean, Marks;
    var end := |pre| + |BEGIN + eol| + |mid|;
    var s := pre + block + eol;
    assert s == pre + (BEGIN + eol + (mid + (END + eol))) && end + |END| == |pre| + |block| by {
      Regroup(pre, BEGIN + eol, mid, END, eol);
    }
    assert Marks(s, Some(|pre|), Some(end)) by {
      FramedMarks(pre, mid, eol);
    }
    ParseMarked(s, |pre|, end);
  }

  lemma ParseFramed(w: Wording, pre: string, b: Binding, eol: string, prefixAdded: bool)
    requires IsEol(eol) && CleanBinding(b) && Clean(pre) && AtLineStart(pre)
    ensures var block := Projection(w, b, eol, prefixAdded, true);
      Parse(pre + block + eol) == Success(Parsed(EolOf(pre + block + eol), Some((|pre|, |pre| + |block|))))
  {
    assert Projection(w, b, eol, prefixAdded, true) == BEGIN + eol + (Middle(w, b, eol, prefixAdded, true) + END) by {
      ProjectionShape(w, b, eol, prefixAdded, true);
    }
    assert Clean(Middle(w, b, eol, prefixAdded, true)) && AtLineStart(Middle(w, b, eol, prefixAdded, true)) by {
      MiddleIsClean(w, b, eol, prefixAdded, true);
    }
    ParseShape(pre, Projection(w, b, eol, prefixAdded, true), Middle(w, b, eol, prefixAdded, true), eol);
  }

  // ---- Line ends ----

  lemma {:induction false} NoReturnInLines(lines: seq<string>)
    requires forall i :: 0 <= i < |lines| ==> OneLine(lines[i])
    ensures '\r' !in Join(lines, "\n")
  {
    if |lines| > 1 {
      NoReturnInLines(lines[1..]);
    }
  }

  lemma LinesAreOneLine(w: Wording, b: Binding, prefixAdded: bool)
    requires CleanBinding(b)
    ensures forall i :: 0 <= i < |Lines(w, b, prefixAdded, true)| ==> OneLine(Lines(w, b, prefixAdded, true)[i])
  {
    BodyIsClean(w, b);
    FlagsAreClean(w, prefixAdded, true);
    MarkerFacts();
  }

  lemma BlockOpens(w: Wording, b: Binding, eol: string, prefixAdded: bool)
    ensures var block := Projection(w, b, eol, prefixAdded, true);
      |BEGIN| + |eol| <= |block| && block[0] == '<' && block[|BEGIN|..|BEGIN| + |eol|] == eol
  {
    ProjectionShape(w, b, eol, prefixAdded, true);
    MarkerFacts();
  }

  lemma CrlfBlock(w: Wording, pre: string, b: Binding, prefixAdded: bool, rest: string)
    ensures EolOf(pre + Projection(w, b, "\r\n", prefixAdded, true) + rest) == "\r\n"
  {
    var block := Projection(w, b, "\r\n", prefixAdded, true);
    var s := pre + block + rest;
    BlockOpens(w, b, "\r\n", prefixAdded);
    var i := |pre| + |BEGIN|;
    assert s[i..i + 2] == block[|BEGIN|..|BEGIN| + 2];
    assert At(s, i, "\r\n");
  }

  /** With LF blocks, a CRLF of the whole text lies in the part before the block. */
  lemma LfBlock(w: Wording, pre: string, b: Binding, prefixAdded: bool)
    requires CleanBinding(b)
    ensures Contains(pre + Projection(w, b, "\n", prefixAdded, true) + "\n", "\r\n") <==> Contains(pre, "\r\n")
  {
    var block := Projection(w, b, "\n", prefixAdded, true);
    var s := pre + block + "\n";
    LinesAreOneLine(w, b, prefixAdded);
    NoReturnInLines(Lines(w, b, prefixAdded, true));
    BlockOpens(w, b, "\n", prefixAdded);
    assert forall k :: 0 <= k < |pre| ==> s[k] == pre[k];
    assert forall k :: 0 <= k < |block| ==> s[|pre| + k] == block[k] && block[k] != '\r';
    assert s[|pre|] == '<';
    forall i: nat
      ensures At(s, i, "\r\n") <==> At(pre, i, "\r\n")
    {
      AtCrlf(s, i);
      AtCrlf(pre, i);
    }
    assert Contains(s, "\r\n") ==> exists i: nat :: At(s, i, "\r\n");
    assert Contains(pre, "\r\n") ==> exists i: nat :: i <= |s| && At(s, i, "\r\n");
  }

  lemma AddedLineFeed(t: string)
    ensures Contains(t + "\n", "\r\n") <==> Contains(t, "\r\n") || EndsWith(t, "\r")
  {
    var s := t + "\n";
    forall i: nat
      ensures At(s, i, "\r\n") <==> At(t, i, "\r\n") || (i + 1 == |t| && t[i] == '\r')
    {
      AtCrlf(s, i);
      AtCrlf(t, i);
    }
    EndsWithChar(t, '\r');
    if EndsWith(t, "\r") {
      assert At(s, |t| - 1, "\r\n");
    }
    assert Contains(t, "\r\n") ==> exists i: nat :: i <= |s| && At(s, i, "\r\n");
    assert Contains(s, "\r\n") ==> exists i: nat :: i <= |t| && (At(t, i, "\r\n") || (i + 1 == |t| && t[i] == '\r'));
  }

  /** Re-reading a managed text finds the line end it was written with, except after a lone CR. */
  lemma EolIsReadBack(w: Wording, t: string, b: Binding)
    requires CleanBinding(b)
    ensures EolOf(Managed(w, t, b)) == if LoneCr(t) then "\r\n" else EolOf(t)
  {
    if Contains(t, "\r\n") {
      CrlfBlock(w, Before(t), b, NeedsPrefix(t), "\r\n");
    } else {
      LfBlock(w, Before(t), b, NeedsPrefix(t));
      AddedLineFeed(t);
      EndsWithChar(t, '\r');
      EndsWithChar(t, '\n');
      assert !NeedsPrefix(t) ==> Before(t) == t;
    }
  }

  // ---- The laws ----

  lemma FreshInstall(w: Wording, t: string, b: Binding)
    requires Unmanaged(t)
    ensures Install(w, t, b) == Success(Managed(w, t, b))
  {
  }

  function BlockOf(w: Wording, t: string, b: Binding): string {
    Projection(w, b, EolOf(t), NeedsPrefix(t), true)
  }

  /** Parsing what a first installation wrote finds exactly the block's span. */
  lemma ManagedIsParsed(w: Wording, t: string, b: Binding)
    requires Unmanaged(t) && CleanBinding(b)
    ensures Parse(Managed(w, t, b)) ==
      Success(Parsed(EolOf(Managed(w, t, b)), Some((|Before(t)|, |Before(t)| + |BlockOf(w, t, b)|))))
  {
    hide Parse, Clean, Projection;
    BeforeIsClean(t);
    ParseFramed(w, Before(t), b, EolOf(t), NeedsPrefix(t));
  }

  lemma ManagedPieces(w: Wording, t: string, b: Binding)
    requires Unambiguous(w) && CleanBinding(b)
    ensures var s, pre, block := Managed(w, t, b), Before(t), BlockOf(w, t, b);
      && s[..|pre|] == pre && s[|pre|..|pre| + |block|] == block && s[|pre| + |block|..] == EolOf(t)
      && BoundaryFlags(w, block) == Success((NeedsPrefix(t), true))
  {
    FrameSlices(Before(t), BlockOf(w, t, b), EolOf(t));
    FlagsAreRead(w, b, EolOf(t), NeedsPrefix(t), true);
  }

  lemma LineEndsDiffer(w: Wording, b: Binding, b': Binding, prefixAdded: bool)
    requires CleanBinding(b)
    ensures Projection(w, b, "\n", prefixAdded, true) != Projection(w, b', "\r\n", prefixAdded, true)
  {
    LinesAreOneLine(w, b, prefixAdded);
    NoReturnInLines(Lines(w, b, prefixAdded, true));
    BlockOpens(w, b', "\r\n", prefixAdded);
    assert Projection(w, b', "\r\n", prefixAdded, true)[|BEGIN|..|BEGIN| + 2][0] == '\r';
  }

  /** Installing over an installation equals installing only the later binding, except after a lone CR. */
  lemma Reinstall(w: Wording, t: string, b: Binding, b': Binding)
    requires Unambiguous(w) && Unmanaged(t) && CleanBinding(b) && CleanBinding(b')
    ensures Install(w, Managed(w, t, b), b') == Success(Managed(w, t, b')) <==> !LoneCr(t)
  {
    ManagedIsParsed(w, t, b);
    ManagedPieces(w, t, b);
    EolIsReadBack(w, t, b);
    var (pre, added) := (Before(t), NeedsPrefix(t));
    assert Install(w, Managed(w, t, b), b') == Success(pre + Projection(w, b', EolOf(Managed(w, t, b)), added, true) + EolOf(t));
    if LoneCr(t) {
      LineEndsDiffer(w, b', b', added);
      Cancel(pre, Projection(w, b', "\r\n", added, true), Projection(w, b', "\n", added, true), EolOf(t));
    }
  }

  lemma Cancel(pre: string, x: string, y: string, post: string)
    requires x != y
    ensures pre + x + post != pre + y + post
  {
    var s, s' := pre + x + post, pre + y + post;
    if |x| == |y| {
      assert x == s[|pre|..|pre| + |x|] && y == s'[|pre|..|pre| + |y|];
    }
  }

  lemma InstallNext(w: Wording, s: string, bs: seq<Binding>, next: string)
    requires bs != [] && Install(w, s, bs[0]) == Success(next)
    ensures InstallAll(w, s, bs) == InstallAll(w, next, bs[1..])
  {
  }

  /** Any non-empty sequence of installations equals the last one alone. */
  lemma {:induction false} LastInstallWins(w: Wording, t: string, b: Binding, bs: seq<Binding>)
    requires Unambiguous(w) && Unmanaged(t) && !LoneCr(t) && CleanBinding(b) && forall i :: 0 <= i < |bs| ==> CleanBinding(bs[i])
    ensures InstallAll(w, Managed(w, t, b), bs) == Success(Managed(w, t, if bs == [] then b else bs[|bs| - 1]))
    decreases |bs|
  {
    hide Install, Parse, Managed, LoneCr, Unmanaged, CleanBinding;
    if bs != [] {
      Reinstall(w, t, b, bs[0]);
      InstallNext(w, Managed(w, t, b), bs, Managed(w, t, bs[0]));
      LastInstallWins(w, t, bs[0], bs[1..]);
    }
  }

  lemma DifferentBindingsDiffer(w: Wording, b: Binding, b': Binding, eol: string, prefixAdded: bool)
    requires IsEol(eol) && CleanBinding(b) && CleanBinding(b')
    requires Projection(w, b, eol, prefixAdded, true) == Projection(w, b', eol, prefixAdded, true)
    ensures b == b'
  {
    var lines, lines' := Lines(w, b, prefixAdded, true), Lines(w, b', prefixAdded, true);
    LinesAreOneLine(w, b, prefixAdded);
    LinesAreOneLine(w, b', prefixAdded);
    JoinTerminated(lines, eol);
    JoinTerminated(lines', eol);
    JoinInjective(lines, lines', eol);
    SameFields(w, b, b', prefixAdded);
  }

  lemma SameTail(name: string, x: string, y: string)
    requires name + x == name + y
    ensures x == y
  {
    assert x == (name + x)[|name|..];
  }

  lemma SameFields(w: Wording, b: Binding, b': Binding, prefixAdded: bool)
    requires Lines(w, b, prefixAdded, true) == Lines(w, b', prefixAdded, true)
    ensures b == b'
  {
    var lines, lines' := Lines(w, b, prefixAdded, true), Lines(w, b', prefixAdded, true);
    assert lines[2..9] == FieldLines(w, b) && lines'[2..9] == FieldLines(w, b');
    var fields, fields' := FieldLines(w, b), FieldLines(w, b');
    assert fields == fields';
    assert w.version + b.version == fields[0] == fields'[0] == w.version + b'.version;
    assert w.root + b.installationRoot == fields[1] == fields'[1] == w.root + b'.installationRoot;
    assert w.entry + b.governancePath == fields[2] == fields'[2] == w.entry + b'.governancePath;
    assert w.manifest + b.manifestPath == fields[3] == fields'[3] == w.manifest + b'.manifestPath;
    assert w.governanceDigest + b.governanceDigest == fields[4] == fields'[4] == w.governanceDigest + b'.governanceDigest;
    assert w.manifestDigest + b.manifestDigest == fields[5] == fields'[5] == w.manifestDigest + b'.manifestDigest;
    assert w.bundleDigest + b.bundleDigest == fields[6] == fields'[6] == w.bundleDigest + b'.bundleDigest;
    SameTail(w.version, b.version, b'.version);
    SameTail(w.root, b.installationRoot, b'.installationRoot);
    SameTail(w.entry, b.governancePath, b'.governancePath);
    SameTail(w.manifest, b.manifestPath, b'.manifestPath);
    SameTail(w.governanceDigest, b.governanceDigest, b'.governanceDigest);
    SameTail(w.manifestDigest, b.manifestDigest, b'.manifestDigest);
    SameTail(w.bundleDigest, b.bundleDigest, b'.bundleDigest);
  }

  /** Verification accepts exactly the binding installed last, and rejects every one after a lone CR. */
  lemma VerifyIsExact(w: Wording, t: string, b: Binding, b': Binding)
    requires Unambiguous(w) && Unmanaged(t) && CleanBinding(b) && CleanBinding(b')
    ensures Verify(w, Managed(w, t, b), b') <==> b == b' && !LoneCr(t)
  {
    var eol, added := EolOf(t), NeedsPrefix(t);
    ManagedIsParsed(w, t, b);
    ManagedPieces(w, t, b);
    EolIsReadBack(w, t, b);
    if LoneCr(t) {
      LineEndsDiffer(w, b, b', added);
    } else if Projection(w, b, eol, added, true) == Projection(w, b', eol, added, true) {
      DifferentBindingsDiffer(w, b, b', eol, added);
    }
  }

  /** What removal leaves of the text around a parsed block. */
  function Unframed(pre: string, post: string, eol: string, prefixAdded: bool): string {
    (if prefixAdded && EndsWith(pre, eol) then pre[..|pre| - |eol|] else pre)
    + (if StartsWith(post, eol) then post[|eol|..] else post)
  }

  lemma RemoveFrame(w: Wording, s: string, pre: string, block: string, post: string, eol: string, prefixAdded: bool)
    requires |pre| + |block| <= |s|
    requires s[..|pre|] == pre && s[|pre|..|pre| + |block|] == block && s[|pre| + |block|..] == post
    requires BoundaryFlags(w, block) == Success((prefixAdded, true))
    ensures RemoveParsed(w, s, Parsed(eol, Some((|pre|, |pre| + |block|)))) == Success(Unframed(pre, post, eol, prefixAdded))
  {
    if EndsWith(pre, eol) {
      assert s[..|pre| - |eol|] == pre[..|pre| - |eol|];
    }
    if StartsWith(post, eol) {
      assert s[|pre| + |block| + |eol|..] == post[|eol|..];
    }
  }

  lemma UnframedText(t: string, eol: string)
    requires eol == if LoneCr(t) then "\r\n" else EolOf(t)
    ensures Unframed(Before(t), EolOf(t), eol, NeedsPrefix(t)) == if LoneCr(t) then t[..|t| - 1] + "\n" else t
  {
    var pre := Before(t);
    EndsWithChar(t, '\r');
    EndsWithChar(t, '\n');
    if LoneCr(t) {
      assert pre == t[..|t| - 1] + "\r\n";
      assert pre[|pre| - 2..] == "\r\n";
      assert pre[..|pre| - 2] == t[..|t| - 1];
    } else if NeedsPrefix(t) {
      assert pre[|pre| - |eol|..] == eol && pre[..|pre| - |eol|] == t;
      assert t + EolOf(t)[|eol|..] == t;
    } else {
      assert pre == t && t + EolOf(t)[|eol|..] == t;
    }
  }

  /** Removal gives back the original text exactly, unless it ended in a lone CR. */
  lemma RemoveIsExact(w: Wording, t: string, b: Binding)
    requires Unambiguous(w) && Unmanaged(t) && CleanBinding(b)
    ensures Remove(w, Managed(w, t, b)) == Success(t) <==> !LoneCr(t)
    ensures LoneCr(t) ==> Remove(w, Managed(w, t, b)) == Success(t[..|t| - 1] + "\n")
  {
    assert Remove(w, Managed(w, t, b)) == Success(Unframed(Before(t), EolOf(t), EolOf(Managed(w, t, b)), NeedsPrefix(t))) by {
      ManagedIsParsed(w, t, b);
      ManagedPieces(w, t, b);
      RemoveFrame(w, Managed(w, t, b), Before(t), BlockOf(w, t, b), EolOf(t), EolOf(Managed(w, t, b)), NeedsPrefix(t));
    }
    EolIsReadBack(w, t, b);
    UnframedText(t, EolOf(Managed(w, t, b)));
    EndsWithChar(t, '\r');
    assert LoneCr(t) ==> (t[..|t| - 1] + "\n")[|t| - 1] == '\n';
  }

  /** The whole life of an entry file: any non-empty sequence of installations leaves what the last
      one alone would leave, only that binding verifies, and removal restores the text. */
  lemma InstallationsAreReversible(w: Wording, t: string, bs: seq<Binding>, b: Binding)
    requires Unambiguous(w) && Unmanaged(t) && !LoneCr(t) && bs != [] && CleanBinding(b)
    requires forall i :: 0 <= i < |bs| ==> CleanBinding(bs[i])
    ensures var last := bs[|bs| - 1];
      && InstallAll(w, t, bs) == Install(w, t, last)
      && Install(w, t, last).Success?
      && (Verify(w, Install(w, t, last).value, b) <==> b == last)
      && Remove(w, Install(w, t, last).value) == Success(t)
  {
    hide Parse, Install, Verify, Remove;
    var last := bs[|bs| - 1];
    FreshInstall(w, t, bs[0]);
    FreshInstall(w, t, last);
    InstallNext(w, t, bs, Managed(w, t, bs[0]));
    LastInstallWins(w, t, bs[0], bs[1..]);
    VerifyIsExact(w, t, last, b);
    RemoveIsExact(w, t, last);
  }

  /** The failing case, concretely. */
  lemma LoneCrExample(w: Wording, b: Binding)
    requires Unambiguous(w) && CleanBinding(b)
    ensures Unmanaged("x\r") && !Verify(w, Managed(w, "x\r", b), b) && Remove(w, Managed(w, "x\r", b)) == Success("x\n")
  {
    var t := "x\r";
    StemFacts();
    PlainEnoughIsClean(t);
    UnmanagedIsClean(t);
    EndsWithChar(t, '\r');
    forall i: nat
      ensures !At(t, i, "\r\n")
    {
      AtCrlf(t, i);
    }
    assert LoneCr(t);
    VerifyIsExact(w, t, b, b);
    RemoveIsExact(w, t, b);
    assert t[..1] + "\n" == "x\n";
  }

  lemma PlainEnoughIsClean(t: string)
    requires '<' !in t
    ensures Clean(t)
  {
    EmptyIsClean();
    CleanLabel(t, "");
    assert t + "" == t;
  }
}
