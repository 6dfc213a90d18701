/** The managed block of src/managed-block.ts: installing, replacing, removing and verifying
    a generated block inside a user's text. Texts are decoded strings. */
module ManagedBlock {
  import opened Wrappers
  import opened TextSearch

  datatype Binding = Binding(
    version: string, installationRoot: string, governancePath: string, manifestPath: string,
    governanceDigest: string, manifestDigest: string, bundleDigest: string)

  const STEM := "AGENT_GOVERNANCE_MANAGED_"
  const FOREIGN_BEGIN := "<!-- BEGIN " + STEM
  const FOREIGN_END := "<!-- END " + STEM
  const BEGIN := FOREIGN_BEGIN + CURRENT_VERSION
  const END := FOREIGN_END + CURRENT_VERSION
  const CURRENT_VERSION := "V1 -->"
  const CLOSE := "-->"

  // ---- Parsing ----

  predicate ForeignFrom(s: string, i: nat, opening: string) {
    && At(s, i, opening)
    && !At(s, i + |opening|, CURRENT_VERSION)
    && exists j :: i + |opening| <= j <= |s| && At(s, j, CLOSE) && OneLine(s[i + |opening|..j])
  }

  /** A marker of another version, closed on its own line. */
  predicate ForeignAt(s: string, i: nat) {
    ForeignFrom(s, i, FOREIGN_BEGIN) || ForeignFrom(s, i, FOREIGN_END)
  }

  predicate HasForeign(s: string) {
    exists i :: 0 <= i <= |s| && ForeignAt(s, i)
  }

  datatype Parsed = Parsed(eol: string, span: Option<(nat, nat)>)

  function Parse(s: string): (p: Result<Parsed>)
    ensures p.Success? ==> SpanOf(s, p.value)
  {
    if HasForeign(s) then Failure
    else
      var begins, ends := Occurrences(s, BEGIN, 0), Occurrences(s, END, 0);
      var eol := if Contains(s, "\r\n") then "\r\n" else "\n";
      if begins == [] && ends == [] then Success(Parsed(eol, None))
      else if |begins| != 1 || |ends| != 1 || ends[0] < begins[0] then Failure
      else
        OccurrenceInRange(s, END);
        Success(Parsed(eol, Some((begins[0], ends[0] + |END|))))
  }

  lemma OccurrenceInRange(s: string, m: string)
    requires m != "" && |Occurrences(s, m, 0)| > 0
    ensures At(s, Occurrences(s, m, 0)[0], m)
  {
  }

  // ---- The generated block ----

  function Flag(b: bool): string {
    if b then "true" else "false"
  }

  /** Text on one line that opens no marker. */
  predicate Plain(s: string) {
    OneLine(s) && '<' !in s
  }

  type PlainText = s: string | Plain(s) witness ""

  /** The fixed sentences and labels of the block, in the order of its lines. */
  datatype Wording = Wording(
    generated: PlainText,
    version: PlainText, root: PlainText, entry: PlainText, manifest: PlainText,
    governanceDigest: PlainText, manifestDigest: PlainText, bundleDigest: PlainText,
    load: PlainText, keep: PlainText, fail: PlainText,
    prefixAdded: PlainText, suffixAdded: PlainText)

  predicate Diverges(x: string, y: string) {
    exists i :: 0 <= i < |x| && i < |y| && x[i] != y[i]
  }

  predicate DivergesFromAll(w: Wording, flag: string) {
    && Diverges(BEGIN, flag)
    && Diverges(w.generated, flag) && Diverges(w.version, flag) && Diverges(w.root, flag) && Diverges(w.entry, flag)
    && Diverges(w.manifest, flag) && Diverges(w.governanceDigest, flag) && Diverges(w.manifestDigest, flag)
    && Diverges(w.bundleDigest, flag) && Diverges(w.load, flag) && Diverges(w.keep, flag) && Diverges(w.fail, flag)
  }

  /** No other line can be mistaken for a flag line. */
  predicate Unambiguous(w: Wording) {
    DivergesFromAll(w, w.prefixAdded) && DivergesFromAll(w, w.suffixAdded) && Diverges(w.prefixAdded, w.suffixAdded)
  }

  function FieldLines(w: Wording, b: Binding): seq<string> {
    [ w.version + b.version,
      w.root + b.installationRoot,
      w.entry + b.governancePath,
      w.manifest + b.manifestPath,
      w.governanceDigest + b.governanceDigest,
      w.manifestDigest + b.manifestDigest,
      w.bundleDigest + b.bundleDigest ]
  }

  function BodyLines(w: Wording, b: Binding): seq<string> {
    [w.generated] + FieldLines(w, b) + [w.load, w.keep, w.fail]
  }

  function FlagLines(w: Wording, prefixAdded: bool, suffixAdded: bool): seq<string> {
    [w.prefixAdded + Flag(prefixAdded), w.suffixAdded + Flag(suffixAdded)]
  }

  function Lines(w: Wording, b: Binding, prefixAdded: bool, suffixAdded: bool): seq<string> {
    [BEGIN] + BodyLines(w, b) + FlagLines(w, prefixAdded, suffixAdded) + [END]
  }

  function Projection(w: Wording, b: Binding, eol: string, prefixAdded: bool, suffixAdded: bool): string {
    Join(Lines(w, b, prefixAdded, suffixAdded), eol)
  }

  /** `value` and a line end, or the end of the text, at `i`. */
  predicate ValueAt(s: string, i: nat, value: string) {
    && At(s, i, value)
    && (i + |value| == |s| || At(s, i + |value|, "\n") || At(s, i + |value|, "\r\n"))
  }

  /** The first line that is `name` followed by a flag: the leftmost match of the source's pattern. */
  function FindFlag(s: string, name: string): Option<bool>
    decreases |s|
  {
    if At(s, 0, name) && ValueAt(s, |name|, "true") then Some(true)
    else if At(s, 0, name) && ValueAt(s, |name|, "false") then Some(false)
    else
      var k := IndexOf(s, "\n", 0);
      if k.None? then None else FindFlag(s[k.value + 1..], name)
  }

  function BoundaryFlags(w: Wording, block: string): Result<(bool, bool)> {
    var prefix, suffix := FindFlag(block, w.prefixAdded), FindFlag(block, w.suffixAdded);
    if prefix.None? || suffix.None? then Failure else Success((prefix.value, suffix.value))
  }

  // ---- Operations ----

  predicate SpanOf(s: string, p: Parsed) {
    p.span.Some? ==> p.span.value.0 <= p.span.value.1 <= |s|
  }

  function InstallParsed(w: Wording, s: string, p: Parsed, b: Binding): Result<string>
    requires SpanOf(s, p)
  {
    if p.span.Some? then
      var (start, end) := p.span.value;
      var flags :- BoundaryFlags(w, s[start..end]);
      Success(s[..start] + Projection(w, b, p.eol, flags.0, flags.1) + s[end..])
    else
      var prefixAdded := s != "" && !EndsWith(s, "\n");
      var prefix := if prefixAdded then p.eol else "";
      Success(s + prefix + Projection(w, b, p.eol, prefixAdded, true) + p.eol)
  }

  function Install(w: Wording, s: string, b: Binding): Result<string> {
    var p :- Parse(s);
    InstallParsed(w, s, p, b)
  }

  function RemoveParsed(w: Wording, s: string, p: Parsed): Result<string>
    requires SpanOf(s, p)
  {
    if p.span.None? then Success(s)
    else
      var (start, end) := p.span.value;
      var flags :- BoundaryFlags(w, s[start..end]);
      var prefix := if flags.0 && EndsWith(s[..start], p.eol) then s[..start - |p.eol|] else s[..start];
      var suffix := if flags.1 && StartsWith(s[end..], p.eol) then s[end + |p.eol|..] else s[end..];
      Success(prefix + suffix)
  }

  function Remove(w: Wording, s: string): Result<string> {
    var p :- Parse(s);
    RemoveParsed(w, s, p)
  }

  predicate VerifyParsed(w: Wording, s: string, p: Parsed, b: Binding)
    requires SpanOf(s, p)
  {
    && p.span.Some?
    && var (start, end) := p.span.value;
       var flags := BoundaryFlags(w, s[start..end]);
       && flags.Success?
       && s[start..end] == Projection(w, b, p.eol, flags.value.0, flags.value.1)
  }

  predicate Verify(w: Wording, s: string, b: Binding) {
    var p := Parse(s);
    p.Success? && VerifyParsed(w, s, p.value, b)
  }

  // ---- Texts without markers ----

  ghost predicate Clean(s: string) {
    && (forall i: nat :: !At(s, i, BEGIN) && !At(s, i, END))
    && (forall i: nat :: !ForeignAt(s, i))
  }

  /** A text the installer accepts and finds no block in. */
  predicate Unmanaged(s: string) {
    Parse(s).Success? && Parse(s).value.span.None?
  }

  predicate CleanField(f: string) {
    OneLine(f) && Unmanaged(f)
  }

  predicate CleanBinding(b: Binding) {
    && CleanField(b.version) && CleanField(b.installationRoot) && CleanField(b.governancePath) && CleanField(b.manifestPath)
    && CleanField(b.governanceDigest) && CleanField(b.manifestDigest) && CleanField(b.bundleDigest)
  }

  /** A `<` opens the text and nothing else in it. */
  predicate OpensOnce(m: string) {
    m != "" && m[0] == '<' && forall i :: 0 < i < |m| ==> m[i] != '<'
  }

  lemma StemFacts()
    ensures OneLine(STEM) && '<' !in STEM
    ensures OneLine(CURRENT_VERSION) && '<' !in CURRENT_VERSION && |CURRENT_VERSION| == 6
    ensures OneLine(CLOSE) && |CLOSE| == 3
  {
  }

  lemma OpeningFacts()
    ensures OneLine(FOREIGN_BEGIN) && OneLine(FOREIGN_END) && OpensOnce(FOREIGN_BEGIN) && OpensOnce(FOREIGN_END)
    ensures FOREIGN_BEGIN[5] == 'B' && FOREIGN_END[5] == 'E'
  {
    StemFacts();
  }

  lemma MarkerFacts()
    ensures OneLine(BEGIN) && OneLine(END) && OpensOnce(BEGIN) && OpensOnce(END)
    ensures |FOREIGN_BEGIN| < |BEGIN| && |FOREIGN_END| < |END|
    ensures BEGIN[5] == 'B' && END[5] == 'E'
    ensures At(BEGIN, |FOREIGN_BEGIN|, CURRENT_VERSION) && At(END, |FOREIGN_END|, CURRENT_VERSION)
  {
    StemFacts();
    OpeningFacts();
  }

  lemma UnmanagedIsClean(s: string)
    ensures Unmanaged(s) <==> Clean(s)
  {
    MarkerFacts();
    NoOccurrence(s, BEGIN);
    NoOccurrence(s, END);
    assert forall i: nat :: ForeignAt(s, i) ==> i <= |s|;
  }

  lemma AtBeforeEol(t: string, eol: string, i: nat, m: string)
    requires IsEol(eol) && OneLine(m) && m != ""
    ensures At(t + eol, i, m) <==> At(t, i, m)
  {
    var s := t + eol;
    if i + |m| <= |t| {
      assert s[i..i + |m|] == t[i..i + |m|];
    } else if i + |m| <= |s| {
      assert s[i..i + |m|][|m| - 1] == s[i + |m| - 1] == eol[i + |m| - 1 - |t|];
    }
  }

  lemma ForeignBeforeEol(t: string, eol: string, i: nat, opening: string)
    requires IsEol(eol) && OneLine(opening) && opening != "" && ForeignFrom(t + eol, i, opening)
    ensures ForeignFrom(t, i, opening)
  {
    StemFacts();
    var s, from := t + eol, i + |opening|;
    AtBeforeEol(t, eol, i, opening);
    AtBeforeEol(t, eol, from, CURRENT_VERSION);
    var j :| from <= j <= |s| && At(s, j, CLOSE) && OneLine(s[from..j]);
    AtBeforeEol(t, eol, j, CLOSE);
    assert s[from..j] == t[from..j];
  }

  lemma CleanEol(t: string, eol: string)
    requires IsEol(eol) && Clean(t)
    ensures Clean(t + eol)
  {
    MarkerFacts();
    OpeningFacts();
    forall i: nat
      ensures !At(t + eol, i, BEGIN) && !At(t + eol, i, END) && !ForeignAt(t + eol, i)
    {
      assert !ForeignAt(t, i);
      AtBeforeEol(t, eol, i, BEGIN);
      AtBeforeEol(t, eol, i, END);
      if ForeignFrom(t + eol, i, FOREIGN_BEGIN) {
        ForeignBeforeEol(t, eol, i, FOREIGN_BEGIN);
      }
      if ForeignFrom(t + eol, i, FOREIGN_END) {
        ForeignBeforeEol(t, eol, i, FOREIGN_END);
      }
    }
  }

  lemma AtAfterLabel(name: string, f: string, i: nat, m: string)
    requires '<' !in name && OpensOnce(m)
    ensures At(name + f, i, m) ==> |name| <= i && At(f, i - |name|, m)
  {
    var s := name + f;
    assert forall k :: 0 <= k < |name| ==> s[k] == name[k] && name[k] != '<';
    if At(s, i, m) {
      assert s[i..i + |m|][0] == s[i];
      assert s[i..i + |m|] == f[i - |name|..i - |name| + |m|];
    }
  }

  lemma AtShifts(name: string, f: string, i: nat, m: string)
    requires |name| <= i
    ensures At(name + f, i, m) <==> At(f, i - |name|, m)
  {
    if i + |m| <= |name + f| {
      assert (name + f)[i..i + |m|] == f[i - |name|..i - |name| + |m|];
    }
  }

  lemma ForeignAfterLabel(name: string, f: string, i: nat, opening: string)
    requires '<' !in name && OpensOnce(opening) && ForeignFrom(name + f, i, opening)
    ensures |name| <= i && ForeignFrom(f, i - |name|, opening)
  {
    hide At;
    var s, from := name + f, i + |opening|;
    AtAfterLabel(name, f, i, opening);
    AtShifts(name, f, from, CURRENT_VERSION);
    var j :| from <= j <= |s| && At(s, j, CLOSE) && OneLine(s[from..j]);
    AtShifts(name, f, j, CLOSE);
    assert s[from..j] == f[from - |name|..j - |name|];
  }

  /** A line made of a label and a clean field is clean. */
  lemma CleanLabel(name: string, f: string)
    requires '<' !in name && Clean(f)
    ensures Clean(name + f)
  {
    MarkerFacts();
    OpeningFacts();
    forall i: nat
      ensures !At(name + f, i, BEGIN) && !At(name + f, i, END) && !ForeignAt(name + f, i)
    {
      assert |name| <= i ==> !ForeignAt(f, i - |name|);
      AtAfterLabel(name, f, i, BEGIN);
      AtAfterLabel(name, f, i, END);
      if ForeignFrom(name + f, i, FOREIGN_BEGIN) {
        ForeignAfterLabel(name, f, i, FOREIGN_BEGIN);
      }
      if ForeignFrom(name + f, i, FOREIGN_END) {
        ForeignAfterLabel(name, f, i, FOREIGN_END);
      }
    }
  }

  lemma EmptyIsClean()
    ensures Clean("")
  {
    MarkerFacts();
    OpeningFacts();
  }

  lemma InsideLine(x: string, i: nat, m: string)
    requires AtLineStart(x) && At(x, i, m) && '\n' !in m && m != ""
    ensures i + |m| < |x|
  {
    AtChars(x, i, m);
    assert x[i + (|m| - 1)] == m[|m| - 1];
  }

  lemma CrossesLine(x: string, y: string, from: nat, to: nat)
    requires AtLineStart(x) && from < |x| <= to <= |x + y|
    ensures !OneLine((x + y)[from..to])
  {
    assert (x + y)[from..to][|x| - 1 - from] == x[|x| - 1];
  }

  lemma ForeignSplits(x: string, y: string, i: nat, opening: string)
    requires AtLineStart(x) && OneLine(opening) && opening != "" && ForeignFrom(x + y, i, opening)
    ensures if i < |x| then ForeignFrom(x, i, opening) else ForeignFrom(y, i - |x|, opening)
  {
    hide At;
    StemFacts();
    var s, from := x + y, i + |opening|;
    AtSplits(x, y, i, opening);
    AtSplits(x, y, from, CURRENT_VERSION);
    var j :| from <= j <= |s| && At(s, j, CLOSE) && OneLine(s[from..j]);
    AtSplits(x, y, j, CLOSE);
    if i < |x| {
      InsideLine(x, i, opening);
      if |x| <= j {
        CrossesLine(x, y, from, j);
        assert false;
      }
      assert s[from..j] == x[from..j];
    } else {
      assert s[from..j] == y[from - |x|..j - |x|];
      assert At(y, j - |x|, CLOSE);
    }
  }

  lemma NoForeignConcat(x: string, y: string, i: nat)
    requires AtLineStart(x) && if i < |x| then !ForeignAt(x, i) else !ForeignAt(y, i - |x|)
    ensures !ForeignAt(x + y, i)
  {
    OpeningFacts();
    if ForeignFrom(x + y, i, FOREIGN_BEGIN) {
      ForeignSplits(x, y, i, FOREIGN_BEGIN);
    }
    if ForeignFrom(x + y, i, FOREIGN_END) {
      ForeignSplits(x, y, i, FOREIGN_END);
    }
  }

  lemma CleanConcat(x: string, y: string)
    requires AtLineStart(x) && Clean(x) && Clean(y)
    ensures Clean(x + y)
  {
    CleanMarks(x);
    CleanMarks(y);
    MarksConcat(x, y, None, None, None, None);
    CleanMarks(x + y);
  }

  ghost predicate CleanLines(lines: seq<string>) {
    forall i :: 0 <= i < |lines| ==> Clean(lines[i]) && OneLine(lines[i])
  }

  lemma {:induction false} TerminatedIsClean(lines: seq<string>, eol: string)
    requires IsEol(eol) && CleanLines(lines)
    ensures Clean(Terminated(lines, eol)) && AtLineStart(Terminated(lines, eol))
  {
    if lines == [] {
      EmptyIsClean();
    } else {
      TerminatedIsClean(lines[1..], eol);
      CleanEol(lines[0], eol);
      CleanConcat(lines[0] + eol, Terminated(lines[1..], eol));
    }
  }

  // ---- The block's own lines ----

  lemma LabelledIsClean(name: string, f: string)
    requires Plain(name) && OneLine(f) && Clean(f)
    ensures Clean(name + f) && OneLine(name + f)
  {
    CleanLabel(name, f);
  }

  lemma PlainIsClean(s: string)
    requires Plain(s)
    ensures Clean(s) && OneLine(s)
  {
    EmptyIsClean();
    CleanLabel(s, "");
    assert s + "" == s;
  }

  lemma FieldsAreClean(w: Wording, b: Binding)
    requires CleanBinding(b)
    ensures CleanLines(FieldLines(w, b))
  {
    FieldIsClean(w.version, b.version);
    FieldIsClean(w.root, b.installationRoot);
    FieldIsClean(w.entry, b.governancePath);
    FieldIsClean(w.manifest, b.manifestPath);
    FieldIsClean(w.governanceDigest, b.governanceDigest);
    FieldIsClean(w.manifestDigest, b.manifestDigest);
    FieldIsClean(w.bundleDigest, b.bundleDigest);
  }

  lemma BodyIsClean(w: Wording, b: Binding)
    requires CleanBinding(b)
    ensures CleanLines(BodyLines(w, b))
  {
    PlainIsClean(w.generated);
    PlainIsClean(w.load);
    PlainIsClean(w.keep);
    PlainIsClean(w.fail);
    FieldsAreClean(w, b);
  }

  lemma FieldIsClean(name: string, f: string)
    requires Plain(name) && CleanField(f)
    ensures Clean(name + f) && OneLine(name + f)
  {
    UnmanagedIsClean(f);
    LabelledIsClean(name, f);
  }

  lemma FlagsAreClean(w: Wording, prefixAdded: bool, suffixAdded: bool)
    ensures CleanLines(FlagLines(w, prefixAdded, suffixAdded))
  {
    PlainIsClean(w.prefixAdded + Flag(prefixAdded));
    PlainIsClean(w.suffixAdded + Flag(suffixAdded));
  }

  // ---- Where the markers are ----

  lemma MarkerLine(marker: string, other: string, eol: string, i: nat)
    requires IsEol(eol) && (marker, other) in {(BEGIN, END), (END, BEGIN)}
    ensures At(marker + eol, i, marker) <==> i == 0
    ensures !At(marker + eol, i, other)
    ensures !ForeignAt(marker + eol, i)
  {
    MarkerFacts();
    OpeningFacts();
    var s := marker + eol;
    AtBeforeEol(marker, eol, i, marker);
    AtBeforeEol(marker, eol, i, other);
    AtChars(marker, i, other);
    AtChars(marker, i, marker);
    if ForeignFrom(s, i, FOREIGN_BEGIN) {
      OwnMarkerIsNotForeign(marker, eol, i, FOREIGN_BEGIN);
    }
    if ForeignFrom(s, i, FOREIGN_END) {
      OwnMarkerIsNotForeign(marker, eol, i, FOREIGN_END);
    }
  }

  lemma OwnMarkerIsNotForeign(marker: string, eol: string, i: nat, opening: string)
    requires IsEol(eol) && (marker == BEGIN || marker == END) && (opening == FOREIGN_BEGIN || opening == FOREIGN_END)
    ensures !ForeignFrom(marker + eol, i, opening)
  {
    MarkerFacts();
    OpeningFacts();
    if ForeignFrom(marker + eol, i, opening) {
      AtChars(marker, i, opening);
      ForeignBeforeEol(marker, eol, i, opening);
    }
  }

  /** The text has at most one marker of each kind, at these indices, and no foreign one. */
  ghost predicate Marks(s: string, begin: Option<nat>, end: Option<nat>) {
    && (forall i: nat :: At(s, i, BEGIN) <==> begin == Some(i))
    && (forall i: nat :: At(s, i, END) <==> end == Some(i))
    && (forall i: nat :: !ForeignAt(s, i))
  }

  lemma CleanMarks(s: string)
    ensures Clean(s) <==> Marks(s, None, None)
  {
  }

  function Shift(n: nat, i: Option<nat>): Option<nat> {
    if i.Some? then Some(n + i.value) else None
  }

  /** Marker positions of `x + y` from those of its parts. */
  lemma MarksConcat(x: string, y: string, begin: Option<nat>, end: Option<nat>, begin': Option<nat>, end': Option<nat>)
    requires AtLineStart(x) && Marks(x, begin, end) && Marks(y, begin', end')
    requires (begin.None? || begin'.None?) && (end.None? || end'.None?)
    ensures Marks(x + y,
                  if begin.Some? then begin else Shift(|x|, begin'),
                  if end.Some? then end else Shift(|x|, end'))
  {
    var s := x + y;
    MarkConcat(x, y, BEGIN, begin, begin') by {
      MarkerFacts();
    }
    MarkConcat(x, y, END, end, end') by {
      MarkerFacts();
    }
    forall i: nat
      ensures !ForeignAt(s, i)
    {
      NoForeignConcat(x, y, i);
    }
  }

  lemma MarkConcat(x: string, y: string, mark: string, at: Option<nat>, at': Option<nat>)
    requires AtLineStart(x) && mark != "" && '\n' !in mark && (at.None? || at'.None?)
    requires forall i: nat :: At(x, i, mark) <==> at == Some(i)
    requires forall i: nat :: At(y, i, mark) <==> at' == Some(i)
    ensures forall i: nat :: At(x + y, i, mark) <==> (if at.Some? then at else Shift(|x|, at')) == Some(i)
  {
    assert at.Some? ==> At(x, at.value, mark);
    forall i: nat
      ensures At(x + y, i, mark) <==> (if at.Some? then at else Shift(|x|, at')) == Some(i)
    {
      AtSplits(x, y, i, mark);
    }
  }

  lemma MarkerLines(eol: string)
    requires IsEol(eol)
    ensures Marks(BEGIN + eol, Some(0), None) && Marks(END + eol, None, Some(0))
  {
    forall i: nat
      ensures At(BEGIN + eol, i, BEGIN) <==> i == 0
      ensures !At(BEGIN + eol, i, END) && !ForeignAt(BEGIN + eol, i)
      ensures At(END + eol, i, END) <==> i == 0
      ensures !At(END + eol, i, BEGIN) && !ForeignAt(END + eol, i)
    {
      MarkerLine(BEGIN, END, eol, i);
      MarkerLine(END, BEGIN, eol, i);
    }
  }

  lemma MarkedSegments(pre: string, first: string, mid: string, last: string)
    requires AtLineStart(pre) && Clean(pre) && AtLineStart(mid) && Clean(mid) && AtLineStart(first)
    requires Marks(first, Some(0), None) && Marks(last, None, Some(0))
    ensures Marks(pre + (first + (mid + last)), Some(|pre|), Some(|pre| + |first| + |mid|))
  {
    hide Marks, Clean;
    var tail := mid + last;
    assert Marks(tail, None, Some(|mid|)) by {
      CleanMarks(mid);
      MarksConcat(mid, last, None, None, None, Some(0));
    }
    var block := first + tail;
    assert Marks(block, Some(0), Some(|first| + |mid|)) by {
      MarksConcat(first, tail, Some(0), None, None, Some(|mid|));
    }
    CleanMarks(pre);
    MarksConcat(pre, block, None, None, Some(0), Some(|first| + |mid|));
  }

  /** A block between a clean beginning of line and its terminator. */
  lemma FramedMarks(pre: string, mid: string, eol: string)
    requires IsEol(eol) && AtLineStart(pre) && Clean(pre) && AtLineStart(mid) && Clean(mid)
    ensures Marks(pre + (BEGIN + eol + (mid + (END + eol))), Some(|pre|), Some(|pre| + |BEGIN + eol| + |mid|))
  {
    MarkerLines(eol);
    MarkedSegments(pre, BEGIN + eol, mid, END + eol);
  }

  function Middle(w: Wording, b: Binding, eol: string, prefixAdded: bool, suffixAdded: bool): string {
    Terminated(BodyLines(w, b) + FlagLines(w, prefixAdded, suffixAdded), eol)
  }

  lemma ProjectionShape(w: Wording, b: Binding, eol: string, prefixAdded: bool, suffixAdded: bool)
    ensures Projection(w, b, eol, prefixAdded, suffixAdded) == BEGIN + eol + (Middle(w, b, eol, prefixAdded, suffixAdded) + END)
    ensures Projection(w, b, eol, prefixAdded, suffixAdded) + eol == BEGIN + eol + (Middle(w, b, eol, prefixAdded, suffixAdded) + (END + eol))
  {
    var mid := BodyLines(w, b) + FlagLines(w, prefixAdded, suffixAdded);
    var lines := Lines(w, b, prefixAdded, suffixAdded);
    assert lines == [BEGIN] + (mid + [END]);
    TerminatedConcat([BEGIN], mid + [END], eol);
    TerminatedConcat(mid, [END], eol);
    OneTerminated(BEGIN, eol);
    OneTerminated(END, eol);
    JoinTerminated(lines, eol);
    var p := Projection(w, b, eol, prefixAdded, suffixAdded);
    var m := Terminated(mid, eol);
    assert p + eol == BEGIN + eol + (m + (END + eol));
    assert p == (p + eol)[..|p|];
    assert (BEGIN + eol + (m + END)) + eol == BEGIN + eol + (m + (END + eol));
    assert BEGIN + eol + (m + END) == (BEGIN + eol + (m + (END + eol)))[..|p|];
  }

  lemma OneTerminated(line: string, eol: string)
    ensures Terminated([line], eol) == line + eol
  {
    assert Terminated([line][1..], eol) == "";
  }

  // ---- Reading the flags back ----

  lemma FirstLineFeed(line: string, eol: string, rest: string)
    requires IsEol(eol) && OneLine(line)
    ensures IndexOf(line + eol + rest, "\n", 0) == Some(|line| + |eol| - 1)
  {
    var s, k := line + eol + rest, |line| + |eol| - 1;
    assert s[k] == eol[|eol| - 1];
    assert s[k..k + 1] == [s[k]];
    assert At(s, k, "\n");
    forall j | 0 <= j < k
      ensures !At(s, j, "\n")
    {
      assert s[j] == if j < |line| then line[j] else eol[j - |line|];
      assert s[j] != '\n';
      assert s[j..j + 1] == [s[j]];
    }
  }

  lemma FirstLine(lines: seq<string>, eol: string)
    requires |lines| > 1 && IsEol(eol) && OneLine(lines[0])
    ensures var s := Join(lines, eol);
      && IndexOf(s, "\n", 0) == Some(|lines[0]| + |eol| - 1)
      && s[|lines[0]| + |eol|..] == Join(lines[1..], eol)
      && s[|lines[0]|] == eol[0]
  {
    FirstLineFeed(lines[0], eol, Join(lines[1..], eol));
  }

  lemma ValueIsThere(s: string, i: nat, value: string, rest: string)
    requires i + |value| <= |s| && s[i..i + |value|] == value && s[i + |value|..] == rest
    requires rest == "" || StartsWith(rest, "\n") || StartsWith(rest, "\r\n")
    ensures ValueAt(s, i, value)
  {
    var k := i + |value|;
    assert StartsWith(rest, "\n") ==> s[k..k + 1] == rest[..1] == "\n";
    assert StartsWith(rest, "\r\n") ==> s[k..k + 2] == rest[..2] == "\r\n";
  }

  lemma FlagLineIsRead(name: string, v: bool, rest: string)
    requires rest == "" || StartsWith(rest, "\n") || StartsWith(rest, "\r\n")
    ensures FindFlag(name + Flag(v) + rest, name) == Some(v)
  {
    var s, i := name + Flag(v) + rest, |name|;
    assert At(s, 0, name) by {
      assert s[0..i] == name;
    }
    assert ValueAt(s, i, Flag(v)) by {
      assert s[i..i + |Flag(v)|] == Flag(v) && s[i + |Flag(v)|..] == rest;
      ValueIsThere(s, i, Flag(v), rest);
    }
    assert !v ==> !At(s, i, "true") by {
      AtChars(s, i, "true");
      assert s[i] == Flag(v)[0];
    }
  }

  ghost predicate NoFlag(lines: seq<string>, name: string) {
    forall j :: 0 <= j < |lines| ==> OneLine(lines[j]) && !StartsWith(lines[j], name)
  }

  lemma OtherLine(lines: seq<string>, eol: string, name: string)
    requires IsEol(eol) && |lines| > 1 && OneLine(name) && OneLine(lines[0]) && !StartsWith(lines[0], name)
    ensures FindFlag(Join(lines, eol), name) == FindFlag(Join(lines[1..], eol), name)
  {
    var s, line := Join(lines, eol), lines[0];
    FirstLine(lines, eol);
    AtChars(s, 0, name);
    assert s[..|line|] == line;
    assert |name| <= |line| ==> s[0..|name|] == line[..|name|];
    assert !At(s, 0, name);
  }

  lemma ThisLine(lines: seq<string>, eol: string, name: string, v: bool)
    requires IsEol(eol) && lines != [] && lines[0] == name + Flag(v)
    ensures FindFlag(Join(lines, eol), name) == Some(v)
  {
    var rest := if |lines| == 1 then "" else eol + Join(lines[1..], eol);
    assert Join(lines, eol) == name + Flag(v) + rest;
    assert rest != "" ==> rest[..|eol|] == eol;
    FlagLineIsRead(name, v, rest);
  }

  lemma {:induction false} FlagInLines(before: seq<string>, after: seq<string>, eol: string, name: string, v: bool)
    requires IsEol(eol) && OneLine(name) && NoFlag(before, name)
    ensures FindFlag(Join(before + [name + Flag(v)] + after, eol), name) == Some(v)
  {
    var lines := before + [name + Flag(v)] + after;
    if before == [] {
      ThisLine(lines, eol, name, v);
    } else {
      OtherLine(lines, eol, name);
      assert lines[1..] == before[1..] + [name + Flag(v)] + after;
      FlagInLines(before[1..], after, eol, name, v);
    }
  }

  lemma StartsWithChars(line: string, name: string)
    ensures StartsWith(line, name) ==> |name| <= |line| && forall k :: 0 <= k < |name| ==> line[k] == name[k]
  {
  }

  lemma DivergingLine(line: string, rest: string, name: string)
    requires Diverges(line, name)
    ensures !StartsWith(line + rest, name) && !StartsWith(line, name)
  {
    StartsWithChars(line + rest, name);
    StartsWithChars(line, name);
  }

  lemma BodyHasNoFlags(w: Wording, b: Binding, name: string)
    requires CleanBinding(b) && DivergesFromAll(w, name)
    ensures NoFlag([BEGIN] + BodyLines(w, b), name)
  {
    BodyIsClean(w, b);
    MarkerFacts();
    DivergingLine(BEGIN, "", name);
    DivergingLine(w.generated, "", name);
    DivergingLine(w.version, b.version, name);
    DivergingLine(w.root, b.installationRoot, name);
    DivergingLine(w.entry, b.governancePath, name);
    DivergingLine(w.manifest, b.manifestPath, name);
    DivergingLine(w.governanceDigest, b.governanceDigest, name);
    DivergingLine(w.manifestDigest, b.manifestDigest, name);
    DivergingLine(w.bundleDigest, b.bundleDigest, name);
    DivergingLine(w.load, "", name);
    DivergingLine(w.keep, "", name);
    DivergingLine(w.fail, "", name);
  }

  lemma NoFlagAppend(lines: seq<string>, line: string, name: string)
    requires NoFlag(lines, name) && OneLine(line) && !StartsWith(line, name)
    ensures NoFlag(lines + [line], name)
  {
  }

  lemma FlagsAreRead(w: Wording, b: Binding, eol: string, prefixAdded: bool, suffixAdded: bool)
    requires Unambiguous(w) && IsEol(eol) && CleanBinding(b)
    ensures BoundaryFlags(w, Projection(w, b, eol, prefixAdded, suffixAdded)) == Success((prefixAdded, suffixAdded))
  {
    hide NoFlag, FindFlag, Join, BodyLines, BEGIN, END, CleanBinding;
    var body := [BEGIN] + BodyLines(w, b);
    var prefixLine, suffixLine := w.prefixAdded + Flag(prefixAdded), w.suffixAdded + Flag(suffixAdded);
    var lines := Lines(w, b, prefixAdded, suffixAdded);
    BodyHasNoFlags(w, b, w.prefixAdded);
    BodyHasNoFlags(w, b, w.suffixAdded);
    FlagInLines(body, [suffixLine, END], eol, w.prefixAdded, prefixAdded);
    assert lines == body + [prefixLine] + [suffixLine, END];
    DivergingLine(w.prefixAdded, Flag(prefixAdded), w.suffixAdded);
    NoFlagAppend(body, prefixLine, w.suffixAdded);
    FlagInLines(body + [prefixLine], [END], eol, w.suffixAdded, suffixAdded);
    assert lines == body + [prefixLine] + [suffixLine] + [END];
  }

  // ---- The wording of the source ----

  const GENERATED_1: PlainText := "This is a generated "
  const GENERATED_2: PlainText := "projection; the installed "
  const GENERATED_3: PlainText := "governance bundle is the "
  const GENERATED_4: PlainText := "only normative source."
  const VERSION_LABEL: PlainText := "Governance version: "
  const ROOT_LABEL_1: PlainText := "Canonical "
  const ROOT_LABEL_2: PlainText := "installation root: "
  const ENTRY_LABEL_1: PlainText := "Normative "
  const ENTRY_LABEL_2: PlainText := "governance entry: "
  const MANIFEST_LABEL: PlainText := "Normative manifest: "
  const EXPECTED: PlainText := "Expected "
  const GOVERNANCE_SHA: PlainText := "governance SHA-256: "
  const MANIFEST_SHA: PlainText := "manifest SHA-256: "
  const BUNDLE_SHA: PlainText := "bundle SHA-256: "
  const LOAD_1: PlainText := "Before every response, "
  const LOAD_2: PlainText := "load the normative "
  const LOAD_3: PlainText := "governance entry and "
  const LOAD_4: PlainText := "manifest from these "
  const LOAD_5: PlainText := "exact paths."
  const KEEP_1: PlainText := "Keep personal local "
  const KEEP_2: PlainText := "rules separate and "
  const KEEP_3: PlainText := "resolve them only through "
  const KEEP_4: PlainText := "the installed manifest."
  const FAIL_1: PlainText := "If governance is missing, "
  const FAIL_2: PlainText := "changed, ambiguous, or "
  const FAIL_3: PlainText := "conflicts with another "
  const FAIL_4: PlainText := "normative source, fail closed."
  const PREFIX_LABEL: PlainText := "Boundary prefix added: "
  const SUFFIX_LABEL: PlainText := "Boundary suffix added: "

  const SOURCE_WORDING := Wording(
    GENERATED_1 + GENERATED_2 + GENERATED_3 + GENERATED_4,
    VERSION_LABEL, ROOT_LABEL_1 + ROOT_LABEL_2, ENTRY_LABEL_1 + ENTRY_LABEL_2, MANIFEST_LABEL,
    EXPECTED + GOVERNANCE_SHA, EXPECTED + MANIFEST_SHA, EXPECTED + BUNDLE_SHA,
    LOAD_1 + LOAD_2 + LOAD_3 + LOAD_4 + LOAD_5, KEEP_1 + KEEP_2 + KEEP_3 + KEEP_4, FAIL_1 + FAIL_2 + FAIL_3 + FAIL_4,
    PREFIX_LABEL, SUFFIX_LABEL)

  lemma DivergesAt(x: string, y: string, i: nat)
    requires i < |x| && i < |y| && x[i] != y[i]
    ensures Diverges(x, y)
  {
  }

  lemma SourceWordingDiverges(flag: PlainText)
    requires |flag| > 1 && flag[0] == 'B' && flag[1] == 'o'
    ensures DivergesFromAll(SOURCE_WORDING, flag)
  {
    var w := SOURCE_WORDING;
    StemFacts();
    OpeningFacts();
    DivergesAt(BEGIN, flag, 0);
    assert w.generated[0] == GENERATED_1[0] == 'T';
    assert w.version[0] == 'G';
    assert w.root[0] == ROOT_LABEL_1[0] == 'C';
    assert w.entry[0] == ENTRY_LABEL_1[0] == 'N';
    assert w.manifest[0] == 'N';
    assert w.governanceDigest[0] == w.manifestDigest[0] == w.bundleDigest[0] == EXPECTED[0] == 'E';
    assert w.load[1] == LOAD_1[1] == 'e';
    assert w.keep[0] == KEEP_1[0] == 'K';
    assert w.fail[0] == FAIL_1[0] == 'I';
  }

  /** The laws below hold for every unambiguous wording, and the source's is one. */
  lemma SourceWordingIsUnambiguous()
    ensures Unambiguous(SOURCE_WORDING)
  {
    assert PREFIX_LABEL[0] == SUFFIX_LABEL[0] == 'B' && PREFIX_LABEL[1] == SUFFIX_LABEL[1] == 'o';
    assert PREFIX_LABEL[9] == 'p' && SUFFIX_LABEL[9] == 's';
    SourceWordingDiverges(PREFIX_LABEL);
    SourceWordingDiverges(SUFFIX_LABEL);
    DivergesAt(PREFIX_LABEL, SUFFIX_LABEL, 9);
  }
}
