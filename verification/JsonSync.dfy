/** `synchronize` of tools/sync_version.py: writing one version into package.json and, twice, into
    package-lock.json without touching another byte. */
module JsonSync {
  import opened Wrappers
  import opened JsonText
  import opened JsonLayout
  import opened JsonParser
  import opened JsonEdit

  const VERSION_PATH: Path := ["version"]
  const ROOT_PATH: Path := ["packages", "", "version"]

  // ---- The text of a file and its tree ----

  predicate IsFile(decode: string -> string, s: string, lead: string, j: Json, rest: string) {
    AllWs(lead) && AllWs(rest) && Valid(decode, j) && (j.Object? || j.EmptyObject?) && s == lead + Text(j) + rest
  }

  /** Reading a file finds the one tree whose text it is, and fails if there is none. */
  lemma ReadTreeIsExact(decode: string -> string, s: string, lead: string, j: Json, rest: string)
    ensures ReadTree(decode, s) == Success((lead, j, rest)) <==> IsFile(decode, s, lead, j, rest)
  {
    hide Text, Valid, WsLen, SkipWs, AllWs, ParseObject;
    if ReadTree(decode, s) == Success((lead, j, rest)) {
      WsSplits(s);
      ObjectIsSound(decode, SkipWs(s));
      ObjectIsRead(decode, SkipWs(s));
      OnlyWs(rest);
      assert s == lead + Text(j) + rest;
    }
    if IsFile(decode, s, lead, j, rest) {
      TextStarts(decode, j, rest);
      assert s == lead + (Text(j) + rest);
      SkipsWs(lead, Text(j) + rest);
      ObjectIsComplete(decode, j, rest);
      SkipsWs(rest, "");
      assert rest + "" == rest;
    }
  }

  lemma OnlyWs(rest: string)
    ensures SkipWs(rest) == "" ==> AllWs(rest)
  {
  }

  lemma ObjectIsRead(decode: string -> string, t: string)
    requires t != ""
    ensures ParseObject(decode, t).Success? ==> ParseObject(decode, t).value.0.Object? || ParseObject(decode, t).value.0.EmptyObject?
  {
    hide ParseMembers;
  }

  // ---- The span of a string value ----

  predicate IsStringAt(decode: string -> string, j: Json, path: Path) {
    var v := Find(decode, j, path);
    v.Some? && v.value.Scalar? && IsString(v.value.text)
  }

  /** `s` holds `v` from `a` to `b`. */
  predicate Holds(s: string, a: nat, b: nat, v: string) {
    a <= b <= |s| && s[a..b] == v
  }

  lemma HoldsInside(h: string, t: string, w: string, a: nat, b: nat, v: string)
    requires Holds(t, a, b, v)
    ensures Holds(h + t + w, |h| + a, |h| + b, v)
  {
  }

  lemma {:induction false} SpanHoldsIn(decode: string -> string, m: Members, path: Path, at: nat)
    requires path != [] && SpanIn(decode, m, path, at).Some?
    ensures var span := SpanIn(decode, m, path, at).value;
      && at <= span.start <= span.end && FindIn(decode, m, path).Some?
      && Holds(MembersText(m), span.start - at, span.end - at, Text(FindIn(decode, m, path).value))
    decreases m, 0
  {
    hide Text, Head, MembersText, Tail, Front, Holds;
    MemberShape(m);
    var span := SpanIn(decode, m, path, at).value;
    if decode(m.key) == path[0] {
      SpanHoldsValue(decode, m.value, path[1..], at + |Head(m)|);
      HoldsInside(Head(m), Text(m.value), Tail(m), span.start - at - |Head(m)|, span.end - at - |Head(m)|, Text(FindIn(decode, m, path).value));
    } else {
      SpanHoldsIn(decode, m.rest, path, at + |Front(m)|);
      HoldsInside(Front(m), MembersText(m.rest), "", span.start - at - |Front(m)|, span.end - at - |Front(m)|, Text(FindIn(decode, m, path).value));
    }
  }

  /** The span of a path holds the text of the value there. */
  lemma {:induction false} SpanHoldsValue(decode: string -> string, j: Json, path: Path, at: nat)
    requires SpanOf(decode, j, path, at).Some?
    ensures var span := SpanOf(decode, j, path, at).value;
      && at <= span.start <= span.end && Find(decode, j, path).Some?
      && Holds(Text(j), span.start - at, span.end - at, Text(Find(decode, j, path).value))
    decreases j, 1
  {
    hide Text, MembersText, SpanIn, FindIn, Holds;
    if path == [] {
      HoldsItself(Text(j));
    } else {
      SpanHoldsIn(decode, j.members, path, at + 1 + |j.lead|);
      var span, lead := SpanOf(decode, j, path, at).value, "{" + j.lead;
      ObjectShape(j.lead, j.members);
      HoldsInside(lead, MembersText(j.members), "", span.start - at - |lead|, span.end - at - |lead|, Text(Find(decode, j, path).value));
    }
  }

  lemma HoldsItself(t: string)
    ensures Holds(t, 0, |t|, t)
  {
  }

  /** `_string_value_span`. */
  function StringValueSpan(decode: string -> string, s: string, fields: map<string, Field>, key: string): Result<Span> {
    if key !in fields || fields[key].start > |s| then Failure
    else
      var f := fields[key];
      var parsed :- StringAt(decode, s, f.start);
      if parsed.1 != f.end then Failure else Success(Span(f.start, f.end))
  }

  lemma {:induction false} FoundIsValidIn(decode: string -> string, m: Members, seen: set<string>, path: Path)
    requires ValidMembers(decode, m, seen) && path != [] && FindIn(decode, m, path).Some?
    ensures Valid(decode, FindIn(decode, m, path).value)
    decreases m, 0
  {
    if decode(m.key) == path[0] {
      FoundIsValid(decode, m.value, path[1..]);
    } else {
      FoundIsValidIn(decode, m.rest, seen + {decode(m.key)}, path);
    }
  }

  lemma {:induction false} FoundIsValid(decode: string -> string, j: Json, path: Path)
    requires Valid(decode, j) && Find(decode, j, path).Some?
    ensures Valid(decode, Find(decode, j, path).value)
    decreases j, 1
  {
    if path != [] {
      FoundIsValidIn(decode, j.members, {}, path);
    }
  }

  lemma StringReadsBack(decode: string -> string, v: Json, w: string)
    requires Valid(decode, v)
    ensures StringLen(Text(v) + w) == if v.Scalar? && IsString(v.text) then |Text(v)| else 0
  {
    hide StringLen, ScalarLen, ValidElems, ValidMembers, AllWs;
    TextStarts(decode, v, w);
    if v.Scalar? && IsString(v.text) {
      StringExtend(v.text, w);
    } else {
      NoStringHere(v, Text(v) + w);
    }
  }

  lemma NoStringHere(v: Json, t: string)
    requires t != "" && Text(v) != "" && t[0] == Text(v)[0]
    requires v.Scalar? ==> IsScalar(v.text) && !IsString(v.text)
    ensures StringLen(t) == 0
  {
  }

  /** A value's field has a string span exactly when the value is a string. */
  lemma StringSpanIsExact(decode: string -> string, s: string, lead: string, j: Json, rest: string, path: Path, fields: map<string, Field>, key: string)
    requires IsFile(decode, s, lead, j, rest) && path != []
    requires SpanOf(decode, j, path, |lead|) == if key in fields then Some(Span(fields[key].start, fields[key].end)) else None
    ensures IsStringAt(decode, j, path) ==> SpanOf(decode, j, path, |lead|).Some?
    ensures StringValueSpan(decode, s, fields, key) ==
      if IsStringAt(decode, j, path) then Success(SpanOf(decode, j, path, |lead|).value) else Failure
  {
    hide Text, Valid, IsFile, IsString, StringLen, From, Find, SpanOf;
    EditIsFound(decode, j, path, path, "", |lead|);
    if key in fields {
      TextAtSpan(decode, s, lead, j, rest, path);
      var v, span := Find(decode, j, path).value, SpanOf(decode, j, path, |lead|).value;
      StringReadsBack(decode, v, s[span.end..]);
    }
  }

  /** The text from the span's start begins with the value's text. */
  lemma TextAtSpan(decode: string -> string, s: string, lead: string, j: Json, rest: string, path: Path)
    requires IsFile(decode, s, lead, j, rest) && SpanOf(decode, j, path, |lead|).Some?
    ensures var span := SpanOf(decode, j, path, |lead|).value;
      && Find(decode, j, path).Some? && span.start < span.end <= |s|
      && var v := Find(decode, j, path).value;
      Valid(decode, v) && From(s, span.start) == Text(v) + s[span.end..] && |Text(v)| == span.end - span.start
  {
    hide Text, Valid, From, AllWs, Find, SpanOf, Holds;
    assert Valid(decode, j) && s == lead + Text(j) + rest;
    hide IsFile;
    SpanHoldsValue(decode, j, path, |lead|);
    var v, span := Find(decode, j, path).value, SpanOf(decode, j, path, |lead|).value;
    assert Valid(decode, v) by {
      FoundIsValid(decode, j, path);
    }
    assert span.start < span.end by {
      Bounds(decode, j, path, |lead|);
    }
    HeldInFile(s, lead, Text(j), rest, span.start, span.end, Text(v));
  }

  lemma HeldInFile(s: string, lead: string, t: string, rest: string, a: nat, b: nat, v: string)
    requires s == lead + t + rest && |lead| <= a <= b && Holds(t, a - |lead|, b - |lead|, v)
    ensures b <= |s| && |v| == b - a && From(s, a) == v + s[b..]
  {
    hide Holds;
    HoldsInside(lead, t, rest, a - |lead|, b - |lead|, v);
    HeldFrom(s, a, b, v);
  }

  lemma HeldFrom(s: string, a: nat, b: nat, v: string)
    requires Holds(s, a, b, v)
    ensures b <= |s| && |v| == b - a && From(s, a) == v + s[b..]
  {
    FromSplits(s, a, b);
  }

  lemma FromSplits(s: string, a: nat, b: nat)
    requires a <= b <= |s|
    ensures From(s, a) == s[a..b] + s[b..]
  {
  }

  // ---- The planned contents ----

  predicate IsVersionChar(c: char) {
    IsDigit(c) || 'a' <= c <= 'z' || 'A' <= c <= 'Z' || c == '.' || c == '-' || c == '+'
  }

  function Quoted(version: string): string {
    "\"" + version + "\""
  }

  lemma {:induction false} PlainBody(version: string)
    requires forall i :: 0 <= i < |version| ==> IsVersionChar(version[i])
    ensures BodyLen(version + "\"") == |version| + 1
  {
    if version == "" {
      assert version + "\"" == "\"";
    } else {
      assert (version + "\"")[1..] == version[1..] + "\"";
      assert (version + "\"")[0] == version[0];
      PlainBody(version[1..]);
    }
  }

  /** A version needs no escape: quoted, it is a JSON string. */
  lemma QuotedIsString(version: string)
    requires forall i :: 0 <= i < |version| ==> IsVersionChar(version[i])
    ensures IsString(Quoted(version)) && IsScalar(Quoted(version))
  {
    PlainBody(version);
    assert Quoted(version)[1..] == version + "\"";
  }

  datatype Replacement = Replacement(span: Span, text: string)

  predicate AtMost(x: Replacement, y: Replacement) {
    x.span.start <= y.span.start
  }

  function Insert(x: Replacement, sorted: seq<Replacement>): seq<Replacement> {
    if sorted == [] || AtMost(sorted[0], x) then [x] + sorted else [sorted[0]] + Insert(x, sorted[1..])
  }

  function Descending(xs: seq<Replacement>): seq<Replacement> {
    if xs == [] then [] else Insert(xs[0], Descending(xs[1..]))
  }

  predicate Applies(s: string, xs: seq<Replacement>)
    decreases |xs|
  {
    xs == [] || (xs[0].span.start <= xs[0].span.end <= |s| && Applies(Splice(s, xs[0].span.start, xs[0].span.end, xs[0].text), xs[1..]))
  }

  function ReplaceInOrder(s: string, xs: seq<Replacement>): string
    requires Applies(s, xs)
    decreases |xs|
  {
    if xs == [] then s else ReplaceInOrder(Splice(s, xs[0].span.start, xs[0].span.end, xs[0].text), xs[1..])
  }

  /** `_replace_values`: from the back to the front. */
  method ReplaceValues(source: string, xs: seq<Replacement>) returns (s: string)
    requires Applies(source, Descending(xs))
    ensures s == ReplaceInOrder(source, Descending(xs))
  {
    var order := Descending(xs);
    s := source;
    for i := 0 to |order|
      invariant Applies(s, order[i..]) && ReplaceInOrder(s, order[i..]) == ReplaceInOrder(source, order)
    {
      var x := order[i];
      assert order[i..][1..] == order[i + 1..];
      s := s[..x.span.start] + x.text + s[x.span.end..];
    }
  }

  lemma OneReplaced(s: string, x: Replacement)
    requires x.span.start <= x.span.end <= |s|
    ensures Applies(s, Descending([x])) && ReplaceInOrder(s, Descending([x])) == Splice(s, x.span.start, x.span.end, x.text)
  {
    assert Descending([x]) == [x];
  }

  lemma TwoReplaced(s: string, x: Replacement, y: Replacement)
    requires x.span.start <= x.span.end <= y.span.start <= y.span.end <= |s| && x.span.start < y.span.start
    ensures var once := Splice(s, y.span.start, y.span.end, y.text);
      && x.span.end <= |once|
      && Applies(s, Descending([x, y])) && Applies(s, Descending([y, x]))
      && ReplaceInOrder(s, Descending([x, y])) == Splice(once, x.span.start, x.span.end, x.text)
      && ReplaceInOrder(s, Descending([y, x])) == Splice(once, x.span.start, x.span.end, x.text)
  {
    BackToFront(x, y);
    var once := Splice(s, y.span.start, y.span.end, y.text);
    assert [y, x][1..] == [x];
    OneReplaced(once, x);
    assert Descending([x]) == [x];
  }

  lemma BackToFront(x: Replacement, y: Replacement)
    requires x.span.start < y.span.start
    ensures Descending([x, y]) == [y, x] && Descending([y, x]) == [y, x]
  {
    assert [x, y][1..] == [y] && [y, x][1..] == [x];
    assert Descending([y]) == [y] && Descending([x]) == [x];
    assert [y][1..] == [] && Insert(x, [y]) == [y] + [x] && Insert(y, [x]) == [y, x];
  }

  // ---- Each file ----

  /** The whole file after replacing the value at a path. */
  lemma SpliceFile(decode: string -> string, lead: string, j: Json, rest: string, path: Path, t: string)
    requires SpanOf(decode, j, path, |lead|).Some?
    ensures var span, s := SpanOf(decode, j, path, |lead|).value, lead + Text(j) + rest;
      span.start <= span.end <= |s| && Splice(s, span.start, span.end, t) == lead + Text(Edit(decode, j, path, t)) + rest
  {
    hide Text, Splice;
    EditSplices(decode, j, path, |lead|, t);
    var span := SpanOf(decode, j, path, |lead|).value;
    SpliceInside(lead, Text(j), rest, span.start - |lead|, span.end - |lead|, t);
  }

  lemma {:induction false} CommuteIn(decode: string -> string, m: Members, p: Path, q: Path, t: string, u: string)
    requires p != [] && q != [] && !(p <= q) && !(q <= p)
    ensures EditIn(decode, EditIn(decode, m, p, t), q, u) == EditIn(decode, EditIn(decode, m, q, u), p, t)
    decreases m, 0
  {
    if decode(m.key) == p[0] && decode(m.key) == q[0] {
      PrefixOfTail(p, q);
      PrefixOfTail(q, p);
      EditsCommute(decode, m.value, p[1..], q[1..], t, u);
    } else if m.MoreMember? && decode(m.key) != p[0] && decode(m.key) != q[0] {
      CommuteIn(decode, m.rest, p, q, t, u);
    }
  }

  /** Edits of two values apart from each other can be made in either order. */
  lemma {:induction false} EditsCommute(decode: string -> string, j: Json, p: Path, q: Path, t: string, u: string)
    requires !(p <= q) && !(q <= p)
    ensures Edit(decode, Edit(decode, j, p, t), q, u) == Edit(decode, Edit(decode, j, q, u), p, t)
    decreases j, 1
  {
    if j.Object? {
      CommuteIn(decode, j.members, p, q, t, u);
    }
  }

  lemma {:induction false} TwiceIn(decode: string -> string, m: Members, p: Path, t: string)
    requires p != []
    ensures EditIn(decode, EditIn(decode, m, p, t), p, t) == EditIn(decode, m, p, t)
    decreases m, 0
  {
    if decode(m.key) == p[0] {
      EditTwice(decode, m.value, p[1..], t);
    } else if m.MoreMember? {
      TwiceIn(decode, m.rest, p, t);
    }
  }

  lemma {:induction false} EditTwice(decode: string -> string, j: Json, p: Path, t: string)
    ensures Edit(decode, Edit(decode, j, p, t), p, t) == Edit(decode, j, p, t)
    decreases j, 1
  {
    if p != [] && j.Object? {
      TwiceIn(decode, j.members, p, t);
    }
  }

  /** Replacing both values from the back gives the text of the tree with both edits. */
  lemma SpliceTwo(decode: string -> string, lead: string, j: Json, rest: string, p: Path, q: Path, t: string)
    requires Valid(decode, j) && !(p <= q) && !(q <= p)
    requires SpanOf(decode, j, p, |lead|).Some? && SpanOf(decode, j, q, |lead|).Some?
    ensures var s, x, y := lead + Text(j) + rest, SpanOf(decode, j, p, |lead|).value, SpanOf(decode, j, q, |lead|).value;
      var xs := [Replacement(x, t), Replacement(y, t)];
      && Applies(s, Descending(xs))
      && ReplaceInOrder(s, Descending(xs)) == lead + Text(Edit(decode, Edit(decode, j, p, t), q, t)) + rest
  {
    hide Text, Valid, Splice, Edit, SpanOf, Descending, Applies, ReplaceInOrder;
    var s, x, y := lead + Text(j) + rest, SpanOf(decode, j, p, |lead|).value, SpanOf(decode, j, q, |lead|).value;
    SpansNestOrPart(decode, j, p, q, |lead|);
    InFile(decode, lead, j, rest, p);
    InFile(decode, lead, j, rest, q);
    if x.end <= y.start {
      LaterFirst(decode, lead, j, rest, p, q, t);
      TwoReplaced(s, Replacement(x, t), Replacement(y, t));
      EditsCommute(decode, j, p, q, t, t);
    } else {
      LaterFirst(decode, lead, j, rest, q, p, t);
      TwoReplaced(s, Replacement(y, t), Replacement(x, t));
    }
  }

  lemma InFile(decode: string -> string, lead: string, j: Json, rest: string, p: Path)
    requires Valid(decode, j) && SpanOf(decode, j, p, |lead|).Some?
    ensures var x := SpanOf(decode, j, p, |lead|).value;
      |lead| <= x.start < x.end <= |lead + Text(j) + rest|
  {
    hide Text, Valid;
    Bounds(decode, j, p, |lead|);
  }

  /** The value at `q` comes later and is replaced first; the one at `p` stays where it was. */
  lemma LaterFirst(decode: string -> string, lead: string, j: Json, rest: string, p: Path, q: Path, t: string)
    requires Valid(decode, j) && !(p <= q) && !(q <= p)
    requires SpanOf(decode, j, p, |lead|).Some? && SpanOf(decode, j, q, |lead|).Some?
    requires SpanOf(decode, j, p, |lead|).value.end <= SpanOf(decode, j, q, |lead|).value.start
    ensures var s, x, y := lead + Text(j) + rest, SpanOf(decode, j, p, |lead|).value, SpanOf(decode, j, q, |lead|).value;
      && y.start <= y.end <= |s| && x.start <= x.end <= |Splice(s, y.start, y.end, t)|
      && Splice(Splice(s, y.start, y.end, t), x.start, x.end, t) == lead + Text(Edit(decode, Edit(decode, j, q, t), p, t)) + rest
  {
    hide Text, Valid, Splice, Edit, SpanOf;
    InFile(decode, lead, j, rest, p);
    InFile(decode, lead, j, rest, q);
    SpliceFile(decode, lead, j, rest, q, t);
    EditMovesSpans(decode, j, q, p, |lead|, t);
    SpliceFile(decode, lead, Edit(decode, j, q, t), rest, p, t);
  }

  // ---- What the run plans, on trees ----

  /** The version is written over the string value of "version", and nothing else changes. */
  function PackageContent(decode: string -> string, s: string, version: string): Result<string> {
    var (lead, j, rest) :- ReadTree(decode, s);
    if !IsStringAt(decode, j, VERSION_PATH) then Failure
    else Success(lead + Text(Edit(decode, j, VERSION_PATH, Quoted(version))) + rest)
  }

  function BothEdited(decode: string -> string, j: Json, version: string): Json {
    Edit(decode, Edit(decode, j, VERSION_PATH, Quoted(version)), ROOT_PATH, Quoted(version))
  }

  /** The same at the top and for the root package. */
  function LockContent(decode: string -> string, s: string, version: string): Result<string> {
    var (lead, j, rest) :- ReadTree(decode, s);
    if !IsStringAt(decode, j, VERSION_PATH) || !IsStringAt(decode, j, ROOT_PATH) then Failure
    else Success(lead + Text(BothEdited(decode, j, version)) + rest)
  }

  lemma FileIsRead(decode: string -> string, s: string)
    ensures LayoutOfText(decode, s).Success? <==> ReadTree(decode, s).Success?
    ensures ReadTree(decode, s).Success? ==>
      var (lead, j, rest) := ReadTree(decode, s).value;
      IsFile(decode, s, lead, j, rest) && LayoutOf(decode, j, |lead|) == Fields(LayoutOfText(decode, s).value)
  {
    hide ReadTree, Valid, AllWs, Text;
    if ReadTree(decode, s).Success? {
      var (lead, j, rest) := ReadTree(decode, s).value;
      ReadTreeIsExact(decode, s, lead, j, rest);
    }
  }

  lemma VersionSpan(decode: string -> string, s: string, lead: string, j: Json, rest: string, fields: map<string, Field>)
    requires IsFile(decode, s, lead, j, rest) && LayoutOf(decode, j, |lead|) == Fields(fields)
    ensures IsStringAt(decode, j, VERSION_PATH) ==> SpanOf(decode, j, VERSION_PATH, |lead|).Some?
    ensures StringValueSpan(decode, s, fields, "version") ==
      if IsStringAt(decode, j, VERSION_PATH) then Success(SpanOf(decode, j, VERSION_PATH, |lead|).value) else Failure
  {
    hide Text, AllWs, StringValueSpan, IsStringAt, SpanOf, LayoutOf;
    assert Valid(decode, j);
    LayoutFinds(decode, j, VERSION_PATH, |lead|);
    StringSpanIsExact(decode, s, lead, j, rest, VERSION_PATH, fields, "version");
  }

  /** `package.json`. */
  method PlanPackage(decode: string -> string, s: string, version: string) returns (r: Result<string>)
    ensures r == PackageContent(decode, s, version)
  {
    hide StringValueSpan, LayoutOfText, ReadTree, Splice, Text, IsStringAt, SpanOf, Edit, Valid, AllWs;
    var fields := ReadLayout(decode, s);
    FileIsRead(decode, s);
    if fields.Failure? {
      return Failure;
    }
    var span := StringValueSpan(decode, s, fields.value, "version");
    ghost var (lead, j, rest) := ReadTree(decode, s).value;
    VersionSpan(decode, s, lead, j, rest, fields.value);
    if span.Failure? {
      return Failure;
    }
    SpliceFile(decode, lead, j, rest, VERSION_PATH, Quoted(version));
    OneReplaced(s, Replacement(span.value, Quoted(version)));
    var content := ReplaceValues(s, [Replacement(span.value, Quoted(version))]);
    return Success(content);
  }

  /** The fields of the value of a key that is an object. */
  function ObjectIn(fields: map<string, Field>, key: string): Option<map<string, Field>> {
    if key !in fields then None
    else
      match fields[key].child
      case NoFields => None
      case Fields(inner) => Some(inner)
  }

  function RootFields(fields: map<string, Field>): Option<map<string, Field>> {
    match ObjectIn(fields, "packages")
    case None => None
    case Some(packages) => ObjectIn(packages, "")
  }

  lemma RootLayout(fields: map<string, Field>)
    ensures LayoutSpan(Fields(fields), ROOT_PATH) ==
      match RootFields(fields)
      case None => None
      case Some(root) => if "version" in root then Some(Span(root["version"].start, root["version"].end)) else None
  {
    assert ROOT_PATH[1..] == ["", "version"] && ["", "version"][1..] == ["version"];
    if ObjectIn(fields, "packages").Some? {
      var packages := fields["packages"].child;
      assert LayoutSpan(Fields(fields), ROOT_PATH) == LayoutSpan(packages, ["", "version"]);
      if ObjectIn(packages.fields, "").Some? {
        assert LayoutSpan(packages, ["", "version"]) == LayoutSpan(packages.fields[""].child, ["version"]);
      } else if "" in packages.fields {
        assert LayoutSpan(packages.fields[""].child, ["version"]) == None;
      }
    } else if "packages" in fields {
      assert LayoutSpan(fields["packages"].child, ["", "version"]) == None;
    }
  }

  lemma RootSpan(decode: string -> string, s: string, lead: string, j: Json, rest: string, fields: map<string, Field>)
    requires IsFile(decode, s, lead, j, rest) && LayoutOf(decode, j, |lead|) == Fields(fields)
    ensures RootFields(fields).None? ==> !IsStringAt(decode, j, ROOT_PATH)
    ensures IsStringAt(decode, j, ROOT_PATH) ==> SpanOf(decode, j, ROOT_PATH, |lead|).Some?
    ensures RootFields(fields).Some? ==>
      StringValueSpan(decode, s, RootFields(fields).value, "version") ==
        if IsStringAt(decode, j, ROOT_PATH) then Success(SpanOf(decode, j, ROOT_PATH, |lead|).value) else Failure
  {
    hide Text, AllWs, StringValueSpan, Find, SpanOf, LayoutOf, LayoutSpan, RootFields, IsString, ROOT_PATH;
    assert Valid(decode, j);
    NonEmptyRoot();
    LayoutFinds(decode, j, ROOT_PATH, |lead|);
    RootLayout(fields);
    match RootFields(fields) {
      case None => EditIsFound(decode, j, ROOT_PATH, ROOT_PATH, "", |lead|);
      case Some(root) => StringSpanIsExact(decode, s, lead, j, rest, ROOT_PATH, root, "version");
    }
  }

  lemma NonEmptyRoot()
    ensures ROOT_PATH != [] && !(VERSION_PATH <= ROOT_PATH) && !(ROOT_PATH <= VERSION_PATH)
  {
    assert VERSION_PATH[0] == "version" && ROOT_PATH[0] == "packages";
    assert "version"[0] != "packages"[0];
  }

  /** `package-lock.json`. */
  method PlanLock(decode: string -> string, s: string, version: string) returns (r: Result<string>)
    ensures r == LockContent(decode, s, version)
  {
    hide StringValueSpan, LayoutOfText, ReadTree, Splice, Text, IsStringAt, SpanOf, Edit, Valid, AllWs, VERSION_PATH, ROOT_PATH;
    var read := ReadLayout(decode, s);
    FileIsRead(decode, s);
    if read.Failure? {
      return Failure;
    }
    var fields, t := read.value, Quoted(version);
    ghost var (lead, j, rest) := ReadTree(decode, s).value;
    VersionSpan(decode, s, lead, j, rest, fields);
    RootSpan(decode, s, lead, j, rest, fields);
    var packages := ObjectIn(fields, "packages");
    if packages.None? {
      return Failure;
    }
    var root := ObjectIn(packages.value, "");
    if root.None? {
      return Failure;
    }
    var top, inner := StringValueSpan(decode, s, fields, "version"), StringValueSpan(decode, s, root.value, "version");
    if top.Failure? || inner.Failure? {
      return Failure;
    }
    NonEmptyRoot();
    SpliceTwo(decode, lead, j, rest, VERSION_PATH, ROOT_PATH, t);
    var content := ReplaceValues(s, [Replacement(top.value, t), Replacement(inner.value, t)]);
    return Success(content);
  }

  // ---- What the planned contents are ----

  /** The planned package.json reads as the same tree with the one value changed, has that value
      where it looks for it, and planning it again changes nothing. */
  lemma PackageContentIsStable(decode: string -> string, s: string, version: string)
    requires IsScalar(Quoted(version)) && IsString(Quoted(version)) && PackageContent(decode, s, version).Success?
    ensures var content := PackageContent(decode, s, version).value;
      var (lead, j, rest) := ReadTree(decode, s).value;
      && ReadTree(decode, content) == Success((lead, Edit(decode, j, VERSION_PATH, Quoted(version)), rest))
      && Find(decode, Edit(decode, j, VERSION_PATH, Quoted(version)), VERSION_PATH) == Some(Scalar(Quoted(version)))
      && PackageContent(decode, content, version) == Success(content)
  {
    hide Text, Valid, AllWs, ReadTree, Find, IsString, IsScalar, Edit;
    var (lead, j, rest) := ReadTree(decode, s).value;
    ReadTreeIsExact(decode, s, lead, j, rest);
    EditedFile(decode, lead, j, rest, VERSION_PATH, Quoted(version));
    EditIsFound(decode, j, VERSION_PATH, VERSION_PATH, Quoted(version), 0);
    EditTwice(decode, j, VERSION_PATH, Quoted(version));
  }

  lemma EditedFile(decode: string -> string, lead: string, j: Json, rest: string, p: Path, t: string)
    requires AllWs(lead) && AllWs(rest) && Valid(decode, j) && (j.Object? || j.EmptyObject?) && p != [] && IsScalar(t)
    ensures var j' := Edit(decode, j, p, t);
      && Valid(decode, j') && (j'.Object? || j'.EmptyObject?)
      && ReadTree(decode, lead + Text(j') + rest) == Success((lead, j', rest))
  {
    hide Text, Valid, AllWs, ReadTree, IsScalar;
    EditIsValid(decode, j, p, t);
    ReadTreeIsExact(decode, lead + Text(Edit(decode, j, p, t)) + rest, lead, Edit(decode, j, p, t), rest);
  }

  /** The same for package-lock.json and its two values. */
  lemma LockContentIsStable(decode: string -> string, s: string, version: string)
    requires IsScalar(Quoted(version)) && IsString(Quoted(version)) && LockContent(decode, s, version).Success?
    ensures var content := LockContent(decode, s, version).value;
      var (lead, j, rest) := ReadTree(decode, s).value;
      var j' := BothEdited(decode, j, version);
      && ReadTree(decode, content) == Success((lead, j', rest))
      && Find(decode, j', VERSION_PATH) == Some(Scalar(Quoted(version)))
      && Find(decode, j', ROOT_PATH) == Some(Scalar(Quoted(version)))
      && LockContent(decode, content, version) == Success(content)
  {
    hide Text, Valid, AllWs, ReadTree, Find, IsString, IsScalar, Edit, VERSION_PATH, ROOT_PATH;
    var (lead, j, rest) := ReadTree(decode, s).value;
    var t := Quoted(version);
    NonEmptyRoot();
    VersionPathIsThere();
    ReadTreeIsExact(decode, s, lead, j, rest);
    var once := Edit(decode, j, VERSION_PATH, t);
    EditedFile(decode, lead, j, rest, VERSION_PATH, t);
    EditedFile(decode, lead, once, rest, ROOT_PATH, t);
    EditIsFound(decode, j, VERSION_PATH, ROOT_PATH, t, 0);
    EditIsFound(decode, once, ROOT_PATH, VERSION_PATH, t, 0);
    var both := Edit(decode, once, ROOT_PATH, t);
    assert Edit(decode, Edit(decode, both, VERSION_PATH, t), ROOT_PATH, t) == both by {
      EditsCommute(decode, once, ROOT_PATH, VERSION_PATH, t, t);
      EditTwice(decode, j, VERSION_PATH, t);
      EditTwice(decode, once, ROOT_PATH, t);
    }
  }

  lemma VersionPathIsThere()
    ensures VERSION_PATH != []
  {
  }
}
