/** Editing commutes with parsing: replacing the text of one value in place is replacing it in the
    tree, and moves every other span by the same amount (tools/sync_version.py). */
module JsonEdit {
  import opened Wrappers
  import opened JsonText
  import opened JsonLayout
  import opened JsonParser

  type Path = seq<string>

  // ---- Values and spans by the keys that lead to them ----

  function Find(decode: string -> string, j: Json, path: Path): Option<Json>
    decreases j, 0
  {
    if path == [] then Some(j)
    else if j.Object? then FindIn(decode, j.members, path)
    else None
  }

  function FindIn(decode: string -> string, m: Members, path: Path): Option<Json>
    requires path != []
    decreases m, 1
  {
    if decode(m.key) == path[0] then Find(decode, m.value, path[1..])
    else if m.MoreMember? then FindIn(decode, m.rest, path)
    else None
  }

  /** What stands before the fields behind the first one. */
  function Front(m: Members): string
    requires m.MoreMember?
  {
    Head(m) + Text(m.value) + m.after + "," + m.next
  }

  datatype Span = Span(start: nat, end: nat)

  function SpanOf(decode: string -> string, j: Json, path: Path, at: nat): Option<Span>
    decreases j, 0
  {
    if path == [] then Some(Span(at, at + |Text(j)|))
    else if j.Object? then SpanIn(decode, j.members, path, at + 1 + |j.lead|)
    else None
  }

  function SpanIn(decode: string -> string, m: Members, path: Path, at: nat): Option<Span>
    requires path != []
    decreases m, 1
  {
    if decode(m.key) == path[0] then SpanOf(decode, m.value, path[1..], at + |Head(m)|)
    else if m.MoreMember? then SpanIn(decode, m.rest, path, at + |Front(m)|)
    else None
  }

  function Edit(decode: string -> string, j: Json, path: Path, t: string): Json
    decreases j, 0
  {
    if path == [] then Scalar(t)
    else if j.Object? then Object(j.lead, EditIn(decode, j.members, path, t))
    else j
  }

  function EditIn(decode: string -> string, m: Members, path: Path, t: string): Members
    requires path != []
    decreases m, 1
  {
    if decode(m.key) == path[0] then m.(value := Edit(decode, m.value, path[1..], t))
    else if m.MoreMember? then m.(rest := EditIn(decode, m.rest, path, t))
    else m
  }

  // ---- The layout's spans are these spans ----

  function LayoutSpan(l: Layout, path: Path): Option<Span>
    requires path != []
  {
    if l.NoFields? || path[0] !in l.fields then None
    else
      var f := l.fields[path[0]];
      if |path| == 1 then Some(Span(f.start, f.end)) else LayoutSpan(f.child, path[1..])
  }

  /** The field of a key among the members, if any. */
  function FieldAt(decode: string -> string, m: Members, at: nat, key: string): Option<Field> {
    if decode(m.key) == key then Some(FieldOf(decode, m, at))
    else if m.MoreMember? then FieldAt(decode, m.rest, at + |Front(m)|, key)
    else None
  }

  lemma FrontLength(m: Members)
    requires m.MoreMember?
    ensures |Front(m)| == |Head(m) + Text(m.value) + m.after| + 1 + |m.next|
  {
  }

  lemma {:induction false} FieldsAreThere(decode: string -> string, m: Members, at: nat, seen: map<string, Field>, key: string)
    requires ValidMembers(decode, m, seen.Keys)
    ensures var fields := FieldsOf(decode, m, at, seen);
      && (key in fields <==> key in seen || FieldAt(decode, m, at, key).Some?)
      && (FieldAt(decode, m, at, key).Some? ==> key !in seen && fields[key] == FieldAt(decode, m, at, key).value)
      && (key in seen ==> fields[key] == seen[key])
    decreases m
  {
    hide Text, Head, FieldOf, Valid, AllWs, Front;
    if m.MoreMember? {
      FrontLength(m);
      var fields := seen[decode(m.key) := FieldOf(decode, m, at)];
      assert fields.Keys == seen.Keys + {decode(m.key)};
      FieldsAreThere(decode, m.rest, at + |Front(m)|, fields, key);
    }
  }

  lemma {:induction false} SpansOfMembers(decode: string -> string, m: Members, seen: set<string>, at: nat, path: Path)
    requires ValidMembers(decode, m, seen) && path != []
    ensures SpanIn(decode, m, path, at) ==
      match FieldAt(decode, m, at, path[0])
      case None => None
      case Some(f) => if |path| == 1 then Some(Span(f.start, f.end)) else LayoutSpan(f.child, path[1..])
    decreases m, 0
  {
    hide Text, Head, AllWs, Front;
    if decode(m.key) == path[0] {
      if |path| > 1 {
        LayoutFinds(decode, m.value, path[1..], at + |Head(m)|);
      }
    } else if m.MoreMember? {
      SpansOfMembers(decode, m.rest, seen + {decode(m.key)}, at + |Front(m)|, path);
    }
  }

  /** Looking a path up in the layout gives the span of the value there. */
  lemma {:induction false} LayoutFinds(decode: string -> string, j: Json, path: Path, at: nat)
    requires Valid(decode, j) && path != []
    ensures LayoutSpan(LayoutOf(decode, j, at), path) == SpanOf(decode, j, path, at)
    decreases j, 1
  {
    hide Text, Head, AllWs, Front, FieldsOf, FieldAt, ValidMembers;
    if j.Object? {
      SpansOfMembers(decode, j.members, {}, at + 1 + |j.lead|, path);
      var none: map<string, Field> := map[];
      assert none.Keys == {};
      FieldsAreThere(decode, j.members, at + 1 + |j.lead|, none, path[0]);
    }
  }

  // ---- Replacing the text of one value ----

  function Splice(s: string, start: nat, end: nat, t: string): string
    requires start <= end <= |s|
  {
    s[..start] + t + s[end..]
  }

  lemma SpliceInside(h: string, v: string, w: string, a: nat, b: nat, t: string)
    requires a <= b <= |v|
    ensures |h| + b <= |h + v + w| && Splice(h + v + w, |h| + a, |h| + b, t) == h + Splice(v, a, b, t) + w
  {
    var s := h + v + w;
    assert s[..|h| + a] == h + v[..a];
    assert s[|h| + b..] == v[b..] + w;
  }

  function Tail(m: Members): string {
    if m.LastMember? then m.after + "}" else m.after + "," + m.next + MembersText(m.rest)
  }

  lemma MemberShape(m: Members)
    ensures MembersText(m) == Head(m) + Text(m.value) + Tail(m)
    ensures m.MoreMember? ==> MembersText(m) == Front(m) + MembersText(m.rest) + ""
  {
    hide Head, Text;
    if m.MoreMember? {
      Regroup(Head(m), Text(m.value), m.after, m.next, MembersText(m.rest));
    } else {
      assert Head(m) + Text(m.value) + m.after + "}" == Head(m) + Text(m.value) + (m.after + "}");
    }
  }

  lemma Regroup(a: string, b: string, c: string, d: string, e: string)
    ensures a + b + c + "," + d + e == a + b + (c + "," + d + e)
    ensures a + b + c + "," + d + e == (a + b + c + "," + d) + e + ""
  {
  }

  lemma ObjectShape(lead: string, m: Members)
    ensures Text(Object(lead, m)) == ("{" + lead) + MembersText(m) + ""
  {
  }

  lemma {:induction false} EditSplicesIn(decode: string -> string, m: Members, path: Path, at: nat, t: string)
    requires path != [] && SpanIn(decode, m, path, at).Some?
    ensures var span := SpanIn(decode, m, path, at).value;
      && at <= span.start <= span.end <= at + |MembersText(m)|
      && MembersText(EditIn(decode, m, path, t)) == Splice(MembersText(m), span.start - at, span.end - at, t)
    decreases m, 0
  {
    hide Text, Head, MembersText, Tail, Front, Splice, SpanOf;
    MemberShape(m);
    var m' := EditIn(decode, m, path, t);
    MemberShape(m');
    if decode(m.key) == path[0] {
      EditSplices(decode, m.value, path[1..], at + |Head(m)|, t);
      var span := SpanIn(decode, m, path, at).value;
      SpliceInside(Head(m), Text(m.value), Tail(m), span.start - at - |Head(m)|, span.end - at - |Head(m)|, t);
      SameAround(m, m');
    } else {
      EditSplicesIn(decode, m.rest, path, at + |Front(m)|, t);
      var span := SpanIn(decode, m, path, at).value;
      SpliceInside(Front(m), MembersText(m.rest), "", span.start - at - |Front(m)|, span.end - at - |Front(m)|, t);
      SameFront(m, m');
    }
  }

  lemma SameAround(m: Members, m': Members)
    requires m' == m.(value := m'.value)
    ensures Head(m') == Head(m) && Tail(m') == Tail(m)
  {
  }

  lemma SameFront(m: Members, m': Members)
    requires m.MoreMember? && m'.MoreMember? && m' == m.(rest := m'.rest)
    ensures Front(m') == Front(m) && Head(m') == Head(m)
  {
  }

  /** Editing the tree is splicing the text at the value's span. */
  lemma {:induction false} EditSplices(decode: string -> string, j: Json, path: Path, at: nat, t: string)
    requires SpanOf(decode, j, path, at).Some?
    ensures var span := SpanOf(decode, j, path, at).value;
      && at <= span.start <= span.end <= at + |Text(j)|
      && Text(Edit(decode, j, path, t)) == Splice(Text(j), span.start - at, span.end - at, t)
    decreases j, 1
  {
    if path != [] {
      hide Text, MembersText, Splice, SpanIn;
      EditSplicesIn(decode, j.members, path, at + 1 + |j.lead|, t);
      var span := SpanOf(decode, j, path, at).value;
      var lead := "{" + j.lead;
      SpliceInside(lead, MembersText(j.members), "", span.start - at - |lead|, span.end - at - |lead|, t);
      ObjectShape(j.lead, j.members);
      ObjectShape(j.lead, EditIn(decode, j.members, path, t));
    }
  }

  // ---- Spans of different values ----

  lemma {:induction false} BoundsIn(decode: string -> string, m: Members, seen: set<string>, path: Path, at: nat)
    requires ValidMembers(decode, m, seen) && path != [] && SpanIn(decode, m, path, at).Some?
    ensures var span := SpanIn(decode, m, path, at).value;
      at <= span.start < span.end <= at + |MembersText(m)|
    decreases m, 0
  {
    hide Text, Head, AllWs, MembersText, Tail, Front;
    MemberShape(m);
    if decode(m.key) == path[0] {
      Bounds(decode, m.value, path[1..], at + |Head(m)|);
    } else {
      BoundsIn(decode, m.rest, seen + {decode(m.key)}, path, at + |Front(m)|);
    }
  }

  /** A value lies within its tree and is not empty. */
  lemma {:induction false} Bounds(decode: string -> string, j: Json, path: Path, at: nat)
    requires Valid(decode, j) && SpanOf(decode, j, path, at).Some?
    ensures var span := SpanOf(decode, j, path, at).value;
      at <= span.start < span.end <= at + |Text(j)|
    decreases j, 1
  {
    if path == [] {
      TextStarts(decode, j, "");
      assert Text(j) + "" == Text(j);
    } else {
      hide MembersText, AllWs;
      BoundsIn(decode, j.members, {}, path, at + 1 + |j.lead|);
      ObjectShape(j.lead, j.members);
    }
  }

  predicate Apart(x: Span, y: Span) {
    x.end <= y.start || y.end <= x.start
  }

  predicate Within(x: Span, y: Span) {
    y.start <= x.start && x.end <= y.end
  }

  lemma {:induction false} SiblingsIn(decode: string -> string, m: Members, seen: set<string>, p: Path, q: Path, at: nat)
    requires ValidMembers(decode, m, seen) && p != [] && q != []
    requires SpanIn(decode, m, p, at).Some? && SpanIn(decode, m, q, at).Some?
    ensures var x, y := SpanIn(decode, m, p, at).value, SpanIn(decode, m, q, at).value;
      (p <= q ==> Within(y, x)) && (!(p <= q) && !(q <= p) ==> Apart(x, y))
    decreases m, 0
  {
    hide Text, Head, AllWs, MembersText, Tail, Front;
    MemberShape(m);
    if decode(m.key) == p[0] && decode(m.key) == q[0] {
      PrefixOfTail(p, q);
      PrefixOfTail(q, p);
      SpansNestOrPart(decode, m.value, p[1..], q[1..], at + |Head(m)|);
    } else if decode(m.key) == p[0] {
      FirstEndsBeforeRest(decode, m, seen, p, q, at);
    } else if decode(m.key) == q[0] {
      FirstEndsBeforeRest(decode, m, seen, q, p, at);
    } else {
      SiblingsIn(decode, m.rest, seen + {decode(m.key)}, p, q, at + |Front(m)|);
    }
  }

  lemma PrefixOfTail(p: Path, q: Path)
    requires p != [] && q != [] && p[0] == q[0]
    ensures p <= q <==> p[1..] <= q[1..]
    ensures p == q <==> p[1..] == q[1..]
  {
    assert p == [p[0]] + p[1..] && q == [q[0]] + q[1..];
    if p[1..] <= q[1..] {
      assert forall i :: 0 < i < |p| ==> p[i] == p[1..][i - 1] && q[i] == q[1..][i - 1];
    }
    if p <= q {
      assert forall i :: 0 <= i < |p| - 1 ==> p[1..][i] == p[i + 1] && q[1..][i] == q[i + 1];
    }
  }

  lemma FirstEndsBeforeRest(decode: string -> string, m: Members, seen: set<string>, p: Path, q: Path, at: nat)
    requires ValidMembers(decode, m, seen) && p != [] && q != [] && decode(m.key) == p[0] && decode(m.key) != q[0]
    requires SpanIn(decode, m, p, at).Some? && SpanIn(decode, m, q, at).Some?
    ensures SpanIn(decode, m, p, at).value.end < at + |Front(m)| <= SpanIn(decode, m, q, at).value.start
  {
    hide Text, AllWs, MembersText;
    Bounds(decode, m.value, p[1..], at + |Head(m)|);
    BoundsIn(decode, m.rest, seen + {decode(m.key)}, q, at + |Front(m)|);
  }

  /** A value inside another lies within its span; any two others lie apart. */
  lemma {:induction false} SpansNestOrPart(decode: string -> string, j: Json, p: Path, q: Path, at: nat)
    requires Valid(decode, j) && SpanOf(decode, j, p, at).Some? && SpanOf(decode, j, q, at).Some?
    ensures var x, y := SpanOf(decode, j, p, at).value, SpanOf(decode, j, q, at).value;
      (p <= q ==> Within(y, x)) && (!(p <= q) && !(q <= p) ==> Apart(x, y))
    decreases j, 1
  {
    hide Text, AllWs;
    if p == [] {
      Bounds(decode, j, q, at);
    } else if q == [] {
      Bounds(decode, j, p, at);
    } else {
      SiblingsIn(decode, j.members, {}, p, q, at + 1 + |j.lead|);
    }
  }

  // ---- How an edit moves the other spans ----

  /** Where a position behind an edited span goes. */
  function Moved(x: nat, edited: Span, length: nat): nat
    requires edited.start <= edited.end
  {
    if x >= edited.end then x - (edited.end - edited.start) + length else x
  }

  function MovedSpan(span: Option<Span>, edited: Span, length: nat): Option<Span>
    requires edited.start <= edited.end
  {
    match span
    case None => None
    case Some(x) => Some(Span(Moved(x.start, edited, length), Moved(x.end, edited, length)))
  }

  function Shifted(span: Option<Span>, d: nat): Option<Span> {
    match span
    case None => None
    case Some(x) => Some(Span(x.start + d, x.end + d))
  }

  lemma {:induction false} ShiftIn(decode: string -> string, m: Members, path: Path, at: nat, d: nat)
    requires path != []
    ensures SpanIn(decode, m, path, at + d) == Shifted(SpanIn(decode, m, path, at), d)
    decreases m, 0
  {
    hide Text, Head, Front;
    if decode(m.key) == path[0] {
      Shift(decode, m.value, path[1..], at + |Head(m)|, d);
    } else if m.MoreMember? {
      ShiftIn(decode, m.rest, path, at + |Front(m)|, d);
    }
  }

  lemma {:induction false} Shift(decode: string -> string, j: Json, path: Path, at: nat, d: nat)
    ensures SpanOf(decode, j, path, at + d) == Shifted(SpanOf(decode, j, path, at), d)
    decreases j, 1
  {
    hide Text;
    if path != [] && j.Object? {
      ShiftIn(decode, j.members, path, at + 1 + |j.lead|, d);
    }
  }

  lemma {:induction false} MovesIn(decode: string -> string, m: Members, seen: set<string>, p: Path, q: Path, at: nat, t: string)
    requires ValidMembers(decode, m, seen) && p != [] && q != [] && !(p < q) && SpanIn(decode, m, p, at).Some?
    ensures SpanIn(decode, m, p, at).value.start <= SpanIn(decode, m, p, at).value.end
    ensures SpanIn(decode, EditIn(decode, m, p, t), q, at) == MovedSpan(SpanIn(decode, m, q, at), SpanIn(decode, m, p, at).value, |t|)
    decreases m, 0
  {
    hide Text, Head, AllWs, MembersText, Tail, Front;
    var m' := EditIn(decode, m, p, t);
    BoundsIn(decode, m, seen, p, at);
    if decode(m.key) == p[0] && decode(m.key) == q[0] {
      PrefixOfTail(p, q);
      SameAround(m, m');
      EditMovesSpans(decode, m.value, p[1..], q[1..], at + |Head(m)|, t);
    } else if decode(m.key) == p[0] {
      RestMoves(decode, m, seen, p, q, at, t);
    } else if decode(m.key) == q[0] {
      SameFront(m, m');
      if SpanIn(decode, m, q, at).Some? {
        FirstEndsBeforeRest(decode, m, seen, q, p, at);
        Bounds(decode, m.value, q[1..], at + |Head(m)|);
      }
    } else {
      SameFront(m, m');
      MovesIn(decode, m.rest, seen + {decode(m.key)}, p, q, at + |Front(m)|, t);
    }
  }

  /** The edit is in the first field and the other value behind it. */
  lemma RestMoves(decode: string -> string, m: Members, seen: set<string>, p: Path, q: Path, at: nat, t: string)
    requires ValidMembers(decode, m, seen) && p != [] && q != [] && decode(m.key) == p[0] && decode(m.key) != q[0]
    requires SpanIn(decode, m, p, at).Some?
    ensures SpanIn(decode, m, p, at).value.start <= SpanIn(decode, m, p, at).value.end
    ensures SpanIn(decode, EditIn(decode, m, p, t), q, at) == MovedSpan(SpanIn(decode, m, q, at), SpanIn(decode, m, p, at).value, |t|)
  {
    hide Text, AllWs, MembersText, Tail, Splice, Front;
    var m', span := EditIn(decode, m, p, t), SpanIn(decode, m, p, at).value;
    BoundsIn(decode, m, seen, p, at);
    if m.MoreMember? {
      EditedFront(decode, m, p, at, t);
      ShiftIn(decode, m.rest, q, at, |Front(m)|);
      ShiftIn(decode, m.rest, q, at, |Front(m')|);
      if SpanIn(decode, m, q, at).Some? {
        FirstEndsBeforeRest(decode, m, seen, p, q, at);
        BoundsIn(decode, m, seen, q, at);
      }
    }
  }

  lemma EditedFront(decode: string -> string, m: Members, p: Path, at: nat, t: string)
    requires p != [] && decode(m.key) == p[0] && m.MoreMember? && SpanIn(decode, m, p, at).Some?
    ensures var span := SpanIn(decode, m, p, at).value;
      span.start <= span.end && |Front(EditIn(decode, m, p, t))| == |Front(m)| - (span.end - span.start) + |t|
  {
    hide Text, Splice;
    EditSplices(decode, m.value, p[1..], at + |Head(m)|, t);
    var span := SpanOf(decode, m.value, p[1..], at + |Head(m)|).value;
    SpliceLength(Text(m.value), span.start - at - |Head(m)|, span.end - at - |Head(m)|, t);
  }

  lemma SpliceLength(s: string, a: nat, b: nat, t: string)
    requires a <= b <= |s|
    ensures |Splice(s, a, b, t)| == |s| - (b - a) + |t|
  {
  }

  /** Every span but those inside the edited value: before it unchanged, behind it moved by the
      difference in length, around it stretched by as much. */
  lemma {:induction false} EditMovesSpans(decode: string -> string, j: Json, p: Path, q: Path, at: nat, t: string)
    requires Valid(decode, j) && !(p < q) && SpanOf(decode, j, p, at).Some?
    ensures SpanOf(decode, j, p, at).value.start <= SpanOf(decode, j, p, at).value.end
    ensures SpanOf(decode, Edit(decode, j, p, t), q, at) == MovedSpan(SpanOf(decode, j, q, at), SpanOf(decode, j, p, at).value, |t|)
    decreases j, 1
  {
    hide Text, AllWs, Splice, ValidMembers, SpanIn, EditIn;
    Bounds(decode, j, p, at);
    if p == [] {
      assert q == [];
      EditSplices(decode, j, p, at, t);
      SpliceLength(Text(j), 0, |Text(j)|, t);
    } else if q == [] {
      EditSplices(decode, j, p, at, t);
      var span := SpanOf(decode, j, p, at).value;
      SpliceLength(Text(j), span.start - at, span.end - at, t);
    } else {
      MovesIn(decode, j.members, {}, p, q, at + 1 + |j.lead|, t);
    }
  }

  // ---- The edited tree ----

  lemma {:induction false} EditIsValidIn(decode: string -> string, m: Members, seen: set<string>, path: Path, t: string)
    requires ValidMembers(decode, m, seen) && path != [] && IsScalar(t)
    ensures ValidMembers(decode, EditIn(decode, m, path, t), seen)
    decreases m, 0
  {
    hide AllWs, ScalarLen;
    if decode(m.key) == path[0] {
      EditIsValid(decode, m.value, path[1..], t);
    } else if m.MoreMember? {
      EditIsValidIn(decode, m.rest, seen + {decode(m.key)}, path, t);
    }
  }

  lemma {:induction false} EditIsValid(decode: string -> string, j: Json, path: Path, t: string)
    requires Valid(decode, j) && IsScalar(t)
    ensures Valid(decode, Edit(decode, j, path, t))
    decreases j, 1
  {
    hide AllWs, ScalarLen;
    if path != [] && j.Object? {
      EditIsValidIn(decode, j.members, {}, path, t);
    }
  }

  lemma {:induction false} FoundIn(decode: string -> string, m: Members, p: Path, q: Path, t: string, at: nat)
    requires p != [] && q != []
    ensures FindIn(decode, m, p).Some? == SpanIn(decode, m, p, at).Some?
    ensures FindIn(decode, EditIn(decode, m, p, t), p) == if FindIn(decode, m, p).Some? then Some(Scalar(t)) else None
    ensures !(p <= q) && !(q <= p) ==> FindIn(decode, EditIn(decode, m, p, t), q) == FindIn(decode, m, q)
    decreases m, 0
  {
    hide Text, Head, Front;
    if decode(m.key) == p[0] {
      if p[0] == q[0] {
        PrefixOfTail(p, q);
        PrefixOfTail(q, p);
      }
      EditIsFound(decode, m.value, p[1..], q[1..], t, at + |Head(m)|);
    } else if m.MoreMember? {
      FoundIn(decode, m.rest, p, q, t, at + |Front(m)|);
    }
  }

  /** The edit puts the new value where the old one was, and touches no other. */
  lemma {:induction false} EditIsFound(decode: string -> string, j: Json, p: Path, q: Path, t: string, at: nat)
    ensures Find(decode, j, p).Some? == SpanOf(decode, j, p, at).Some?
    ensures Find(decode, Edit(decode, j, p, t), p) == if Find(decode, j, p).Some? then Some(Scalar(t)) else None
    ensures !(p <= q) && !(q <= p) ==> Find(decode, Edit(decode, j, p, t), q) == Find(decode, j, q)
    decreases j, 1
  {
    hide Text;
    if p != [] && j.Object? && q != [] {
      FoundIn(decode, j.members, p, q, t, at + 1 + |j.lead|);
    } else if p != [] && j.Object? {
      FoundIn(decode, j.members, p, p, t, at + 1 + |j.lead|);
    }
  }
}
