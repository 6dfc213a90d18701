/** The layout parser of tools/sync_version.py: trees of JSON text, the spans of their object
    fields, and the recursive parser with its loops. */
module JsonLayout {
  import opened Wrappers
  import opened JsonText

  // ---- Trees and their text ----

  /** `lead` is the white space after an opening bracket. */
  datatype Json =
    | Scalar(text: string)
    | EmptyArray(lead: string)
    | Array(lead: string, elems: Elems)
    | EmptyObject(lead: string)
    | Object(lead: string, members: Members)

  /** The elements up to and with the closing bracket; `after` is the white space behind a value,
      `next` that behind a comma. */
  datatype Elems =
    | LastElem(value: Json, after: string)
    | MoreElem(value: Json, after: string, next: string, rest: Elems)

  /** The fields up to and with the closing brace; `colon` is the white space before the colon,
      `start` that between it and the value. */
  datatype Members =
    | LastMember(key: string, colon: string, start: string, value: Json, after: string)
    | MoreMember(key: string, colon: string, start: string, value: Json, after: string, next: string, rest: Members)

  function Text(j: Json): (t: string)
    ensures t != "" || (j.Scalar? && j.text == "")
  {
    match j
    case Scalar(text) => text
    case EmptyArray(lead) => "[" + lead + "]"
    case Array(lead, elems) => "[" + lead + ElemsText(elems)
    case EmptyObject(lead) => "{" + lead + "}"
    case Object(lead, members) => "{" + lead + MembersText(members)
  }

  function ElemsText(e: Elems): string {
    match e
    case LastElem(value, after) => Text(value) + after + "]"
    case MoreElem(value, after, next, rest) => Text(value) + after + "," + next + ElemsText(rest)
  }

  function Head(m: Members): string {
    m.key + m.colon + ":" + m.start
  }

  function MembersText(m: Members): string {
    match m
    case LastMember(_, _, _, value, after) => Head(m) + Text(value) + after + "}"
    case MoreMember(_, _, _, value, after, next, rest) => Head(m) + Text(value) + after + "," + next + MembersText(rest)
  }

  /** The tree is one the grammar has: white space where white space is, scalars that are read in
      full, keys that are strings and, decoded, differ within their object. */
  predicate Valid(decode: string -> string, j: Json)
    decreases j, 0
  {
    match j
    case Scalar(text) => IsScalar(text)
    case EmptyArray(lead) => AllWs(lead)
    case Array(lead, elems) => AllWs(lead) && ValidElems(decode, elems)
    case EmptyObject(lead) => AllWs(lead)
    case Object(lead, members) => AllWs(lead) && ValidMembers(decode, members, {})
  }

  predicate ValidElems(decode: string -> string, e: Elems)
    decreases e, 0
  {
    match e
    case LastElem(value, after) => Valid(decode, value) && AllWs(after)
    case MoreElem(value, after, next, rest) => Valid(decode, value) && AllWs(after) && AllWs(next) && ValidElems(decode, rest)
  }

  predicate ValidHead(decode: string -> string, m: Members, seen: set<string>)
    decreases m, 0
  {
    IsString(m.key) && decode(m.key) !in seen && AllWs(m.colon) && AllWs(m.start) && Valid(decode, m.value) && AllWs(m.after)
  }

  predicate ValidMembers(decode: string -> string, m: Members, seen: set<string>)
    decreases m, 1
  {
    ValidHead(decode, m, seen) && (m.MoreMember? ==> AllWs(m.next) && ValidMembers(decode, m.rest, seen + {decode(m.key)}))
  }

  // ---- The layout: where each field's value is ----

  /** `start`, `end` and the fields of a value that is an object. */
  datatype Field = Field(start: nat, end: nat, child: Layout)
  datatype Layout = NoFields | Fields(fields: map<string, Field>)

  function LayoutOf(decode: string -> string, j: Json, at: nat): Layout
    decreases j, 0
  {
    match j
    case EmptyObject(_) => Fields(map[])
    case Object(lead, members) => Fields(FieldsOf(decode, members, at + 1 + |lead|, map[]))
    case _ => NoFields
  }

  function FieldOf(decode: string -> string, m: Members, at: nat): Field
    decreases m, 0
  {
    var start := at + |Head(m)|;
    Field(start, start + |Text(m.value)|, LayoutOf(decode, m.value, start))
  }

  /** The fields in the order they are read, added to those before. */
  function FieldsOf(decode: string -> string, m: Members, at: nat, seen: map<string, Field>): map<string, Field>
    decreases m, 1
  {
    var fields := seen[decode(m.key) := FieldOf(decode, m, at)];
    match m
    case LastMember(_, _, _, _, _) => fields
    case MoreMember(_, _, _, _, _, _, _) => FieldsOf(decode, m.rest, at + |Head(m) + Text(m.value) + m.after| + 1 + |m.next|, fields)
  }

  // ---- Parsing, as a function on what is left of the text ----

  type Parsed<T> = Result<(T, string)>

  function SkipWs(t: string): (u: string)
    ensures |u| == |t| - WsLen(t)
  {
    t[WsLen(t)..]
  }

  function ParseValue(decode: string -> string, t: string): (r: Parsed<Json>)
    ensures r.Success? ==> |r.value.1| < |t|
    decreases |t|, 1
  {
    if t == "" then Failure
    else if t[0] == '{' then ParseObject(decode, t)
    else if t[0] == '[' then ParseArray(decode, t)
    else if ScalarLen(t) > 0 then Success((Scalar(t[..ScalarLen(t)]), t[ScalarLen(t)..]))
    else Failure
  }

  function ParseArray(decode: string -> string, t: string): (r: Parsed<Json>)
    requires t != ""
    ensures r.Success? ==> |r.value.1| < |t|
    decreases |t|, 0
  {
    var lead, u := t[1..][..WsLen(t[1..])], SkipWs(t[1..]);
    if u != "" && u[0] == ']' then Success((EmptyArray(lead), u[1..]))
    else
      var elems :- ParseElems(decode, u);
      Success((Array(lead, elems.0), elems.1))
  }

  function ParseElems(decode: string -> string, t: string): (r: Parsed<Elems>)
    ensures r.Success? ==> |r.value.1| < |t|
    decreases |t|, 2
  {
    var v :- ParseValue(decode, t);
    var after, u := v.1[..WsLen(v.1)], SkipWs(v.1);
    if u == "" then Failure
    else if u[0] == ']' then Success((LastElem(v.0, after), u[1..]))
    else if u[0] != ',' then Failure
    else
      var rest :- ParseElems(decode, SkipWs(u[1..]));
      Success((MoreElem(v.0, after, u[1..][..WsLen(u[1..])], rest.0), rest.1))
  }

  function ParseObject(decode: string -> string, t: string): (r: Parsed<Json>)
    requires t != ""
    ensures r.Success? ==> |r.value.1| < |t|
    decreases |t|, 0
  {
    var lead, u := t[1..][..WsLen(t[1..])], SkipWs(t[1..]);
    if u != "" && u[0] == '}' then Success((EmptyObject(lead), u[1..]))
    else
      var members :- ParseMembers(decode, u, {});
      Success((Object(lead, members.0), members.1))
  }

  function ParseMembers(decode: string -> string, t: string, seen: set<string>): (r: Parsed<Members>)
    ensures r.Success? ==> |r.value.1| < |t|
    decreases |t|, 2
  {
    var n := StringLen(t);
    if n == 0 || decode(t[..n]) in seen then Failure
    else
      var key, colon, c := t[..n], t[n..][..WsLen(t[n..])], SkipWs(t[n..]);
      if c == "" || c[0] != ':' then Failure
      else
        var start := c[1..][..WsLen(c[1..])];
        var v :- ParseValue(decode, SkipWs(c[1..]));
        var after, u := v.1[..WsLen(v.1)], SkipWs(v.1);
        if u == "" then Failure
        else if u[0] == '}' then Success((LastMember(key, colon, start, v.0, after), u[1..]))
        else if u[0] != ',' then Failure
        else
          var rest :- ParseMembers(decode, SkipWs(u[1..]), seen + {decode(key)});
          Success((MoreMember(key, colon, start, v.0, after, u[1..][..WsLen(u[1..])], rest.0), rest.1))
  }

  // ---- Sound: what was read is the text of a valid tree ----

  lemma WsSplits(t: string)
    ensures t == t[..WsLen(t)] + SkipWs(t) && AllWs(t[..WsLen(t)])
  {
    var n := WsLen(t);
    CutAt(t, n);
    assert forall i :: 0 <= i < n ==> t[..n][i] == t[i];
  }

  lemma CutAt(t: string, n: nat)
    requires n <= |t|
    ensures t == t[..n] + t[n..]
  {
  }

  lemma Glue(t: string, a: string, u: string, b: string, v: string, c: string, z: string)
    requires t == a + u && u == b + v && v == c + z
    ensures t == a + b + c + z
  {
  }

  lemma GlueTwice(t: string, a: string, u: string, b: string, v: string, c: string, w: string, d: string, x: string, e: string, z: string)
    requires t == a + u && u == b + v && v == c + w && w == d + x && x == e + z
    ensures t == a + b + c + d + e + z
  {
  }

  lemma FirstSplits(t: string)
    requires t != ""
    ensures t == [t[0]] + t[1..]
  {
  }

  lemma {:induction false} ValueIsSound(decode: string -> string, t: string)
    ensures ParseValue(decode, t).Success? ==>
      var (j, rest) := ParseValue(decode, t).value;
      Valid(decode, j) && t == Text(j) + rest
    decreases |t|, 1
  {
    hide ParseObject, ParseArray;
    if t != "" {
      if t[0] == '{' {
        ObjectIsSound(decode, t);
      } else if t[0] == '[' {
        ArrayIsSound(decode, t);
      } else if ScalarLen(t) > 0 {
        ScalarPrefix(t);
      }
    }
  }

  lemma {:induction false} ArrayIsSound(decode: string -> string, t: string)
    requires t != "" && t[0] == '['
    ensures ParseArray(decode, t).Success? ==>
      var (j, rest) := ParseArray(decode, t).value;
      Valid(decode, j) && t == Text(j) + rest
    decreases |t|, 0
  {
    hide ParseElems, ElemsText, ValidElems, AllWs, WsLen, SkipWs;
    var lead, u := t[1..][..WsLen(t[1..])], SkipWs(t[1..]);
    FirstSplits(t);
    WsSplits(t[1..]);
    if u != "" && u[0] == ']' {
      FirstSplits(u);
      Glue(t, "[", t[1..], lead, u, "]", u[1..]);
    } else {
      ElemsAreSound(decode, u);
      var elems := ParseElems(decode, u);
      if elems.Success? {
        Glue(t, "[", t[1..], lead, u, ElemsText(elems.value.0), elems.value.1);
      }
    }
  }

  lemma {:induction false} ElemsAreSound(decode: string -> string, t: string)
    ensures ParseElems(decode, t).Success? ==>
      var (e, rest) := ParseElems(decode, t).value;
      ValidElems(decode, e) && t == ElemsText(e) + rest
    decreases |t|, 2
  {
    hide ParseValue, Text, Valid, AllWs, WsLen, SkipWs;
    ValueIsSound(decode, t);
    var v := ParseValue(decode, t);
    if v.Success? {
      var w := v.value.1;
      WsSplits(w);
      var after, u := w[..WsLen(w)], SkipWs(w);
      if u != "" {
        FirstSplits(u);
        if u[0] == ']' {
          Glue(t, Text(v.value.0), w, after, u, "]", u[1..]);
        } else if u[0] == ',' {
          var next, x := u[1..][..WsLen(u[1..])], SkipWs(u[1..]);
          WsSplits(u[1..]);
          ElemsAreSound(decode, x);
          var rest := ParseElems(decode, x);
          if rest.Success? {
            GlueTwice(t, Text(v.value.0), w, after, u, ",", u[1..], next, x, ElemsText(rest.value.0), rest.value.1);
          }
        }
      }
    }
  }

  lemma {:induction false} ObjectIsSound(decode: string -> string, t: string)
    requires t != "" && t[0] == '{'
    ensures ParseObject(decode, t).Success? ==>
      var (j, rest) := ParseObject(decode, t).value;
      Valid(decode, j) && t == Text(j) + rest
    decreases |t|, 0
  {
    hide ParseMembers, MembersText, ValidMembers, AllWs, WsLen, SkipWs;
    var lead, u := t[1..][..WsLen(t[1..])], SkipWs(t[1..]);
    FirstSplits(t);
    WsSplits(t[1..]);
    if u != "" && u[0] == '}' {
      FirstSplits(u);
      Glue(t, "{", t[1..], lead, u, "}", u[1..]);
    } else {
      MembersAreSound(decode, u, {});
      var members := ParseMembers(decode, u, {});
      if members.Success? {
        Glue(t, "{", t[1..], lead, u, MembersText(members.value.0), members.value.1);
      }
    }
  }

  lemma {:induction false} MembersAreSound(decode: string -> string, t: string, seen: set<string>)
    ensures ParseMembers(decode, t, seen).Success? ==>
      var (m, rest) := ParseMembers(decode, t, seen).value;
      ValidMembers(decode, m, seen) && t == MembersText(m) + rest
    decreases |t|, 2
  {
    hide ParseValue, Text, Valid, AllWs, WsLen, SkipWs, StringLen;
    if ParseMembers(decode, t, seen).Success? {
      var n := StringLen(t);
      var c := SkipWs(t[n..]);
      var p := SkipWs(c[1..]);
      var (value, w) := ParseValue(decode, p).value;
      var u := SkipWs(w);
      HeadIsSound(t, n, c, p);
      ValueIsSound(decode, p);
      WsSplits(w);
      FirstSplits(u);
      var key, colon, start, after := t[..n], t[n..][..WsLen(t[n..])], c[1..][..WsLen(c[1..])], w[..WsLen(w)];
      var head := key + colon + ":" + start;
      if u[0] == '}' {
        GlueHead(t, head, p, Text(value), w);
        Glue(t, head + Text(value), w, after, u, "}", u[1..]);
      } else {
        WsSplits(u[1..]);
        var next, x := u[1..][..WsLen(u[1..])], SkipWs(u[1..]);
        MembersAreSound(decode, x, seen + {decode(key)});
        var rest := ParseMembers(decode, x, seen + {decode(key)}).value;
        GlueHead(t, head, p, Text(value), w);
        GlueTwice(t, head + Text(value), w, after, u, ",", u[1..], next, x, MembersText(rest.0), rest.1);
      }
    }
  }

  lemma GlueHead(t: string, head: string, p: string, v: string, w: string)
    requires t == head + p && p == v + w
    ensures t == (head + v) + w
  {
  }

  lemma HeadIsSound(t: string, n: nat, c: string, p: string)
    requires n == StringLen(t) > 0 && c == SkipWs(t[n..]) && c != "" && c[0] == ':' && p == SkipWs(c[1..])
    ensures var key, colon, start := t[..n], t[n..][..WsLen(t[n..])], c[1..][..WsLen(c[1..])];
      IsString(key) && AllWs(colon) && AllWs(start) && t == key + colon + ":" + start + p
  {
    hide WsLen, SkipWs, StringLen, AllWs;
    var key, colon, start := t[..n], t[n..][..WsLen(t[n..])], c[1..][..WsLen(c[1..])];
    assert IsString(key) by {
      StringPrefix(t);
    }
    WsSplits(t[n..]);
    FirstSplits(c);
    WsSplits(c[1..]);
    assert t == key + t[n..];
    Glue(t, key, t[n..], colon, c, ":", c[1..]);
    GlueHead(t, key + colon + ":", c[1..], start, p);
  }

  // ---- Complete: the text of a valid tree is read back as that tree ----

  lemma Unglue(a: string, b: string, c: string, z: string)
    ensures a + b + c + z == a + (b + (c + z))
  {
  }

  lemma UnglueTwice(a: string, b: string, c: string, d: string, e: string, z: string)
    ensures a + b + c + d + e + z == a + (b + (c + (d + (e + z))))
  {
  }

  lemma SkipsWs(ws: string, u: string)
    requires AllWs(ws) && (u == "" || !IsWs(u[0]))
    ensures SkipWs(ws + u) == u && (ws + u)[..WsLen(ws + u)] == ws
  {
    WsExtend(ws, u);
  }

  lemma Prepended(c: string, u: string)
    requires |c| == 1
    ensures (c + u)[0] == c[0] && (c + u)[1..] == u
  {
  }

  lemma WsThenDelimits(ws: string, c: string, u: string)
    requires AllWs(ws) && |c| == 1 && (c == "," || c == "]" || c == "}")
    ensures Delimits(ws + (c + u))
  {
    if ws != "" {
      assert (ws + (c + u))[0] == ws[0];
    } else {
      assert ws + (c + u) == c + u;
    }
  }

  lemma ScalarStarts(t: string)
    requires IsScalar(t)
    ensures !IsWs(t[0]) && t[0] != '{' && t[0] != '['
  {
  }

  lemma TextStarts(decode: string -> string, j: Json, rest: string)
    requires Valid(decode, j)
    ensures var t := Text(j) + rest;
      && t != "" && !IsWs(t[0]) && t[0] != ']' && t[0] != '}'
      && (t[0] == '{' <==> j.EmptyObject? || j.Object?) && (t[0] == '[' <==> j.EmptyArray? || j.Array?)
  {
    hide ScalarLen, ValidElems, ValidMembers, AllWs;
    if j.Scalar? {
      ScalarIsNoBracket(j.text);
      ScalarStarts(j.text);
    }
    assert (Text(j) + rest)[0] == Text(j)[0];
  }

  lemma ScalarIsNoBracket(t: string)
    requires IsScalar(t)
    ensures t[0] != ']' && t[0] != '}'
  {
  }

  lemma ElemsStart(decode: string -> string, e: Elems, rest: string)
    requires ValidElems(decode, e)
    ensures ElemsText(e) + rest != "" && !IsWs((ElemsText(e) + rest)[0]) && (ElemsText(e) + rest)[0] != ']'
  {
    hide Text, Valid, AllWs;
    TextStarts(decode, e.value, "");
    assert Text(e.value) + "" == Text(e.value);
    assert (ElemsText(e) + rest)[0] == Text(e.value)[0];
  }

  lemma MembersStart(decode: string -> string, m: Members, seen: set<string>, rest: string)
    requires ValidMembers(decode, m, seen)
    ensures MembersText(m) + rest != "" && (MembersText(m) + rest)[0] == '"'
  {
    hide Text, Valid, AllWs;
    assert m.key[0] == '"';
    assert (MembersText(m) + rest)[0] == m.key[0];
  }

  lemma {:induction false} ValueIsComplete(decode: string -> string, j: Json, rest: string)
    requires Valid(decode, j) && (j.Scalar? ==> Delimits(rest))
    ensures ParseValue(decode, Text(j) + rest) == Success((j, rest))
    decreases j, 1
  {
    hide ScalarLen, ParseArray, ParseObject, ValidElems, ValidMembers, AllWs;
    TextStarts(decode, j, rest);
    match j {
      case Scalar(text) =>
        ScalarExtend(text, rest);
        assert (text + rest)[..|text|] == text && (text + rest)[|text|..] == rest;
      case EmptyArray(_) => ArrayIsComplete(decode, j, rest);
      case Array(_, _) => ArrayIsComplete(decode, j, rest);
      case EmptyObject(_) => ObjectIsComplete(decode, j, rest);
      case Object(_, _) => ObjectIsComplete(decode, j, rest);
    }
  }

  lemma {:induction false} ArrayIsComplete(decode: string -> string, j: Json, rest: string)
    requires Valid(decode, j) && (j.EmptyArray? || j.Array?)
    ensures Text(j) + rest != "" && ParseArray(decode, Text(j) + rest) == Success((j, rest))
    decreases j, 0
  {
    hide ParseElems, ElemsText, ValidElems, AllWs, WsLen, SkipWs, IsWs;
    var t := Text(j) + rest;
    var tail := if j.EmptyArray? then "]" else ElemsText(j.elems);
    Unglue("[", j.lead, tail, rest);
    Prepended("[", j.lead + (tail + rest));
    if j.EmptyArray? {
      Prepended("]", rest);
      BracketIsNoWs();
    } else {
      ElemsStart(decode, j.elems, rest);
      ElemsAreComplete(decode, j.elems, rest);
    }
    SkipsWs(j.lead, tail + rest);
  }

  lemma BracketIsNoWs()
    ensures !IsWs(']') && !IsWs('}') && !IsWs(',') && !IsWs(':')
  {
  }

  lemma {:induction false} ElemsAreComplete(decode: string -> string, e: Elems, rest: string)
    requires ValidElems(decode, e)
    ensures ParseElems(decode, ElemsText(e) + rest) == Success((e, rest))
    decreases e
  {
    hide ParseValue, Text, Valid, AllWs, WsLen, SkipWs, IsWs, Delimits;
    BracketIsNoWs();
    var t := ElemsText(e) + rest;
    var c, u := if e.LastElem? then "]" else ",", if e.LastElem? then rest else e.next + (ElemsText(e.rest) + rest);
    var w := e.after + (c + u);
    assert t == Text(e.value) + w by {
      if e.LastElem? {
        Unglue(Text(e.value), e.after, "]", rest);
      } else {
        UnglueTwice(Text(e.value), e.after, ",", e.next, ElemsText(e.rest), rest);
      }
    }
    WsThenDelimits(e.after, c, u);
    ValueIsComplete(decode, e.value, w);
    Prepended(c, u);
    SkipsWs(e.after, c + u);
    if e.MoreElem? {
      ElemsStart(decode, e.rest, rest);
      SkipsWs(e.next, ElemsText(e.rest) + rest);
      ElemsAreComplete(decode, e.rest, rest);
    }
  }

  lemma {:induction false} ObjectIsComplete(decode: string -> string, j: Json, rest: string)
    requires Valid(decode, j) && (j.EmptyObject? || j.Object?)
    ensures Text(j) + rest != "" && ParseObject(decode, Text(j) + rest) == Success((j, rest))
    decreases j, 0
  {
    hide ParseMembers, MembersText, ValidMembers, AllWs, WsLen, SkipWs, IsWs;
    var t := Text(j) + rest;
    var tail := if j.EmptyObject? then "}" else MembersText(j.members);
    Unglue("{", j.lead, tail, rest);
    Prepended("{", j.lead + (tail + rest));
    BracketIsNoWs();
    QuoteIsNoWs();
    if j.EmptyObject? {
      Prepended("}", rest);
    } else {
      MembersStart(decode, j.members, {}, rest);
      MembersAreComplete(decode, j.members, {}, rest);
    }
    SkipsWs(j.lead, tail + rest);
  }

  lemma QuoteIsNoWs()
    ensures !IsWs('"')
  {
  }

  lemma HeadIsComplete(m: Members, p: string)
    requires IsString(m.key) && AllWs(m.colon) && AllWs(m.start) && p != "" && !IsWs(p[0])
    ensures var t := Head(m) + p;
      && StringLen(t) == |m.key| && t[..|m.key|] == m.key
      && t[|m.key|..][..WsLen(t[|m.key|..])] == m.colon && SkipWs(t[|m.key|..]) == ":" + (m.start + p)
      && (":" + (m.start + p))[1..] == m.start + p
      && (m.start + p)[..WsLen(m.start + p)] == m.start && SkipWs(m.start + p) == p
  {
    hide StringLen, WsLen, SkipWs, AllWs, IsWs;
    var t := Head(m) + p;
    assert t == m.key + (m.colon + (":" + (m.start + p))) by {
      UnglueHead(m.key, m.colon, m.start, p);
    }
    assert IsString(m.key);
    StringExtend(m.key, m.colon + (":" + (m.start + p)));
    assert t[..|m.key|] == m.key && t[|m.key|..] == m.colon + (":" + (m.start + p));
    BracketIsNoWs();
    Prepended(":", m.start + p);
    SkipsWs(m.colon, ":" + (m.start + p));
    SkipsWs(m.start, p);
  }

  lemma UnglueHead(key: string, colon: string, start: string, p: string)
    ensures key + colon + ":" + start + p == key + (colon + (":" + (start + p)))
  {
  }

  lemma {:induction false} MembersAreComplete(decode: string -> string, m: Members, seen: set<string>, rest: string)
    requires ValidMembers(decode, m, seen)
    ensures ParseMembers(decode, MembersText(m) + rest, seen) == Success((m, rest))
    decreases m
  {
    hide ParseValue, Text, Valid, AllWs, WsLen, SkipWs, IsWs, Delimits, StringLen, Head;
    BracketIsNoWs();
    QuoteIsNoWs();
    var t := MembersText(m) + rest;
    var c, u := if m.LastMember? then "}" else ",", if m.LastMember? then rest else m.next + (MembersText(m.rest) + rest);
    var w := m.after + (c + u);
    var p := Text(m.value) + w;
    assert t == Head(m) + p by {
      if m.LastMember? {
        UnglueMember(Head(m), Text(m.value), m.after, "}", rest);
      } else {
        UnglueMembers(Head(m), Text(m.value), m.after, m.next, MembersText(m.rest), rest);
      }
    }
    hide MembersText;
    TextStarts(decode, m.value, w);
    HeadIsComplete(m, p);
    WsThenDelimits(m.after, c, u);
    ValueIsComplete(decode, m.value, w);
    Prepended(c, u);
    SkipsWs(m.after, c + u);
    if m.MoreMember? {
      MembersStart(decode, m.rest, seen + {decode(m.key)}, rest);
      SkipsWs(m.next, MembersText(m.rest) + rest);
      MembersAreComplete(decode, m.rest, seen + {decode(m.key)}, rest);
    }
  }

  lemma UnglueMember(a: string, b: string, c: string, d: string, z: string)
    ensures a + b + c + d + z == a + (b + (c + (d + z)))
  {
  }

  lemma UnglueMembers(a: string, b: string, c: string, d: string, e: string, z: string)
    ensures a + b + c + "," + d + e + z == a + (b + (c + ("," + (d + (e + z)))))
  {
  }
}
