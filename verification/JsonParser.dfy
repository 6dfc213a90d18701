/** The recursive parser of tools/sync_version.py, on indices and with its loops. */
module JsonParser {
  import opened Wrappers
  import opened JsonText
  import opened JsonLayout

  /** What is left of the text at an index. */
  function From(s: string, index: nat): (t: string)
    requires index <= |s|
  {
    s[index..]
  }

  lemma FromFacts(s: string, index: nat)
    requires index <= |s|
    ensures |From(s, index)| == |s| - index
    ensures index < |s| ==> From(s, index)[0] == s[index] && From(s, index)[1..] == From(s, index + 1)
  {
  }

  lemma FromFrom(s: string, index: nat, n: nat)
    requires index + n <= |s|
    ensures |From(s, index)| >= n && From(s, index)[n..] == From(s, index + n)
  {
  }

  /** `_skip_whitespace`. */
  method SkipWhitespace(s: string, start: nat) returns (index: nat)
    requires start <= |s|
    ensures start <= index <= |s| && index == start + WsLen(From(s, start)) && From(s, index) == SkipWs(From(s, start))
    ensures index < |s| ==> !IsWs(s[index])
  {
    index := start;
    while index < |s| && IsWs(s[index])
      invariant start <= index <= |s|
      invariant WsLen(From(s, start)) == index - start + WsLen(From(s, index))
    {
      FromFacts(s, index);
      index := index + 1;
    }
    FromFrom(s, start, index - start);
  }

  /** `_parse_string`: the decoded string and its end. */
  function StringAt(decode: string -> string, s: string, index: nat): Result<(string, nat)>
    requires index <= |s|
  {
    var n := StringLen(From(s, index));
    if n == 0 then Failure else Success((decode(From(s, index)[..n]), index + n))
  }

  /** Two results of parsing agree on success and on what they leave. */
  predicate SameRest<S, T>(x: Parsed<S>, y: Parsed<T>) {
    x.Success? == y.Success? && (x.Success? ==> x.value.1 == y.value.1)
  }

  /** The parser's answer at `index` is the one of the tree there: success, end and layout. */
  predicate Agrees(decode: string -> string, s: string, index: nat, r: Result<(nat, Layout)>, p: Parsed<Json>) {
    && r.Success? == p.Success?
    && (r.Success? ==>
          && index < r.value.0 <= |s| && From(s, r.value.0) == p.value.1
          && r.value.1 == LayoutOf(decode, p.value.0, index))
  }

  /** `_parse_value`. */
  method ValueAt(decode: string -> string, s: string, start: nat) returns (r: Result<(nat, Layout)>)
    requires start <= |s|
    ensures Agrees(decode, s, start + WsLen(From(s, start)), r, ParseValue(decode, SkipWs(From(s, start))))
    decreases |s| - start, 1
  {
    hide From, ParseArray, ParseObject, LayoutOf, SkipWs, WsLen, ScalarLen;
    var index := SkipWhitespace(s, start);
    FromFacts(s, index);
    if index >= |s| {
      return Failure;
    }
    if s[index] == '{' {
      var read := ObjectAt(decode, s, index);
      return if read.Failure? then Failure else Success((read.value.0, Fields(read.value.1)));
    }
    if s[index] == '[' {
      var list := ArrayAt(decode, s, index);
      if list.Success? {
        ArrayHasNoFields(decode, From(s, index), index);
      }
      return if list.Failure? then Failure else Success((list.value, NoFields));
    }
    var n := ScalarLen(From(s, index));
    if n == 0 {
      return Failure;
    }
    FromFrom(s, index, n);
    ScalarHasNoFields(decode, From(s, index)[..n], index);
    return Success((index + n, NoFields));
  }

  lemma ScalarHasNoFields(decode: string -> string, text: string, at: nat)
    ensures LayoutOf(decode, Scalar(text), at) == NoFields
  {
  }

  lemma ArrayHasNoFields(decode: string -> string, t: string, at: nat)
    requires t != "" && ParseArray(decode, t).Success?
    ensures LayoutOf(decode, ParseArray(decode, t).value.0, at) == NoFields
  {
    hide ParseElems;
  }

  lemma NoWsHere(s: string, index: nat)
    requires index <= |s| && (index < |s| ==> !IsWs(s[index]))
    ensures WsLen(From(s, index)) == 0 && SkipWs(From(s, index)) == From(s, index)
  {
  }

  // ---- Arrays ----

  lemma ArrayOpens(decode: string -> string, s: string, start: nat, index: nat)
    requires start < |s| && s[start] == '[' && index <= |s| && From(s, index) == SkipWs(From(s, start + 1))
    ensures From(s, start) != ""
    ensures index < |s| && s[index] == ']' ==>
      ParseArray(decode, From(s, start)).Success? && ParseArray(decode, From(s, start)).value.1 == From(s, index + 1)
    ensures index == |s| || s[index] != ']' ==> SameRest(ParseArray(decode, From(s, start)), ParseElems(decode, From(s, index)))
  {
    hide From, SkipWs, WsLen, ParseElems;
    FromFacts(s, start);
    FromFacts(s, index);
  }

  lemma ElemsStep(decode: string -> string, s: string, index: nat, end: nat, after: nat)
    requires index < end <= after <= |s| && From(s, after) == SkipWs(From(s, end))
    requires ParseValue(decode, From(s, index)).Success? && ParseValue(decode, From(s, index)).value.1 == From(s, end)
    ensures after == |s| || (s[after] != ']' && s[after] != ',') ==> ParseElems(decode, From(s, index)).Failure?
    ensures after < |s| && s[after] == ']' ==>
      ParseElems(decode, From(s, index)).Success? && ParseElems(decode, From(s, index)).value.1 == From(s, after + 1)
    ensures after < |s| && s[after] == ',' ==>
      SameRest(ParseElems(decode, From(s, index)), ParseElems(decode, SkipWs(From(s, after + 1))))
  {
    hide From, SkipWs, WsLen, ParseValue;
    FromFacts(s, after);
  }

  /** `_parse_array`: the end of an array. */
  method ArrayAt(decode: string -> string, s: string, start: nat) returns (r: Result<nat>)
    requires start < |s| && s[start] == '['
    ensures From(s, start) != "" && r.Success? == ParseArray(decode, From(s, start)).Success?
    ensures r.Success? ==> start < r.value <= |s| && From(s, r.value) == ParseArray(decode, From(s, start)).value.1
    decreases |s| - start, 0
  {
    hide From, SkipWs, WsLen, ParseValue, ParseArray, ParseElems, LayoutOf;
    var index := SkipWhitespace(s, start + 1);
    ArrayOpens(decode, s, start, index);
    if index < |s| && s[index] == ']' {
      return Success(index + 1);
    }
    while true
      invariant start < index <= |s| && (index < |s| ==> !IsWs(s[index]))
      invariant SameRest(ParseArray(decode, From(s, start)), ParseElems(decode, From(s, index)))
      decreases |s| - index
    {
      NoWsHere(s, index);
      var value := ValueAt(decode, s, index);
      if value.Failure? {
        NoElems(decode, From(s, index));
        return Failure;
      }
      var after := SkipWhitespace(s, value.value.0);
      ElemsStep(decode, s, index, value.value.0, after);
      if after >= |s| {
        return Failure;
      }
      if s[after] == ']' {
        return Success(after + 1);
      }
      if s[after] != ',' {
        return Failure;
      }
      index := SkipWhitespace(s, after + 1);
    }
  }

  lemma NoElems(decode: string -> string, t: string)
    requires ParseValue(decode, t).Failure?
    ensures ParseElems(decode, t).Failure?
  {
  }

  // ---- Objects ----

  lemma ObjectOpens(decode: string -> string, s: string, start: nat, index: nat)
    requires start < |s| && s[start] == '{' && index <= |s|
    requires From(s, index) == SkipWs(From(s, start + 1)) && index == start + 1 + WsLen(From(s, start + 1))
    ensures From(s, start) != ""
    ensures index < |s| && s[index] == '}' ==>
      && ParseObject(decode, From(s, start)).Success? && ParseObject(decode, From(s, start)).value.1 == From(s, index + 1)
      && LayoutOf(decode, ParseObject(decode, From(s, start)).value.0, start) == Fields(map[])
    ensures index == |s| || s[index] != '}' ==>
      var p, q := ParseObject(decode, From(s, start)), ParseMembers(decode, From(s, index), {});
      && SameRest(p, q)
      && (p.Success? ==> LayoutOf(decode, p.value.0, start) == Fields(FieldsOf(decode, q.value.0, index, map[])))
  {
    hide From, SkipWs, WsLen, ParseMembers, FieldsOf;
    FromFacts(s, start);
    FromFacts(s, index);
  }

  /** A key, its colon and its value at `index`, as the loop finds them. */
  ghost predicate MemberAt(decode: string -> string, s: string, index: nat, n: nat, colon: nat, at: nat, end: nat, after: nat) {
    && 0 < n && index + n <= colon < at < end <= after < |s|
    && n == StringLen(From(s, index)) && n <= |From(s, index)|
    && From(s, colon) == SkipWs(From(s, index + n)) && s[colon] == ':'
    && From(s, at) == SkipWs(From(s, colon + 1))
    && ParseValue(decode, From(s, at)).Success? && ParseValue(decode, From(s, at)).value.1 == From(s, end)
    && From(s, after) == SkipWs(From(s, end))
  }

  ghost function Member(decode: string -> string, s: string, index: nat, n: nat, colon: nat, at: nat, end: nat, after: nat, more: Option<(string, Members)>): Members
    requires MemberAt(decode, s, index, n, colon, at, end, after)
  {
    var key, before, start := From(s, index)[..n], From(s, index + n)[..WsLen(From(s, index + n))], From(s, colon + 1)[..WsLen(From(s, colon + 1))];
    var value, behind := ParseValue(decode, From(s, at)).value.0, From(s, end)[..WsLen(From(s, end))];
    match more
    case None => LastMember(key, before, start, value, behind)
    case Some((next, rest)) => MoreMember(key, before, start, value, behind, next, rest)
  }

  lemma MemberIsRead(decode: string -> string, s: string, index: nat, n: nat, colon: nat, at: nat, end: nat, after: nat, seen: set<string>)
    requires MemberAt(decode, s, index, n, colon, at, end, after) && decode(From(s, index)[..n]) !in seen
    ensures var p := ParseMembers(decode, From(s, index), seen);
      && (s[after] == '}' ==> p == Success((Member(decode, s, index, n, colon, at, end, after, None), From(s, after + 1))))
      && (s[after] == ',' ==>
            var x := From(s, after + 1);
            var rest := ParseMembers(decode, SkipWs(x), seen + {decode(From(s, index)[..n])});
            p == if rest.Failure? then Failure
                 else Success((Member(decode, s, index, n, colon, at, end, after, Some((x[..WsLen(x)], rest.value.0))), rest.value.1)))
      && (s[after] != '}' && s[after] != ',' ==> p.Failure?)
  {
    hide From, SkipWs, WsLen, StringLen, ParseValue;
    FromFrom(s, index, n);
    FromFacts(s, colon);
    FromFacts(s, after);
  }

  /** Its field has the span the loop records, and the next key comes where the loop goes on. */
  lemma FieldIsThere(decode: string -> string, s: string, index: nat, n: nat, colon: nat, at: nat, end: nat, after: nat, more: Option<(string, Members)>)
    requires MemberAt(decode, s, index, n, colon, at, end, after)
    ensures var m := Member(decode, s, index, n, colon, at, end, after, more);
      && FieldOf(decode, m, index) == Field(at, end, LayoutOf(decode, m.value, at))
      && |Head(m) + Text(m.value) + m.after| == after - index
      && m.key == From(s, index)[..n] && m.value == ParseValue(decode, From(s, at)).value.0
      && m.LastMember? == more.None? && (more.Some? ==> more.value == (m.next, m.rest))
  {
    hide From, WsLen, StringLen, ParseValue, Text, LayoutOf, SkipWs;
    ValueIsSound(decode, From(s, at));
    FromFrom(s, index, n);
    SkippedLength(s, index + n, colon);
    SkippedLength(s, colon + 1, at);
    SkippedLength(s, end, after);
    FromFacts(s, at);
    FromFacts(s, end);
    var m := Member(decode, s, index, n, colon, at, end, after, more);
    HeadLength(m);
  }

  lemma HeadLength(m: Members)
    ensures |Head(m)| == |m.key| + |m.colon| + 1 + |m.start|
  {
  }

  lemma SkippedLength(s: string, from: nat, to: nat)
    requires from <= to <= |s| && From(s, to) == SkipWs(From(s, from))
    ensures WsLen(From(s, from)) == to - from && |From(s, from)[..WsLen(From(s, from))]| == to - from
  {
    FromFacts(s, from);
    FromFacts(s, to);
  }

  lemma FieldsGoOn(decode: string -> string, m: Members, at: nat, seen: map<string, Field>, length: nat)
    requires |Head(m) + Text(m.value) + m.after| == length
    ensures FieldsOf(decode, m, at, seen) ==
      var fields := seen[decode(m.key) := FieldOf(decode, m, at)];
      if m.LastMember? then fields else FieldsOf(decode, m.rest, at + length + 1 + |m.next|, fields)
  {
    hide Head, Text, FieldOf;
  }

  lemma LastIsRead(decode: string -> string, s: string, index: nat, n: nat, colon: nat, at: nat, end: nat, after: nat, seen: map<string, Field>)
    requires MemberAt(decode, s, index, n, colon, at, end, after) && decode(From(s, index)[..n]) !in seen.Keys && s[after] == '}'
    ensures var p := ParseMembers(decode, From(s, index), seen.Keys);
      && p.Success? && p.value.1 == From(s, after + 1)
      && FieldsOf(decode, p.value.0, index, seen) ==
           seen[decode(From(s, index)[..n]) := Field(at, end, LayoutOf(decode, ParseValue(decode, From(s, at)).value.0, at))]
  {
    hide From, ParseValue, ParseMembers, WsLen, StringLen, LayoutOf, Text, FieldOf, FieldsOf, SkipWs, Member;
    MemberIsRead(decode, s, index, n, colon, at, end, after, seen.Keys);
    FieldIsThere(decode, s, index, n, colon, at, end, after, None);
    FieldsGoOn(decode, Member(decode, s, index, n, colon, at, end, after, None), index, seen, after - index);
  }

  ghost predicate Recorded(decode: string -> string, s: string, index: nat, n: nat, at: nat, end: nat, seen: map<string, Field>, seen': map<string, Field>)
    requires at <= |s| && index <= |s| && n <= |From(s, index)|
  {
    && ParseValue(decode, From(s, at)).Success?
    && seen' == seen[decode(From(s, index)[..n]) := Field(at, end, LayoutOf(decode, ParseValue(decode, From(s, at)).value.0, at))]
  }

  lemma NextFields(decode: string -> string, s: string, index: nat, n: nat, colon: nat, at: nat, end: nat, after: nat, next: nat, rest: Members, seen: map<string, Field>, seen': map<string, Field>)
    requires MemberAt(decode, s, index, n, colon, at, end, after) && Recorded(decode, s, index, n, at, end, seen, seen')
    requires after < next <= |s| && From(s, next) == SkipWs(From(s, after + 1))
    ensures var x := From(s, after + 1);
      var m := Member(decode, s, index, n, colon, at, end, after, Some((x[..WsLen(x)], rest)));
      FieldsOf(decode, m, index, seen) == FieldsOf(decode, rest, next, seen')
  {
    hide From, ParseValue, WsLen, StringLen, LayoutOf, Text, FieldOf, FieldsOf, SkipWs, Head, Member;
    var x := From(s, after + 1);
    var more := Some((x[..WsLen(x)], rest));
    var m := Member(decode, s, index, n, colon, at, end, after, more);
    SkippedLength(s, after + 1, next);
    FieldIsThere(decode, s, index, n, colon, at, end, after, more);
    FieldsGoOn(decode, m, index, seen, after - index);
  }

  lemma NextIsRead(decode: string -> string, s: string, index: nat, n: nat, colon: nat, at: nat, end: nat, after: nat, next: nat, seen: map<string, Field>, seen': map<string, Field>)
    requires MemberAt(decode, s, index, n, colon, at, end, after) && decode(From(s, index)[..n]) !in seen.Keys && s[after] == ','
    requires after < next <= |s| && From(s, next) == SkipWs(From(s, after + 1)) && Recorded(decode, s, index, n, at, end, seen, seen')
    ensures var p, q := ParseMembers(decode, From(s, index), seen.Keys), ParseMembers(decode, From(s, next), seen'.Keys);
      SameRest(p, q) && (p.Success? ==> FieldsOf(decode, p.value.0, index, seen) == FieldsOf(decode, q.value.0, next, seen'))
  {
    assert seen'.Keys == seen.Keys + {decode(From(s, index)[..n])};
    hide From, ParseValue, ParseMembers, WsLen, LayoutOf, FieldsOf, SkipWs, Member, Recorded;
    MemberIsRead(decode, s, index, n, colon, at, end, after, seen.Keys);
    var q := ParseMembers(decode, From(s, next), seen'.Keys);
    if q.Success? {
      NextFields(decode, s, index, n, colon, at, end, after, next, q.value.0, seen, seen');
    }
  }

  /** Where the loop gives up: no new key, no colon, no value, or nothing behind the value. */
  lemma NoMembers(decode: string -> string, s: string, index: nat, n: nat, seen: set<string>)
    requires index <= |s| && n == StringLen(From(s, index)) && (n == 0 || decode(From(s, index)[..n]) in seen)
    ensures ParseMembers(decode, From(s, index), seen).Failure?
  {
  }

  lemma NoColon(decode: string -> string, s: string, index: nat, n: nat, colon: nat, seen: set<string>)
    requires 0 < n && index + n <= colon <= |s| && n == StringLen(From(s, index)) && From(s, colon) == SkipWs(From(s, index + n))
    requires colon == |s| || s[colon] != ':'
    ensures ParseMembers(decode, From(s, index), seen).Failure?
  {
    hide From, SkipWs, WsLen, StringLen, ParseValue;
    FromFrom(s, index, n);
    FromFacts(s, colon);
  }

  lemma NoValue(decode: string -> string, s: string, index: nat, n: nat, colon: nat, at: nat, seen: set<string>)
    requires 0 < n && index + n <= colon < at <= |s| && n == StringLen(From(s, index)) && From(s, colon) == SkipWs(From(s, index + n))
    requires From(s, at) == SkipWs(From(s, colon + 1)) && ParseValue(decode, From(s, at)).Failure?
    ensures ParseMembers(decode, From(s, index), seen).Failure?
  {
    hide From, SkipWs, WsLen, StringLen, ParseValue;
    FromFrom(s, index, n);
    FromFacts(s, colon);
  }

  lemma NoEnd(decode: string -> string, s: string, index: nat, n: nat, colon: nat, at: nat, end: nat, seen: set<string>)
    requires 0 < n && index + n <= colon < at < end <= |s| && n == StringLen(From(s, index)) && From(s, colon) == SkipWs(From(s, index + n))
    requires From(s, at) == SkipWs(From(s, colon + 1))
    requires ParseValue(decode, From(s, at)).Success? && ParseValue(decode, From(s, at)).value.1 == From(s, end)
    requires From(s, |s|) == SkipWs(From(s, end))
    ensures ParseMembers(decode, From(s, index), seen).Failure?
  {
    hide From, SkipWs, WsLen, StringLen, ParseValue;
    FromFrom(s, index, n);
    FromFacts(s, colon);
    FromFacts(s, |s|);
  }

  /** `_parse_object`: the end of an object and its fields. */
  method ObjectAt(decode: string -> string, s: string, start: nat) returns (r: Result<(nat, map<string, Field>)>)
    requires start < |s| && s[start] == '{'
    ensures From(s, start) != "" && r.Success? == ParseObject(decode, From(s, start)).Success?
    ensures r.Success? ==>
      && start < r.value.0 <= |s| && From(s, r.value.0) == ParseObject(decode, From(s, start)).value.1
      && LayoutOf(decode, ParseObject(decode, From(s, start)).value.0, start) == Fields(r.value.1)
    decreases |s| - start, 0
  {
    hide From, SkipWs, WsLen, StringLen, ParseValue, ParseObject, ParseMembers, FieldsOf, LayoutOf;
    FromFacts(s, start);
    ghost var whole := ParseObject(decode, From(s, start));
    var fields: map<string, Field> := map[];
    assert fields.Keys == {};
    var index := SkipWhitespace(s, start + 1);
    ObjectOpens(decode, s, start, index);
    if index < |s| && s[index] == '}' {
      return Success((index + 1, fields));
    }
    while true
      invariant start < index <= |s|
      invariant SameRest(whole, ParseMembers(decode, From(s, index), fields.Keys))
      invariant whole.Success? ==>
        LayoutOf(decode, whole.value.0, start) == Fields(FieldsOf(decode, ParseMembers(decode, From(s, index), fields.Keys).value.0, index, fields))
      decreases |s| - index
    {
      var key := StringAt(decode, s, index);
      ghost var n := StringLen(From(s, index));
      FromFacts(s, index);
      if key.Failure? || key.value.0 in fields {
        NoMembers(decode, s, index, n, fields.Keys);
        return Failure;
      }
      var colon := SkipWhitespace(s, key.value.1);
      if colon >= |s| || s[colon] != ':' {
        NoColon(decode, s, index, n, colon, fields.Keys);
        return Failure;
      }
      var at := SkipWhitespace(s, colon + 1);
      NoWsHere(s, at);
      var value := ValueAt(decode, s, at);
      if value.Failure? {
        NoValue(decode, s, index, n, colon, at, fields.Keys);
        return Failure;
      }
      var (end, child) := value.value;
      var after := SkipWhitespace(s, end);
      if after >= |s| {
        NoEnd(decode, s, index, n, colon, at, end, fields.Keys);
        return Failure;
      }
      assert MemberAt(decode, s, index, n, colon, at, end, after);
      ghost var before := fields;
      fields := fields[key.value.0 := Field(at, end, child)];
      if s[after] == '}' {
        LastIsRead(decode, s, index, n, colon, at, end, after, before);
        return Success((after + 1, fields));
      }
      if s[after] != ',' {
        MemberIsRead(decode, s, index, n, colon, at, end, after, before.Keys);
        return Failure;
      }
      var next := SkipWhitespace(s, after + 1);
      NextIsRead(decode, s, index, n, colon, at, end, after, next, before, fields);
      index := next;
    }
  }

  /** `_read_json_layout` on the text of a file: an object and nothing else but white space. */
  method ReadLayout(decode: string -> string, s: string) returns (r: Result<map<string, Field>>)
    ensures r == LayoutOfText(decode, s)
  {
    hide From, SkipWs, ParseObject, FieldsOf;
    var start := SkipWhitespace(s, 0);
    assert From(s, 0) == s by {
      FromStart(s);
    }
    FromFacts(s, start);
    if start >= |s| || s[start] != '{' {
      return Failure;
    }
    var read := ObjectAt(decode, s, start);
    if read.Failure? {
      return Failure;
    }
    var end := SkipWhitespace(s, read.value.0);
    FromFacts(s, end);
    if end != |s| {
      return Failure;
    }
    return Success(read.value.1);
  }

  lemma FromStart(s: string)
    ensures From(s, 0) == s
  {
  }

  /** A whole file as a tree with white space around it. */
  function ReadTree(decode: string -> string, s: string): Result<(string, Json, string)> {
    var t := SkipWs(s);
    if t == "" || t[0] != '{' then Failure
    else
      var p :- ParseObject(decode, t);
      if SkipWs(p.1) != "" then Failure else Success((s[..WsLen(s)], p.0, p.1))
  }

  function LayoutOfText(decode: string -> string, s: string): Result<map<string, Field>> {
    var tree :- ReadTree(decode, s);
    match LayoutOf(decode, tree.1, |tree.0|)
    case NoFields => Failure
    case Fields(fields) => Success(fields)
  }
}
