/** Searching, joining and splitting of texts, for the line-oriented editors. */
module TextSearch {
  import opened Wrappers

  /** `m` occurs in `s` at index `i`. */
  predicate At(s: string, i: nat, m: string) {
    i + |m| <= |s| && s[i..i + |m|] == m
  }

  predicate Contains(s: string, m: string) {
    exists i :: 0 <= i <= |s| && At(s, i, m)
  }

  function IndexOf(s: string, m: string, from: nat): (k: Option<nat>)
    requires from <= |s|
    ensures k.Some? ==> from <= k.value && At(s, k.value, m) && forall j :: from <= j < k.value ==> !At(s, j, m)
    ensures k.None? ==> forall j :: from <= j <= |s| ==> !At(s, j, m)
    decreases |s| - from
  {
    if At(s, from, m) then Some(from)
    else if from == |s| then None
    else IndexOf(s, m, from + 1)
  }

  /** The non-overlapping occurrences of `m`, left to right. */
  function Occurrences(s: string, m: string, from: nat): seq<nat>
    requires m != "" && from <= |s|
    decreases |s| - from
  {
    var k := IndexOf(s, m, from);
    if k.None? then [] else [k.value] + Occurrences(s, m, k.value + |m|)
  }

  method CollectOccurrences(s: string, m: string) returns (indexes: seq<nat>)
    requires m != ""
    ensures indexes == Occurrences(s, m, 0)
  {
    indexes := [];
    var offset := 0;
    var found := IndexOf(s, m, offset);
    while found.Some?
      invariant offset <= |s| && found == IndexOf(s, m, offset)
      invariant indexes + Occurrences(s, m, offset) == Occurrences(s, m, 0)
      decreases |s| - offset, found.Some?
    {
      var rest := found.value + |m|;
      assert Occurrences(s, m, offset) == [found.value] + Occurrences(s, m, rest);
      assert indexes + [found.value] + Occurrences(s, m, rest) == indexes + Occurrences(s, m, offset);
      indexes := indexes + [found.value];
      offset := rest;
      found := IndexOf(s, m, offset);
    }
  }

  lemma NoOccurrence(s: string, m: string)
    requires m != ""
    ensures Occurrences(s, m, 0) == [] <==> forall i: nat :: !At(s, i, m)
  {
  }

  lemma OneOccurrence(s: string, m: string, k: nat)
    requires m != "" && At(s, k, m) && forall i: nat :: At(s, i, m) ==> i == k
    ensures Occurrences(s, m, 0) == [k]
  {
    assert IndexOf(s, m, 0) == Some(k);
    assert Occurrences(s, m, k + |m|) == [];
  }

  lemma AtChars(s: string, i: nat, m: string)
    ensures At(s, i, m) ==> forall k :: 0 <= k < |m| ==> s[i + k] == m[k]
  {
    if At(s, i, m) {
      assert forall k :: 0 <= k < |m| ==> m[k] == s[i..i + |m|][k] == s[i + k];
    }
  }

  lemma AtCrlf(s: string, i: nat)
    ensures At(s, i, "\r\n") <==> i + 2 <= |s| && s[i] == '\r' && s[i + 1] == '\n'
  {
    if i + 2 <= |s| {
      assert s[i..i + 2] == [s[i], s[i + 1]];
    }
  }

  predicate EndsWith(s: string, m: string) {
    |m| <= |s| && s[|s| - |m|..] == m
  }

  lemma EndsWithChar(s: string, c: char)
    ensures EndsWith(s, [c]) <==> s != "" && s[|s| - 1] == c
  {
    if s != "" {
      assert s[|s| - 1..] == [s[|s| - 1]];
    }
  }

  predicate StartsWith(s: string, m: string) {
    m <= s
  }

  /** Empty, or ending with a line feed: what may precede a line. */
  predicate AtLineStart(s: string) {
    s == "" || s[|s| - 1] == '\n'
  }

  /** A text without line feed and carriage return. */
  predicate OneLine(s: string) {
    '\n' !in s && '\r' !in s
  }

  /** An occurrence of a one-line text never crosses the start of a line. */
  lemma AtSplits(x: string, y: string, i: nat, m: string)
    requires AtLineStart(x) && '\n' !in m && m != ""
    ensures At(x + y, i, m) <==> if i < |x| then At(x, i, m) else At(y, i - |x|, m)
  {
    var s := x + y;
    if i < |x| {
      assert i + |m| <= |x| ==> s[i..i + |m|] == x[i..i + |m|];
      assert At(s, i, m) ==> forall k :: 0 <= k < |m| ==> s[i..i + |m|][k] == s[i + k] == m[k];
      assert s[i + (|x| - 1 - i)] == '\n';
    } else if i + |m| <= |s| {
      assert s[i..i + |m|] == y[i - |x|..i - |x| + |m|];
    }
  }

  // ---- Lines ----

  function Join(lines: seq<string>, eol: string): string {
    if lines == [] then ""
    else if |lines| == 1 then lines[0]
    else lines[0] + eol + Join(lines[1..], eol)
  }

  /** Every line followed by its terminator. */
  function Terminated(lines: seq<string>, eol: string): string {
    if lines == [] then "" else lines[0] + eol + Terminated(lines[1..], eol)
  }

  lemma {:induction false} JoinTerminated(lines: seq<string>, eol: string)
    requires lines != []
    ensures Join(lines, eol) + eol == Terminated(lines, eol)
  {
    if |lines| > 1 {
      JoinTerminated(lines[1..], eol);
    } else {
      assert Terminated(lines[1..], eol) == "";
    }
  }

  lemma {:induction false} TerminatedConcat(a: seq<string>, b: seq<string>, eol: string)
    ensures Terminated(a + b, eol) == Terminated(a, eol) + Terminated(b, eol)
  {
    if a == [] {
      assert a + b == b;
    } else {
      TerminatedConcat(a[1..], b, eol);
      assert (a + b)[1..] == a[1..] + b;
    }
  }

  predicate IsEol(eol: string) {
    eol == "\n" || eol == "\r\n"
  }

  /** Texts joined from lines determine their lines. */
  lemma {:induction false} JoinInjective(a: seq<string>, b: seq<string>, eol: string)
    requires IsEol(eol) && |a| == |b| && Terminated(a, eol) == Terminated(b, eol)
    requires forall i :: 0 <= i < |a| ==> OneLine(a[i]) && OneLine(b[i])
    ensures a == b
  {
    if a != [] {
      var (x, y) := (a[0], b[0]);
      var (s, t) := (Terminated(a, eol), Terminated(b, eol));
      assert s[|x|] == eol[0] && t[|y|] == eol[0];
      assert forall k :: 0 <= k < |x| ==> s[k] == x[k];
      assert forall k :: 0 <= k < |y| ==> t[k] == y[k];
      assert |x| == |y|;
      assert x == s[..|x|] == t[..|y|] == y;
      assert Terminated(a[1..], eol) == s[|x| + |eol|..] == t[|y| + |eol|..] == Terminated(b[1..], eol);
      JoinInjective(a[1..], b[1..], eol);
    }
  }
}
