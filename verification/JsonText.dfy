/** JSON text as the layout parser of tools/sync_version.py sees it: scalars, trees and their text
    (RFC 8259 sections 2 to 7). */
module JsonText {
  import opened Wrappers

  // ---- Scalars: how far the decoder reads ----

  predicate IsWs(c: char) {
    c == ' ' || c == '\t' || c == '\r' || c == '\n'
  }

  predicate IsDigit(c: char) {
    '0' <= c <= '9'
  }

  predicate IsHex(c: char) {
    IsDigit(c) || 'a' <= c <= 'f' || 'A' <= c <= 'F'
  }

  function Digits(t: string): (n: nat)
    ensures n <= |t|
  {
    if t == "" || !IsDigit(t[0]) then 0 else 1 + Digits(t[1..])
  }

  function IntLen(t: string): (n: nat)
    ensures n <= |t|
  {
    if t != "" && t[0] == '0' then 1 else Digits(t)
  }

  function FracLen(t: string): (n: nat)
    ensures n <= |t|
  {
    if t != "" && t[0] == '.' && Digits(t[1..]) > 0 then 1 + Digits(t[1..]) else 0
  }

  function ExpStart(t: string): (n: nat)
    requires t != ""
    ensures 1 <= n <= |t|
  {
    if |t| > 1 && (t[1] == '+' || t[1] == '-') then 2 else 1
  }

  function ExpLen(t: string): (n: nat)
    ensures n <= |t|
  {
    if t != "" && (t[0] == 'e' || t[0] == 'E') && Digits(t[ExpStart(t)..]) > 0
    then ExpStart(t) + Digits(t[ExpStart(t)..])
    else 0
  }

  function Unsigned(t: string): (n: nat)
    ensures n <= |t|
  {
    var a := IntLen(t);
    if a == 0 then 0
    else
      var b := a + FracLen(t[a..]);
      b + ExpLen(t[b..])
  }

  predicate StartsWith(t: string, word: string) {
    |word| <= |t| && t[..|word|] == word
  }

  /** The words of the decoder: those of the grammar and three more. */
  function WordLen(t: string): (n: nat)
    ensures n <= |t|
  {
    if StartsWith(t, "null") || StartsWith(t, "true") then 4
    else if StartsWith(t, "false") then 5
    else if StartsWith(t, "NaN") then 3
    else if StartsWith(t, "Infinity") then 8
    else if StartsWith(t, "-Infinity") then 9
    else 0
  }

  function NumberLen(t: string): (n: nat)
    ensures n <= |t|
  {
    if t != "" && t[0] == '-' then
      if Unsigned(t[1..]) > 0 then 1 + Unsigned(t[1..]) else 0
    else Unsigned(t)
  }

  predicate IsEscape(t: string) {
    |t| >= 2 && t[0] == '\\' && t[1] in "\"\\/bfnrt"
  }

  predicate IsUnicodeEscape(t: string) {
    |t| >= 6 && t[0] == '\\' && t[1] == 'u' && IsHex(t[2]) && IsHex(t[3]) && IsHex(t[4]) && IsHex(t[5])
  }

  /** The rest of a string after its opening quote, up to and with the closing one; 0 if there is none. */
  function BodyLen(t: string): (n: nat)
    ensures n <= |t|
  {
    if t == "" then 0
    else if t[0] == '"' then 1
    else
      var step := if IsEscape(t) then 2 else if IsUnicodeEscape(t) then 6 else if t[0] == '\\' || t[0] < ' ' then 0 else 1;
      if step == 0 || BodyLen(t[step..]) == 0 then 0 else step + BodyLen(t[step..])
  }

  function StringLen(t: string): (n: nat)
    ensures n <= |t|
  {
    if t != "" && t[0] == '"' && BodyLen(t[1..]) > 0 then 1 + BodyLen(t[1..]) else 0
  }

  /** How much of `t` one scalar takes; 0 if none is there. */
  function ScalarLen(t: string): (n: nat)
    ensures n <= |t|
  {
    if t != "" && t[0] == '"' then StringLen(t)
    else if NumberLen(t) > 0 then NumberLen(t)
    else WordLen(t)
  }

  predicate IsScalar(t: string) {
    t != "" && ScalarLen(t) == |t|
  }

  predicate IsString(t: string) {
    t != "" && StringLen(t) == |t|
  }

  /** What can follow a scalar without being read as a part of it. */
  predicate Delimits(rest: string) {
    rest == "" || IsWs(rest[0]) || rest[0] == ',' || rest[0] == ']' || rest[0] == '}'
  }

  // ---- A scalar is read back from any text it is the start of ----

  lemma {:induction false} DigitsPrefix(t: string, k: nat)
    requires Digits(t) <= k <= |t|
    ensures Digits(t[..k]) == Digits(t)
  {
    if t != "" && IsDigit(t[0]) {
      assert t[..k][1..] == t[1..][..k - 1];
      DigitsPrefix(t[1..], k - 1);
    }
  }

  lemma {:induction false} DigitsExtend(t: string, rest: string)
    requires rest == "" || !IsDigit(rest[0])
    ensures Digits(t + rest) == Digits(t)
  {
    if t == "" {
      assert t + rest == rest;
    } else if IsDigit(t[0]) {
      assert (t + rest)[1..] == t[1..] + rest;
      DigitsExtend(t[1..], rest);
    }
  }

  lemma FracPrefix(t: string, k: nat)
    requires FracLen(t) <= k <= |t|
    ensures FracLen(t[..k]) == FracLen(t)
  {
    if k > 0 && t[0] == '.' {
      assert t[..k][1..] == t[1..][..k - 1];
      if Digits(t[1..]) <= k - 1 {
        DigitsPrefix(t[1..], k - 1);
      }
    }
  }

  lemma FracExtend(t: string, rest: string)
    requires Delimits(rest)
    ensures FracLen(t + rest) == FracLen(t)
  {
    if t == "" {
      assert t + rest == rest;
    } else {
      assert (t + rest)[1..] == t[1..] + rest;
      DigitsExtend(t[1..], rest);
    }
  }

  lemma ExpPrefix(t: string, k: nat)
    requires ExpLen(t) <= k <= |t|
    ensures ExpLen(t[..k]) == ExpLen(t)
  {
    if k > 0 && (t[0] == 'e' || t[0] == 'E') {
      var e := ExpStart(t);
      if e <= k {
        assert t[..k][e..] == t[e..][..k - e];
        if Digits(t[e..]) <= k - e {
          DigitsPrefix(t[e..], k - e);
        }
      }
    }
  }

  lemma ExpExtend(t: string, rest: string)
    requires Delimits(rest)
    ensures ExpLen(t + rest) == ExpLen(t)
  {
    if t == "" {
      assert t + rest == rest;
    } else {
      var e := ExpStart(t);
      assert ExpStart(t + rest) == e;
      assert (t + rest)[e..] == t[e..] + rest;
      DigitsExtend(t[e..], rest);
    }
  }

  lemma UnsignedPrefix(t: string, k: nat)
    requires Unsigned(t) <= k <= |t| && Unsigned(t) > 0
    ensures Unsigned(t[..k]) == Unsigned(t)
  {
    hide FracLen, ExpLen, Digits;
    var a := IntLen(t);
    assert IntLen(t[..k]) == a by {
      if t[0] != '0' {
        DigitsPrefix(t, k);
      }
    }
    assert t[..k][a..] == t[a..][..k - a];
    FracPrefix(t[a..], k - a);
    var b := a + FracLen(t[a..]);
    assert t[..k][b..] == t[b..][..k - b];
    ExpPrefix(t[b..], k - b);
  }

  lemma UnsignedExtend(t: string, rest: string)
    requires Delimits(rest)
    ensures Unsigned(t + rest) == Unsigned(t)
  {
    hide FracLen, ExpLen;
    var a := IntLen(t);
    assert IntLen(t + rest) == a by {
      if t == "" {
        assert t + rest == rest;
      } else {
        DigitsExtend(t, rest);
      }
    }
    if a > 0 {
      assert (t + rest)[a..] == t[a..] + rest;
      FracExtend(t[a..], rest);
      var b := a + FracLen(t[a..]);
      assert (t + rest)[b..] == t[b..] + rest;
      ExpExtend(t[b..], rest);
    }
  }

  lemma {:induction false} BodyPrefix(t: string, k: nat)
    requires 0 < BodyLen(t) <= k <= |t|
    ensures BodyLen(t[..k]) == BodyLen(t)
  {
    if t[0] != '"' {
      var step := if IsEscape(t) then 2 else if IsUnicodeEscape(t) then 6 else 1;
      assert t[..k][step..] == t[step..][..k - step];
      BodyPrefix(t[step..], k - step);
    }
  }

  lemma {:induction false} BodyExtend(t: string, rest: string)
    requires BodyLen(t) > 0
    ensures BodyLen(t + rest) == BodyLen(t)
  {
    if t[0] != '"' {
      var step := if IsEscape(t) then 2 else if IsUnicodeEscape(t) then 6 else 1;
      assert (t + rest)[step..] == t[step..] + rest;
      BodyExtend(t[step..], rest);
      assert IsEscape(t + rest) == IsEscape(t);
      assert !IsEscape(t) ==> IsUnicodeEscape(t + rest) == IsUnicodeEscape(t);
    }
  }

  lemma StringPrefix(t: string)
    requires StringLen(t) > 0
    ensures IsString(t[..StringLen(t)])
  {
    var n := StringLen(t);
    assert t[..n][1..] == t[1..][..n - 1];
    BodyPrefix(t[1..], n - 1);
  }

  lemma StringExtend(t: string, rest: string)
    requires IsString(t)
    ensures StringLen(t + rest) == |t|
  {
    assert (t + rest)[1..] == t[1..] + rest;
    BodyExtend(t[1..], rest);
  }

  lemma NumberPrefix(t: string)
    requires NumberLen(t) > 0
    ensures NumberLen(t[..NumberLen(t)]) == NumberLen(t)
  {
    hide Unsigned;
    var n := NumberLen(t);
    if t[0] == '-' {
      assert t[..n][1..] == t[1..][..n - 1];
      UnsignedPrefix(t[1..], n - 1);
    } else {
      UnsignedPrefix(t, n);
    }
  }

  lemma NumberExtend(t: string, rest: string)
    requires t != "" && Delimits(rest)
    ensures NumberLen(t + rest) == NumberLen(t)
  {
    hide Unsigned;
    if t[0] == '-' {
      assert (t + rest)[1..] == t[1..] + rest;
      UnsignedExtend(t[1..], rest);
    } else {
      UnsignedExtend(t, rest);
    }
  }

  predicate IsWord(t: string) {
    t == "null" || t == "true" || t == "false" || t == "NaN" || t == "Infinity" || t == "-Infinity"
  }

  lemma WordPrefix(t: string)
    requires WordLen(t) > 0
    ensures IsWord(t[..WordLen(t)])
  {
  }

  lemma WordIsRead(word: string, rest: string)
    requires IsWord(word)
    ensures WordLen(word + rest) == |word|
  {
    assert forall i :: 0 <= i < |word| ==> (word + rest)[i] == word[i];
    assert (word + rest)[..|word|] == word;
    var c := (word + rest)[0];
    assert c != 'n' ==> !StartsWith(word + rest, "null");
    assert c != 't' ==> !StartsWith(word + rest, "true");
    assert c != 'f' ==> !StartsWith(word + rest, "false");
    assert c != 'N' ==> !StartsWith(word + rest, "NaN");
    assert c != 'I' ==> !StartsWith(word + rest, "Infinity");
  }

  lemma WordIsNoNumber(word: string)
    requires IsWord(word)
    ensures NumberLen(word) == 0 && word[0] != '"'
  {
    if word == "-Infinity" {
      assert word[1..][0] == 'I';
    }
  }

  /** What was read is itself a scalar. */
  lemma ScalarPrefix(t: string)
    requires ScalarLen(t) > 0
    ensures IsScalar(t[..ScalarLen(t)])
  {
    hide StringLen, NumberLen, WordLen;
    var n := ScalarLen(t);
    assert t[..n][0] == t[0];
    if t[0] == '"' {
      StringPrefix(t);
    } else if NumberLen(t) > 0 {
      NumberPrefix(t);
    } else {
      WordPrefix(t);
      WordIsNoNumber(t[..n]);
      WordIsRead(t[..n], "");
      assert t[..n] + "" == t[..n];
    }
  }

  /** A scalar is read in full wherever it is followed by something that delimits it. */
  lemma ScalarExtend(t: string, rest: string)
    requires IsScalar(t) && Delimits(rest)
    ensures ScalarLen(t + rest) == |t|
  {
    hide StringLen, NumberLen, WordLen;
    assert (t + rest)[0] == t[0];
    if t[0] == '"' {
      assert IsString(t);
      StringExtend(t, rest);
    } else {
      NumberExtend(t, rest);
      if NumberLen(t) == 0 {
        WordPrefix(t);
        assert t[..|t|] == t;
        WordIsRead(t, rest);
      }
    }
  }

  // ---- White space ----

  function WsLen(t: string): (n: nat)
    ensures n <= |t| && (n < |t| ==> !IsWs(t[n])) && forall i :: 0 <= i < n ==> IsWs(t[i])
  {
    if t == "" || !IsWs(t[0]) then 0 else 1 + WsLen(t[1..])
  }

  predicate AllWs(t: string) {
    forall i :: 0 <= i < |t| ==> IsWs(t[i])
  }

  lemma {:induction false} WsExtend(t: string, rest: string)
    requires AllWs(t) && (rest == "" || !IsWs(rest[0]))
    ensures WsLen(t + rest) == |t|
  {
    if t == "" {
      assert t + rest == rest;
    } else {
      assert (t + rest)[1..] == t[1..] + rest;
      WsExtend(t[1..], rest);
    }
  }
}
