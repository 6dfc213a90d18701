/** The scalars of RFC 8259 by its grammar, and that the decoder of tools/sync_version.py takes exactly
    these for scalars, with three more words. */
module JsonGrammar {
  import opened Wrappers
  import opened JsonText

  // ---- Section 2: white space ----

  lemma WhiteSpaceExactly(c: char)
    ensures IsWs(c) <==> c as int in {0x20, 0x09, 0x0A, 0x0D}
  {
  }

  // ---- Section 7: strings ----

  /** A character that stands for itself, a two-character escape, or the four digits of a code. */
  datatype Part = Plain(c: char) | Escaped(c: char) | Code(a: char, b: char, c: char, d: char)

  const ESCAPES: set<int> := {0x22, 0x5C, 0x2F, 0x62, 0x66, 0x6E, 0x72, 0x74}

  predicate HexDigit(c: char) {
    0x30 <= c as int <= 0x39 || 0x41 <= c as int <= 0x46 || 0x61 <= c as int <= 0x66
  }

  predicate IsPart(p: Part) {
    match p
    case Plain(c) => 0x20 <= c as int && c as int != 0x22 && c as int != 0x5C
    case Escaped(c) => c as int in ESCAPES
    case Code(a, b, c, d) => HexDigit(a) && HexDigit(b) && HexDigit(c) && HexDigit(d)
  }

  function PartText(p: Part): string {
    match p
    case Plain(c) => [c]
    case Escaped(c) => ['\\', c]
    case Code(a, b, c, d) => ['\\', 'u', a, b, c, d]
  }

  function PartsText(parts: seq<Part>): string {
    if parts == [] then "" else PartText(parts[0]) + PartsText(parts[1..])
  }

  ghost predicate DerivesString(parts: seq<Part>, t: string) {
    (forall i :: 0 <= i < |parts| ==> IsPart(parts[i])) && t == "\"" + PartsText(parts) + "\""
  }

  ghost predicate GrammarString(t: string) {
    exists parts :: DerivesString(parts, t)
  }

  lemma PartIsRead(p: Part, rest: string)
    requires IsPart(p) && BodyLen(rest) > 0
    ensures BodyLen(PartText(p) + rest) == |PartText(p)| + BodyLen(rest)
  {
    var t := PartText(p) + rest;
    assert t[|PartText(p)|..] == rest;
    match p
    case Plain(c) => assert t[0] == c;
    case Escaped(c) => assert t[0] == '\\' && t[1] == c;
    case Code(a, b, c, d) => assert t[0] == '\\' && t[1] == 'u' && t[2] == a && t[3] == b && t[4] == c && t[5] == d;
  }

  lemma {:induction false} PartsAreRead(parts: seq<Part>)
    requires forall i :: 0 <= i < |parts| ==> IsPart(parts[i])
    ensures BodyLen(PartsText(parts) + "\"") == |PartsText(parts)| + 1
  {
    if parts == [] {
      assert PartsText(parts) + "\"" == "\"";
    } else {
      PartsAreRead(parts[1..]);
      PartIsRead(parts[0], PartsText(parts[1..]) + "\"");
      assert PartsText(parts) + "\"" == PartText(parts[0]) + (PartsText(parts[1..]) + "\"");
    }
  }

  /** The first part of a body that is read. */
  lemma FirstPart(t: string) returns (p: Part)
    requires BodyLen(t) > 0 && t[0] != '"'
    ensures IsPart(p) && |PartText(p)| <= |t| && t[..|PartText(p)|] == PartText(p)
    ensures BodyLen(t) == |PartText(p)| + BodyLen(t[|PartText(p)|..]) && BodyLen(t[|PartText(p)|..]) > 0
  {
    p := if IsEscape(t) then Escaped(t[1]) else if IsUnicodeEscape(t) then Code(t[2], t[3], t[4], t[5]) else Plain(t[0]);
    var n := |PartText(p)|;
    assert forall i :: 0 <= i < n ==> t[i] == PartText(p)[i];
  }

  lemma {:induction false} BodyIsParts(t: string) returns (parts: seq<Part>)
    requires t != "" && BodyLen(t) == |t|
    ensures (forall i :: 0 <= i < |parts| ==> IsPart(parts[i])) && t == PartsText(parts) + "\""
  {
    if t[0] == '"' {
      parts := [];
    } else {
      hide BodyLen, PartText, PartsText;
      var p := FirstPart(t);
      var n := |PartText(p)|;
      CutAt(t, n);
      var rest := BodyIsParts(t[n..]);
      parts := [p] + rest;
      OnePartMore(p, rest);
    }
  }

  lemma CutAt(t: string, n: nat)
    requires n <= |t|
    ensures t == t[..n] + t[n..]
  {
  }

  lemma OnePartMore(p: Part, rest: seq<Part>)
    ensures PartsText([p] + rest) + "\"" == PartText(p) + (PartsText(rest) + "\"")
  {
    assert ([p] + rest)[1..] == rest;
  }

  /** The decoder takes for strings exactly the strings of the grammar. */
  lemma StringsExactly(t: string)
    ensures IsString(t) <==> GrammarString(t)
  {
    hide BodyLen, PartsText;
    if IsString(t) {
      var parts := BodyIsParts(t[1..]);
      CutAt(t, 1);
      assert t[..1] == "\"";
      Quoted(PartsText(parts));
      assert DerivesString(parts, t);
    }
    if GrammarString(t) {
      var parts :| DerivesString(parts, t);
      PartsAreRead(parts);
      Quoted(PartsText(parts));
    }
  }

  lemma Quoted(text: string)
    ensures "\"" + text + "\"" == "\"" + (text + "\"")
    ensures ("\"" + text + "\"")[0] == '"' && ("\"" + text + "\"")[1..] == text + "\""
  {
  }

  // ---- Section 6: numbers ----

  datatype Exponent = Exponent(mark: char, sign: string, digits: string)

  datatype Number = Number(minus: bool, whole: string, frac: Option<string>, exp: Option<Exponent>)

  predicate AllDigits(s: string) {
    s != "" && forall i :: 0 <= i < |s| ==> 0x30 <= s[i] as int <= 0x39
  }

  predicate IsInteger(s: string) {
    s == "0" || (AllDigits(s) && s[0] != '0')
  }

  predicate IsExponent(e: Exponent) {
    (e.mark == 'e' || e.mark == 'E') && (e.sign == "" || e.sign == "+" || e.sign == "-") && AllDigits(e.digits)
  }

  predicate IsNumber(n: Number) {
    && IsInteger(n.whole)
    && (n.frac.Some? ==> AllDigits(n.frac.value))
    && (n.exp.Some? ==> IsExponent(n.exp.value))
  }

  function FracText(n: Number): string {
    if n.frac.None? then "" else "." + n.frac.value
  }

  function ExpText(n: Number): string {
    if n.exp.None? then "" else [n.exp.value.mark] + n.exp.value.sign + n.exp.value.digits
  }

  function UnsignedText(n: Number): string {
    n.whole + (FracText(n) + ExpText(n))
  }

  function NumberText(n: Number): string {
    if n.minus then "-" + UnsignedText(n) else UnsignedText(n)
  }

  ghost predicate GrammarNumber(t: string) {
    exists n :: IsNumber(n) && t == NumberText(n)
  }

  lemma {:induction false} DigitsAreRead(s: string, rest: string)
    requires (forall i :: 0 <= i < |s| ==> IsDigit(s[i])) && (rest == "" || !IsDigit(rest[0]))
    ensures Digits(s + rest) == |s|
  {
    if s == "" {
      assert s + rest == rest;
    } else {
      assert (s + rest)[1..] == s[1..] + rest;
      DigitsAreRead(s[1..], rest);
    }
  }

  lemma {:induction false} DigitsAreDigits(t: string)
    ensures forall i :: 0 <= i < Digits(t) ==> IsDigit(t[i])
    ensures Digits(t) < |t| ==> !IsDigit(t[Digits(t)])
  {
    if t != "" && IsDigit(t[0]) {
      DigitsAreDigits(t[1..]);
    }
  }

  lemma ExpIsRead(n: Number)
    requires IsNumber(n)
    ensures ExpLen(ExpText(n)) == |ExpText(n)|
    ensures ExpText(n) == "" || ExpText(n)[0] == 'e' || ExpText(n)[0] == 'E'
  {
    if n.exp.Some? {
      var e, t := n.exp.value, ExpText(n);
      var k := 1 + |e.sign|;
      assert t[k..] == e.digits && e.digits + "" == e.digits;
      DigitsAreRead(e.digits, "");
      assert |t| > 1 && t[1] == if e.sign == "" then e.digits[0] else e.sign[0];
      assert ExpStart(t) == k;
    }
  }

  lemma FracIsRead(n: Number)
    requires IsNumber(n)
    ensures FracLen(FracText(n) + ExpText(n)) == |FracText(n)|
    ensures FracText(n) + ExpText(n) == "" || !IsDigit((FracText(n) + ExpText(n))[0])
  {
    ExpIsRead(n);
    hide ExpLen, ExpText, IsExponent, IsInteger;
    if n.frac.Some? {
      PointIsRead(n.frac.value, ExpText(n));
    } else {
      assert "" + ExpText(n) == ExpText(n);
    }
  }

  lemma PointIsRead(digits: string, rest: string)
    requires AllDigits(digits) && (rest == "" || !IsDigit(rest[0]))
    ensures FracLen("." + digits + rest) == 1 + |digits|
    ensures ("." + digits + rest)[0] == '.'
  {
    hide Digits;
    var t := "." + digits + rest;
    assert t[0] == '.' && t[1..] == digits + rest;
    DigitsAreRead(digits, rest);
  }

  lemma UnsignedIsRead(n: Number)
    requires IsNumber(n)
    ensures Unsigned(UnsignedText(n)) == |UnsignedText(n)|
  {
    hide FracLen, ExpLen, FracText, ExpText;
    var t, rest := UnsignedText(n), FracText(n) + ExpText(n);
    FracIsRead(n);
    ExpIsRead(n);
    DigitsAreRead(n.whole, rest);
    assert t[0] == n.whole[0];
    assert IntLen(t) == |n.whole|;
    assert t[|n.whole|..] == rest;
    assert t[|n.whole| + |FracText(n)|..] == ExpText(n);
  }

  lemma ExpIsDerived(t: string) returns (exp: Option<Exponent>)
    requires ExpLen(t) == |t|
    ensures exp.Some? ==> IsExponent(exp.value)
    ensures t == if exp.None? then "" else [exp.value.mark] + exp.value.sign + exp.value.digits
  {
    if t == "" {
      exp := None;
    } else {
      var k := ExpStart(t);
      DigitsAreDigits(t[k..]);
      exp := Some(Exponent(t[0], t[1..k], t[k..]));
      assert t == [t[0]] + t[1..k] + t[k..];
      assert k == 2 ==> t[1..k] == [t[1]];
    }
  }

  lemma WholeIsDerived(t: string)
    requires IntLen(t) > 0
    ensures IsInteger(t[..IntLen(t)])
  {
    DigitsAreDigits(t);
    if t[0] == '0' {
      assert t[..1] == "0";
    }
  }

  lemma FracIsDerived(t: string) returns (frac: Option<string>)
    ensures frac.Some? ==> AllDigits(frac.value)
    ensures t[..FracLen(t)] == if frac.None? then "" else "." + frac.value
  {
    var n := FracLen(t);
    if n == 0 {
      frac := None;
    } else {
      DigitsAreDigits(t[1..]);
      frac := Some(t[1..n]);
      assert t[..n] == "." + t[1..n];
    }
  }

  lemma UnsignedIsDerived(t: string, minus: bool) returns (n: Number)
    requires Unsigned(t) == |t| > 0
    ensures IsNumber(n) && n.minus == minus && t == UnsignedText(n)
  {
    hide Digits, IntLen, FracLen, ExpLen, IsInteger, AllDigits, IsExponent;
    var a := IntLen(t);
    var u := t[a..];
    var b := FracLen(u);
    WholeIsDerived(t);
    var frac := FracIsDerived(u);
    assert u[b..] == t[a + b..];
    var exp := ExpIsDerived(u[b..]);
    n := Number(minus, t[..a], frac, exp);
    CutAt(t, a);
    CutAt(u, b);
  }

  /** The decoder takes for numbers exactly the numbers of the grammar. */
  lemma NumbersExactly(t: string)
    ensures t != "" && NumberLen(t) == |t| <==> GrammarNumber(t)
  {
    hide Unsigned;
    if t != "" && NumberLen(t) == |t| {
      if t[0] == '-' {
        var n := UnsignedIsDerived(t[1..], true);
        assert t == "-" + t[1..];
        assert t == NumberText(n);
      } else {
        var n := UnsignedIsDerived(t, false);
        assert t == NumberText(n);
      }
    }
    if GrammarNumber(t) {
      var n :| IsNumber(n) && t == NumberText(n);
      UnsignedIsRead(n);
      assert UnsignedText(n)[0] == n.whole[0];
      if n.minus {
        assert t[1..] == UnsignedText(n);
      }
    }
  }

  // ---- Section 3: values ----

  predicate GrammarWord(t: string) {
    t == "false" || t == "null" || t == "true"
  }

  /** Words that Python's decoder takes beyond the grammar. */
  predicate ExtraWord(t: string) {
    t == "NaN" || t == "Infinity" || t == "-Infinity"
  }

  /** A scalar of the decoder is a string, a number or a word. */
  lemma ScalarsExactly(t: string)
    ensures IsScalar(t) <==> GrammarString(t) || GrammarNumber(t) || GrammarWord(t) || ExtraWord(t)
  {
    hide StringLen, NumberLen, WordLen, GrammarString, GrammarNumber;
    StringsExactly(t);
    NumbersExactly(t);
    WordsExactly(t);
    if t != "" {
      FirstOfScalar(t);
    }
  }

  lemma WordsExactly(t: string)
    ensures IsWord(t) <==> GrammarWord(t) || ExtraWord(t)
    ensures t != "" && WordLen(t) == |t| <==> IsWord(t)
  {
    if t != "" && WordLen(t) == |t| {
      WordPrefix(t);
      assert t[..|t|] == t;
    }
    if IsWord(t) {
      WordIsRead(t, "");
      assert t + "" == t;
    }
  }

  /** What a scalar begins with tells what it can be. */
  lemma FirstOfScalar(t: string)
    requires t != ""
    ensures IsString(t) ==> t[0] == '"'
    ensures NumberLen(t) > 0 ==> t[0] != '"' && (t[0] == '-' || IsDigit(t[0]))
    ensures IsWord(t) ==> NumberLen(t) == 0 && t[0] != '"'
    ensures t[0] != '"' && NumberLen(t) > 0 && WordLen(t) == |t| ==> false
  {
    if IsWord(t) {
      WordIsNoNumber(t);
    }
    WordsExactly(t);
  }
}
