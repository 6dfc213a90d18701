/** Version precedence, twice: `compareSemver` of the installer and `_semver_cmp` of the release
    tools. Versions are parsed; numbers are unbounded and identifiers are texts. */
module SemVer {
  import opened Wrappers

  datatype Version = Version(major: nat, minor: nat, patch: nat, pre: Option<seq<string>>)

  predicate IsDigit(c: char) {
    '0' <= c <= '9'
  }

  predicate IsNumeric(s: string) {
    s != "" && forall i :: 0 <= i < |s| ==> IsDigit(s[i])
  }

  function Value(s: string): nat
    requires forall i :: 0 <= i < |s| ==> IsDigit(s[i])
  {
    if s == "" then 0
    else
      assert IsDigit(s[|s| - 1]);
      10 * Value(s[..|s| - 1]) + (s[|s| - 1] as int - '0' as int)
  }

  /** A numeric identifier of the SemVer grammar has no leading zero. */
  predicate Canonical(s: string) {
    IsNumeric(s) ==> s == "0" || s[0] != '0'
  }

  predicate CanonicalVersion(v: Version) {
    v.pre.Some? ==> forall i :: 0 <= i < |v.pre.value| ==> Canonical(v.pre.value[i])
  }

  /** Text order by character code. */
  predicate Less(x: string, y: string) {
    y != "" && (x == "" || x[0] < y[0] || (x[0] == y[0] && Less(x[1..], y[1..])))
  }

  // ---- Precedence: section 11 of Semantic Versioning 2.0.0 ----

  /** Later in the order of character codes: longer, or with a greater character where they part. */
  ghost predicate After(x: string, y: string) {
    exists k :: 0 <= k < |x| && k <= |y| && x[..k] == y[..k] && (k == |y| || x[k] > y[k])
  }

  /** Numbers by their value, other identifiers by character code, and these after numbers. */
  ghost predicate IdAfter(x: string, y: string) {
    if IsNumeric(x) then IsNumeric(y) && Value(x) > Value(y) else IsNumeric(y) || After(x, y)
  }

  /** The first identifiers that differ decide; what has a proper prefix comes after it. */
  ghost predicate IdsAfter(x: seq<string>, y: seq<string>) {
    exists k :: 0 <= k < |x| && k <= |y| && x[..k] == y[..k] && (k == |y| || (x[k] != y[k] && IdAfter(x[k], y[k])))
  }

  ghost predicate SameCore(a: Version, b: Version) {
    a.major == b.major && a.minor == b.minor && a.patch == b.patch
  }

  /** `a` has higher precedence than `b`: by its numbers from the left, as a release against its own
      pre-release, or by its pre-release identifiers. */
  ghost predicate Higher(a: Version, b: Version) {
    || a.major > b.major
    || (a.major == b.major && a.minor > b.minor)
    || (a.major == b.major && a.minor == b.minor && a.patch > b.patch)
    || (SameCore(a, b) && b.pre.Some? && (a.pre.None? || IdsAfter(a.pre.value, b.pre.value)))
  }

  /** Different numerals of one value part them, which section 9 rules out: it knows no leading zeros. */
  ghost predicate Tied(a: Version, b: Version) {
    && SameCore(a, b) && a.pre.Some? && b.pre.Some?
    && IdsTied(a.pre.value, b.pre.value)
  }

  ghost predicate IdsTied(x: seq<string>, y: seq<string>) {
    exists k :: 0 <= k < |x| && k < |y| && x[..k] == y[..k] && NumericTie(x[k], y[k])
  }

  /** Two different numerals of the same value: possible only with leading zeros. */
  predicate NumericTie(x: string, y: string) {
    x != y && IsNumeric(x) && IsNumeric(y) && Value(x) == Value(y)
  }

  // ---- One identifier against another ----

  function CompareId(x: string, y: string): int {
    if x == y then 0
    else if IsNumeric(x) && IsNumeric(y) then (if Value(x) < Value(y) then -1 else 1)
    else if IsNumeric(x) != IsNumeric(y) then (if IsNumeric(x) then -1 else 1)
    else if Less(x, y) then -1 else 1
  }

  /** The release tools ask for greater where the installer asks for less. */
  function CmpId(x: string, y: string): int {
    if x == y then 0
    else if IsNumeric(x) && IsNumeric(y) then (if Value(x) > Value(y) then 1 else -1)
    else if IsNumeric(x) != IsNumeric(y) then (if IsNumeric(x) then -1 else 1)
    else if Less(y, x) then 1 else -1
  }

  function CompareIds(x: seq<string>, y: seq<string>): int {
    if x == [] then (if y == [] then 0 else -1)
    else if y == [] then 1
    else if x[0] == y[0] then CompareIds(x[1..], y[1..])
    else CompareId(x[0], y[0])
  }

  function CmpIds(x: seq<string>, y: seq<string>): int {
    if x == [] || y == [] then (if |x| == |y| then 0 else if |x| > |y| then 1 else -1)
    else if x[0] == y[0] then CmpIds(x[1..], y[1..])
    else CmpId(x[0], y[0])
  }

  function CompareCore(a: Version, b: Version): int {
    if a.major != b.major then (if a.major < b.major then -1 else 1)
    else if a.minor != b.minor then (if a.minor < b.minor then -1 else 1)
    else if a.patch != b.patch then (if a.patch < b.patch then -1 else 1)
    else 0
  }

  function Compare(a: Version, b: Version): int {
    if CompareCore(a, b) != 0 then CompareCore(a, b)
    else if a.pre.None? then (if b.pre.None? then 0 else 1)
    else if b.pre.None? then -1
    else CompareIds(a.pre.value, b.pre.value)
  }

  function Cmp(a: Version, b: Version): int {
    if CompareCore(a, b) != 0 then CompareCore(a, b)
    else if a.pre.None? || b.pre.None? then
      (if a.pre.None? && b.pre.None? then 0 else if a.pre.None? then 1 else -1)
    else CmpIds(a.pre.value, b.pre.value)
  }

  // ---- The two implementations ----

  method CompareSemver(a: Version, b: Version) returns (r: int)
    ensures r == Compare(a, b)
    ensures r == 1 <==> Higher(a, b) || Tied(a, b)
    ensures r == -1 <==> Higher(b, a)
    ensures r == 0 <==> a == b
  {
    CompareIsPrecedence(a, b);
    var left: seq<int>, right: seq<int> := [a.major, a.minor, a.patch], [b.major, b.minor, b.patch];
    for index := 0 to 3
      invariant forall k :: 0 <= k < index ==> left[k] == right[k]
    {
      var difference := left[index] - right[index];
      if difference != 0 {
        assert left[0] == a.major && left[1] == a.minor && left[2] == a.patch;
        assert right[0] == b.major && right[1] == b.minor && right[2] == b.patch;
        assert index == 0 || (index == 1 && left[0] == right[0]) || (index == 2 && left[0] == right[0] && left[1] == right[1]);
        return if difference < 0 then -1 else 1;
      }
    }
    assert left[0] == right[0] && left[1] == right[1] && left[2] == right[2];
    if a.pre.None? {
      return if b.pre.None? then 0 else 1;
    }
    if b.pre.None? {
      return -1;
    }
    var x, y := a.pre.value, b.pre.value;
    var index := 0;
    while index < |x| || index < |y|
      invariant index <= |x| && index <= |y| && x[..index] == y[..index]
      invariant CompareIds(x[index..], y[index..]) == CompareIds(x, y)
      decreases |x| + |y| - 2 * index
    {
      if index == |x| {
        return -1;
      }
      if index == |y| {
        return 1;
      }
      if x[index] != y[index] {
        return CompareId(x[index], y[index]);
      }
      assert x[index..][1..] == x[index + 1..] && y[index..][1..] == y[index + 1..];
      index := index + 1;
    }
    return 0;
  }

  method SemverCmp(a: Version, b: Version) returns (r: int)
    ensures r == Cmp(a, b)
    ensures r == 1 <==> Higher(a, b)
    ensures r == -1 <==> Higher(b, a) || Tied(a, b)
    ensures r == 0 <==> a == b
  {
    CmpIsPrecedence(a, b);
    if (a.major, a.minor, a.patch) != (b.major, b.minor, b.patch) {
      return CompareCore(a, b);
    }
    if a.pre.None? || b.pre.None? {
      return if a.pre.None? && b.pre.None? then 0 else if a.pre.None? then 1 else -1;
    }
    var x, y := a.pre.value, b.pre.value;
    var index := 0;
    while index < |x| && index < |y|
      invariant index <= |x| && index <= |y|
      invariant CmpIds(x[index..], y[index..]) == CmpIds(x, y)
    {
      if x[index] != y[index] {
        return CmpId(x[index], y[index]);
      }
      assert x[index..][1..] == x[index + 1..] && y[index..][1..] == y[index + 1..];
      index := index + 1;
    }
    return if |x| == |y| then 0 else if |x| > |y| then 1 else -1;
  }

  // ---- The comparisons follow precedence ----

  lemma PrefixTail(x: string, y: string, k: nat)
    requires 0 < k <= |x| && k <= |y|
    ensures x[..k] == y[..k] <==> x[0] == y[0] && x[1..][..k - 1] == y[1..][..k - 1]
  {
    assert x[..k] == [x[0]] + x[1..][..k - 1] && y[..k] == [y[0]] + y[1..][..k - 1];
    assert x[..k] == y[..k] ==> x[..k][0] == y[..k][0] && x[..k][1..] == y[..k][1..];
  }

  lemma FirstCharDecides(x: string, y: string)
    requires x != "" && y != ""
    ensures x[0] == y[0] ==> (After(x, y) <==> After(x[1..], y[1..]))
    ensures x[0] != y[0] ==> (After(x, y) <==> x[0] > y[0])
  {
    var p, q := x[1..], y[1..];
    assert x[..0] == y[..0];
    forall k | 0 < k <= |x| && k <= |y|
      ensures x[..k] == y[..k] <==> x[0] == y[0] && p[..k - 1] == q[..k - 1]
    {
      PrefixTail(x, y, k);
    }
    if x[0] == y[0] && After(p, q) {
      var k :| 0 <= k < |p| && k <= |q| && p[..k] == q[..k] && (k == |q| || p[k] > q[k]);
      assert x[..k + 1] == y[..k + 1];
    }
    if x[0] == y[0] && After(x, y) {
      var k :| 0 <= k < |x| && k <= |y| && x[..k] == y[..k] && (k == |y| || x[k] > y[k]);
      assert k > 0 && p[..k - 1] == q[..k - 1];
    }
  }

  lemma {:induction false} LessIsBefore(x: string, y: string)
    ensures Less(y, x) <==> After(x, y)
  {
    if x != "" && y != "" {
      FirstCharDecides(x, y);
      LessIsBefore(x[1..], y[1..]);
    } else {
      assert x[..0] == y[..0];
    }
  }

  lemma IdRank(x: string, y: string)
    requires x != y
    ensures CompareId(x, y) == 1 <==> IdAfter(x, y) || NumericTie(x, y)
    ensures CompareId(x, y) == -1 <==> IdAfter(y, x)
    ensures CmpId(x, y) == 1 <==> IdAfter(x, y)
    ensures CmpId(x, y) == -1 <==> IdAfter(y, x) || NumericTie(x, y)
  {
    LessIsBefore(x, y);
    LessIsBefore(y, x);
    LessIsTotal(x, y);
  }

  /** A common first identifier decides nothing; different ones decide all. */
  lemma FirstDecides(x: seq<string>, y: seq<string>)
    requires x != [] && y != []
    ensures x[0] == y[0] ==> (IdsAfter(x, y) <==> IdsAfter(x[1..], y[1..]))
    ensures x[0] == y[0] ==> (IdsTied(x, y) <==> IdsTied(x[1..], y[1..]))
    ensures x[0] != y[0] ==> (IdsAfter(x, y) <==> IdAfter(x[0], y[0])) && (IdsTied(x, y) <==> NumericTie(x[0], y[0]))
  {
    hide IdAfter, NumericTie;
    var p, q := x[1..], y[1..];
    assert x[..0] == y[..0];
    forall k | 0 < k <= |x| && k <= |y|
      ensures x[..k] == y[..k] <==> x[0] == y[0] && p[..k - 1] == q[..k - 1]
    {
      assert x[..k] == [x[0]] + p[..k - 1] && y[..k] == [y[0]] + q[..k - 1];
      assert x[..k] == y[..k] ==> x[..k][0] == y[..k][0] && x[..k][1..] == y[..k][1..];
    }
    if x[0] == y[0] {
      if IdsAfter(p, q) {
        var k :| 0 <= k < |p| && k <= |q| && p[..k] == q[..k] && (k == |q| || (p[k] != q[k] && IdAfter(p[k], q[k])));
        assert x[..k + 1] == y[..k + 1];
      }
      if IdsTied(p, q) {
        var k :| 0 <= k < |p| && k < |q| && p[..k] == q[..k] && NumericTie(p[k], q[k]);
        assert x[..k + 1] == y[..k + 1];
      }
      if IdsAfter(x, y) {
        var k :| 0 <= k < |x| && k <= |y| && x[..k] == y[..k] && (k == |y| || (x[k] != y[k] && IdAfter(x[k], y[k])));
        assert p[..k - 1] == q[..k - 1];
      }
      if IdsTied(x, y) {
        var k :| 0 <= k < |x| && k < |y| && x[..k] == y[..k] && NumericTie(x[k], y[k]);
        TiedDiffer(x[k], y[k]);
        assert p[..k - 1] == q[..k - 1];
      }
    }
  }

  lemma TiedDiffer(x: string, y: string)
    requires NumericTie(x, y)
    ensures x != y
  {
  }

  lemma {:induction false} IdsRank(x: seq<string>, y: seq<string>)
    ensures CompareIds(x, y) == 1 <==> IdsAfter(x, y) || IdsTied(x, y)
    ensures CompareIds(x, y) == -1 <==> IdsAfter(y, x)
    ensures CmpIds(x, y) == 1 <==> IdsAfter(x, y)
    ensures CmpIds(x, y) == -1 <==> IdsAfter(y, x) || IdsTied(x, y)
  {
    if x != [] && y != [] {
      hide IdsAfter, IdsTied, IdAfter, NumericTie, CompareId, CmpId;
      FirstDecides(x, y);
      FirstDecides(y, x);
      if x[0] == y[0] {
        IdsRank(x[1..], y[1..]);
      } else {
        IdRank(x[0], y[0]);
      }
    } else {
      assert x[..0] == y[..0];
    }
  }

  lemma CompareIsPrecedence(a: Version, b: Version)
    ensures Compare(a, b) == 1 <==> Higher(a, b) || Tied(a, b)
    ensures Compare(a, b) == -1 <==> Higher(b, a)
    ensures Compare(a, b) == 0 <==> a == b
  {
    hide IdsAfter, IdsTied;
    if a.pre.Some? && b.pre.Some? {
      IdsRank(a.pre.value, b.pre.value);
      IdsAreAntisymmetric(a.pre.value, b.pre.value);
    }
  }

  lemma NotBoth(a: Version, b: Version)
    ensures !(Higher(a, b) && Higher(b, a)) && !(Tied(a, b) && Higher(b, a)) && !Higher(a, a)
    ensures Higher(a, b) || Tied(a, b) ==> a != b
  {
    hide Higher, Tied, Compare;
    CompareIsPrecedence(a, b);
    CompareIsPrecedence(b, a);
    CompareIsPrecedence(a, a);
  }

  lemma CmpIsPrecedence(a: Version, b: Version)
    ensures Cmp(a, b) == 1 <==> Higher(a, b)
    ensures Cmp(a, b) == -1 <==> Higher(b, a) || Tied(a, b)
    ensures Cmp(a, b) == 0 <==> a == b
  {
    hide IdsAfter, IdsTied;
    if a.pre.Some? && b.pre.Some? {
      IdsRank(a.pre.value, b.pre.value);
      CmpIdsZero(a.pre.value, b.pre.value);
    }
  }

  lemma {:induction false} CmpIdsZero(x: seq<string>, y: seq<string>)
    ensures CmpIds(x, y) == 0 <==> x == y
  {
    if x != [] && y != [] && x[0] == y[0] {
      CmpIdsZero(x[1..], y[1..]);
      assert x == [x[0]] + x[1..] && y == [y[0]] + y[1..];
    }
  }

  /** Without leading zeros the value grows with the length and then with the characters. */
  lemma {:induction false} ValueGrows(x: string, y: string)
    requires IsNumeric(x) && IsNumeric(y) && Canonical(x) && Canonical(y)
    ensures Value(x) > Value(y) <==> |x| > |y| || (|x| == |y| && After(x, y))
  {
    ValueBounds(x);
    ValueBounds(y);
    if |x| > |y| {
      PowersGrow(|y|, |x| - 1);
    } else if |x| < |y| {
      PowersGrow(|x|, |y| - 1);
    } else {
      SameLength(x, y);
    }
  }

  function Power(n: nat): nat {
    if n == 0 then 1 else 10 * Power(n - 1)
  }

  lemma {:induction false} PowersGrow(m: nat, n: nat)
    requires m <= n
    ensures Power(m) <= Power(n)
  {
    if m < n {
      PowersGrow(m, n - 1);
    }
  }

  lemma {:induction false} ValueBounds(x: string)
    requires forall i :: 0 <= i < |x| ==> IsDigit(x[i])
    ensures Value(x) < Power(|x|)
    ensures x != "" && x[0] != '0' ==> Power(|x| - 1) <= Value(x)
  {
    if x != "" {
      ValueBounds(x[..|x| - 1]);
    }
  }

  lemma {:induction false} SameLength(x: string, y: string)
    requires |x| == |y| && (forall i :: 0 <= i < |x| ==> IsDigit(x[i]) && IsDigit(y[i]))
    ensures Value(x) > Value(y) <==> After(x, y)
    ensures Value(x) == Value(y) <==> x == y
  {
    if x != "" {
      var n := |x| - 1;
      var p, q := x[..n], y[..n];
      SameLength(p, q);
      LastDigit(p, x[n], q, y[n]);
      hide After;
      assert x == p + [x[n]] && y == q + [y[n]];
      LargerPrefix(Value(p), Value(q), x[n] as int - '0' as int, y[n] as int - '0' as int);
    }
  }

  lemma LargerPrefix(m: nat, n: nat, c: nat, d: nat)
    requires c < 10 && d < 10
    ensures 10 * m + c > 10 * n + d <==> m > n || (m == n && c > d)
    ensures 10 * m + c == 10 * n + d <==> m == n && c == d
  {
  }

  lemma LastDigit(p: string, c: char, q: string, d: char)
    requires |p| == |q|
    ensures After(p + [c], q + [d]) <==> After(p, q) || (p == q && c > d)
  {
    var x, y := p + [c], q + [d];
    assert forall k :: 0 <= k <= |p| ==> x[..k] == p[..k] && y[..k] == q[..k];
    assert p[..|p|] == p && q[..|q|] == q;
    if After(p, q) {
      var k :| 0 <= k < |p| && k <= |q| && p[..k] == q[..k] && (k == |q| || p[k] > q[k]);
      assert x[..k] == y[..k] && x[k] > y[k];
    } else if p == q && c > d {
      assert x[..|p|] == y[..|p|];
    }
    if After(x, y) {
      var k :| 0 <= k < |x| && k <= |y| && x[..k] == y[..k] && (k == |y| || x[k] > y[k]);
      if k < |p| {
        assert p[..k] == q[..k];
      }
    }
  }

  // ---- Identifiers are totally ordered ----

  lemma {:induction false} CanonicalValueIsPositive(s: string)
    requires IsNumeric(s) && s[0] != '0'
    ensures Value(s) > 0
  {
    if |s| > 1 {
      CanonicalValueIsPositive(s[..|s| - 1]);
    }
  }

  /** Canonical numerals are equal exactly when their values are. */
  lemma {:induction false} CanonicalValueIsInjective(s: string, t: string)
    requires IsNumeric(s) && IsNumeric(t) && Canonical(s) && Canonical(t) && Value(s) == Value(t)
    ensures s == t
  {
    var (p, q) := (s[..|s| - 1], t[..|t| - 1]);
    assert Value(p) == Value(q) && s[|s| - 1] == t[|t| - 1];
    if p != "" && q != "" {
      CanonicalValueIsInjective(p, q);
    } else if p != "" {
      CanonicalValueIsPositive(p);
    } else if q != "" {
      CanonicalValueIsPositive(q);
    }
    assert s == p + [s[|s| - 1]] && t == q + [t[|t| - 1]];
  }

  lemma {:induction false} LessIsTotal(x: string, y: string)
    ensures x == y || Less(x, y) || Less(y, x)
    ensures !(Less(x, y) && Less(y, x)) && !Less(x, x)
  {
    if x != "" && y != "" && x[0] == y[0] {
      LessIsTotal(x[1..], y[1..]);
      assert x == [x[0]] + x[1..] && y == [y[0]] + y[1..];
    }
    if x != "" {
      LessIsTotal(x[1..], x[1..]);
    }
  }

  lemma {:induction false} LessIsTransitive(x: string, y: string, z: string)
    requires Less(x, y) && Less(y, z)
    ensures Less(x, z)
  {
    if x != "" && x[0] == y[0] && y[0] == z[0] {
      LessIsTransitive(x[1..], y[1..], z[1..]);
    }
  }

  lemma IdIsAntisymmetric(x: string, y: string)
    ensures CompareId(x, y) == -CompareId(y, x) <==> !NumericTie(x, y)
    ensures CompareId(x, y) == CmpId(x, y) <==> !NumericTie(x, y)
    ensures CompareId(x, y) == 0 <==> x == y
  {
    LessIsTotal(x, y);
  }

  lemma IdIsTransitive(x: string, y: string, z: string)
    requires Canonical(x) && Canonical(y) && Canonical(z)
    requires CompareId(x, y) <= 0 && CompareId(y, z) <= 0
    ensures CompareId(x, z) <= 0
    ensures CompareId(x, z) == 0 ==> x == y == z
  {
    LessIsTotal(x, y);
    LessIsTotal(y, z);
    LessIsTotal(x, z);
    if Less(x, y) && Less(y, z) {
      LessIsTransitive(x, y, z);
    }
    if IsNumeric(x) && IsNumeric(y) && Value(x) == Value(y) {
      CanonicalValueIsInjective(x, y);
    }
    if IsNumeric(y) && IsNumeric(z) && Value(y) == Value(z) {
      CanonicalValueIsInjective(y, z);
    }
  }

  /** The first position where two lists differ, if both have one. */
  function FirstDifference(x: seq<string>, y: seq<string>): (k: Option<nat>)
    ensures k.Some? ==> k.value < |x| && k.value < |y|
  {
    if x == [] || y == [] then None
    else if x[0] != y[0] then Some(0)
    else
      var k := FirstDifference(x[1..], y[1..]);
      if k.None? then None else Some(k.value + 1)
  }

  predicate TieOf(x: seq<string>, y: seq<string>) {
    var k := FirstDifference(x, y);
    k.Some? && NumericTie(x[k.value], y[k.value])
  }

  lemma {:induction false} IdsAreAntisymmetric(x: seq<string>, y: seq<string>)
    ensures CompareIds(x, y) == -CompareIds(y, x) <==> !TieOf(x, y)
    ensures CompareIds(x, y) == CmpIds(x, y) <==> !TieOf(x, y)
    ensures CompareIds(x, y) == 0 <==> x == y
  {
    if x != [] && y != [] {
      if x[0] == y[0] {
        IdsAreAntisymmetric(x[1..], y[1..]);
        assert x == [x[0]] + x[1..] && y == [y[0]] + y[1..];
      } else {
        IdIsAntisymmetric(x[0], y[0]);
      }
    }
  }

  lemma {:induction false} IdsAreTransitive(x: seq<string>, y: seq<string>, z: seq<string>)
    requires forall i :: 0 <= i < |x| ==> Canonical(x[i])
    requires forall i :: 0 <= i < |y| ==> Canonical(y[i])
    requires forall i :: 0 <= i < |z| ==> Canonical(z[i])
    requires CompareIds(x, y) <= 0 && CompareIds(y, z) <= 0
    ensures CompareIds(x, z) <= 0
  {
    if x != [] && y != [] && z != [] {
      IdIsTransitive(x[0], y[0], z[0]);
      IdIsAntisymmetric(x[0], y[0]);
      IdIsAntisymmetric(y[0], z[0]);
      if x[0] == y[0] == z[0] {
        IdsAreTransitive(x[1..], y[1..], z[1..]);
      }
    }
  }

  // ---- Versions ----

  predicate TieOfVersions(a: Version, b: Version) {
    CompareCore(a, b) == 0 && a.pre.Some? && b.pre.Some? && TieOf(a.pre.value, b.pre.value)
  }

  /** For every pair the installer's pattern accepts: the comparison is antisymmetric, and both
      implementations agree, exactly when no numeric tie decides. */
  lemma CompareIsAntisymmetric(a: Version, b: Version)
    ensures Compare(a, b) == -Compare(b, a) <==> !TieOfVersions(a, b)
    ensures Compare(a, b) == Cmp(a, b) <==> !TieOfVersions(a, b)
    ensures Compare(a, b) == 0 <==> a == b
  {
    if a.pre.Some? && b.pre.Some? {
      IdsAreAntisymmetric(a.pre.value, b.pre.value);
    }
  }

  lemma CanonicalHasNoTie(a: Version, b: Version)
    requires CanonicalVersion(a) && CanonicalVersion(b)
    ensures !TieOfVersions(a, b)
  {
    if TieOfVersions(a, b) {
      var k := FirstDifference(a.pre.value, b.pre.value).value;
      CanonicalValueIsInjective(a.pre.value[k], b.pre.value[k]);
    }
  }

  /** On versions of the SemVer grammar precedence is a total order, and both tools use the same one. */
  lemma PrecedenceIsATotalOrder(a: Version, b: Version, c: Version)
    requires CanonicalVersion(a) && CanonicalVersion(b) && CanonicalVersion(c)
    ensures Compare(a, b) == -Compare(b, a) && Compare(a, b) == Cmp(a, b)
    ensures Compare(a, b) == 0 <==> a == b
    ensures Compare(a, b) <= 0 && Compare(b, c) <= 0 ==> Compare(a, c) <= 0
  {
    CompareIsAntisymmetric(a, b);
    CanonicalHasNoTie(a, b);
    if Compare(a, b) <= 0 && Compare(b, c) <= 0 && a.pre.Some? && b.pre.Some? && c.pre.Some?
       && CompareCore(a, b) == 0 && CompareCore(b, c) == 0
    {
      IdsAreTransitive(a.pre.value, b.pre.value, c.pre.value);
    }
  }

  /** The installer's pattern also accepts leading zeros; there both directions answer "greater",
      and the release tools answer "smaller". */
  lemma LeadingZeroTie()
    ensures var (a, b) := (Version(1, 0, 0, Some(["01"])), Version(1, 0, 0, Some(["1"])));
      Compare(a, b) == 1 && Compare(b, a) == 1 && Cmp(a, b) == -1 && Cmp(b, a) == -1
  {
    assert "01"[..1] == "0" && "0"[..0] == "" && "1"[..0] == "";
    assert Value("0") == 0;
    assert Value("01") == 10 * Value("0") + 1 == 1;
    assert Value("1") == 1;
  }

  // ---- Release targets ----

  datatype Bump = Patch | Minor | Major

  function Bumped(v: Version, bump: Bump): Version {
    match bump
    case Patch => Version(v.major, v.minor, v.patch + 1, None)
    case Minor => Version(v.major, v.minor + 1, 0, None)
    case Major => Version(v.major + 1, 0, 0, None)
  }

  /** `target_version` after argument parsing: exactly one of a bump and an explicit target. */
  function TargetVersion(current: Version, bump: Option<Bump>, target: Option<Version>): Result<Version> {
    if bump.None? == target.None? then Failure
    else if bump.Some? && current.pre.Some? then Failure
    else
      var chosen := if bump.Some? then Bumped(current, bump.value) else target.value;
      if chosen != current && Cmp(chosen, current) <= 0 then Failure else Success(chosen)
  }

  /** A target is the current version or strictly greater in both implementations; a bump of a stable
      version always succeeds and is strictly greater. */
  lemma TargetsNeverGoBack(current: Version, bump: Option<Bump>, target: Option<Version>)
    requires CanonicalVersion(current) && (target.Some? ==> CanonicalVersion(target.value))
    ensures var r := TargetVersion(current, bump, target);
      && (r.Success? && r.value != current ==> Compare(r.value, current) == 1 && Compare(current, r.value) == -1)
      && (bump.Some? && target.None? && current.pre.None? ==>
            r == Success(Bumped(current, bump.value)) && r.value != current)
  {
    var r := TargetVersion(current, bump, target);
    if r.Success? && r.value != current {
      PrecedenceIsATotalOrder(r.value, current, current);
      CompareRange(current, r.value);
    }
  }

  /** An explicit target is taken exactly if it is the current version or of higher precedence; a bump
      of a stable version raises one number and clears what is right of it. */
  lemma TargetsExactly(current: Version, bump: Option<Bump>, target: Option<Version>)
    ensures var r := TargetVersion(current, bump, target);
      && (r.Success? ==> bump.Some? != target.Some?)
      && (bump.None? && target.Some? ==>
            && (r.Success? <==> target.value == current || Higher(target.value, current))
            && (r.Success? ==> r.value == target.value))
      && (bump.Some? && target.None? ==>
            && (r.Success? <==> current.pre.None?)
            && (r.Success? ==> r.value.pre.None? && Higher(r.value, current))
            && (r.Success? && bump.value == Patch ==>
                  r.value.major == current.major && r.value.minor == current.minor && r.value.patch == current.patch + 1)
            && (r.Success? && bump.value == Minor ==>
                  r.value.major == current.major && r.value.minor == current.minor + 1 && r.value.patch == 0)
            && (r.Success? && bump.value == Major ==>
                  r.value.major == current.major + 1 && r.value.minor == r.value.patch == 0))
  {
    if bump.None? && target.Some? {
      CmpIsPrecedence(target.value, current);
      CmpRange(target.value, current);
    }
  }

  lemma {:induction false} CmpIdsRange(x: seq<string>, y: seq<string>)
    ensures CmpIds(x, y) in {-1, 0, 1}
  {
    if x != [] && y != [] && x[0] == y[0] {
      CmpIdsRange(x[1..], y[1..]);
    }
  }

  lemma CmpRange(a: Version, b: Version)
    ensures Cmp(a, b) in {-1, 0, 1}
  {
    if a.pre.Some? && b.pre.Some? {
      CmpIdsRange(a.pre.value, b.pre.value);
    }
  }

  lemma {:induction false} IdsRange(x: seq<string>, y: seq<string>)
    ensures CompareIds(x, y) in {-1, 0, 1}
  {
    if x != [] && y != [] && x[0] == y[0] {
      IdsRange(x[1..], y[1..]);
    }
  }

  lemma CompareRange(a: Version, b: Version)
    ensures Compare(a, b) in {-1, 0, 1}
  {
    if a.pre.Some? && b.pre.Some? {
      IdsRange(a.pre.value, b.pre.value);
    }
  }
}
