/** Small shared vocabulary: optional values, JavaScript string ordering,
    `String.prototype.trim` and `Number.prototype.toString` on integers. */
module Common {

  datatype Option<+T> = None | Some(value: T) {
    function GetOr(default: T): T {
      match this
      case Some(v) => v
      case None => default
    }
  }

  datatype Result<+R, +E> = Success(value: R) | Failure(error: E)

  // ---------------------------------------------------------------------
  // JavaScript `<` on two strings: lexicographic, a proper prefix is smaller.

  predicate StrLess(a: string, b: string)
    decreases |a|
  {
    if |a| == 0 then |b| > 0
    else if |b| == 0 then false
    else if a[0] != b[0] then a[0] < b[0]
    else StrLess(a[1..], b[1..])
  }

  /** JavaScript `a >= b` on strings is `!(a < b)`: the two strings are equal
      or `a` comes after `b`. */
  predicate StrAtLeast(a: string, b: string): (r: bool)
    ensures r <==> a == b || StrLess(b, a)
  {
    StrLessTotal(a, b);
    StrLessIrreflexive(a);
    StrLessAsymmetric(a, b);
    !StrLess(a, b)
  }

  /** Of two strings, at most one is smaller than the other. */
  lemma StrLessAsymmetric(a: string, b: string)
    ensures StrLess(a, b) ==> !StrLess(b, a)
  {
    if StrLess(a, b) && StrLess(b, a) {
      StrLessTransitive(a, b, a);
      StrLessIrreflexive(a);
    }
  }

  lemma {:induction false} StrLessIrreflexive(a: string)
    ensures !StrLess(a, a)
    decreases |a|
  {
    if |a| > 0 {
      StrLessIrreflexive(a[1..]);
    }
  }

  lemma {:induction false} StrLessTransitive(a: string, b: string, c: string)
    requires StrLess(a, b) && StrLess(b, c)
    ensures StrLess(a, c)
    decreases |a|
  {
    if |a| > 0 && a[0] == b[0] && b[0] == c[0] {
      StrLessTransitive(a[1..], b[1..], c[1..]);
    }
  }

  lemma {:induction false} StrLessTotal(a: string, b: string)
    ensures StrLess(a, b) || a == b || StrLess(b, a)
    decreases |a|
  {
    if |a| > 0 && |b| > 0 && a[0] == b[0] {
      StrLessTotal(a[1..], b[1..]);
      if a[1..] == b[1..] {
        assert a == [a[0]] + a[1..] && b == [b[0]] + b[1..];
      }
    }
  }

  // ---------------------------------------------------------------------
  // `String.prototype.trim`: strips white space and line terminators at both ends.

  predicate IsJsWhiteSpace(c: char) {
    c == '\t' || c == '\n' || c == '\U{000B}' || c == '\U{000C}' || c == '\r' || c == ' '
    || c == '\U{00A0}' || c == '\U{1680}' || ('\U{2000}' <= c <= '\U{200A}')
    || c == '\U{2028}' || c == '\U{2029}' || c == '\U{202F}' || c == '\U{205F}'
    || c == '\U{3000}' || c == '\U{FEFF}'
  }

  /** The first index at or after `i` whose character is not white space, or
      `|s|` when there is none. */
  function SkipWhite(s: string, i: nat): (a: nat)
    requires i <= |s|
    ensures i <= a <= |s|
    ensures a == |s| || !IsJsWhiteSpace(s[a])
    ensures forall m :: i <= m < a ==> IsJsWhiteSpace(s[m])
    decreases |s| - i
  {
    if i < |s| && IsJsWhiteSpace(s[i]) then SkipWhite(s, i + 1) else i
  }

  /** Going back from `j` to no further than `a`: one past the last character
      that is not white space, or `a` when there is none. */
  function SkipWhiteBack(s: string, a: nat, j: nat): (b: nat)
    requires a <= j <= |s|
    ensures a <= b <= j
    ensures b == a || !IsJsWhiteSpace(s[b - 1])
    ensures forall m :: b <= m < j ==> IsJsWhiteSpace(s[m])
    decreases j
  {
    if a < j && IsJsWhiteSpace(s[j - 1]) then SkipWhiteBack(s, a, j - 1) else j
  }

  /** `s.trim()`: the part of `s` left once the white space at both ends is
      cut off. */
  function Trim(s: string): (r: string)
    ensures r == [] || (!IsJsWhiteSpace(r[0]) && !IsJsWhiteSpace(r[|r| - 1]))
    ensures exists k :: CutAt(s, r, k)
  {
    var a := SkipWhite(s, 0);
    var b := SkipWhiteBack(s, a, |s|);
    assert CutAt(s, s[a..b], a);
    s[a..b]
  }

  /** `r` is the slice of `s` that starts at `k`, and every character of `s`
      outside that slice is white space. */
  predicate CutAt(s: string, r: string, k: int) {
    && 0 <= k <= |s| - |r| && r == s[k..k + |r|]
    && forall i :: 0 <= i < |s| && !(k <= i < k + |r|) ==> IsJsWhiteSpace(s[i])
  }

  /** `!s.trim()` holds exactly when every character of `s` is white space. */
  lemma TrimEmptyIffBlank(s: string)
    ensures Trim(s) == [] <==> forall i :: 0 <= i < |s| ==> IsJsWhiteSpace(s[i])
  {
  }

  /** `Object.keys(m).length === 0` holds exactly for the empty map. */
  lemma NoKeysIffEmpty<K, V>(m: map<K, V>)
    ensures |m.Keys| == 0 <==> m == map[]
  {
    if |m.Keys| == 0 {
      assert m.Keys == {};
    }
  }

  // ---------------------------------------------------------------------
  // `Number.prototype.toString()` on an integer value: decimal, '-' for negatives.

  function DigitChar(d: nat): (c: char)
    requires d < 10
    ensures '0' <= c <= '9'
  {
    "0123456789"[d]
  }

  /** The number a string of decimal digits spells. */
  predicate IsDecimal(s: string) {
    forall i :: 0 <= i < |s| ==> '0' <= s[i] <= '9'
  }

  function DecimalValue(s: string): nat
    requires IsDecimal(s)
  {
    if s == [] then 0
    else 10 * DecimalValue(s[..|s| - 1]) + (s[|s| - 1] as int - '0' as int)
  }

  function NatToString(n: nat): (s: string)
    ensures |s| > 0
    ensures IsDecimal(s) && DecimalValue(s) == n
    ensures s[0] == '0' ==> s == "0"
  {
    if n < 10 then
      var s := [DigitChar(n)];
      assert s[..0] == [];
      s
    else
      var p := NatToString(n / 10);
      var s := p + [DigitChar(n % 10)];
      assert s[..|s| - 1] == p;
      s
  }

  function IntToString(i: int): (s: string)
    ensures |s| > 0
    ensures (s[0] == '-') <==> i < 0
  {
    if i < 0 then "-" + NatToString(-i) else NatToString(i)
  }

  /** The digits after the sign spell the magnitude. */
  lemma IntToStringValue(i: int)
    ensures var s := IntToString(i);
      && (i >= 0 ==> IsDecimal(s) && DecimalValue(s) == i)
      && (i < 0 ==> IsDecimal(s[1..]) && DecimalValue(s[1..]) == -i)
  {
    if i < 0 {
      assert IntToString(i)[1..] == NatToString(-i);
    }
  }

  /** Different numbers print differently, so comparing `toString()` results
      compares the numbers. */
  lemma IntToStringInjective(a: int, b: int)
    requires IntToString(a) == IntToString(b)
    ensures a == b
  {
    var s := IntToString(a);
    IntToStringValue(a);
    IntToStringValue(b);
    if a < 0 {
      assert DecimalValue(s[1..]) == -a == -b;
    } else {
      assert DecimalValue(s) == a == b;
    }
  }
}
