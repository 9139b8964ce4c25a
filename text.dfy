/**
 * String helpers the handlers apply to request fields: Python's `str.strip`,
 * ASCII `upper`/`lower`, `startswith`, the upload-name sanitiser, and the
 * decimal conversions behind `int(...)` and `{n:02d}`.
 */
module Text {
  import opened Wrappers

  /** The characters Python's `str.isspace` accepts, which `str.strip()` removes. */
  predicate IsSpace(c: char) {
    var k := c as int;
    (9 <= k <= 13) || (28 <= k <= 32) || k == 0x85 || k == 0xA0 || k == 0x1680
    || (0x2000 <= k <= 0x200A) || k == 0x2028 || k == 0x2029 || k == 0x202F
    || k == 0x205F || k == 0x3000
  }

  predicate AllSpace(s: string) {
    forall i :: 0 <= i < |s| ==> IsSpace(s[i])
  }

  /** `s.lstrip()`. */
  function StripLeft(s: string): string {
    if s == [] || !IsSpace(s[0]) then s else StripLeft(s[1..])
  }

  /** `s.rstrip()`. */
  function StripRight(s: string): string {
    if s == [] || !IsSpace(s[|s| - 1]) then s else StripRight(s[..|s| - 1])
  }

  /** `lstrip` removes exactly the leading whitespace: a suffix that is empty or starts with a non-space. */
  lemma {:induction false} StripLeftFacts(s: string)
    ensures var r := StripLeft(s);
      && |r| <= |s| && r == s[|s| - |r|..]
      && (r == [] || !IsSpace(r[0]))
      && AllSpace(s[..|s| - |r|])
  {
    if s != [] && IsSpace(s[0]) {
      StripLeftFacts(s[1..]);
      var r := StripLeft(s[1..]);
      assert s[1..][..|s| - 1 - |r|] == s[1..|s| - |r|];
    }
  }

  /** `rstrip` removes exactly the trailing whitespace: a prefix that is empty or ends with a non-space. */
  lemma {:induction false} StripRightFacts(s: string)
    ensures var r := StripRight(s);
      && |r| <= |s| && r == s[..|r|]
      && (r == [] || !IsSpace(r[|r| - 1]))
      && AllSpace(s[|r|..])
  {
    if s != [] && IsSpace(s[|s| - 1]) {
      StripRightFacts(s[..|s| - 1]);
      var r := StripRight(s[..|s| - 1]);
      assert s[|r|..] == s[..|s| - 1][|r|..] + [s[|s| - 1]];
    }
  }

  /** Python's `s.strip()`: `s` without its leading and trailing whitespace. */
  function Strip(s: string): (r: string)
    ensures r == [] || (!IsSpace(r[0]) && !IsSpace(r[|r| - 1]))
    ensures r == [] <==> AllSpace(s)
    ensures s == [] || (!IsSpace(s[0]) && !IsSpace(s[|s| - 1])) ==> r == s
  {
    StripFacts(s);
    StripRight(StripLeft(s))
  }

  lemma StripFacts(s: string)
    ensures var r := StripRight(StripLeft(s));
      && (r == [] || (!IsSpace(r[0]) && !IsSpace(r[|r| - 1])))
      && (r == [] <==> AllSpace(s))
      && (s == [] || (!IsSpace(s[0]) && !IsSpace(s[|s| - 1])) ==> r == s)
  {
    var left := StripLeft(s);
    StripLeftFacts(s);
    StripRightFacts(left);
    var r := StripRight(left);
    if r != [] {
      assert r[0] == left[0];
      var i := |s| - |left|;
      assert left[0] == s[i];
      assert !AllSpace(s);
    } else {
      assert left[0..] == left;
      assert s[..|s| - |left|] == s;
    }
  }

  function UpperChar(c: char): char {
    if 'a' <= c <= 'z' then (c as int - 32) as char else c
  }

  function LowerChar(c: char): char {
    if 'A' <= c <= 'Z' then (c as int + 32) as char else c
  }

  /** Python's `s.upper()` on the ASCII letters. */
  function Upper(s: string): string {
    seq(|s|, i requires 0 <= i < |s| => UpperChar(s[i]))
  }

  /** Python's `s.lower()` on the ASCII letters. */
  function Lower(s: string): string {
    seq(|s|, i requires 0 <= i < |s| => LowerChar(s[i]))
  }

  predicate StartsWith(s: string, prefix: string) {
    |prefix| <= |s| && s[..|prefix|] == prefix
  }

  /** The characters kept by the class `[a-zA-Z0-9._-]` of the upload-name sanitiser. */
  predicate IsSafeChar(c: char) {
    ('a' <= c <= 'z') || ('A' <= c <= 'Z') || ('0' <= c <= '9') || c == '.' || c == '_' || c == '-'
  }

  predicate AllSafe(s: string) {
    forall i :: 0 <= i < |s| ==> IsSafeChar(s[i])
  }

  /** The sanitiser from the point where the previous character was (`inRun`) or was not part of a replaced run. */
  function SanitizeFrom(s: string, inRun: bool): string {
    if s == [] then []
    else if IsSafeChar(s[0]) then [s[0]] + SanitizeFrom(s[1..], false)
    else if inRun then SanitizeFrom(s[1..], true)
    else ['_'] + SanitizeFrom(s[1..], true)
  }

  /** From either state, the substitution keeps only safe characters, never lengthens, and leaves a safe name as it is. */
  lemma {:induction false} SanitizeFromSafe(s: string, inRun: bool)
    ensures AllSafe(SanitizeFrom(s, inRun))
    ensures |SanitizeFrom(s, inRun)| <= |s|
    ensures AllSafe(s) ==> SanitizeFrom(s, inRun) == s
    decreases |s|
  {
    if s != [] {
      SanitizeFromSafe(s[1..], !IsSafeChar(s[0]));
      SanitizeFromSafe(s[1..], true);
      if AllSafe(s) {
        assert AllSafe(s[1..]);
      }
    }
  }

  /**
   * `re.sub(r'[^a-zA-Z0-9._-]+', '_', s)`: every maximal run of other characters
   * becomes one underscore. The result holds only safe characters, is no longer
   * than the input, and a name that is already safe is kept as it is.
   */
  function Sanitize(s: string): (r: string)
    ensures AllSafe(r) && |r| <= |s|
    ensures AllSafe(s) ==> r == s
  {
    SanitizeFromSafe(s, false);
    SanitizeFrom(s, false)
  }

  lemma SanitizeIdempotent(s: string)
    ensures Sanitize(Sanitize(s)) == Sanitize(s)
  {
  }

  /** Whether the sanitiser is inside a run of replaced characters after reading `x` from state `inRun`. */
  function RunAfter(x: string, inRun: bool): bool {
    if x == [] then inRun else !IsSafeChar(x[|x| - 1])
  }

  /** The sanitiser reads a concatenation piece by piece, carrying only whether it is inside a run. */
  lemma {:induction false} SanitizeFromAppend(x: string, y: string, inRun: bool)
    ensures SanitizeFrom(x + y, inRun) == SanitizeFrom(x, inRun) + SanitizeFrom(y, RunAfter(x, inRun))
    decreases |x|
  {
    if x == [] {
      assert x + y == y;
    } else {
      var c, tail := x[0], x[1..];
      var next := !IsSafeChar(c);
      assert x == [c] + tail && x + y == [c] + (tail + y);
      SanitizeFromCons(c, tail, inRun);
      SanitizeFromCons(c, tail + y, inRun);
      SanitizeFromAppend(tail, y, next);
      assert RunAfter(tail, next) == RunAfter(x, inRun) by {
        if tail != [] {
          assert tail[|tail| - 1] == x[|x| - 1];
        }
      }
    }
  }

  /** What the sanitiser writes for the character `c`, read in state `inRun`. */
  function Emitted(c: char, inRun: bool): string {
    if IsSafeChar(c) then [c] else if inRun then [] else ['_']
  }

  lemma SanitizeFromCons(c: char, w: string, inRun: bool)
    ensures SanitizeFrom([c] + w, inRun) == Emitted(c, inRun) + SanitizeFrom(w, !IsSafeChar(c))
  {
    assert ([c] + w)[0] == c && ([c] + w)[1..] == w;
  }

  /** After a safe character, or before one, the state of the run does not matter. */
  lemma SanitizeFromSafeStart(y: string)
    requires y == [] || IsSafeChar(y[0])
    ensures SanitizeFrom(y, true) == SanitizeFrom(y, false)
  {
  }

  /**
   * The sanitiser works piecewise: a string cut where one side is empty, or at a safe
   * character, is sanitised as its two parts.
   */
  lemma SanitizeAppend(x: string, y: string)
    requires x == [] || IsSafeChar(x[|x| - 1]) || (y != [] && IsSafeChar(y[0]))
    ensures Sanitize(x + y) == Sanitize(x) + Sanitize(y)
  {
    SanitizeFromAppend(x, y, false);
    if x != [] && !IsSafeChar(x[|x| - 1]) {
      SanitizeFromSafeStart(y);
    }
  }

  /** Inside a run, characters to be replaced add nothing. */
  lemma {:induction false} SanitizeFromUnsafeRun(u: string)
    requires forall i :: 0 <= i < |u| ==> !IsSafeChar(u[i])
    ensures SanitizeFrom(u, true) == []
    decreases |u|
  {
    if u != [] {
      SanitizeFromUnsafeRun(u[1..]);
    }
  }

  /** A non-empty run of characters outside `[a-zA-Z0-9._-]` becomes one underscore. */
  lemma SanitizeUnsafeRun(u: string)
    requires u != [] && forall i :: 0 <= i < |u| ==> !IsSafeChar(u[i])
    ensures Sanitize(u) == "_"
  {
    SanitizeFromUnsafeRun(u[1..]);
  }

  // ---------------------------------------------------------------- decimals

  predicate IsDigit(c: char) {
    '0' <= c <= '9'
  }

  predicate AllDigits(s: string) {
    forall i :: 0 <= i < |s| ==> IsDigit(s[i])
  }

  function DigitChar(d: nat): char
    requires d < 10
  {
    ('0' as int + d) as char
  }

  /** The shortest decimal spelling of `n`, as Python's `str(n)` and `{n:d}`. */
  function DigitsOf(n: nat): (r: string)
    ensures |r| > 0 && AllDigits(r)
    ensures n < 10 <==> |r| == 1
    ensures r[0] != '0' || n == 0
  {
    if n < 10 then [DigitChar(n)] else DigitsOf(n / 10) + [DigitChar(n % 10)]
  }

  /** The value of a string of decimal digits. */
  function ValueOf(s: string): nat
    requires AllDigits(s)
  {
    if s == [] then 0 else 10 * ValueOf(s[..|s| - 1]) + (s[|s| - 1] as int - '0' as int)
  }

  lemma {:induction false} ValueOfDigits(n: nat)
    ensures ValueOf(DigitsOf(n)) == n
  {
    if n >= 10 {
      var d := DigitsOf(n);
      assert d[..|d| - 1] == DigitsOf(n / 10);
      ValueOfDigits(n / 10);
    }
  }

  /** Digits without a needless leading zero are the spelling `str` gives their value. */
  lemma {:induction false} CanonicalDigits(a: string)
    requires a != [] && AllDigits(a) && (|a| == 1 || a[0] != '0')
    ensures a == DigitsOf(ValueOf(a))
    decreases |a|
  {
    var init := a[..|a| - 1];
    var d := a[|a| - 1] as int - '0' as int;
    assert ValueOf(a) == 10 * ValueOf(init) + d;
    if |a| == 1 {
      assert init == [];
      assert DigitChar(d) == a[0];
    } else {
      assert init[0] == a[0];
      CanonicalDigits(init);
      var v := ValueOf(init);
      assert v >= 1 by {
        if |init| == 1 {
          assert init[..0] == [];
          assert ValueOf(init) == init[0] as int - '0' as int;
        }
      }
      assert ValueOf(a) / 10 == v && ValueOf(a) % 10 == d;
      assert DigitChar(d) == a[|a| - 1];
      assert a == init + [a[|a| - 1]];
    }
  }

  /**
   * A field of at least two digits, with no leading zero unless it is exactly two
   * digits long, is the `{n:02d}` spelling of its value.
   */
  lemma PaddedDigits(a: string)
    requires |a| >= 2 && AllDigits(a) && (|a| == 2 || a[0] != '0')
    ensures a == Pad2(ValueOf(a))
  {
    var v := ValueOf(a);
    if a[0] != '0' {
      CanonicalDigits(a);
    } else {
      assert |a| == 2;
      assert a[..1] == [a[0]] && a[..1][..0] == [];
      assert ValueOf(a[..1]) == 0;
      assert v < 10;
      assert DigitChar(v) == a[1];
      assert a == ['0', DigitChar(v)];
    }
  }

  /** Digits with single underscores between them, as Python's `int()` accepts. */
  predicate WellGrouped(s: string) {
    && |s| > 0 && IsDigit(s[0]) && IsDigit(s[|s| - 1])
    && (forall i :: 0 <= i < |s| ==> IsDigit(s[i]) || s[i] == '_')
    && NoDoubleUnderscore(s)
  }

  predicate NoDoubleUnderscore(s: string) {
    |s| < 2 || ((s[0] != '_' || s[1] != '_') && NoDoubleUnderscore(s[1..]))
  }

  lemma {:induction false} DigitsHaveNoDoubleUnderscore(s: string)
    requires AllDigits(s)
    ensures NoDoubleUnderscore(s)
  {
    if |s| >= 2 { DigitsHaveNoDoubleUnderscore(s[1..]); }
  }

  function DropUnderscores(s: string): (r: string)
    requires forall i :: 0 <= i < |s| ==> IsDigit(s[i]) || s[i] == '_'
    ensures AllDigits(r)
    ensures AllDigits(s) ==> r == s
  {
    if s == [] then [] else (if s[0] == '_' then [] else [s[0]]) + DropUnderscores(s[1..])
  }

  /** Digits without underscores are a well-grouped literal of their own value. */
  lemma PlainDigitsGrouped(t: string)
    ensures t != [] && AllDigits(t) ==> WellGrouped(t) && DropUnderscores(t) == t
  {
    if t != [] && AllDigits(t) {
      DigitsHaveNoDoubleUnderscore(t);
    }
  }

  function UnsignedValue(s: string): Option<nat> {
    if WellGrouped(s) then Some(ValueOf(DropUnderscores(s))) else None
  }

  /**
   * The control characters U+001C..U+001F. `str.isspace` accepts them, but `int()`
   * skips only ASCII whitespace below U+0080 and rejects them wherever they occur.
   */
  predicate IsInfoSeparator(c: char) {
    28 <= c as int <= 31
  }

  predicate NoInfoSeparator(s: string) {
    forall i :: 0 <= i < |s| ==> !IsInfoSeparator(s[i])
  }

  /**
   * Python's `int(s)` for a string: surrounding whitespace is ignored, one optional
   * sign, then ASCII digits with single underscores between them; anything else is
   * a `ValueError`, here `None`.
   */
  function ParseInt(s: string): Option<int> {
    if !NoInfoSeparator(s) then None else SignedValue(Strip(s))
  }

  /**
   * `int()` refuses a text holding U+001C..U+001F and a blank one; a text that is
   * plain digits once stripped is read as their value.
   */
  lemma ParseIntFacts(s: string)
    ensures !NoInfoSeparator(s) ==> ParseInt(s) == None
    ensures ParseInt(s).Some? ==> Strip(s) != []
    ensures NoInfoSeparator(s) && Strip(s) != [] && AllDigits(Strip(s)) ==> ParseInt(s) == Some(ValueOf(Strip(s)))
  {
    PlainDigitsGrouped(Strip(s));
  }

  /** One optional sign, then the unsigned digits. */
  function SignedValue(t: string): Option<int> {
    if |t| > 0 && (t[0] == '+' || t[0] == '-') then Signed(t[0] == '-', UnsignedValue(t[1..]))
    else Signed(false, UnsignedValue(t))
  }

  function Signed(negative: bool, u: Option<nat>): Option<int> {
    if u.None? then None
    else if negative then Some(-(u.value as int))
    else Some(u.value as int)
  }

  /** The digits of `m`, read back without a sign, are `m`. */
  lemma UnsignedValueOfDigits(m: nat)
    ensures UnsignedValue(DigitsOf(m)) == Some(m)
  {
    var d := DigitsOf(m);
    ValueOfDigits(m);
    DigitsHaveNoDoubleUnderscore(d);
    assert WellGrouped(d);
  }

  /** `int(str(m))` is `m` for a non-negative `m`. */
  lemma ParseIntOfDigits(m: nat)
    ensures ParseInt(DigitsOf(m)) == Some(m as int)
  {
    var d := DigitsOf(m);
    assert NoInfoSeparator(d);
    assert Strip(d) == d by {
      StripKeeps(d);
    }
    ValueOfDigits(m);
    ParseIntFacts(d);
  }

  /** A string with no whitespace at either end is its own `strip()`. */
  lemma StripKeeps(s: string)
    requires |s| > 0 && !IsSpace(s[0]) && !IsSpace(s[|s| - 1])
    ensures Strip(s) == s
  {
  }

  /** Python's `{n:02d}` for a non-negative `n`: at least two digits, zero-padded. */
  function Pad2(n: nat): (r: string)
    ensures |r| >= 2 && AllDigits(r) && ValueOf(r) == n
    ensures n < 100 ==> |r| == 2
    ensures n >= 10 ==> r[0] != '0'
  {
    ValueOfDigits(n);
    if n < 10 then
      var r := ['0', DigitChar(n)];
      assert r[..1] == ['0'];
      r
    else DigitsOf(n)
  }
}
