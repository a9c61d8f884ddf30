/**
 * The JavaScript string built-ins the payload scripts rely on: `indexOf`, `lastIndexOf`, `slice`,
 * `parseInt(text, 10)`, the decimal text of an integer Number, and the `<` order on strings that
 * the default array sort uses. A `string` here is a sequence of code points, so positions count
 * characters; JavaScript counts UTF-16 code units, which is the same for every character of the
 * Basic Multilingual Plane and differs for the others.
 */
module JsString {
  import opened Wrappers

  /** `pat` occurs in `s` starting at index `k`. */
  predicate OccursAt(s: string, pat: string, k: int)
  {
    0 <= k && k + |pat| <= |s| && s[k..k + |pat|] == pat
  }

  /** `pat` occurs somewhere in `s`. */
  ghost predicate Contains(s: string, pat: string)
  {
    exists k :: OccursAt(s, pat, k)
  }

  /** A one-character pattern occurs exactly where that character stands. */
  lemma OccursAtChar(s: string, c: char, k: int)
    ensures OccursAt(s, [c], k) <==> 0 <= k < |s| && s[k] == c
  {
    if 0 <= k < |s| {
      assert s[k..k + 1] == [s[k]];
    }
  }

  // ---------------------------------------------------------------------------
  // indexOf / lastIndexOf

  /** The first occurrence of `pat` at or after `from`, or -1. */
  function IndexOfFrom(s: string, pat: string, from: nat): int
    decreases |s| - from
  {
    if from + |pat| > |s| then -1
    else if OccursAt(s, pat, from) then from
    else IndexOfFrom(s, pat, from + 1)
  }

  /** The search from `from` finds the first occurrence at or after `from`, and -1 only when there is none. */
  lemma {:induction false} IndexOfFromSpec(s: string, pat: string, from: nat)
    decreases |s| - from
    ensures var r := IndexOfFrom(s, pat, from);
      && (r == -1 || (from <= r && OccursAt(s, pat, r)))
      && (r == -1 ==> forall k :: from <= k ==> !OccursAt(s, pat, k))
      && (r != -1 ==> forall k :: from <= k < r ==> !OccursAt(s, pat, k))
  {
    if from + |pat| <= |s| && !OccursAt(s, pat, from) {
      IndexOfFromSpec(s, pat, from + 1);
    }
  }

  /** `s.indexOf(pat)`: the index of the first occurrence of `pat`, or -1 when there is none. */
  function IndexOf(s: string, pat: string): int
  {
    IndexOfFrom(s, pat, 0)
  }

  /** `indexOf` gives the first occurrence, and -1 exactly when `pat` does not occur. */
  lemma IndexOfSpec(s: string, pat: string)
    ensures var r := IndexOf(s, pat);
      && -1 <= r
      && (r >= 0 ==> OccursAt(s, pat, r) && forall k :: 0 <= k < r ==> !OccursAt(s, pat, k))
      && (r == -1 <==> !Contains(s, pat))
  {
    IndexOfFromSpec(s, pat, 0);
  }

  /** The last occurrence of `pat` at or before `from`, or -1. */
  function LastIndexOfFrom(s: string, pat: string, from: int): (r: int)
    decreases from + 1
    ensures -1 <= r
  {
    if from < 0 then -1
    else if OccursAt(s, pat, from) then from
    else LastIndexOfFrom(s, pat, from - 1)
  }

  /** The backward search from `from` finds the last occurrence at or before `from`, or -1. */
  lemma {:induction false} LastIndexOfFromSpec(s: string, pat: string, from: int)
    decreases from + 1
    ensures var r := LastIndexOfFrom(s, pat, from);
      && (r == -1 || (0 <= r <= from && OccursAt(s, pat, r)))
      && (forall k :: r < k <= from ==> !OccursAt(s, pat, k))
  {
    if from >= 0 && !OccursAt(s, pat, from) {
      LastIndexOfFromSpec(s, pat, from - 1);
    }
  }

  /** `s.lastIndexOf(pat)`: the index of the last occurrence of `pat`, or -1 when there is none. */
  function LastIndexOf(s: string, pat: string): (r: int)
    ensures -1 <= r
  {
    LastIndexOfFrom(s, pat, |s| - |pat|)
  }

  /** `lastIndexOf` gives the last occurrence, and -1 exactly when `pat` does not occur. */
  lemma LastIndexOfSpec(s: string, pat: string)
    ensures var r := LastIndexOf(s, pat);
      && -1 <= r
      && (r >= 0 ==> OccursAt(s, pat, r) && forall k :: r < k ==> !OccursAt(s, pat, k))
      && (r == -1 <==> !Contains(s, pat))
  {
    LastIndexOfFromSpec(s, pat, |s| - |pat|);
  }

  /** A character that occurs once after position `|a|` is found there by `lastIndexOf`. */
  lemma LastIndexOfSplit(a: string, c: char, b: string)
    requires c !in b
    ensures LastIndexOf(a + [c] + b, [c]) == |a|
  {
    var s := a + [c] + b;
    LastIndexOfSpec(s, [c]);
    OccursAtChar(s, c, |a|);
    forall k | |a| < k
      ensures !OccursAt(s, [c], k)
    {
      OccursAtChar(s, c, k);
      if k < |s| {
        assert s[k] == b[k - |a| - 1];
      }
    }
  }

  /** The first `c` of `a + [c] + b` is found by `indexOf` when `a` holds none. */
  lemma IndexOfSplit(a: string, c: char, b: string)
    requires c !in a
    ensures IndexOf(a + [c] + b, [c]) == |a|
  {
    var s := a + [c] + b;
    IndexOfSpec(s, [c]);
    OccursAtChar(s, c, |a|);
    forall k | 0 <= k < |a|
      ensures !OccursAt(s, [c], k)
    {
      OccursAtChar(s, c, k);
      assert s[k] == a[k];
    }
  }

  // ---------------------------------------------------------------------------
  // slice

  /** How `slice` turns an argument into a position: negative counts from the end, then clamp. */
  function RelativeIndex(k: int, len: nat): (r: nat)
    ensures r <= len
    ensures 0 <= k <= len ==> r == k
    ensures k < 0 && -k <= len ==> r == len + k
    ensures k > len ==> r == len
    ensures k + len < 0 ==> r == 0
  {
    if k < 0 then (if len + k < 0 then 0 else len + k)
    else if k > len then len
    else k
  }

  /** `s.slice(start, end)`: the text between the two resolved positions, empty when end <= start. */
  function Slice(s: string, start: int, end: int): (r: string)
    ensures |r| <= |s|
  {
    var from := RelativeIndex(start, |s|);
    var to := RelativeIndex(end, |s|);
    if from < to then s[from..to] else []
  }

  /**
   * Bounds within the string select those characters; a negative bound counts from the end; a
   * bound past the end stands for the end; an end at or before the start gives the empty string.
   */
  lemma SliceSpec(s: string, start: int, end: int)
    ensures 0 <= start <= end <= |s| ==> Slice(s, start, end) == s[start..end]
    ensures -|s| <= start < 0 ==> Slice(s, start, end) == Slice(s, |s| + start, end)
    ensures -|s| <= end < 0 ==> Slice(s, start, end) == Slice(s, start, |s| + end)
    ensures 0 <= start <= |s| < end ==> Slice(s, start, end) == s[start..]
    ensures 0 <= end <= start ==> Slice(s, start, end) == []
  {
  }

  // ---------------------------------------------------------------------------
  // Decimal digits and the text of an integer

  predicate IsDigit(c: char)
  {
    '0' <= c <= '9'
  }

  predicate AllDigits(s: string)
  {
    forall i :: 0 <= i < |s| ==> IsDigit(s[i])
  }

  /** The value of a string of decimal digits, most significant first. */
  function DigitsValue(ds: string): nat
    requires AllDigits(ds)
  {
    if ds == [] then 0
    else DigitsValue(ds[..|ds| - 1]) * 10 + (ds[|ds| - 1] as int - '0' as int)
  }

  function DigitChar(d: nat): (c: char)
    requires d < 10
    ensures IsDigit(c) && c as int - '0' as int == d
  {
    ('0' as int + d) as char
  }

  /** The decimal text of a non-negative integer, without leading zeros. */
  function NatToString(n: nat): (r: string)
    ensures |r| > 0
  {
    if n < 10 then [DigitChar(n)] else NatToString(n / 10) + [DigitChar(n % 10)]
  }

  /** The text is all digits, its value is `n`, and it starts with '0' only for 0. */
  lemma {:induction false} NatToStringSpec(n: nat)
    ensures var r := NatToString(n);
      AllDigits(r) && DigitsValue(r) == n && (r[0] == '0' ==> n == 0)
  {
    if n >= 10 {
      NatToStringSpec(n / 10);
      var r := NatToString(n);
      assert r[..|r| - 1] == NatToString(n / 10);
    }
  }

  /** `String(i)` (or `${i}`) for an integer-valued Number: an optional minus sign and digits. */
  function IntToString(i: int): (r: string)
    ensures |r| > 0
  {
    if i < 0 then "-" + NatToString(-i) else NatToString(i)
  }

  /** The decimal text of a non-negative integer holds neither '-' nor '.' nor '/'. */
  lemma NatTextPlain(n: nat)
    ensures '-' !in IntToString(n) && '.' !in IntToString(n) && '/' !in IntToString(n)
  {
    var r := IntToString(n);
    NatToStringSpec(n);
    forall c | c in r
      ensures IsDigit(c)
    {
      var i :| 0 <= i < |r| && r[i] == c;
    }
  }

  // ---------------------------------------------------------------------------
  // parseInt(text, 10)

  /** WhiteSpace and LineTerminator code points, which `parseInt` skips at the start of its input. */
  predicate IsJsWhiteSpace(c: char)
  {
    c == '\t' || c == '\U{000B}' || c == '\U{000C}' || c == ' ' || c == '\U{00A0}' || c == '\U{FEFF}'
    || c == '\U{1680}' || ('\U{2000}' <= c <= '\U{200A}') || c == '\U{202F}' || c == '\U{205F}'
    || c == '\U{3000}' || c == '\n' || c == '\r' || c == '\U{2028}' || c == '\U{2029}'
  }

  /** The input with its leading white space removed. */
  function TrimStart(s: string): string
  {
    if s != [] && IsJsWhiteSpace(s[0]) then TrimStart(s[1..]) else s
  }

  /** Trimming keeps a suffix of the input, which starts with no white space. */
  lemma {:induction false} TrimStartSpec(s: string)
    ensures var r := TrimStart(s);
      && |r| <= |s| && r == s[|s| - |r|..]
      && (forall i :: 0 <= i < |s| - |r| ==> IsJsWhiteSpace(s[i]))
      && (r == [] || !IsJsWhiteSpace(r[0]))
  {
    if s != [] && IsJsWhiteSpace(s[0]) {
      var tail := s[1..];
      TrimStartSpec(tail);
      var r := TrimStart(tail);
      assert TrimStart(s) == r;
      forall i | 0 <= i < |s| - |r|
        ensures IsJsWhiteSpace(s[i])
      {
        if i > 0 {
          assert s[i] == tail[i - 1];
        }
      }
    }
  }

  /** The longest prefix of `s` made of decimal digits. */
  function DigitPrefix(s: string): string
  {
    if s != [] && IsDigit(s[0]) then [s[0]] + DigitPrefix(s[1..]) else []
  }

  /** The digit prefix is a prefix of the input, all digits, and stops at the first non-digit. */
  lemma {:induction false} DigitPrefixSpec(s: string)
    ensures var r := DigitPrefix(s);
      && |r| <= |s| && r == s[..|r|] && AllDigits(r)
      && (|r| < |s| ==> !IsDigit(s[|r|]))
  {
    if s != [] && IsDigit(s[0]) {
      DigitPrefixSpec(s[1..]);
      var r := DigitPrefix(s[1..]);
      assert [s[0]] + r == s[..|r| + 1];
    }
  }

  /**
   * `parseInt(s, 10)`: skip leading white space, take one optional sign, then read the longest run
   * of decimal digits; NaN (here None) when that run is empty. A radix of 10 disables the `0x`
   * prefix, so `"0x1"` reads as 0.
   */
  function ParseInt(s: string): Option<int>
  {
    var t := TrimStart(s);
    var negative := |t| > 0 && t[0] == '-';
    var unsigned := if |t| > 0 && (t[0] == '-' || t[0] == '+') then t[1..] else t;
    var digits := DigitPrefix(unsigned);
    DigitPrefixSpec(unsigned);
    if digits == [] then None
    else if negative then Some(-(DigitsValue(digits) as int))
    else Some(DigitsValue(digits))
  }

  /** Reading back the decimal text of any integer gives that integer. */
  lemma ParseIntToString(i: int)
    ensures ParseInt(IntToString(i)) == Some(i)
  {
    var s := IntToString(i);
    NatToStringSpec(if i < 0 then -i else i);
    assert TrimStart(s) == s;
    if i < 0 {
      var ds := NatToString(-i);
      assert s[1..] == ds;
      AllDigitsPrefix(ds);
    } else {
      AllDigitsPrefix(s);
    }
  }

  /** Text made only of digits is its own digit prefix. */
  lemma {:induction false} AllDigitsPrefix(ds: string)
    requires AllDigits(ds)
    ensures DigitPrefix(ds) == ds
  {
    if ds != [] {
      AllDigitsPrefix(ds[1..]);
      assert [ds[0]] + ds[1..] == ds;
    }
  }

  /** Different integers have different decimal texts. */
  lemma IntToStringInjective(x: int, y: int)
    requires IntToString(x) == IntToString(y)
    ensures x == y
  {
    ParseIntToString(x);
    ParseIntToString(y);
  }

  /** Text without a minus sign never reads as a negative number. */
  lemma ParseIntNoMinus(s: string)
    requires '-' !in s
    ensures ParseInt(s).Some? ==> ParseInt(s).value >= 0
  {
    var t := TrimStart(s);
    TrimStartSpec(s);
    if |t| > 0 {
      assert t[0] == s[|s| - |t|];
    }
  }

  /** Text with no decimal digit at all reads as NaN. */
  lemma ParseIntNoDigits(s: string)
    requires forall i :: 0 <= i < |s| ==> !IsDigit(s[i])
    ensures ParseInt(s) == None
  {
    var t := TrimStart(s);
    TrimStartSpec(s);
    assert forall i :: 0 <= i < |t| ==> t[i] == s[|s| - |t| + i];
  }

  // ---------------------------------------------------------------------------
  // The `<` order on strings

  /**
   * `a < b` on strings: a proper prefix is smaller, otherwise the first differing character (code
   * point) decides.
   */
  predicate StringLess(a: string, b: string)
  {
    if b == [] then false
    else if a == [] then true
    else if a[0] != b[0] then a[0] < b[0]
    else StringLess(a[1..], b[1..])
  }

  predicate StringLe(a: string, b: string)
  {
    a == b || StringLess(a, b)
  }

  lemma {:induction false} StringLessIrreflexive(a: string)
    ensures !StringLess(a, a)
  {
    if a != [] {
      StringLessIrreflexive(a[1..]);
    }
  }

  lemma {:induction false} StringLessTransitive(a: string, b: string, c: string)
    requires StringLess(a, b) && StringLess(b, c)
    ensures StringLess(a, c)
  {
    if a != [] && a[0] == b[0] && b[0] == c[0] {
      StringLessTransitive(a[1..], b[1..], c[1..]);
    }
  }

  /** Two different strings are ordered one way or the other, never both. */
  lemma {:induction false} StringLessTotal(a: string, b: string)
    ensures a == b || StringLess(a, b) || StringLess(b, a)
    ensures !(StringLess(a, b) && StringLess(b, a))
  {
    if a != [] && b != [] && a[0] == b[0] {
      StringLessTotal(a[1..], b[1..]);
      if a[1..] == b[1..] {
        assert a == [a[0]] + a[1..] && b == [b[0]] + b[1..];
      }
    }
  }

  lemma StringLeTransitive(a: string, b: string, c: string)
    requires StringLe(a, b) && StringLe(b, c)
    ensures StringLe(a, c)
  {
    if a != b && b != c {
      StringLessTransitive(a, b, c);
    }
  }

  lemma StringLeAntisymmetric(a: string, b: string)
    requires StringLe(a, b) && StringLe(b, a)
    ensures a == b
  {
    StringLessTotal(a, b);
  }
}
