/**
 * The pieces of java.lang that the tile resolver relies on, written out:
 * decimal rendering of an int (`"" + n`), `String.contains`, `String.replace`
 * with a literal target, and the truncating remainder operator `%`.
 */
module JavaText {

  predicate IsDigit(c: char) { '0' <= c <= '9' }

  /** A character that can appear in the decimal rendering of an int. */
  predicate IsDecimalChar(c: char) { IsDigit(c) || c == '-' }

  /** True when no character of `p` occurs anywhere in `r`. */
  predicate Disjoint(p: string, r: string) {
    forall i, j :: 0 <= i < |p| && 0 <= j < |r| ==> p[i] != r[j]
  }

  function DigitChar(d: nat): (c: char)
    requires d < 10
    ensures IsDigit(c)
  {
    ('0' as int + d) as char
  }

  function DigitValue(c: char): nat
    requires IsDigit(c)
  {
    c as int - '0' as int
  }

  /** The base-10 digits of `n`, most significant first, without leading zeros. */
  function Digits(n: nat): (s: string)
    ensures |s| > 0
    ensures forall i :: 0 <= i < |s| ==> IsDigit(s[i])
    ensures n < 10 <==> |s| == 1
    ensures s[0] == '0' <==> n == 0
    decreases n
  {
    if n < 10 then [DigitChar(n)] else Digits(n / 10) + [DigitChar(n % 10)]
  }

  /** Java's `"" + n` for an int: a leading '-' for negative values, then the digits of |n|. */
  function Decimal(n: int): (s: string)
    ensures |s| > 0
    ensures forall i :: 0 <= i < |s| ==> IsDecimalChar(s[i])
    ensures forall i :: 0 < i < |s| ==> IsDigit(s[i])
    ensures s[0] == '-' <==> n < 0
    ensures s[0] == '0' <==> n == 0
    ensures s[0] == '0' ==> |s| == 1
    ensures n < 0 ==> |s| > 1 && s[1] != '0'
  {
    if n < 0 then "-" + Digits(-n) else Digits(n)
  }

  /** The number a string of digits denotes (the inverse of Digits). */
  function DigitsValue(s: string): nat
    requires forall i :: 0 <= i < |s| ==> IsDigit(s[i])
  {
    if s == [] then 0 else 10 * DigitsValue(s[..|s| - 1]) + DigitValue(s[|s| - 1])
  }

  /** A possibly signed run of digits, as Decimal produces. */
  predicate IsDecimalText(s: string) {
    forall i :: 0 <= i < |s| ==> IsDigit(s[i]) || (i == 0 && s[i] == '-')
  }

  /** The int a decimal rendering denotes (the inverse of Decimal). */
  function ParseDecimal(s: string): int
    requires IsDecimalText(s)
  {
    if |s| > 0 && s[0] == '-' then -(DigitsValue(s[1..]) as int) else DigitsValue(s)
  }

  lemma {:induction false} DigitsRoundTrip(n: nat)
    ensures DigitsValue(Digits(n)) == n
    decreases n
  {
    if n >= 10 {
      DigitsRoundTrip(n / 10);
      var s := Digits(n);
      assert s[..|s| - 1] == Digits(n / 10);
    }
  }

  lemma DecimalRoundTrip(n: int)
    ensures IsDecimalText(Decimal(n)) && ParseDecimal(Decimal(n)) == n
  {
    if n < 0 {
      DigitsRoundTrip(-n);
      assert Decimal(n)[1..] == Digits(-n);
    } else {
      DigitsRoundTrip(n);
    }
  }

  /** Distinct ints have distinct decimal renderings. */
  lemma DecimalInjective(a: int, b: int)
    ensures Decimal(a) == Decimal(b) <==> a == b
  {
    DecimalRoundTrip(a);
    DecimalRoundTrip(b);
  }

  /**
   * Java's `a % n` for a positive divisor: the remainder truncates toward zero, so it
   * takes the sign of `a`. Against Dafny's Euclidean `%`, it is the same for `a >= 0`
   * and one divisor lower for a negative `a` that is not a multiple of `n`.
   */
  function JavaRem(a: int, n: int): (r: int)
    requires n > 0
    ensures -n < r < n
    ensures a >= 0 ==> r >= 0
    ensures a <= 0 ==> r <= 0
    ensures a >= 0 ==> r == a % n
    ensures a < 0 ==> r == (if a % n == 0 then 0 else a % n - n)
    ensures (a - r) % n == 0
  {
    if a >= 0 then
      MultipleRemainder(n, a / n);
      assert a - a % n == n * (a / n);
      a % n
    else
      NegatedRemainder(-a, n);
      MultipleRemainder(n, -((-a) / n));
      assert a + (-a) % n == n * -((-a) / n);
      -((-a) % n)
  }

  /** A multiple of `n` that lies in [0, 2n) is 0 or n itself. */
  lemma MultipleInRange(n: int, k: int)
    requires n > 0 && 0 <= n * k < 2 * n
    ensures k == 0 || k == 1
  {
  }

  /** Every multiple of `n` leaves remainder 0. */
  lemma MultipleRemainder(n: int, q: int)
    requires n > 0
    ensures (n * q) % n == 0
  {
    var t := n * q;
    assert t == n * (t / n) + t % n;
    assert t % n == n * (q - t / n);
    MultipleInRange(n, q - t / n);
  }

  /** The Euclidean remainder of `-b`, in terms of the remainder of `b`. */
  lemma NegatedRemainder(b: int, n: int)
    requires n > 0
    ensures (-b) % n == (if b % n == 0 then 0 else n - b % n)
  {
    var q1, m1 := b / n, b % n;
    var q2, m2 := (-b) / n, (-b) % n;
    assert b == n * q1 + m1;
    assert -b == n * q2 + m2;
    assert m1 + m2 == n * (-(q1 + q2));
    MultipleInRange(n, -(q1 + q2));
  }

  /** Java's `x % n` is a valid index exactly for a non-negative `x` or a multiple of `n`. */
  lemma JavaRemNonNegative(x: int, n: int)
    requires n > 0
    ensures JavaRem(x, n) >= 0 <==> x >= 0 || x % n == 0
  {
  }

  /** `p` occurs in `s` starting at index `i`. */
  predicate OccursAt(s: string, p: string, i: int) {
    0 <= i && i + |p| <= |s| && s[i..i + |p|] == p
  }

  /** Java's `s.contains(p)`. */
  predicate Contains(s: string, p: string) {
    exists i | 0 <= i <= |s| - |p| :: OccursAt(s, p, i)
  }

  predicate StartsWith(s: string, p: string) {
    |p| <= |s| && s[..|p|] == p
  }

  predicate EndsWith(s: string, p: string) {
    |p| <= |s| && s[|s| - |p|..] == p
  }

  lemma EndsWithAppended(u: string, v: string)
    ensures EndsWith(u + v, v)
  {
    assert (u + v)[|u|..] == v;
  }

  /** A string built around `p` contains `p`. */
  lemma ContainsInfix(a: string, p: string, b: string)
    ensures Contains(a + p + b, p)
  {
    assert OccursAt(a + p + b, p, |a|);
  }

  /**
   * Java's `s.replace(p, r)` for a non-empty literal `p`: scanning left to right,
   * each occurrence of `p` that does not overlap an earlier replaced one becomes `r`.
   */
  function ReplaceAll(s: string, p: string, r: string): string
    requires |p| > 0
    decreases |s|
  {
    if |s| == 0 then []
    else if StartsWith(s, p) then r + ReplaceAll(s[|p|..], p, r)
    else [s[0]] + ReplaceAll(s[1..], p, r)
  }

  /** A string without an occurrence of `p` is returned unchanged. */
  lemma {:induction false} ReplaceAllAbsent(s: string, p: string, r: string)
    requires |p| > 0
    ensures !Contains(s, p) ==> ReplaceAll(s, p, r) == s
    decreases |s|
  {
    if |s| > 0 && !Contains(s, p) {
      assert !OccursAt(s, p, 0);
      forall i | 0 <= i <= |s[1..]| - |p| ensures !OccursAt(s[1..], p, i) {
        assert !OccursAt(s, p, i + 1);
        assert s[1..][i..i + |p|] == s[i + 1..i + 1 + |p|];
      }
      ReplaceAllAbsent(s[1..], p, r);
    }
  }

  /**
   * When the replacement is non-empty and shares no character with `w`, a prefix `w`
   * of the result was already a prefix of the input.
   */
  lemma {:induction false} PrefixSurvivesReplace(t: string, p: string, r: string, w: string)
    requires |p| > 0 && |r| > 0
    requires Disjoint(w, r)
    ensures StartsWith(ReplaceAll(t, p, r), w) ==> StartsWith(t, w)
    decreases |t|
  {
    var res := ReplaceAll(t, p, r);
    if |t| == 0 || |w| == 0 {
    } else if StartsWith(t, p) {
      assert res[0] == r[0];
    } else {
      var rest := ReplaceAll(t[1..], p, r);
      assert res == [t[0]] + rest;
      PrefixSurvivesReplace(t[1..], p, r, w[1..]);
      if StartsWith(res, w) {
        assert rest[..|w| - 1] == res[1..|w|];
        assert w[1..] == res[1..|w|];
        assert StartsWith(rest, w[1..]);
        assert t[..|w|] == [t[0]] + t[1..][..|w| - 1];
      }
    }
  }

  /**
   * Replacing `p` creates no new occurrence of a pattern `q` that shares no
   * character with the replacement text.
   */
  lemma {:induction false} ReplaceAllNoNewOccurrence(s: string, p: string, r: string, q: string)
    requires |p| > 0 && |r| > 0 && |q| > 0
    requires Disjoint(q, r)
    ensures Contains(ReplaceAll(s, p, r), q) ==> Contains(s, q)
    decreases |s|
  {
    var res := ReplaceAll(s, p, r);
    if |s| == 0 {
    } else if StartsWith(s, p) {
      var tail := s[|p|..];
      var rest := ReplaceAll(tail, p, r);
      assert res == r + rest;
      ReplaceAllNoNewOccurrence(tail, p, r, q);
      forall i | 0 <= i < |r| && i + |q| <= |res| ensures !OccursAt(res, q, i) {
        assert res[i..i + |q|][0] == r[i];
      }
      forall i | |r| <= i && OccursAt(res, q, i) ensures Contains(s, q) {
        assert res[i..i + |q|] == rest[i - |r|..i - |r| + |q|];
        assert OccursAt(rest, q, i - |r|);
        var j :| 0 <= j <= |tail| - |q| && OccursAt(tail, q, j);
        assert s[j + |p|..j + |p| + |q|] == tail[j..j + |q|];
        assert OccursAt(s, q, j + |p|);
      }
    } else {
      var tail := s[1..];
      var rest := ReplaceAll(tail, p, r);
      assert res == [s[0]] + rest;
      ReplaceAllNoNewOccurrence(tail, p, r, q);
      PrefixSurvivesReplace(s, p, r, q);
      forall i | 0 == i && OccursAt(res, q, i) ensures Contains(s, q) {
        assert res[..|q|] == q;
        assert OccursAt(s, q, 0);
      }
      forall i | 1 <= i && OccursAt(res, q, i) ensures Contains(s, q) {
        assert res[i..i + |q|] == rest[i - 1..i - 1 + |q|];
        assert OccursAt(rest, q, i - 1);
        var j :| 0 <= j <= |tail| - |q| && OccursAt(tail, q, j);
        assert s[j + 1..j + 1 + |q|] == tail[j..j + |q|];
        assert OccursAt(s, q, j + 1);
      }
    }
  }

  /**
   * Every occurrence of `p` is replaced: when the replacement is non-empty and
   * shares no character with `p`, the result no longer contains `p`.
   */
  lemma {:induction false} ReplaceAllRemoves(s: string, p: string, r: string)
    requires |p| > 0 && |r| > 0
    requires Disjoint(p, r)
    ensures !Contains(ReplaceAll(s, p, r), p)
    decreases |s|
  {
    var res := ReplaceAll(s, p, r);
    if |s| == 0 {
    } else if StartsWith(s, p) {
      var tail := s[|p|..];
      var rest := ReplaceAll(tail, p, r);
      assert res == r + rest;
      ReplaceAllRemoves(tail, p, r);
      forall i | 0 <= i <= |res| - |p| ensures !OccursAt(res, p, i) {
        if i < |r| {
          assert res[i..i + |p|][0] == r[i];
        } else {
          assert res[i..i + |p|] == rest[i - |r|..i - |r| + |p|];
          assert !OccursAt(rest, p, i - |r|);
        }
      }
    } else {
      var tail := s[1..];
      var rest := ReplaceAll(tail, p, r);
      assert res == [s[0]] + rest;
      ReplaceAllRemoves(tail, p, r);
      PrefixSurvivesReplace(s, p, r, p);
      forall i | 0 <= i <= |res| - |p| ensures !OccursAt(res, p, i) {
        if i == 0 {
          assert res[..|p|] == res[0..0 + |p|];
        } else {
          assert res[i..i + |p|] == rest[i - 1..i - 1 + |p|];
          assert !OccursAt(rest, p, i - 1);
        }
      }
    }
  }

  /** The index of the first `c` in `s`. */
  function FirstIndex(s: string, c: char): (k: nat)
    requires c in s
    ensures k < |s| && s[k] == c
    decreases |s|
  {
    if s[0] == c then 0 else 1 + FirstIndex(s[1..], c)
  }

  lemma {:induction false} FirstIndexAfter(a: string, b: string, sep: char)
    requires sep !in a
    ensures FirstIndex(a + [sep] + b, sep) == |a|
    decreases |a|
  {
    if |a| > 0 {
      assert (a + [sep] + b)[1..] == a[1..] + [sep] + b;
      FirstIndexAfter(a[1..], b, sep);
    }
  }

  /** Cutting two strings at their first `sep`: equal strings give equal pieces. */
  lemma SplitAtSeparator(a: string, b: string, c: string, d: string, sep: char)
    requires sep !in a && sep !in c
    ensures a + [sep] + b == c + [sep] + d ==> a == c && b == d
  {
    var u := a + [sep] + b;
    var v := c + [sep] + d;
    FirstIndexAfter(a, b, sep);
    FirstIndexAfter(c, d, sep);
    assert u[..|a|] == a && u[|a| + 1..] == b;
    assert v[..|c|] == c && v[|c| + 1..] == d;
  }

  /** The index of the last `c` in `s`. */
  function LastIndex(s: string, c: char): (k: nat)
    requires c in s
    ensures k < |s| && s[k] == c
    decreases |s|
  {
    if s[|s| - 1] == c then |s| - 1 else LastIndex(s[..|s| - 1], c)
  }

  lemma {:induction false} LastIndexBefore(a: string, b: string, sep: char)
    requires sep !in b
    ensures LastIndex(a + [sep] + b, sep) == |a|
    decreases |b|
  {
    if |b| > 0 {
      var u := a + [sep] + b;
      assert u[|u| - 1] == b[|b| - 1];
      assert u[..|u| - 1] == a + [sep] + b[..|b| - 1];
      LastIndexBefore(a, b[..|b| - 1], sep);
    }
  }

  /** Cutting two strings at their last `sep`: equal strings give equal pieces. */
  lemma SplitAtLastSeparator(a: string, b: string, c: string, d: string, sep: char)
    requires sep !in b && sep !in d
    ensures a + [sep] + b == c + [sep] + d ==> a == c && b == d
  {
    var u := a + [sep] + b;
    var v := c + [sep] + d;
    LastIndexBefore(a, b, sep);
    LastIndexBefore(c, d, sep);
    assert u[..|a|] == a && u[|a| + 1..] == b;
    assert v[..|c|] == c && v[|c| + 1..] == d;
  }

  lemma CancelPrefix(pre: string, a: string, b: string)
    ensures pre + a == pre + b ==> a == b
  {
    assert (pre + a)[|pre|..] == a && (pre + b)[|pre|..] == b;
  }

  lemma CancelSuffix(a: string, b: string, post: string)
    ensures a + post == b + post ==> a == b
  {
    assert (a + post)[..|a|] == a && (b + post)[..|b|] == b;
  }

  /** A string lacking some character of `p` does not contain `p`. */
  lemma MissingCharNotContained(s: string, p: string, k: int)
    requires 0 <= k < |p| && p[k] !in s
    ensures !Contains(s, p)
  {
    forall i | 0 <= i <= |s| - |p| ensures !OccursAt(s, p, i) {
      assert s[i..i + |p|][k] == s[i + k];
    }
  }

  /** Text that cannot start an occurrence of `p` is copied through unchanged. */
  lemma {:induction false} ReplaceAllSkipsFree(a: string, b: string, p: string, r: string)
    requires |p| > 0 && p[0] !in a
    ensures ReplaceAll(a + b, p, r) == a + ReplaceAll(b, p, r)
    decreases |a|
  {
    if |a| > 0 {
      var ab := a + b;
      assert ab[0] == a[0] && a[0] != p[0];
      assert !StartsWith(ab, p) by {
        if |p| <= |ab| {
          assert ab[..|p|][0] == ab[0];
        }
      }
      assert ab[1..] == a[1..] + b;
      ReplaceAllSkipsFree(a[1..], b, p, r);
      var rest := ReplaceAll(b, p, r);
      assert ReplaceAll(ab, p, r) == [a[0]] + (a[1..] + rest);
      Regroup([a[0]], a[1..], rest);
      HeadTail(a);
    } else {
      assert a + b == b;
    }
  }

  /** An occurrence of `p` at the front becomes `r`. */
  lemma ReplaceAllHit(b: string, p: string, r: string)
    requires |p| > 0
    ensures ReplaceAll(p + b, p, r) == r + ReplaceAll(b, p, r)
  {
    assert (p + b)[..|p|] == p;
    assert (p + b)[|p|..] == b;
  }

  /** Another pattern of the same length, whose tail cannot start `p`, is copied through unchanged. */
  lemma ReplaceAllMiss(q: string, b: string, p: string, r: string)
    requires |p| > 0 && |q| == |p| && q != p && p[0] !in q[1..]
    ensures ReplaceAll(q + b, p, r) == q + ReplaceAll(b, p, r)
  {
    assert (q + b)[..|p|] == q;
    assert (q + b)[1..] == q[1..] + b;
    ReplaceAllSkipsFree(q[1..], b, p, r);
    assert q == [q[0]] + q[1..];
  }

  lemma HeadTail(a: string)
    requires |a| > 0
    ensures [a[0]] + a[1..] == a
  {
  }

  lemma Regroup(a: string, b: string, c: string)
    ensures a + (b + c) == (a + b) + c
  {
  }

  lemma RegroupSix(a: string, b: string, c: string, d: string, e: string, f: string)
    ensures a + b + c + d + e + f == a + b + (c + d + (e + f + []))
  {
  }
}
