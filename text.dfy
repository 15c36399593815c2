/**
 * The few Python string operations the core relies on: `str()` of an integer,
 * `int()` of a query parameter, and `s.rsplit(sep, n)[0]`.
 */
module Text {
  import opened Wrappers

  predicate IsDigit(ch: char) { '0' <= ch <= '9' }

  function DigitChar(d: nat): (ch: char)
    requires d < 10
    ensures IsDigit(ch)
  {
    ('0' as int + d) as char
  }

  /** `str(n)` for a non-negative int: decimal digits, no sign, no leading zeros. */
  function NatToString(n: nat): (s: string)
    ensures |s| >= 1
    ensures forall i :: 0 <= i < |s| ==> IsDigit(s[i])
  {
    if n < 10 then [DigitChar(n)] else NatToString(n / 10) + [DigitChar(n % 10)]
  }

  /** `str(i)` for any int. */
  function IntToString(i: int): string
  {
    if i < 0 then "-" + NatToString(-i) else NatToString(i)
  }

  function DigitValue(ch: char): nat
    requires IsDigit(ch)
  {
    ch as int - '0' as int
  }

  /** The value of a string of decimal digits. */
  function DigitsValue(s: string): nat
    requires forall i :: 0 <= i < |s| ==> IsDigit(s[i])
  {
    if s == [] then 0 else DigitsValue(s[..|s| - 1]) * 10 + DigitValue(s[|s| - 1])
  }

  /** A query parameter read as a non-negative id: one or more decimal digits, nothing else. */
  function ParseNat(s: string): (r: Option<nat>)
    ensures r.Some? <==> s != [] && forall i :: 0 <= i < |s| ==> IsDigit(s[i])
  {
    if s != [] && forall i :: 0 <= i < |s| ==> IsDigit(s[i]) then Some(DigitsValue(s)) else None
  }

  /** Reading back what `str()` wrote gives the number again. */
  lemma ParseNatToString(n: nat)
    ensures ParseNat(NatToString(n)) == Some(n)
  {
    DigitsValueOfNatToString(n);
  }

  lemma {:induction false} DigitsValueOfNatToString(n: nat)
    ensures DigitsValue(NatToString(n)) == n
  {
    var s := NatToString(n);
    if n < 10 {
      assert s[..|s| - 1] == [];
    } else {
      DigitsValueOfNatToString(n / 10);
      assert s[..|s| - 1] == NatToString(n / 10);
      assert DigitValue(s[|s| - 1]) == n % 10;
    }
  }

  /** Number of occurrences of `c` in `s`. */
  function CountChar(s: string, c: char): (k: nat)
    ensures k <= |s|
  {
    if s == [] then 0 else CountChar(s[..|s| - 1], c) + (if s[|s| - 1] == c then 1 else 0)
  }

  lemma {:induction false} CountCharAppend(a: string, b: string, c: char)
    ensures CountChar(a + b, c) == CountChar(a, c) + CountChar(b, c)
    decreases |b|
  {
    if b == [] {
      assert a + b == a;
    } else {
      assert (a + b)[..|a + b| - 1] == a + b[..|b| - 1];
      CountCharAppend(a, b[..|b| - 1], c);
    }
  }

  /** Index of the last occurrence of `c` in `s`, if any (`s.rfind(c)`). */
  function LastIndexOf(s: string, c: char): (r: Option<nat>)
    ensures r.Some? ==> r.value < |s| && s[r.value] == c && c !in s[r.value + 1..]
    ensures r.None? ==> c !in s
  {
    if s == [] then None
    else if s[|s| - 1] == c then Some(|s| - 1)
    else LastIndexOf(s[..|s| - 1], c)
  }

  lemma CountCharAbsent(s: string, c: char)
    requires c !in s
    ensures CountChar(s, c) == 0
  {
    if s != [] {
      assert c !in s[..|s| - 1];
      CountCharAbsent(s[..|s| - 1], c);
    }
  }

  function Min(a: nat, b: nat): nat { if a <= b then a else b }

  /**
   * `s.rsplit(sep, maxsplit)[0]`: what is left of `s` once its last `maxsplit`
   * separators, and everything after them, are cut off.
   */
  function RsplitHead(s: string, sep: char, maxsplit: nat): (head: string)
    ensures head <= s
    decreases maxsplit
  {
    if maxsplit == 0 then s
    else match LastIndexOf(s, sep)
      case None => s
      case Some(i) => RsplitHead(s[..i], sep, maxsplit - 1)
  }

  /**
   * The part cut off starts at a separator and holds exactly `maxsplit`
   * separators, or all of them when `s` has fewer.
   */
  lemma {:induction false} RsplitHeadCut(s: string, sep: char, maxsplit: nat)
    ensures var head := RsplitHead(s, sep, maxsplit);
      && (|head| < |s| ==> s[|head|] == sep)
      && CountChar(s[|head|..], sep) == Min(maxsplit, CountChar(s, sep))
    decreases maxsplit
  {
    var head := RsplitHead(s, sep, maxsplit);
    if maxsplit == 0 {
      assert s[|head|..] == [];
    } else {
      match LastIndexOf(s, sep)
      case None =>
        CountCharAbsent(s, sep);
        assert s[|head|..] == [];
      case Some(i) =>
        RsplitHeadCut(s[..i], sep, maxsplit - 1);
        CountAroundLast(s, sep, i, |head|);
        CountAroundLast(s, sep, i, 0);
        assert s[0..] == s && s[..i][0..] == s[..i];
    }
  }

  /** Counting from `j` across the last separator, at `i`, adds one to the count before it. */
  lemma CountAroundLast(s: string, c: char, i: nat, j: nat)
    requires j <= i < |s| && s[i] == c && c !in s[i + 1..]
    ensures CountChar(s[j..], c) == CountChar(s[..i][j..], c) + 1
  {
    assert s[j..] == s[..i][j..] + [c] + s[i + 1..];
    CountCharAbsent(s[i + 1..], c);
    CountCharAppend(s[..i][j..] + [c], s[i + 1..], c);
    CountCharAppend(s[..i][j..], [c], c);
    assert [c][..0] == [];
  }

  /** Splitting twice is splitting once with both counts added. */
  lemma {:induction false} RsplitHeadTwice(s: string, sep: char, m: nat, n: nat)
    ensures RsplitHead(RsplitHead(s, sep, m), sep, n) == RsplitHead(s, sep, m + n)
    decreases m
  {
    if m > 0 {
      match LastIndexOf(s, sep)
      case None =>
        RsplitHeadUnsplit(s, sep, n);
      case Some(i) =>
        RsplitHeadTwice(s[..i], sep, m - 1, n);
    }
  }

  lemma RsplitHeadUnsplit(s: string, sep: char, n: nat)
    requires LastIndexOf(s, sep).None?
    ensures RsplitHead(s, sep, n) == s
  {
  }

  lemma {:induction false} LastIndexOfFreeSuffix(s: string, x: string, c: char)
    requires c !in x
    ensures LastIndexOf(s + x, c) == LastIndexOf(s, c)
    decreases |x|
  {
    if x == [] {
      assert s + x == s;
    } else {
      assert (s + x)[..|s + x| - 1] == s + x[..|x| - 1];
      LastIndexOfFreeSuffix(s, x[..|x| - 1], c);
    }
  }

  /** A trailing segment free of the separator is one split's worth of `s`. */
  lemma DropSegment(p: string, sep: char, x: string, n: nat)
    requires sep !in x
    ensures RsplitHead(p + [sep] + x, sep, n + 1) == RsplitHead(p, sep, n)
  {
    LastIndexOfFreeSuffix(p + [sep], x, sep);
    assert (p + [sep] + x)[..|p|] == p;
  }
}
