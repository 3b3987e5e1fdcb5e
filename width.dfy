/**
 * Display width: the column count a terminal gives a string, where every
 * code point above the Latin-1 range counts two columns and every other one
 * counts one. The string is taken to be in normalised form already.
 */
module Width {
  import opened Text

  function CharWidth(c: char): (w: nat)
    ensures w == (if c as int > 0xFF then 2 else 1)
  {
    if c as int > 0xFF then 2 else 1
  }

  function DisplayWidth(s: string): (w: nat)
    ensures |s| <= w <= 2 * |s|
  {
    WidthTo(s, |s|)
  }

  /** The width of the first `k` code points. */
  function WidthTo(s: string, k: nat): (w: nat)
    requires k <= |s|
    ensures k <= w <= 2 * k
  {
    if k == 0 then 0 else WidthTo(s, k - 1) + CharWidth(s[k - 1])
  }

  /** Widths add up over concatenation, so the sum does not depend on how the string is cut. */
  lemma DisplayWidthConcat(a: string, b: string)
    ensures DisplayWidth(a + b) == DisplayWidth(a) + DisplayWidth(b)
  {
    WidthToLeft(a, b, |a|);
    WidthToRight(a, b, |b|);
  }

  lemma {:induction false} WidthToLeft(a: string, b: string, k: nat)
    requires k <= |a|
    ensures WidthTo(a + b, k) == WidthTo(a, k)
  {
    if k > 0 {
      WidthToLeft(a, b, k - 1);
      assert (a + b)[k - 1] == a[k - 1];
    }
  }

  lemma {:induction false} WidthToRight(a: string, b: string, k: nat)
    requires k <= |b|
    requires WidthTo(a + b, |a|) == WidthTo(a, |a|)
    ensures WidthTo(a + b, |a| + k) == DisplayWidth(a) + WidthTo(b, k)
  {
    if k > 0 {
      WidthToRight(a, b, k - 1);
      assert (a + b)[|a| + k - 1] == b[k - 1];
    }
  }

  /** A Latin-1 string is exactly as wide as it is long. */
  lemma DisplayWidthLatin1(s: string)
    requires forall i :: 0 <= i < |s| ==> s[i] as int <= 0xFF
    ensures DisplayWidth(s) == |s|
  {
    WidthToLatin1(s, |s|);
  }

  lemma {:induction false} WidthToLatin1(s: string, k: nat)
    requires k <= |s|
    requires forall i :: 0 <= i < |s| ==> s[i] as int <= 0xFF
    ensures WidthTo(s, k) == k
  {
    if k > 0 {
      WidthToLatin1(s, k - 1);
    }
  }

  /** A string with a code point above 0xFF is wider than it is long. */
  lemma DisplayWidthWide(s: string, i: nat)
    requires i < |s| && s[i] as int > 0xFF
    ensures DisplayWidth(s) > |s|
  {
    WidthToWide(s, i, |s|);
  }

  lemma {:induction false} WidthToWide(s: string, i: nat, k: nat)
    requires i < k <= |s| && s[i] as int > 0xFF
    ensures WidthTo(s, k) > k
  {
    if k - 1 > i {
      WidthToWide(s, i, k - 1);
    }
  }

  lemma DisplayWidthSpaces(n: nat)
    ensures DisplayWidth(Spaces(n)) == n
  {
    DisplayWidthLatin1(Spaces(n));
  }
}
