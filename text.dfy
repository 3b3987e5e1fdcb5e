/**
 * JavaScript string primitives the toggle core relies on, over strings
 * modelled as sequences of code points: the whitespace set shared by the
 * regular-expression class `\s`, `trim`, `trimStart` and `trimEnd`,
 * `indexOf`, `slice` with a possibly negative end, and runs of spaces.
 */
module Text {

  /** ECMAScript WhiteSpace and LineTerminator code points. */
  predicate IsWs(c: char) {
    var n := c as int;
    n == 0x09 || n == 0x0A || n == 0x0B || n == 0x0C || n == 0x0D || n == 0x20
    || n == 0xA0 || n == 0x1680 || (0x2000 <= n <= 0x200A) || n == 0x2028
    || n == 0x2029 || n == 0x202F || n == 0x205F || n == 0x3000 || n == 0xFEFF
  }

  predicate AllWs(s: string) {
    forall i :: 0 <= i < |s| ==> IsWs(s[i])
  }

  /** Length of the match of `^\s*`. */
  function LeadingWs(s: string): (n: nat)
    ensures n <= |s|
    ensures forall j :: 0 <= j < n ==> IsWs(s[j])
    ensures n < |s| ==> !IsWs(s[n])
  {
    LeadingWsFrom(s, 0)
  }

  /** The end of the whitespace run that starts at `k`. */
  function LeadingWsFrom(s: string, k: nat): (n: nat)
    requires k <= |s|
    ensures k <= n <= |s|
    ensures forall j :: k <= j < n ==> IsWs(s[j])
    ensures n < |s| ==> !IsWs(s[n])
    decreases |s| - k
  {
    if k < |s| && IsWs(s[k]) then LeadingWsFrom(s, k + 1) else k
  }

  /** Length of the match of `\s*$`. */
  function TrailingWs(s: string): (n: nat)
    ensures n <= |s|
    ensures forall j :: |s| - n <= j < |s| ==> IsWs(s[j])
    ensures n < |s| ==> !IsWs(s[|s| - n - 1])
  {
    |s| - TrailingWsTo(s, |s|)
  }

  /** The start of the whitespace run that ends at `k`. */
  function TrailingWsTo(s: string, k: nat): (e: nat)
    requires k <= |s|
    ensures e <= k
    ensures forall j :: e <= j < k ==> IsWs(s[j])
    ensures e > 0 ==> !IsWs(s[e - 1])
  {
    if k > 0 && IsWs(s[k - 1]) then TrailingWsTo(s, k - 1) else k
  }

  /** The three properties of LeadingWs determine it. */
  lemma LeadingWsIs(s: string, n: nat)
    requires n <= |s|
    requires forall j :: 0 <= j < n ==> IsWs(s[j])
    requires n < |s| ==> !IsWs(s[n])
    ensures LeadingWs(s) == n
  {
  }

  /** The three properties of TrailingWs determine it. */
  lemma TrailingWsIs(s: string, n: nat)
    requires n <= |s|
    requires forall j :: |s| - n <= j < |s| ==> IsWs(s[j])
    requires n < |s| ==> !IsWs(s[|s| - n - 1])
    ensures TrailingWs(s) == n
  {
  }

  /** `trimStart`: the leading whitespace is dropped and the rest kept as it is. */
  function TrimStart(s: string): (r: string)
    ensures |r| <= |s|
    ensures r == [] || !IsWs(r[0])
  {
    var n := LeadingWs(s);
    if n == 0 then s else s[n..]
  }

  /** `trimEnd`: the trailing whitespace is dropped and the rest kept as it is. */
  function TrimEnd(s: string): (r: string)
    ensures r <= s
    ensures r == [] || !IsWs(r[|r| - 1])
  {
    var n := TrailingWs(s);
    if n == 0 then s else s[..|s| - n]
  }

  /** `trim`: whitespace is dropped at both ends and the middle kept as it is. */
  function Trim(s: string): (r: string)
    ensures r == [] || (!IsWs(r[0]) && !IsWs(r[|r| - 1]))
  {
    TrimEnd(TrimStart(s))
  }

  /** `trim` keeps the contiguous middle that starts where the leading whitespace ends, with only whitespace on either side. */
  lemma TrimShape(s: string)
    ensures var r := Trim(s); var k := LeadingWs(s);
      k + |r| <= |s| && r == s[k..k + |r|] && AllWs(s[..k]) && AllWs(s[k + |r|..])
  {
    TrimStartShape(s);
    TrimEndShape(TrimStart(s));
  }

  /** `trimStart` drops exactly the leading whitespace and keeps the rest as it is. */
  lemma TrimStartShape(s: string)
    ensures var r := TrimStart(s);
      r == s[LeadingWs(s)..] && |s| - |r| == LeadingWs(s) && AllWs(s[..LeadingWs(s)])
  {
  }

  /** `trimEnd` drops exactly the trailing whitespace and keeps the rest as it is. */
  lemma TrimEndShape(s: string)
    ensures var r := TrimEnd(s);
      r == s[..|s| - TrailingWs(s)] && AllWs(s[|r|..])
  {
  }

  /** Whether `x` is a suffix of `s`. */
  predicate EndsWith(s: string, x: string) {
    |x| <= |s| && s[|s| - |x|..] == x
  }

  /** The string search from position `k`: the first position at or after `k` where `t` occurs, or -1. */
  function IndexFrom(s: string, t: string, k: nat): (r: int)
    requires k <= |s|
    ensures r == -1 || (k <= r && r + |t| <= |s| && t <= s[r..])
    ensures r == -1 ==> forall j :: k <= j <= |s| ==> !(t <= s[j..])
    ensures r != -1 ==> forall j :: k <= j < r ==> !(t <= s[j..])
    decreases |s| - k
  {
    if t <= s[k..] then k
    else if k == |s| then -1
    else IndexFrom(s, t, k + 1)
  }

  function IndexOf(s: string, t: string): int
  {
    IndexFrom(s, t, 0)
  }

  /** The front of `s` up to `end`: a negative end counts from the back, and the end is clamped to `[0, |s|]`. */
  function SliceTo(s: string, end: int): (r: string)
    ensures r <= s
    ensures 0 <= end <= |s| ==> |r| == end
    ensures end < 0 ==> |r| == if |s| + end > 0 then |s| + end else 0
  {
    var e := if end < 0 then (if |s| + end > 0 then |s| + end else 0)
             else if end > |s| then |s| else end;
    s[..e]
  }

  /** A run of `n` spaces. */
  function Spaces(n: nat): (r: string)
    ensures |r| == n && AllWs(r)
    ensures forall i :: 0 <= i < n ==> r[i] == ' '
  {
    seq(n, i => ' ')
  }

  /** `rest.length > 0 ? " " : ""`: the space put after a comment marker. */
  function Pad(rest: string): (r: string)
    ensures r == (if rest == [] then [] else [' '])
    ensures AllWs(r)
  {
    if |rest| > 0 then [' '] else []
  }

  lemma TrimStartNoop(s: string)
    requires s == [] || !IsWs(s[0])
    ensures TrimStart(s) == s
  {
  }

  lemma TrimEndNoop(s: string)
    requires s == [] || !IsWs(s[|s| - 1])
    ensures TrimEnd(s) == s
  {
  }

  lemma LeadingWsConcat(x: string, z: string)
    requires AllWs(x)
    ensures LeadingWs(x + z) == |x| + LeadingWs(z)
  {
    var n := LeadingWs(z);
    var xz := x + z;
    forall j | 0 <= j < |x| + n ensures IsWs(xz[j]) {
      if j >= |x| {
        assert xz[j] == z[j - |x|];
      }
    }
    if |x| + n < |xz| {
      assert xz[|x| + n] == z[n];
    }
    LeadingWsIs(xz, |x| + n);
  }

  lemma LeadingWsExtend(m: string, y: string)
    requires LeadingWs(m) < |m|
    ensures LeadingWs(m + y) == LeadingWs(m)
  {
    var n := LeadingWs(m);
    var my := m + y;
    assert forall j :: 0 <= j <= n ==> my[j] == m[j];
    LeadingWsIs(my, n);
  }

  lemma TrailingWsConcat(z: string, y: string)
    requires AllWs(y)
    ensures TrailingWs(z + y) == |y| + TrailingWs(z)
  {
    var n := TrailingWs(z);
    var zy := z + y;
    forall j | |zy| - (|y| + n) <= j < |zy| ensures IsWs(zy[j]) {
      if j < |z| {
        assert zy[j] == z[j];
      } else {
        assert zy[j] == y[j - |z|];
      }
    }
    if |y| + n < |zy| {
      assert zy[|zy| - (|y| + n) - 1] == z[|z| - n - 1];
    }
    TrailingWsIs(zy, |y| + n);
  }

  lemma TrimStartAfterWs(x: string, z: string)
    requires AllWs(x)
    ensures TrimStart(x + z) == TrimStart(z)
  {
    LeadingWsConcat(x, z);
    assert (x + z)[|x| + LeadingWs(z)..] == z[LeadingWs(z)..];
  }

  lemma TrimEndBeforeWs(z: string, y: string)
    requires AllWs(y)
    ensures TrimEnd(z + y) == TrimEnd(z)
  {
    TrailingWsConcat(z, y);
    assert (z + y)[..|z| - TrailingWs(z)] == z[..|z| - TrailingWs(z)];
  }

  lemma DropConcat(m: string, y: string, k: nat)
    requires k <= |m|
    ensures (m + y)[k..] == m[k..] + y
  {
  }

  lemma TrimStartBeforeAny(m: string, y: string)
    requires LeadingWs(m) < |m|
    ensures TrimStart(m + y) == TrimStart(m) + y
  {
    LeadingWsExtend(m, y);
    var k := LeadingWs(m);
    DropConcat(m, y, k);
    assert TrimStart(m + y) == (m + y)[k..];
    assert TrimStart(m) == m[k..];
  }

  lemma AllWsTrimStart(z: string)
    requires AllWs(z)
    ensures TrimStart(z) == []
  {
    LeadingWsConcat(z, []);
    assert z + [] == z;
  }

  /** Whitespace around `m` does not change what `trim` returns. */
  lemma TrimAround(x: string, m: string, y: string)
    requires AllWs(x) && AllWs(y)
    ensures Trim(x + m + y) == Trim(m)
  {
    assert x + m + y == x + (m + y);
    TrimStartAfterWs(x, m + y);
    if LeadingWs(m) < |m| {
      TrimStartBeforeAny(m, y);
      TrimEndBeforeWs(TrimStart(m), y);
    } else {
      assert AllWs(m + y);
      AllWsTrimStart(m + y);
      AllWsTrimStart(m);
    }
  }
}
