/**
 * Indentation analysis: splitting a line into its leading whitespace and
 * the rest, and the longest indentation a group of lines has in common.
 */
module Indent {
  import opened Text

  datatype Split = Split(indent: string, body: string)

  /** `stripIndent`: the `^\s*` match and what follows it. */
  function StripIndent(line: string): (r: Split)
    ensures r.indent + r.body == line
    ensures AllWs(r.indent)
    ensures r.body == [] || !IsWs(r.body[0])
  {
    var n := LeadingWs(line);
    Split(line[..n], line[n..])
  }

  lemma TrimStartIsBody(line: string)
    ensures TrimStart(line) == StripIndent(line).body
  {
  }

  /** The body has no leading whitespace left, so `trimStart` of it is `trimStart` of the line. */
  lemma BodyTrimStart(line: string)
    ensures TrimStart(StripIndent(line).body) == TrimStart(line)
  {
    TrimStartNoop(StripIndent(line).body);
    TrimStartIsBody(line);
  }

  /** The three properties of StripIndent determine the split. */
  lemma StripIndentUnique(line: string, indent: string, body: string)
    requires indent + body == line && AllWs(indent)
    requires body == [] || !IsWs(body[0])
    ensures StripIndent(line) == Split(indent, body)
  {
    LeadingWsConcat(indent, body);
    assert line[..|indent|] == indent;
  }

  /** The longest common prefix of two strings. */
  function CommonPrefix(a: string, b: string): (r: string)
    ensures r <= a && r <= b
    ensures |r| == |a| || |r| == |b| || a[|r|] != b[|r|]
  {
    a[..CommonLengthFrom(a, b, 0)]
  }

  /** Where `a` and `b` first differ at or after `k`, or where one of them ends. */
  function CommonLengthFrom(a: string, b: string, k: nat): (n: nat)
    requires k <= |a| && k <= |b|
    ensures k <= n <= |a| && n <= |b|
    ensures forall j :: k <= j < n ==> a[j] == b[j]
    ensures n == |a| || n == |b| || a[n] != b[n]
    decreases |a| - k
  {
    if k < |a| && k < |b| && a[k] == b[k] then CommonLengthFrom(a, b, k + 1) else k
  }

  /** Every common prefix of `a` and `b` is a prefix of CommonPrefix(a, b). */
  lemma CommonPrefixLongest(a: string, b: string, p: string)
    requires p <= a && p <= b
    ensures p <= CommonPrefix(a, b)
  {
  }

  /** A common prefix that cannot be extended is the longest one. */
  lemma CommonPrefixUnique(a: string, b: string, x: string)
    requires x <= a && x <= b
    requires |x| == |a| || |x| == |b| || a[|x|] != b[|x|]
    ensures x == CommonPrefix(a, b)
  {
    CommonPrefixLongest(a, b, x);
  }

  /** The specification of `longestCommonIndent`: CommonPrefix folded over the list. */
  function CommonIndent(xs: seq<string>): (r: string)
    ensures forall i :: 0 <= i < |xs| ==> r <= xs[i]
    ensures |xs| == 0 ==> r == []
  {
    CommonIndentOf(xs, |xs|)
  }

  /** The fold over the first `k` elements. */
  function CommonIndentOf(xs: seq<string>, k: nat): (r: string)
    requires k <= |xs|
    ensures forall i :: 0 <= i < k ==> r <= xs[i]
  {
    if k == 0 then []
    else if k == 1 then xs[0]
    else CommonPrefix(CommonIndentOf(xs, k - 1), xs[k - 1])
  }

  /** No common prefix of a non-empty list is longer than CommonIndent. */
  lemma CommonIndentLongest(xs: seq<string>, p: string)
    requires |xs| > 0
    requires forall i :: 0 <= i < |xs| ==> p <= xs[i]
    ensures p <= CommonIndent(xs)
  {
    CommonIndentOfLongest(xs, |xs|, p);
  }

  lemma {:induction false} CommonIndentOfLongest(xs: seq<string>, k: nat, p: string)
    requires 0 < k <= |xs|
    requires forall i :: 0 <= i < k ==> p <= xs[i]
    ensures p <= CommonIndentOf(xs, k)
  {
    if k > 1 {
      CommonIndentOfLongest(xs, k - 1, p);
      CommonPrefixLongest(CommonIndentOf(xs, k - 1), xs[k - 1], p);
    }
  }

  /** Once the running prefix is empty it stays empty: the early exit of the loop is sound. */
  lemma {:induction false} CommonIndentEmptyStays(xs: seq<string>, k: nat, n: nat)
    requires 1 <= k <= n <= |xs|
    requires CommonIndentOf(xs, k) == []
    ensures CommonIndentOf(xs, n) == []
    decreases n - k
  {
    if k < n {
      assert CommonIndentOf(xs, k + 1) == CommonPrefix([], xs[k]);
      CommonIndentEmptyStays(xs, k + 1, n);
    }
  }

  /** Two strings that agree on their first `n` characters and not on the next one have the first `n` as their longest common prefix. */
  lemma PrefixAgreement(a: string, b: string, n: nat)
    requires n <= |a| && n <= |b|
    requires forall k :: 0 <= k < n ==> a[k] == b[k]
    requires n == |a| || n == |b| || a[n] != b[n]
    ensures a[..n] == CommonPrefix(a, b)
  {
    CommonPrefixUnique(a, b, a[..n]);
  }

  /** The inner scan of `longestCommonIndent`: how many leading characters `prefix` and `target` share. */
  method CommonLength(prefix: string, target: string) returns (commonLength: nat)
    ensures commonLength <= |prefix| && prefix[..commonLength] == CommonPrefix(prefix, target)
  {
    commonLength := 0;
    var max := if |prefix| < |target| then |prefix| else |target|;
    while commonLength < max && prefix[commonLength] == target[commonLength]
      invariant commonLength <= max
      invariant forall k :: 0 <= k < commonLength ==> prefix[k] == target[k]
    {
      commonLength := commonLength + 1;
    }
    PrefixAgreement(prefix, target, commonLength);
  }

  /** `longestCommonIndent`: the running prefix cut down against each indent in turn, stopping once it is empty. */
  method LongestCommonIndent(indents: seq<string>) returns (prefix: string)
    ensures prefix == CommonIndent(indents)
  {
    if |indents| == 0 {
      return [];
    }
    prefix := indents[0];
    var idx := 1;
    while idx < |indents| && |prefix| > 0
      invariant 1 <= idx <= |indents|
      invariant prefix == CommonIndentOf(indents, idx)
    {
      var commonLength := CommonLength(prefix, indents[idx]);
      prefix := prefix[..commonLength];
      idx := idx + 1;
    }
    if idx < |indents| {
      CommonIndentEmptyStays(indents, idx, |indents|);
    }
  }

  function Indents(lines: seq<string>): (r: seq<string>)
    ensures |r| == |lines|
    ensures forall i {:trigger r[i]} :: 0 <= i < |lines| ==> r[i] == StripIndent(lines[i]).indent
  {
    seq(|lines|, i requires 0 <= i < |lines| => StripIndent(lines[i]).indent)
  }

  /** The indentation every line of the group shares: the column comment markers go to. */
  function SharedIndent(lines: seq<string>): (r: string)
    ensures AllWs(r)
    ensures forall i :: 0 <= i < |lines| ==> r <= StripIndent(lines[i]).indent && r <= lines[i]
  {
    var indents := Indents(lines);
    var r := CommonIndent(indents);
    assert forall i :: 0 <= i < |lines| ==> indents[i] == StripIndent(lines[i]).indent;
    assert |lines| > 0 ==> r <= indents[0];
    r
  }

  /**
   * Each line's indentation beyond the shared indent, followed by its
   * body.
   */
  function Rests(lines: seq<string>): (r: seq<string>)
    ensures |r| == |lines|
    ensures forall i {:trigger r[i]} :: 0 <= i < |lines| ==> SharedIndent(lines) + r[i] == lines[i]
  {
    var shared := SharedIndent(lines);
    seq(|lines|, i requires 0 <= i < |lines| => RestOf(lines[i], shared))
  }

  function RestOf(line: string, shared: string): (r: string)
    requires shared <= StripIndent(line).indent
    ensures shared + r == line
  {
    var e := StripIndent(line);
    e.indent[|shared|..] + e.body
  }
}
