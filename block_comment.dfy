/**
 * Block-comment toggling: detecting a prefix/suffix wrapper, removing it,
 * and wrapping a group of lines so that the closers land in one display
 * column.
 */
module BlockComment {
  import opened Text
  import opened Indent
  import opened Width
  import opened Types

  /** `isBlockCommented`: the trimmed line starts with the prefix and ends with the suffix. */
  function IsBlockCommented(line: string, info: CommentInfo): (r: bool)
    ensures r ==> info.prefix <= StripIndent(line).body
    ensures r ==> |info.prefix| <= |Trim(line)| && |info.suffix| <= |Trim(line)|
    ensures AllWs(line) ==> (r <==> info.prefix == [] && info.suffix == [])
  {
    TrimStartIsBody(line);
    var trimmed := Trim(line);
    info.prefix <= trimmed && EndsWith(trimmed, info.suffix)
  }

  /**
   * `removeBlockComment`: a line that is not wrapped is left alone; a
   * wrapped one keeps its original leading whitespace (the rest is in
   * RemoveBlockCommentInner).
   */
  function RemoveBlockComment(line: string, info: CommentInfo): (r: string)
    ensures !IsBlockCommented(line, info) ==> r == line
    ensures IsBlockCommented(line, info) ==> StripIndent(line).indent <= r
  {
    var trimmed := Trim(line);
    if !(info.prefix <= trimmed) || !EndsWith(trimmed, info.suffix) then line
    else
      var inner := trimmed[|info.prefix|..];
      var inner' := Trim(SliceTo(inner, |inner| - |info.suffix|));
      var indent := StripIndent(line).indent;
      indent + inner'
  }

  /**
   * When the markers do not overlap, the trimmed line is prefix, inner text
   * and suffix, and removal gives the leading whitespace followed by the
   * trimmed inner text.
   */
  lemma RemoveBlockCommentInner(line: string, info: CommentInfo)
    requires IsBlockCommented(line, info) && |Trim(line)| >= |info.prefix| + |info.suffix|
    ensures var t := Trim(line); var inner := t[|info.prefix|..|t| - |info.suffix|];
      t == info.prefix + inner + info.suffix
      && RemoveBlockComment(line, info) == StripIndent(line).indent + Trim(inner)
  {
    var t := Trim(line);
    SplitWrapped(t, info.prefix, info.suffix);
    var inner := t[|info.prefix|..];
    assert RemoveBlockComment(line, info) == StripIndent(line).indent + Trim(SliceTo(inner, |inner| - |info.suffix|));
  }

  /** A text that starts with `p` and ends with `q`, long enough for both, is `p`, the inner text and `q`. */
  lemma SplitWrapped(t: string, p: string, q: string)
    requires p <= t && EndsWith(t, q) && |t| >= |p| + |q|
    ensures t == p + t[|p|..|t| - |q|] + q
    ensures SliceTo(t[|p|..], |t[|p|..]| - |q|) == t[|p|..|t| - |q|]
  {
    assert t == t[..|p|] + t[|p|..|t| - |q|] + t[|t| - |q|..];
  }

  /** The first descriptor tagged Block, and the first descriptor of all when none is. */
  function PrimaryBlock(infos: seq<CommentInfo>): (r: CommentInfo)
    requires |infos| > 0
    ensures r in infos
    ensures FirstWithMode(infos, Block).Some? ==> r == FirstWithMode(infos, Block).value
    ensures r.mode == Block ==> exists j :: (0 <= j < |infos| && infos[j] == r
                                             && forall i :: 0 <= i < j ==> infos[i].mode != Block)
    ensures r.mode == Block || (r == infos[0] && forall j :: 0 <= j < |infos| ==> infos[j].mode != Block)
  {
    match FirstWithMode(infos, Block)
    case Some(x) => x
    case None => infos[0]
  }

  /** The effective descriptors: Block-tagged ones are kept, the others replaced by the primary one. */
  function BlockInfos(infos: seq<CommentInfo>): (r: seq<CommentInfo>)
    ensures |r| == |infos|
    ensures forall i {:trigger r[i]} :: 0 <= i < |infos| ==> r[i] in infos
    ensures forall i {:trigger r[i]} :: 0 <= i < |infos| && infos[i].mode == Block ==> r[i] == infos[i]
    ensures forall i {:trigger r[i]} :: 0 <= i < |infos| && infos[i].mode != Block ==> r[i] == PrimaryBlock(infos)
  {
    seq(|infos|, i requires 0 <= i < |infos| => if infos[i].mode == Block then infos[i] else PrimaryBlock(infos))
  }

  /** The largest of the widths, and 0 for none. */
  function MaxWidth(ws: seq<nat>): (m: nat)
    ensures forall i :: 0 <= i < |ws| ==> ws[i] <= m
    ensures |ws| == 0 ==> m == 0
    ensures |ws| > 0 ==> exists i :: 0 <= i < |ws| && ws[i] == m
  {
    if |ws| == 0 then 0
    else
      var init := ws[..|ws| - 1];
      var m := MaxWidth(init);
      assert forall i :: 0 <= i < |ws| - 1 ==> ws[i] == init[i];
      if ws[|ws| - 1] > m then ws[|ws| - 1] else m
  }

  function Widths(bodies: seq<string>): (r: seq<nat>)
    ensures |r| == |bodies|
    ensures forall i {:trigger r[i]} :: 0 <= i < |bodies| ==> r[i] == DisplayWidth(bodies[i])
  {
    seq(|bodies|, i requires 0 <= i < |bodies| => DisplayWidth(bodies[i]))
  }

  /** The widest body of the group, after the shared indent is taken off. */
  function BlockMaxWidth(lines: seq<string>): (m: nat)
    ensures forall i :: 0 <= i < |lines| ==> DisplayWidth(Rests(lines)[i]) <= m
    ensures |lines| > 0 ==> exists i :: 0 <= i < |lines| && DisplayWidth(Rests(lines)[i]) == m
  {
    var ws := Widths(Rests(lines));
    assert forall i :: 0 <= i < |lines| ==> ws[i] == DisplayWidth(Rests(lines)[i]);
    MaxWidth(ws)
  }

  /** The padding before the suffix: one more than the gap to the widest body, and never less than one. */
  function SuffixPad(maxWidth: int, width: int): (n: nat)
    ensures n >= 1
    ensures width <= maxWidth ==> n == maxWidth - width + 1
  {
    if maxWidth - width + 1 > 1 then maxWidth - width + 1 else 1
  }

  /** One wrapped line: the shared indent, the prefix, its pad, the body, the suffix pad and the suffix, with trailing whitespace trimmed. */
  function BlockLine(shared: string, prefix: string, body: string, maxWidth: nat, suffix: string): (r: string)
    ensures r == [] || !IsWs(r[|r| - 1])
  {
    TrimEnd(shared + prefix + Pad(body) + body + Spaces(SuffixPad(maxWidth, DisplayWidth(body))) + suffix)
  }

  /** `addBlockComments`: every line wrapped against the group's shared indent and widest body. */
  function AddBlockComments(lines: seq<string>, infos: seq<CommentInfo>): (r: seq<string>)
    requires |infos| == |lines|
    ensures |r| == |lines|
    ensures forall i {:trigger r[i]} :: 0 <= i < |lines| ==>
      r[i] == BlockLine(SharedIndent(lines), infos[i].prefix, Rests(lines)[i], BlockMaxWidth(lines), infos[i].suffix)
  {
    var sharedIndent := SharedIndent(lines);
    var bodies := Rests(lines);
    var maxWidth := MaxWidth(Widths(bodies));
    seq(|lines|, i requires 0 <= i < |lines| =>
      BlockLine(sharedIndent, infos[i].prefix, bodies[i], maxWidth, infos[i].suffix))
  }

  /**
   * `runBlockMode`: with the effective descriptors, the group is already
   * commented iff every line passes detection; then every line is
   * unwrapped, and otherwise the whole group is wrapped.
   */
  function RunBlockMode(lines: seq<string>, infos: seq<CommentInfo>): (r: RunResult<string>)
    requires |infos| == |lines|
    ensures |r.lines| == |lines|
    ensures r.already <==> forall i :: 0 <= i < |lines| ==> IsBlockCommented(lines[i], BlockInfos(infos)[i])
    ensures r.already ==> forall i {:trigger r.lines[i]} :: 0 <= i < |lines| ==>
      r.lines[i] == RemoveBlockComment(lines[i], BlockInfos(infos)[i])
    ensures !r.already ==> r.lines == AddBlockComments(lines, BlockInfos(infos))
  {
    var blockInfos := BlockInfos(infos);
    var already := forall i :: 0 <= i < |lines| ==> IsBlockCommented(lines[i], blockInfos[i]);
    var updated :=
      if already then seq(|lines|, i requires 0 <= i < |lines| => RemoveBlockComment(lines[i], blockInfos[i]))
      else AddBlockComments(lines, blockInfos);
    RunResult(updated, already)
  }

  /** Whether a suffix survives the final right-trim: it is non-empty and ends in non-whitespace. */
  predicate SolidSuffix(q: string) {
    q != [] && !IsWs(q[|q| - 1])
  }

  /**
   * With a solid suffix nothing is trimmed away, and since the body is no
   * wider than the widest one the pad is exactly the distance to one column
   * past the widest body (the lower bound of one never raises it).
   */
  lemma BlockLineSolid(shared: string, prefix: string, body: string, maxWidth: nat, suffix: string)
    requires DisplayWidth(body) <= maxWidth && SolidSuffix(suffix)
    ensures BlockLine(shared, prefix, body, maxWidth, suffix)
      == shared + prefix + Pad(body) + body + Spaces(maxWidth - DisplayWidth(body) + 1) + suffix
  {
    TrimEndNoop(shared + prefix + Pad(body) + body + Spaces(maxWidth - DisplayWidth(body) + 1) + suffix);
  }

  /** Line `r` ends with `suffix`, and the suffix starts at display column `col`. */
  predicate SuffixAt(r: string, suffix: string, col: nat) {
    EndsWith(r, suffix) && DisplayWidth(r[..|r| - |suffix|]) == col
  }

  /** On a wrapped line with a non-empty body the suffix starts at display column width(shared) + width(prefix) + maxWidth + 2. */
  lemma BlockLineColumn(shared: string, prefix: string, body: string, maxWidth: nat, suffix: string)
    requires DisplayWidth(body) <= maxWidth && SolidSuffix(suffix) && body != []
    ensures SuffixAt(BlockLine(shared, prefix, body, maxWidth, suffix), suffix,
                     DisplayWidth(shared) + DisplayWidth(prefix) + maxWidth + 2)
  {
    BlockLineSolid(shared, prefix, body, maxWidth, suffix);
    var k := maxWidth - DisplayWidth(body) + 1;
    var x := shared + prefix + [' '] + body + Spaces(k);
    assert BlockLine(shared, prefix, body, maxWidth, suffix) == x + suffix;
    assert (x + suffix)[..|x + suffix| - |suffix|] == x;
    assert (x + suffix)[|x + suffix| - |suffix|..] == suffix;
    DisplayWidthConcat(shared + prefix + [' '] + body, Spaces(k));
    DisplayWidthConcat(shared + prefix + [' '], body);
    DisplayWidthConcat(shared + prefix, [' ']);
    DisplayWidthConcat(shared, prefix);
    DisplayWidthSpaces(k);
  }

  /**
   * On a wrapped line with an empty body there is no pad after the prefix,
   * so the suffix starts one column earlier: at width(shared) + width(prefix) + maxWidth + 1.
   */
  lemma BlockLineColumnEmpty(shared: string, prefix: string, maxWidth: nat, suffix: string)
    requires SolidSuffix(suffix)
    ensures SuffixAt(BlockLine(shared, prefix, [], maxWidth, suffix), suffix,
                     DisplayWidth(shared) + DisplayWidth(prefix) + maxWidth + 1)
  {
    BlockLineSolid(shared, prefix, [], maxWidth, suffix);
    var k := maxWidth + 1;
    var x := shared + prefix + Spaces(k);
    assert BlockLine(shared, prefix, [], maxWidth, suffix) == x + suffix;
    assert (x + suffix)[..|x + suffix| - |suffix|] == x;
    assert (x + suffix)[|x + suffix| - |suffix|..] == suffix;
    DisplayWidthConcat(shared + prefix, Spaces(k));
    DisplayWidthConcat(shared, prefix);
    DisplayWidthSpaces(k);
  }

  /** Line `i` of a wrapped group, with its body no wider than the group's widest. */
  lemma AddBlockCommentsAt(lines: seq<string>, infos: seq<CommentInfo>, i: nat)
    requires |infos| == |lines| && i < |lines|
    ensures AddBlockComments(lines, infos)[i]
      == BlockLine(SharedIndent(lines), infos[i].prefix, Rests(lines)[i], BlockMaxWidth(lines), infos[i].suffix)
    ensures DisplayWidth(Rests(lines)[i]) <= BlockMaxWidth(lines)
  {
  }

  /** In a wrapped group, the suffix of a line with a non-empty body and a solid suffix starts one column past the widest body and its pad. */
  lemma BlockSuffixColumn(lines: seq<string>, infos: seq<CommentInfo>, i: nat)
    requires |infos| == |lines| && i < |lines|
    requires Rests(lines)[i] != [] && SolidSuffix(infos[i].suffix)
    ensures SuffixAt(AddBlockComments(lines, infos)[i], infos[i].suffix,
                     DisplayWidth(SharedIndent(lines)) + DisplayWidth(infos[i].prefix) + BlockMaxWidth(lines) + 2)
  {
    AddBlockCommentsAt(lines, infos, i);
    BlockLineColumn(SharedIndent(lines), infos[i].prefix, Rests(lines)[i], BlockMaxWidth(lines), infos[i].suffix);
  }

  /**
   * In a wrapped group, the suffix of a line with an empty body and a solid
   * suffix starts one column left of where the non-empty bodies' suffixes do.
   */
  lemma BlockSuffixColumnBlank(lines: seq<string>, infos: seq<CommentInfo>, i: nat)
    requires |infos| == |lines| && i < |lines|
    requires Rests(lines)[i] == [] && SolidSuffix(infos[i].suffix)
    ensures SuffixAt(AddBlockComments(lines, infos)[i], infos[i].suffix,
                     DisplayWidth(SharedIndent(lines)) + DisplayWidth(infos[i].prefix) + BlockMaxWidth(lines) + 1)
  {
    AddBlockCommentsAt(lines, infos, i);
    BlockLineColumnEmpty(SharedIndent(lines), infos[i].prefix, BlockMaxWidth(lines), infos[i].suffix);
  }

  /**
   * Column alignment in a wrapped group: lines with a non-empty body, a
   * solid suffix and prefixes of equal width have their suffixes in the
   * same display column.
   */
  lemma BlockSuffixesAligned(lines: seq<string>, infos: seq<CommentInfo>, i: nat, j: nat)
    requires |infos| == |lines| && i < |lines| && j < |lines|
    requires Rests(lines)[i] != [] && SolidSuffix(infos[i].suffix)
    requires Rests(lines)[j] != [] && SolidSuffix(infos[j].suffix)
    requires DisplayWidth(infos[i].prefix) == DisplayWidth(infos[j].prefix)
    ensures var col := DisplayWidth(SharedIndent(lines)) + DisplayWidth(infos[i].prefix) + BlockMaxWidth(lines) + 2;
      SuffixAt(AddBlockComments(lines, infos)[i], infos[i].suffix, col)
      && SuffixAt(AddBlockComments(lines, infos)[j], infos[j].suffix, col)
  {
    BlockSuffixColumn(lines, infos, i);
    BlockSuffixColumn(lines, infos, j);
  }

  /** A body as wide as the widest one gets exactly one space before the suffix. */
  lemma BlockLineWidest(shared: string, prefix: string, body: string, maxWidth: nat, suffix: string)
    requires DisplayWidth(body) == maxWidth && SolidSuffix(suffix) && body != []
    ensures BlockLine(shared, prefix, body, maxWidth, suffix) == shared + prefix + [' '] + body + [' '] + suffix
  {
    BlockLineSolid(shared, prefix, body, maxWidth, suffix);
    assert Spaces(1) == [' '];
  }

  /** The widest body is followed by exactly one space before its suffix. */
  lemma BlockWidestOneSpace(lines: seq<string>, infos: seq<CommentInfo>, i: nat)
    requires |infos| == |lines| && i < |lines|
    requires Rests(lines)[i] != [] && SolidSuffix(infos[i].suffix)
    requires DisplayWidth(Rests(lines)[i]) == BlockMaxWidth(lines)
    ensures AddBlockComments(lines, infos)[i]
      == SharedIndent(lines) + infos[i].prefix + [' '] + Rests(lines)[i] + [' '] + infos[i].suffix
  {
    AddBlockCommentsAt(lines, infos, i);
    BlockLineWidest(SharedIndent(lines), infos[i].prefix, Rests(lines)[i], BlockMaxWidth(lines), infos[i].suffix);
  }

  /** A line of the wrapped shape trims to the wrapper and its contents. */
  lemma WrappedTrim(s: string, t: string)
    requires AllWs(s) && t != [] && !IsWs(t[0]) && !IsWs(t[|t| - 1])
    ensures TrimEnd(s + t) == s + t && Trim(s + t) == t && StripIndent(s + t).indent == s
  {
    TrimEndNoop(s + t);
    StripIndentUnique(s + t, s, t);
    TrimStartIsBody(s + t);
    TrimEndNoop(t);
  }

  lemma WrapperEnds(p: string, inner: string, q: string)
    ensures p <= p + inner + q && EndsWith(p + inner + q, q)
    ensures (p + inner + q)[|p|..|p + inner + q| - |q|] == inner
  {
    var t := p + inner + q;
    assert t[|t| - |q|..] == q;
    assert t[|p|..|t| - |q|] == inner;
  }

  /**
   * One line of a block round trip: wrapping a body at indentation `s` and
   * unwrapping it gives the indentation followed by the trimmed body, so the
   * body's own leading and trailing whitespace is not restored.
   */
  lemma BlockAddThenRemove(s: string, pp: string, b: string, k: nat, info: CommentInfo)
    requires AllWs(s) && AllWs(pp)
    requires info.prefix != [] && !IsWs(info.prefix[0]) && SolidSuffix(info.suffix)
    ensures var a := s + info.prefix + pp + b + Spaces(k) + info.suffix;
      TrimEnd(a) == a && IsBlockCommented(a, info) && RemoveBlockComment(a, info) == s + Trim(b)
  {
    var p := info.prefix;
    var q := info.suffix;
    var inner := pp + b + Spaces(k);
    var t := p + inner + q;
    var a := s + p + pp + b + Spaces(k) + q;
    assert a == s + t;
    WrappedTrim(s, t);
    WrapperEnds(p, inner, q);
    RemoveBlockCommentInner(a, info);
    TrimAround(pp, b, Spaces(k));
  }

  /** A block descriptor the wrapping survives: a prefix that starts with non-whitespace and a solid suffix. */
  predicate CleanBlock(info: CommentInfo) {
    info.prefix != [] && !IsWs(info.prefix[0]) && SolidSuffix(info.suffix)
  }

  /** When every descriptor is Block-tagged, the effective descriptors are the descriptors themselves. */
  lemma BlockTagged(infos: seq<CommentInfo>)
    requires forall i :: 0 <= i < |infos| ==> infos[i].mode == Block
    ensures BlockInfos(infos) == infos
  {
  }

  /** Line `i` of a wrapped group with a solid suffix, written out: nothing is trimmed and the pad reaches one column past the widest body. */
  lemma WrappedLineShape(lines: seq<string>, infos: seq<CommentInfo>, i: nat)
    requires |infos| == |lines| && i < |lines| && SolidSuffix(infos[i].suffix)
    ensures var b := Rests(lines)[i];
      AddBlockComments(lines, infos)[i]
      == SharedIndent(lines) + infos[i].prefix + Pad(b) + b + Spaces(BlockMaxWidth(lines) - DisplayWidth(b) + 1) + infos[i].suffix
  {
    AddBlockCommentsAt(lines, infos, i);
    BlockLineSolid(SharedIndent(lines), infos[i].prefix, Rests(lines)[i], BlockMaxWidth(lines), infos[i].suffix);
  }

  /** Line `i` of a wrapped group is detected as wrapped. */
  lemma BlockWrappedDetected(lines: seq<string>, infos: seq<CommentInfo>, i: nat)
    requires |infos| == |lines| && i < |lines| && CleanBlock(infos[i])
    ensures IsBlockCommented(AddBlockComments(lines, infos)[i], infos[i])
  {
    var b := Rests(lines)[i];
    WrappedLineShape(lines, infos, i);
    BlockAddThenRemove(SharedIndent(lines), Pad(b), b, BlockMaxWidth(lines) - DisplayWidth(b) + 1, infos[i]);
  }

  /** Unwrapping line `i` of a wrapped group gives the shared indent followed by its trimmed rest. */
  lemma BlockWrappedRemoved(lines: seq<string>, infos: seq<CommentInfo>, i: nat)
    requires |infos| == |lines| && i < |lines| && CleanBlock(infos[i])
    ensures RemoveBlockComment(AddBlockComments(lines, infos)[i], infos[i]) == SharedIndent(lines) + Trim(Rests(lines)[i])
  {
    var b := Rests(lines)[i];
    var s := SharedIndent(lines);
    var k := BlockMaxWidth(lines) - DisplayWidth(b) + 1;
    WrappedLineShape(lines, infos, i);
    assert AddBlockComments(lines, infos)[i] == s + infos[i].prefix + Pad(b) + b + Spaces(k) + infos[i].suffix;
    BlockAddThenRemove(s, Pad(b), b, k, infos[i]);
  }

  /**
   * The group comment-then-uncomment in block mode: once a group with
   * Block-tagged clean descriptors has been wrapped, it is detected as
   * wrapped, and unwrapping gives each line as the shared indent followed by
   * its trimmed rest.
   */
  lemma BlockGroupRoundTrip(lines: seq<string>, infos: seq<CommentInfo>)
    requires |infos| == |lines|
    requires forall i :: 0 <= i < |infos| ==> infos[i].mode == Block && CleanBlock(infos[i])
    ensures var twice := RunBlockMode(AddBlockComments(lines, infos), infos);
      twice.already && |twice.lines| == |lines|
      && forall i :: 0 <= i < |lines| ==> twice.lines[i] == SharedIndent(lines) + Trim(Rests(lines)[i])
  {
    BlockTagged(infos);
    forall i | 0 <= i < |lines|
      ensures IsBlockCommented(AddBlockComments(lines, infos)[i], infos[i])
      && RemoveBlockComment(AddBlockComments(lines, infos)[i], infos[i]) == SharedIndent(lines) + Trim(Rests(lines)[i])
    {
      BlockWrappedDetected(lines, infos, i);
      BlockWrappedRemoved(lines, infos, i);
    }
  }
}
