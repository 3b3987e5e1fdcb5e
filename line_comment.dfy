/**
 * Line-comment toggling: detecting a prefix comment, removing it, and
 * adding it to a group of lines at their shared indentation.
 */
module LineComment {
  import opened Text
  import opened Indent
  import opened Types

  /** The first descriptor tagged Line, and the first descriptor of all when none is. */
  function PrimaryLine(infos: seq<CommentInfo>): (r: CommentInfo)
    requires |infos| > 0
    ensures r in infos
    ensures r.mode == Line || (r == infos[0] && forall j :: 0 <= j < |infos| ==> infos[j].mode != Line)
    ensures FirstWithMode(infos, Line).Some? ==> r == FirstWithMode(infos, Line).value
    ensures r.mode == Line ==> exists j :: (0 <= j < |infos| && infos[j] == r
                                            && forall i :: 0 <= i < j ==> infos[i].mode != Line)
  {
    match FirstWithMode(infos, Line)
    case Some(x) => x
    case None => infos[0]
  }

  /** The descriptor whose prefix is added to line `i`: its own when tagged Line, else the primary one. */
  function AddInfo(infos: seq<CommentInfo>, i: nat): (r: CommentInfo)
    requires i < |infos|
    ensures r in infos
    ensures infos[i].mode == Line ==> r == infos[i]
    ensures infos[i].mode != Line ==> r == PrimaryLine(infos)
  {
    if infos[i].mode == Line then infos[i] else PrimaryLine(infos)
  }

  /** `isLineCommented` */
  function IsLineCommented(line: string, info: CommentInfo): (r: bool)
    ensures r <==> TrimStart(line) != [] && TrimEnd(info.prefix) <= TrimStart(line)
    ensures AllWs(line) ==> !r
  {
    var sp := StripIndent(line);
    BodyTrimmed(line);
    var target := TrimStart(sp.body);
    if |target| == 0 then false
    else TrimEnd(info.prefix) <= target
  }

  /** The body after `stripIndent` has nothing left for `trimStart` to remove; for a blank line it is empty. */
  lemma BodyTrimmed(line: string)
    ensures TrimStart(StripIndent(line).body) == TrimStart(line)
    ensures AllWs(line) ==> TrimStart(line) == []
  {
    BodyTrimStart(line);
    if AllWs(line) {
      AllWsTrimStart(line);
    }
  }

  /** A text that starts with `t` has its first occurrence of `t` at 0. */
  lemma IndexOfPrefix(s: string, t: string)
    requires t <= s
    ensures IndexOf(s, t) == 0
  {
    assert s[0..] == s;
  }

  /**
   * `removeLineComment`: when the body starts with the right-trimmed prefix
   * the line becomes its indent followed by what comes after the prefix,
   * less one leading space if there is one; otherwise it is left alone.
   */
  function RemoveLineComment(line: string, info: CommentInfo): (r: string)
    ensures var sp := StripIndent(line); var tp := TrimEnd(info.prefix);
      if tp <= sp.body then r == sp.indent + DropOneSpace(sp.body[|tp|..]) else r == line
  {
    var sp := StripIndent(line);
    var trimmedPrefix := TrimEnd(info.prefix);
    TrimStartNoop(sp.body);
    if !(trimmedPrefix <= TrimStart(sp.body)) then line
    else sp.indent + DropOneSpace(AfterPrefix(sp.body, trimmedPrefix))
  }

  /** What follows the prefix in a body that starts with it; the search for the prefix finds it at position 0. */
  function AfterPrefix(body: string, p: string): (r: string)
    requires p <= body
    ensures r == body[|p|..]
  {
    IndexOfPrefix(body, p);
    var start := IndexOf(body, p);
    body[start + |p|..]
  }

  /** At most one space directly after the prefix is dropped. */
  function DropOneSpace(rest: string): (r: string)
    ensures rest == r || rest == [' '] + r
    ensures rest == r <==> !([' '] <= rest)
  {
    if [' '] <= rest then rest[1..] else rest
  }

  /**
   * What removal keeps: the line is the kept text with the prefix, and at
   * most one space, put back after the indentation.
   */
  lemma RemoveLineCommentShape(line: string, info: CommentInfo)
    ensures var sp := StripIndent(line); var tp := TrimEnd(info.prefix); var r := RemoveLineComment(line, info);
      if tp <= sp.body then
        sp.indent <= r
        && ((line == sp.indent + tp + r[|sp.indent|..] && !([' '] <= r[|sp.indent|..]))
            || line == sp.indent + tp + [' '] + r[|sp.indent|..])
      else r == line
  {
    var sp := StripIndent(line);
    var tp := TrimEnd(info.prefix);
    if tp <= sp.body {
      var rest := sp.body[|tp|..];
      assert sp.body == tp + rest;
      RemovedShape(line, sp.indent, tp, rest);
    }
  }

  /** The shape of a removal: the line is what is kept with the prefix and at most one space put back. */
  lemma RemovedShape(line: string, indent: string, tp: string, rest: string)
    requires line == indent + (tp + rest)
    ensures var r := indent + DropOneSpace(rest);
      indent <= r
      && ((line == indent + tp + r[|indent|..] && !([' '] <= r[|indent|..]))
          || line == indent + tp + [' '] + r[|indent|..])
  {
    var rest' := DropOneSpace(rest);
    assert (indent + rest')[|indent|..] == rest';
    if [' '] <= rest {
      assert rest == [' '] + rest';
    }
  }

  /**
   * `alignLineComments`: every line gets the prefix at the shared indent,
   * then one space unless nothing follows, then its own extra indentation
   * and body.
   */
  function AlignLineComments(lines: seq<string>, infos: seq<CommentInfo>): (r: seq<string>)
    requires |infos| == |lines|
    ensures |r| == |lines|
    ensures forall i {:trigger r[i]} :: 0 <= i < |lines| ==>
      r[i] == SharedIndent(lines) + AddInfo(infos, i).prefix + Pad(Rests(lines)[i]) + Rests(lines)[i]
  {
    var sharedIndent := SharedIndent(lines);
    var rests := Rests(lines);
    seq(|lines|, i requires 0 <= i < |lines| =>
      sharedIndent + AddInfo(infos, i).prefix + Pad(rests[i]) + rests[i])
  }

  /**
   * `runLineMode`: the group is already commented iff every line passes
   * detection with its own descriptor, whatever its mode tag; then every
   * line has its comment removed, and otherwise the whole group is commented.
   */
  function RunLineMode(lines: seq<string>, infos: seq<CommentInfo>): (r: RunResult<string>)
    requires |infos| == |lines|
    ensures |r.lines| == |lines|
    ensures r.already <==> forall i :: 0 <= i < |lines| ==> IsLineCommented(lines[i], infos[i])
    ensures r.already ==> forall i {:trigger r.lines[i]} :: 0 <= i < |lines| ==> r.lines[i] == RemoveLineComment(lines[i], infos[i])
    ensures !r.already ==> r.lines == AlignLineComments(lines, infos)
  {
    var already := forall i :: 0 <= i < |lines| ==> IsLineCommented(lines[i], infos[i]);
    var updated :=
      if already then seq(|lines|, i requires 0 <= i < |lines| => RemoveLineComment(lines[i], infos[i]))
      else AlignLineComments(lines, infos);
    RunResult(updated, already)
  }

  /** A line commented at indentation `s` is split at `s`. */
  lemma AddedSplit(s: string, rest: string, p: string)
    requires AllWs(s) && p != [] && !IsWs(p[0])
    ensures StripIndent(s + p + Pad(rest) + rest) == Split(s, p + Pad(rest) + rest)
  {
    assert s + p + Pad(rest) + rest == s + (p + Pad(rest) + rest);
    StripIndentUnique(s + p + Pad(rest) + rest, s, p + Pad(rest) + rest);
  }

  /**
   * One line round trip: commenting a line at indentation `s` and removing
   * the comment again gives the line back, provided the prefix neither
   * starts nor ends with whitespace.
   */
  lemma LineAddThenRemove(s: string, rest: string, info: CommentInfo)
    requires AllWs(s)
    requires info.prefix != [] && !IsWs(info.prefix[0]) && !IsWs(info.prefix[|info.prefix| - 1])
    ensures var a := s + info.prefix + Pad(rest) + rest;
      IsLineCommented(a, info) && RemoveLineComment(a, info) == s + rest
  {
    var p := info.prefix;
    var a := s + p + Pad(rest) + rest;
    TrimEndNoop(p);
    AddedSplit(s, rest, p);
    TrimStartIsBody(a);
    AddedRemoved(s, rest, p, info);
  }

  lemma AddedRemoved(s: string, rest: string, p: string, info: CommentInfo)
    requires TrimEnd(info.prefix) == p
    requires StripIndent(s + p + Pad(rest) + rest) == Split(s, p + Pad(rest) + rest)
    ensures RemoveLineComment(s + p + Pad(rest) + rest, info) == s + rest
  {
    var body := p + Pad(rest) + rest;
    var sp := StripIndent(s + body);
    assert p <= sp.body;
    assert sp.body[|p|..] == Pad(rest) + rest;
    PadDropped(rest);
    assert RemoveLineComment(s + body, info) == sp.indent + DropOneSpace(sp.body[|p|..]);
  }

  lemma PadDropped(rest: string)
    ensures DropOneSpace(Pad(rest) + rest) == rest
  {
    if rest != [] {
      assert (Pad(rest) + rest)[1..] == rest;
    } else {
      assert Pad(rest) + rest == [];
    }
  }

  /** A line-comment prefix the round trip works for: non-empty, with no whitespace at either end. */
  predicate CleanPrefix(p: string) {
    p != [] && !IsWs(p[0]) && !IsWs(p[|p| - 1])
  }

  /** Line `i` of a commented group with a clean Line-tagged descriptor is detected as commented. */
  lemma AlignedDetected(lines: seq<string>, infos: seq<CommentInfo>, i: nat)
    requires |infos| == |lines| && i < |lines|
    requires infos[i].mode == Line && CleanPrefix(infos[i].prefix)
    ensures IsLineCommented(AlignLineComments(lines, infos)[i], infos[i])
  {
    LineAddThenRemove(SharedIndent(lines), Rests(lines)[i], infos[i]);
  }

  /** Removing the comment from line `i` of a commented group gives the original line back. */
  lemma AlignedRemoved(lines: seq<string>, infos: seq<CommentInfo>, i: nat)
    requires |infos| == |lines| && i < |lines|
    requires infos[i].mode == Line && CleanPrefix(infos[i].prefix)
    ensures RemoveLineComment(AlignLineComments(lines, infos)[i], infos[i]) == lines[i]
  {
    LineAddThenRemove(SharedIndent(lines), Rests(lines)[i], infos[i]);
  }

  /**
   * The group round trip in line mode: once every line of a group with
   * Line-tagged clean descriptors has been commented, the group is detected
   * as commented and removal gives the original lines back.
   */
  lemma LineGroupRoundTrip(lines: seq<string>, infos: seq<CommentInfo>)
    requires |infos| == |lines|
    requires forall i :: 0 <= i < |infos| ==> infos[i].mode == Line && CleanPrefix(infos[i].prefix)
    ensures RunLineMode(AlignLineComments(lines, infos), infos) == RunResult(lines, true)
  {
    var once := AlignLineComments(lines, infos);
    forall i | 0 <= i < |lines|
      ensures IsLineCommented(once[i], infos[i]) && RemoveLineComment(once[i], infos[i]) == lines[i]
    {
      AlignedDetected(lines, infos, i);
      AlignedRemoved(lines, infos, i);
    }
    var twice := RunLineMode(once, infos);
    forall i | 0 <= i < |lines| ensures twice.lines[i] == lines[i] {
    }
  }
}
