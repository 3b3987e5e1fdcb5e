/**
 * The pure steps of the plugin's host side around the toggle core: the
 * list of line numbers of a range, the first non-blank column of a line,
 * the locations handed to the commentstring resolver, the fallback check
 * on the resolver's answers, the clamping of a requested range, the
 * normalisation of the mixed-mode policy and the leader typed by the
 * open-comment command.
 */
module Host {
  import opened Text
  import opened Indent
  import opened Types

  /** The line numbers `start, start + 1, …, finish`; empty when `finish < start`. */
  function Range(start: int, finish: int): (r: seq<int>)
    ensures |r| == if finish >= start then finish - start + 1 else 0
    ensures forall i :: 0 <= i < |r| ==> r[i] == start + i
    decreases finish - start
  {
    if finish < start then [] else [start] + Range(start + 1, finish)
  }

  /** `enumerate`: a counting loop that pushes every line number from `start` to `finish`. */
  method Enumerate(start: int, finish: int) returns (values: seq<int>)
    ensures values == Range(start, finish)
  {
    values := [];
    var line := start;
    while line <= finish
      invariant start <= line && (line <= finish + 1 || line == start)
      invariant |values| == line - start
      invariant forall i :: 0 <= i < |values| ==> values[i] == start + i
      decreases finish - line
    {
      values := values + [line];
      line := line + 1;
    }
  }

  /**
   * `firstColumn`: the index of the first non-whitespace character (the
   * match of `\S`), or 0 for a line that has none.
   */
  function FirstColumn(text: string): (n: nat)
    ensures n <= |text|
    ensures AllWs(text) ==> n == 0
    ensures !AllWs(text) ==> n < |text| && !IsWs(text[n]) && forall j :: 0 <= j < n ==> IsWs(text[j])
  {
    var k := LeadingWs(text);
    if k == |text| then 0 else k
  }

  /** On a line that is not blank the first column is where its indentation ends and `trimStart` begins. */
  lemma FirstColumnIndent(text: string)
    requires !AllWs(text)
    ensures FirstColumn(text) == |StripIndent(text).indent|
    ensures text[FirstColumn(text)..] == TrimStart(text)
  {
    var n := FirstColumn(text);
    var sp := StripIndent(text);
    StripIndentUnique(text, text[..n], text[n..]);
    TrimStartIsBody(text);
  }

  /** A position handed to the commentstring resolver. */
  datatype Location = Location(line: int, column: nat)

  /** A line the buffer did not return reads as empty. */
  function LineOrEmpty(lines: seq<string>, idx: nat): (r: string)
    ensures idx < |lines| ==> r == lines[idx]
    ensures idx >= |lines| ==> r == []
  {
    if idx < |lines| then lines[idx] else []
  }

  /**
   * The locations of `fetchCommentInfos`: one per line number from
   * `startLine` to `endLine`, each at the first column of the line read at
   * the same position.
   */
  function Locations(startLine: int, endLine: int, lines: seq<string>): (r: seq<Location>)
    ensures |r| == if endLine >= startLine then endLine - startLine + 1 else 0
    ensures forall i :: 0 <= i < |r| ==> r[i].line == startLine + i
    ensures forall i :: 0 <= i < |r| && i < |lines| ==> r[i].column == FirstColumn(lines[i])
    ensures forall i :: |lines| <= i < |r| ==> r[i].column == 0
  {
    var lineNumbers := Range(startLine, endLine);
    seq(|lineNumbers|, idx requires 0 <= idx < |lineNumbers| => Location(lineNumbers[idx], FirstColumn(LineOrEmpty(lines, idx))))
  }

  /** Whether a descriptor says outright that the resolver could not resolve it: its flag is present and false. */
  predicate Unresolvable(info: CommentInfo) {
    info.resolvable == Some(false)
  }

  /** Whether some descriptor at or after position `k` is unresolvable. */
  function AnyUnresolvableFrom(infos: seq<CommentInfo>, k: nat): (r: bool)
    requires k <= |infos|
    ensures r <==> exists j :: k <= j < |infos| && Unresolvable(infos[j])
    decreases |infos| - k
  {
    if k == |infos| then false
    else Unresolvable(infos[k]) || AnyUnresolvableFrom(infos, k + 1)
  }

  /** `needsFallback`, the check of the toggle command: some descriptor is flagged unresolvable; an absent flag does not count. */
  function NeedsFallback(infos: seq<CommentInfo>): (r: bool)
    ensures r <==> exists j :: 0 <= j < |infos| && infos[j].resolvable == Some(false)
  {
    AnyUnresolvableFrom(infos, 0)
  }

  /** The position of the first unresolvable descriptor at or after `k`, if any. */
  function FindUnresolvableFrom(infos: seq<CommentInfo>, k: nat): (r: Option<nat>)
    requires k <= |infos|
    ensures r.None? <==> forall j :: k <= j < |infos| ==> !Unresolvable(infos[j])
    ensures r.Some? ==> k <= r.value < |infos| && Unresolvable(infos[r.value])
    ensures r.Some? ==> forall i :: k <= i < r.value ==> !Unresolvable(infos[i])
    decreases |infos| - k
  {
    if k == |infos| then None
    else if Unresolvable(infos[k]) then Some(k)
    else FindUnresolvableFrom(infos, k + 1)
  }

  /**
   * `fallbackReason`: the `source` of the first descriptor flagged
   * unresolvable, and nothing when there is none or when that descriptor
   * carries no source.
   */
  function FallbackReason(infos: seq<CommentInfo>): (r: Option<string>)
    ensures r.Some? ==> exists j :: (0 <= j < |infos| && Unresolvable(infos[j]) && r == infos[j].source
                                     && forall i :: 0 <= i < j ==> !Unresolvable(infos[i]))
    ensures !NeedsFallback(infos) ==> r == None
  {
    match FindUnresolvableFrom(infos, 0)
    case None => None
    case Some(j) => infos[j].source
  }

  /** The reason is the source of the first unresolvable descriptor, whenever there is one. */
  lemma FallbackReasonFirst(infos: seq<CommentInfo>, j: nat)
    requires j < |infos| && Unresolvable(infos[j]) && forall i :: 0 <= i < j ==> !Unresolvable(infos[i])
    ensures NeedsFallback(infos) && FallbackReason(infos) == infos[j].source
  {
  }

  /**
   * The check of the open-comment command, on the descriptors fetched for
   * the cursor line: it falls back when none comes back or when the first
   * one is not flagged resolvable; unlike `NeedsFallback`, an absent flag
   * counts as unresolvable.
   */
  function OpenNeedsFallback(infos: seq<CommentInfo>): (r: bool)
    ensures r <==> infos == [] || infos[0].resolvable != Some(true)
  {
    if |infos| == 0 then true
    else match infos[0].resolvable
      case Some(b) => !b
      case None => true
  }

  /** The reason the open-comment command reports: the first descriptor's `source`, and nothing when none came back. */
  function OpenFallbackReason(infos: seq<CommentInfo>): (r: Option<string>)
    ensures infos == [] ==> r == None
    ensures infos != [] ==> r == infos[0].source
  {
    if |infos| == 0 then None else infos[0].source
  }

  /**
   * On one descriptor the open-comment check is the stricter one: whenever
   * the toggle check falls back so does it, and it falls back alone exactly
   * when the flag is absent.
   */
  lemma OpenFallbackStricter(info: CommentInfo)
    ensures NeedsFallback([info]) ==> OpenNeedsFallback([info])
    ensures (OpenNeedsFallback([info]) && !NeedsFallback([info])) <==> info.resolvable == None
  {
    assert [info][0] == info;
  }

  /** A line range as requested by the editor. */
  datatype LineRange = LineRange(start: int, finish: int)

  /** The start is raised to line 1 at least, and the end to the (raised) start at least. */
  function Clamp(range: LineRange): (r: LineRange)
    ensures r.start >= 1 && r.finish >= r.start
    ensures r.start >= range.start && (r.start == range.start || r.start == 1)
    ensures r.finish >= range.finish && (r.finish == range.finish || r.finish == r.start)
  {
    var start := if range.start > 1 then range.start else 1;
    var finish := if range.finish > start then range.finish else start;
    LineRange(start, finish)
  }

  /** A range that is already clamped is left alone, so clamping twice is clamping once. */
  lemma ClampIdempotent(range: LineRange)
    ensures Clamp(Clamp(range)) == Clamp(range)
    ensures range.start >= 1 && range.finish >= range.start ==> Clamp(range) == range
  {
  }

  /** A clamped range numbers at least one line, all of them positive. */
  lemma ClampedRange(range: LineRange)
    ensures var c := Clamp(range);
      (|Range(c.start, c.finish)| == c.finish - c.start + 1 >= 1
       && forall i :: 0 <= i < |Range(c.start, c.finish)| ==> Range(c.start, c.finish)[i] >= 1)
  {
  }

  /** The policy's name as the editor sends it. */
  function PolicyName(p: Policy): string {
    match p
    case PolicyLine => "line"
    case PolicyBlock => "block"
    case PolicyMixed => "mixed"
  }

  /** `mode_policy`: `'line'` and `'block'` are kept, anything else, absent included, becomes `'mixed'`. */
  function NormalisePolicy(modePolicy: Option<string>): (r: Policy)
    ensures r == PolicyLine <==> modePolicy == Some("line")
    ensures r == PolicyBlock <==> modePolicy == Some("block")
    ensures r == PolicyMixed <==> modePolicy != Some("line") && modePolicy != Some("block")
  {
    if modePolicy == Some("line") then PolicyLine
    else if modePolicy == Some("block") then PolicyBlock
    else PolicyMixed
  }

  /** Every policy survives being sent by name. */
  lemma NormalisePolicyName(p: Policy)
    ensures NormalisePolicy(Some(PolicyName(p))) == p
  {
  }

  /** The text typed after `o` or `O`: the prefix, then one space when padding is on and the mode is Line. */
  function Leader(info: CommentInfo, padSpace: bool): (r: string)
    ensures info.prefix <= r
    ensures r == info.prefix || r == info.prefix + [' ']
    ensures r == info.prefix + [' '] <==> padSpace && info.mode == Line
  {
    var pad := if padSpace && info.mode == Line then " " else "";
    info.prefix + pad
  }
}
