/**
 * `runMixedMode` written over the uniform runner it applies to each segment:
 * the group is cut into maximal same-mode segments, every segment is toggled
 * on its own slice of lines and descriptors, the results are written over a
 * copy of the lines in order and the verdicts are combined. What is proved
 * here needs of the runner only that it keeps the lines' count (`Keeps`)
 * and that on a group whose descriptors share its mode it decides and
 * removes line by line (`Sound`); `runUniformMode` is shown to be such a
 * runner where it is defined.
 */
module Mixed {
  import opened Types
  import opened Segments

  /** A uniform runner: a mode, the lines and one descriptor per line give a run result. */
  type Runner<!L> = (Mode, seq<L>, seq<CommentInfo>) --> RunResult<L>

  /** The runner accepts every group with one descriptor per line and keeps the lines' count. */
  ghost predicate Keeps<L(!new)>(run: Runner<L>) {
    forall m, lines, infos :: |infos| == |lines| ==> run.requires(m, lines, infos) && |run(m, lines, infos).lines| == |lines|
  }

  /** Every descriptor has mode `m`. */
  predicate AllMode(infos: seq<CommentInfo>, m: Mode) {
    forall i :: 0 <= i < |infos| ==> infos[i].mode == m
  }

  /**
   * On the group `lines`, `infos` run in mode `m`, the verdict is that every
   * line passes `detect`, and an already commented group has every line
   * replaced by `remove` of it.
   */
  ghost predicate SoundOn<L(!new)>(run: Runner<L>, detect: (L, CommentInfo) -> bool, remove: (L, CommentInfo) -> L,
                    m: Mode, lines: seq<L>, infos: seq<CommentInfo>)
    requires Keeps(run) && |infos| == |lines|
  {
    && (run(m, lines, infos).already <==> forall i :: 0 <= i < |lines| ==> detect(lines[i], infos[i]))
    && (run(m, lines, infos).already ==> forall i :: 0 <= i < |lines| ==> run(m, lines, infos).lines[i] == remove(lines[i], infos[i]))
  }

  /** The runner is sound on every group whose descriptors all carry the mode it is run in. */
  ghost predicate Sound<L(!new)>(run: Runner<L>, detect: (L, CommentInfo) -> bool, remove: (L, CommentInfo) -> L) {
    && Keeps(run)
    && forall m, lines, infos :: |infos| == |lines| && AllMode(infos, m) ==> SoundOn(run, detect, remove, m, lines, infos)
  }

  /** One segment toggled on its own slice of lines and descriptors. */
  function SegmentResult<L(!new)>(run: Runner<L>, lines: seq<L>, infos: seq<CommentInfo>, seg: Segment): (r: RunResult<L>)
    requires Keeps(run) && |infos| == |lines| && seg.start <= seg.end <= |lines|
    ensures |r.lines| == seg.end - seg.start
  {
    run(seg.mode, lines[seg.start..seg.end], infos[seg.start..seg.end])
  }

  /** Each segment lies inside the output and its result has the segment's length. */
  predicate Fits<L(!new)>(segs: seq<Segment>, results: seq<RunResult<L>>, n: nat) {
    && |results| == |segs|
    && forall a :: 0 <= a < |segs| ==> segs[a].start <= segs[a].end <= n && |results[a].lines| == segs[a].end - segs[a].start
  }

  /** Line `j` of the output after the first `k` segment results have been written over `lines` in order. */
  function Written<L(!new)>(lines: seq<L>, segs: seq<Segment>, results: seq<RunResult<L>>, k: nat, j: nat): L
    requires Fits(segs, results, |lines|) && k <= |segs| && j < |lines|
  {
    if k == 0 then lines[j]
    else if segs[k - 1].start <= j < segs[k - 1].end then results[k - 1].lines[j - segs[k - 1].start]
    else Written(lines, segs, results, k - 1, j)
  }

  /** The output once every segment result has been written. */
  function Output<L(!new)>(lines: seq<L>, segs: seq<Segment>, results: seq<RunResult<L>>): (r: seq<L>)
    requires Fits(segs, results, |lines|)
    ensures |r| == |lines|
    ensures forall j {:trigger r[j]} :: 0 <= j < |lines| ==> r[j] == Written(lines, segs, results, |segs|, j)
  {
    seq(|lines|, j requires 0 <= j < |lines| => Written(lines, segs, results, |segs|, j))
  }

  /** `allAlready` after the first `k` segment results. */
  function AllAlreadyUpTo<L(!new)>(results: seq<RunResult<L>>, k: nat): bool
    requires k <= |results|
  {
    k == 0 || (AllAlreadyUpTo(results, k - 1) && results[k - 1].already)
  }

  /** Every segment toggled on its own slice. */
  function Results<L(!new)>(run: Runner<L>, lines: seq<L>, infos: seq<CommentInfo>, segs: seq<Segment>): (r: seq<RunResult<L>>)
    requires Keeps(run) && |infos| == |lines| && InBounds(segs, |lines|)
    ensures Fits(segs, r, |lines|)
    ensures forall a {:trigger r[a]} :: 0 <= a < |segs| ==> r[a] == SegmentResult(run, lines, infos, segs[a])
  {
    seq(|segs|, a requires 0 <= a < |segs| => SegmentResult(run, lines, infos, segs[a]))
  }

  /** The specification of `runMixedMode` over the runner `run`. */
  function Run<L(!new)>(run: Runner<L>, lines: seq<L>, infos: seq<CommentInfo>): (r: RunResult<L>)
    requires Keeps(run) && |infos| == |lines|
    ensures |r.lines| == |lines|
  {
    var segs := Runs(SegmentModes(infos));
    var results := Results(run, lines, infos, segs);
    RunResult(Output(lines, segs, results), AllAlreadyUpTo(results, |segs|))
  }

  /** The segmentation loop of `runMixedMode`: a segment is closed at every change of mode and once more at the end. */
  method CutSegments(modes: seq<Mode>) returns (segments: seq<Segment>)
    ensures segments == Runs(modes)
  {
    segments := [];
    var start := 0;
    var current := if |modes| > 0 then modes[0] else Line;
    var idx := 1;
    while idx < |modes|
      invariant |modes| == 0 ==> segments == [] && start == 0 && current == Line
      invariant |modes| > 0 ==> start < idx <= |modes| && segments + RunsFrom(modes, idx, start, current) == Runs(modes)
    {
      var mode := modes[idx];
      if mode != current {
        assert segments + RunsFrom(modes, idx, start, current)
          == (segments + [Segment(start, idx, current)]) + RunsFrom(modes, idx + 1, idx, mode);
        segments := segments + [Segment(start, idx, current)];
        start := idx;
        current := mode;
      }
      idx := idx + 1;
    }
    segments := segments + [Segment(start, |modes|, current)];
    if |modes| > 0 {
      assert RunsFrom(modes, idx, start, current) == [Segment(start, |modes|, current)];
    }
  }

  /** The copy loop of `runMixedMode`: `xs` written into `output` from position `start`. */
  method WriteAt<L(!new)>(output: array<L>, start: nat, xs: seq<L>)
    requires start + |xs| <= output.Length
    modifies output
    ensures forall j :: 0 <= j < output.Length ==>
      output[j] == if start <= j < start + |xs| then xs[j - start] else old(output[j])
  {
    var offset := 0;
    while offset < |xs|
      invariant offset <= |xs|
      invariant forall j :: 0 <= j < output.Length ==>
        output[j] == if start <= j < start + offset then xs[j - start] else old(output[j])
    {
      output[start + offset] := xs[offset];
      offset := offset + 1;
    }
  }

  /**
   * One pass of the second loop of `runMixedMode`: segment `k` toggled on
   * its slice, its lines written over the output after `k` results, and its
   * verdict folded into `allAlready`.
   */
  method ToggleSegment<L(!new)>(run: Runner<L>, lines: seq<L>, infos: seq<CommentInfo>, segments: seq<Segment>,
                                ghost results: seq<RunResult<L>>, k: nat, output: array<L>, allAlready: bool)
      returns (allAlready': bool)
    requires Keeps(run) && |infos| == |lines| && InBounds(segments, |lines|)
    requires Fits(segments, results, |lines|) && k < |segments| && results[k] == SegmentResult(run, lines, infos, segments[k])
    requires output.Length == |lines| && forall j :: 0 <= j < |lines| ==> output[j] == Written(lines, segments, results, k, j)
    requires allAlready == AllAlreadyUpTo(results, k)
    modifies output
    ensures forall j :: 0 <= j < |lines| ==> output[j] == Written(lines, segments, results, k + 1, j)
    ensures allAlready' == AllAlreadyUpTo(results, k + 1)
  {
    var segment := segments[k];
    var result := run(segment.mode, lines[segment.start..segment.end], infos[segment.start..segment.end]);
    WriteAt(output, segments[k].start, result.lines);
    allAlready' := allAlready && result.already;
  }

  /**
   * The second loop of `runMixedMode`: every segment toggled on its own
   * slice, its lines written over `output` at the segment's start, and the
   * verdicts combined.
   */
  method ToggleSegments<L(!new)>(run: Runner<L>, lines: seq<L>, infos: seq<CommentInfo>, segments: seq<Segment>, output: array<L>)
      returns (allAlready: bool)
    requires Keeps(run) && |infos| == |lines| && InBounds(segments, |lines|)
    requires output.Length == |lines| && forall j :: 0 <= j < |lines| ==> output[j] == lines[j]
    modifies output
    ensures output[..] == Output(lines, segments, Results(run, lines, infos, segments))
    ensures allAlready == AllAlreadyUpTo(Results(run, lines, infos, segments), |segments|)
  {
    ghost var results := Results(run, lines, infos, segments);
    allAlready := true;
    var k := 0;
    while k < |segments|
      invariant k <= |segments|
      invariant forall j :: 0 <= j < |lines| ==> output[j] == Written(lines, segments, results, k, j)
      invariant allAlready == AllAlreadyUpTo(results, k)
    {
      allAlready := ToggleSegment(run, lines, infos, segments, results, k, output, allAlready);
      k := k + 1;
    }
    assert output[..] == Output(lines, segments, results);
  }

  /** Position `j` lies in segment `a` and in no later one of the first `k` segments. */
  predicate OnlyIn(segs: seq<Segment>, a: nat, j: nat, k: nat) {
    && a < k <= |segs|
    && segs[a].start <= j < segs[a].end
    && forall b :: a < b < k ==> !(segs[b].start <= j < segs[b].end)
  }

  /** A line lies in segment `a` and in no later one of the first `k`: the output holds that segment's result there. */
  lemma {:induction false} WrittenAt<L(!new)>(lines: seq<L>, segs: seq<Segment>, results: seq<RunResult<L>>, k: nat, a: nat, j: nat)
    requires Fits(segs, results, |lines|) && j < |lines| && OnlyIn(segs, a, j, k)
    ensures Written(lines, segs, results, k, j) == results[a].lines[j - segs[a].start]
    decreases k
  {
    if a < k - 1 {
      WrittenAt(lines, segs, results, k - 1, a, j);
    }
  }

  /** `allAlready` is the conjunction of the segments' verdicts. */
  lemma {:induction false} AllAlreadyUpToAll<L(!new)>(results: seq<RunResult<L>>, k: nat)
    requires k <= |results|
    ensures AllAlreadyUpTo(results, k) <==> forall a :: 0 <= a < k ==> results[a].already
  {
    if k > 0 {
      AllAlreadyUpToAll(results, k - 1);
    }
  }

  /** Every descriptor of a segment of the cut has that segment's mode. */
  lemma SegmentModesAgree(infos: seq<CommentInfo>, segs: seq<Segment>, a: nat, j: nat)
    requires IsRuns(SegmentModes(infos), segs) && a < |segs| && segs[a].start <= j < segs[a].end
    ensures infos[j].mode == segs[a].mode
  {
    var modes := SegmentModes(infos);
    assert modes[j] == segs[a].mode;
  }

  /** Each segment of a non-empty group is a non-empty range of it whose descriptors all carry the segment's mode. */
  lemma SegmentUniform(infos: seq<CommentInfo>, a: nat)
    requires |infos| > 0 && a < |Runs(SegmentModes(infos))|
    ensures var seg := Runs(SegmentModes(infos))[a];
      seg.start < seg.end <= |infos| && forall i :: seg.start <= i < seg.end ==> infos[i].mode == seg.mode
  {
    var segs := Runs(SegmentModes(infos));
    RunsAreRuns(SegmentModes(infos));
    forall i | segs[a].start <= i < segs[a].end ensures infos[i].mode == segs[a].mode {
      SegmentModesAgree(infos, segs, a, i);
    }
  }

  /** The segment that holds line `j`: it carries the line's mode and no later segment holds the line. */
  lemma SegmentOf(infos: seq<CommentInfo>, j: nat) returns (a: nat)
    requires j < |infos|
    ensures var segs := Runs(SegmentModes(infos));
      OnlyIn(segs, a, j, |segs|) && infos[j].mode == segs[a].mode
  {
    var modes := SegmentModes(infos);
    var segs := Runs(modes);
    RunsAreRuns(modes);
    a := RunsCover(modes, segs, 0, j);
    SegmentModesAgree(infos, segs, a, j);
  }

  /** Every line of the group passes `detect` iff every line of every segment does. */
  lemma RunsDetected<L(!new)>(detect: (L, CommentInfo) -> bool, lines: seq<L>, infos: seq<CommentInfo>)
    requires |infos| == |lines| > 0
    ensures var segs := Runs(SegmentModes(infos));
      (forall a, j :: 0 <= a < |segs| && segs[a].start <= j < segs[a].end ==> detect(lines[j], infos[j]))
      <==> (forall j :: 0 <= j < |lines| ==> detect(lines[j], infos[j]))
  {
    var segs := Runs(SegmentModes(infos));
    if forall a, j :: 0 <= a < |segs| && segs[a].start <= j < segs[a].end ==> detect(lines[j], infos[j]) {
      forall j | 0 <= j < |lines| ensures detect(lines[j], infos[j]) {
        var a := SegmentOf(infos, j);
      }
    }
  }

  /**
   * Locality: in a mixed run, a line that lies in segment `a` and in no
   * later segment holds what toggling that segment on its own slice gives.
   */
  lemma RunAt<L(!new)>(run: Runner<L>, lines: seq<L>, infos: seq<CommentInfo>, a: nat, j: nat)
    requires Keeps(run) && |infos| == |lines| && OnlyIn(Runs(SegmentModes(infos)), a, j, |Runs(SegmentModes(infos))|)
    ensures var seg := Runs(SegmentModes(infos))[a];
      Run(run, lines, infos).lines[j] == SegmentResult(run, lines, infos, seg).lines[j - seg.start]
  {
    var segs := Runs(SegmentModes(infos));
    var results := Results(run, lines, infos, segs);
    WrittenAt(lines, segs, results, |segs|, a, j);
  }

  /** Detection over a slice of the group is detection over the corresponding lines of the group. */
  lemma SliceDetected<L(!new)>(detect: (L, CommentInfo) -> bool, lines: seq<L>, infos: seq<CommentInfo>, s: nat, e: nat)
    requires |infos| == |lines| && s <= e <= |lines|
    ensures (forall i :: 0 <= i < e - s ==> detect(lines[s..e][i], infos[s..e][i]))
      <==> (forall j :: s <= j < e ==> detect(lines[j], infos[j]))
  {
    if forall j :: s <= j < e ==> detect(lines[j], infos[j]) {
      forall i | 0 <= i < e - s ensures detect(lines[s..e][i], infos[s..e][i]) {
        assert lines[s..e][i] == lines[s + i] && infos[s..e][i] == infos[s + i];
      }
    }
    if forall i :: 0 <= i < e - s ==> detect(lines[s..e][i], infos[s..e][i]) {
      forall j | s <= j < e ensures detect(lines[j], infos[j]) {
        assert lines[s..e][j - s] == lines[j] && infos[s..e][j - s] == infos[j];
      }
    }
  }

  /** Removal over a slice of the group, read back at the group's own positions. */
  lemma SliceRemoved<L(!new)>(remove: (L, CommentInfo) -> L, out: seq<L>, lines: seq<L>, infos: seq<CommentInfo>, s: nat, e: nat)
    requires |infos| == |lines| && s <= e <= |lines| && |out| == e - s
    requires forall i :: 0 <= i < e - s ==> out[i] == remove(lines[s..e][i], infos[s..e][i])
    ensures forall j :: s <= j < e ==> out[j - s] == remove(lines[j], infos[j])
  {
    forall j | s <= j < e ensures out[j - s] == remove(lines[j], infos[j]) {
      assert lines[s..e][j - s] == lines[j] && infos[s..e][j - s] == infos[j];
    }
  }

  /** The descriptors of a slice whose descriptors all have mode `m`. */
  lemma SliceModes(infos: seq<CommentInfo>, s: nat, e: nat, m: Mode)
    requires s <= e <= |infos|
    requires forall j :: s <= j < e ==> infos[j].mode == m
    ensures AllMode(infos[s..e], m)
  {
    forall i | 0 <= i < |infos[s..e]| ensures infos[s..e][i].mode == m {
      assert infos[s..e][i] == infos[s + i];
    }
  }

  /**
   * A segment's verdict: it is already commented iff every line in it passes
   * `detect`, and then every line in it is replaced by `remove` of it.
   */
  lemma SegmentSound<L(!new)>(run: Runner<L>, detect: (L, CommentInfo) -> bool, remove: (L, CommentInfo) -> L,
                     lines: seq<L>, infos: seq<CommentInfo>, seg: Segment)
    requires Sound(run, detect, remove) && |infos| == |lines| && seg.start <= seg.end <= |lines|
    requires forall j :: seg.start <= j < seg.end ==> infos[j].mode == seg.mode
    ensures SegmentResult(run, lines, infos, seg).already <==> forall j :: seg.start <= j < seg.end ==> detect(lines[j], infos[j])
    ensures SegmentResult(run, lines, infos, seg).already ==>
      forall j :: seg.start <= j < seg.end ==> SegmentResult(run, lines, infos, seg).lines[j - seg.start] == remove(lines[j], infos[j])
  {
    var sl, si := lines[seg.start..seg.end], infos[seg.start..seg.end];
    SliceModes(infos, seg.start, seg.end, seg.mode);
    assert SoundOn(run, detect, remove, seg.mode, sl, si);
    SliceDetected(detect, lines, infos, seg.start, seg.end);
    if SegmentResult(run, lines, infos, seg).already {
      SliceRemoved(remove, SegmentResult(run, lines, infos, seg).lines, lines, infos, seg.start, seg.end);
    }
  }

  /** Segment `a` of the cut of a non-empty group is sound. */
  lemma SegmentSoundAt<L(!new)>(run: Runner<L>, detect: (L, CommentInfo) -> bool, remove: (L, CommentInfo) -> L,
                       lines: seq<L>, infos: seq<CommentInfo>, a: nat)
    requires Sound(run, detect, remove) && |infos| == |lines| > 0 && a < |Runs(SegmentModes(infos))|
    ensures var seg := Runs(SegmentModes(infos))[a];
      && (SegmentResult(run, lines, infos, seg).already <==> forall j :: seg.start <= j < seg.end ==> detect(lines[j], infos[j]))
      && (SegmentResult(run, lines, infos, seg).already ==>
          forall j :: seg.start <= j < seg.end ==> SegmentResult(run, lines, infos, seg).lines[j - seg.start] == remove(lines[j], infos[j]))
  {
    SegmentUniform(infos, a);
    SegmentSound(run, detect, remove, lines, infos, Runs(SegmentModes(infos))[a]);
  }

  /** A mixed run is already commented iff every segment's run is. */
  lemma RunAlready<L(!new)>(run: Runner<L>, lines: seq<L>, infos: seq<CommentInfo>)
    requires Keeps(run) && |infos| == |lines|
    ensures var segs := Runs(SegmentModes(infos));
      Run(run, lines, infos).already <==> forall a :: 0 <= a < |segs| ==> SegmentResult(run, lines, infos, segs[a]).already
  {
    var segs := Runs(SegmentModes(infos));
    var results := Results(run, lines, infos, segs);
    AllAlreadyUpToAll(results, |segs|);
    assert forall a :: 0 <= a < |segs| ==> results[a] == SegmentResult(run, lines, infos, segs[a]);
  }

  /**
   * The mixed verdict: the run is already commented iff every line passes
   * `detect`, the detection of its own mode with its own descriptor.
   */
  lemma RunVerdict<L(!new)>(run: Runner<L>, detect: (L, CommentInfo) -> bool, remove: (L, CommentInfo) -> L,
                   lines: seq<L>, infos: seq<CommentInfo>)
    requires Sound(run, detect, remove) && |infos| == |lines|
    ensures Run(run, lines, infos).already <==> forall j :: 0 <= j < |lines| ==> detect(lines[j], infos[j])
  {
    RunAlready(run, lines, infos);
    if |lines| == 0 {
      SegmentSound(run, detect, remove, lines, infos, Segment(0, 0, Line));
    } else {
      var segs := Runs(SegmentModes(infos));
      forall a | 0 <= a < |segs|
        ensures SegmentResult(run, lines, infos, segs[a]).already <==> forall j :: segs[a].start <= j < segs[a].end ==> detect(lines[j], infos[j])
      {
        SegmentSoundAt(run, detect, remove, lines, infos, a);
      }
      RunsDetected(detect, lines, infos);
    }
  }

  /** Line `j` of an already commented mixed run is `remove` of the line. */
  lemma LineRemoved<L(!new)>(run: Runner<L>, detect: (L, CommentInfo) -> bool, remove: (L, CommentInfo) -> L,
                    lines: seq<L>, infos: seq<CommentInfo>, j: nat)
    requires Sound(run, detect, remove) && |infos| == |lines| && j < |lines| && Run(run, lines, infos).already
    ensures Run(run, lines, infos).lines[j] == remove(lines[j], infos[j])
  {
    var a := SegmentOf(infos, j);
    RunAlready(run, lines, infos);
    RunAt(run, lines, infos, a, j);
    SegmentSoundAt(run, detect, remove, lines, infos, a);
  }

  /** When the whole mixed run is already commented, every line is `remove` of it. */
  lemma RunUncomment<L(!new)>(run: Runner<L>, detect: (L, CommentInfo) -> bool, remove: (L, CommentInfo) -> L,
                     lines: seq<L>, infos: seq<CommentInfo>)
    requires Sound(run, detect, remove) && |infos| == |lines| && Run(run, lines, infos).already
    ensures forall j :: 0 <= j < |lines| ==> Run(run, lines, infos).lines[j] == remove(lines[j], infos[j])
  {
    forall j | 0 <= j < |lines| ensures Run(run, lines, infos).lines[j] == remove(lines[j], infos[j]) {
      LineRemoved(run, detect, remove, lines, infos, j);
    }
  }

  /** A group whose descriptors are all of one mode is one segment, so the mixed run is the uniform run. */
  lemma RunUniform<L(!new)>(run: Runner<L>, lines: seq<L>, infos: seq<CommentInfo>, m: Mode)
    requires Keeps(run) && |infos| == |lines| > 0 && AllMode(infos, m)
    ensures Run(run, lines, infos) == run(m, lines, infos)
  {
    var modes := SegmentModes(infos);
    RunsUniform(modes, m);
    var segs := Runs(modes);
    var results := Results(run, lines, infos, segs);
    assert segs == [Segment(0, |lines|, m)];
    assert results[0] == run(m, lines, infos) by {
      assert lines[0..|lines|] == lines && infos[0..|infos|] == infos;
    }
    assert Output(lines, segs, results) == results[0].lines;
    assert AllAlreadyUpTo(results, 1) == results[0].already;
  }
}
