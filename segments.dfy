/**
 * Mixed-mode segmentation: the per-line modes of a group cut into maximal
 * runs of equal mode, each run a half-open range of line indices.
 */
module Segments {
  import opened Types

  datatype Segment = Segment(start: nat, end: nat, mode: Mode)

  /** `segmentModes`: each descriptor's mode, Block staying Block and everything else Line. */
  function SegmentModes(infos: seq<CommentInfo>): (r: seq<Mode>)
    ensures |r| == |infos|
    ensures forall i {:trigger r[i]} :: 0 <= i < |infos| ==> (r[i] == Block <==> infos[i].mode == Block)
  {
    seq(|infos|, i requires 0 <= i < |infos| => if infos[i].mode == Block then Block else Line)
  }

  /** Every segment is a range inside `[0, n]`. */
  predicate InBounds(segs: seq<Segment>, n: nat) {
    forall a :: 0 <= a < |segs| ==> segs[a].start <= segs[a].end <= n
  }

  /**
   * The segmentation loop from position `idx`, with the current run open
   * since `start` in mode `current`: a run is closed at every change of mode
   * and once more at the end.
   */
  function RunsFrom(modes: seq<Mode>, idx: nat, start: nat, current: Mode): (r: seq<Segment>)
    requires start < idx <= |modes|
    ensures |r| > 0 && InBounds(r, |modes|)
    decreases |modes| - idx
  {
    if idx == |modes| then [Segment(start, idx, current)]
    else if modes[idx] != current then [Segment(start, idx, current)] + RunsFrom(modes, idx + 1, idx, modes[idx])
    else RunsFrom(modes, idx + 1, start, current)
  }

  /** The segments `runMixedMode` builds; an empty group gives one empty Line segment. */
  function Runs(modes: seq<Mode>): (r: seq<Segment>)
    ensures |r| > 0 && InBounds(r, |modes|)
    ensures |modes| == 0 ==> r == [Segment(0, 0, Line)]
  {
    if |modes| == 0 then [Segment(0, 0, Line)]
    else RunsFrom(modes, 1, 0, modes[0])
  }

  /**
   * `segs` cuts `[from, |modes|)` into maximal runs: each segment non-empty
   * and of one mode, each starting where the previous one ends, with
   * neighbours of different modes.
   */
  ghost predicate IsRunsFrom(modes: seq<Mode>, segs: seq<Segment>, from: nat) {
    && |segs| > 0
    && segs[0].start == from
    && segs[|segs| - 1].end == |modes|
    && (forall a :: 0 <= a < |segs| ==> segs[a].start < segs[a].end <= |modes|)
    && (forall a, b :: 0 <= a < b < |segs| && b == a + 1 ==> segs[a].end == segs[b].start && segs[a].mode != segs[b].mode)
    && (forall a, k :: 0 <= a < |segs| && segs[a].start <= k < segs[a].end ==> modes[k] == segs[a].mode)
  }

  ghost predicate IsRuns(modes: seq<Mode>, segs: seq<Segment>) {
    IsRunsFrom(modes, segs, 0)
  }

  /** The loop closes runs correctly: from a uniform open run it produces maximal runs of the rest. */
  lemma {:induction false} RunsFromAreRuns(modes: seq<Mode>, idx: nat, start: nat, current: Mode)
    requires start < idx <= |modes|
    requires forall k :: start <= k < idx ==> modes[k] == current
    ensures var r := RunsFrom(modes, idx, start, current);
      IsRunsFrom(modes, r, start) && r[0].mode == current
    decreases |modes| - idx
  {
    if idx == |modes| {
    } else if modes[idx] != current {
      RunsFromAreRuns(modes, idx + 1, idx, modes[idx]);
      ConsRun(modes, Segment(start, idx, current), RunsFrom(modes, idx + 1, idx, modes[idx]));
    } else {
      RunsFromAreRuns(modes, idx + 1, start, current);
    }
  }

  /** A uniform run put in front of a cut of the rest, with a different mode from its first segment. */
  lemma ConsRun(modes: seq<Mode>, s0: Segment, tail: seq<Segment>)
    requires IsRunsFrom(modes, tail, s0.end) && s0.start < s0.end && tail[0].mode != s0.mode
    requires forall k :: s0.start <= k < s0.end ==> modes[k] == s0.mode
    ensures IsRunsFrom(modes, [s0] + tail, s0.start)
  {
    var r := [s0] + tail;
    assert r[|r| - 1] == tail[|tail| - 1];
    ConsBounds(|modes|, s0, tail);
    ConsNeighbours(s0, tail);
    ConsUniform(modes, s0, tail);
  }

  lemma ConsBounds(n: nat, s0: Segment, tail: seq<Segment>)
    requires s0.start < s0.end <= n
    requires forall a :: 0 <= a < |tail| ==> tail[a].start < tail[a].end <= n
    ensures var r := [s0] + tail; forall a :: 0 <= a < |r| ==> r[a].start < r[a].end <= n
  {
    var r := [s0] + tail;
    forall a | 0 <= a < |r| ensures r[a].start < r[a].end <= n {
      if a > 0 { assert r[a] == tail[a - 1]; }
    }
  }

  lemma ConsNeighbours(s0: Segment, tail: seq<Segment>)
    requires |tail| > 0 && s0.end == tail[0].start && s0.mode != tail[0].mode
    requires forall a, b :: 0 <= a < b < |tail| && b == a + 1 ==> tail[a].end == tail[b].start && tail[a].mode != tail[b].mode
    ensures var r := [s0] + tail;
      forall a, b :: 0 <= a < b < |r| && b == a + 1 ==> r[a].end == r[b].start && r[a].mode != r[b].mode
  {
    var r := [s0] + tail;
    forall a, b | 0 <= a < b < |r| && b == a + 1 ensures r[a].end == r[b].start && r[a].mode != r[b].mode {
      if a > 0 { assert r[a] == tail[a - 1] && r[b] == tail[a]; }
    }
  }

  lemma ConsUniform(modes: seq<Mode>, s0: Segment, tail: seq<Segment>)
    requires forall k :: s0.start <= k < s0.end && k < |modes| ==> modes[k] == s0.mode
    requires forall a, k :: 0 <= a < |tail| && tail[a].start <= k < tail[a].end && k < |modes| ==> modes[k] == tail[a].mode
    ensures var r := [s0] + tail;
      forall a, k :: 0 <= a < |r| && r[a].start <= k < r[a].end && k < |modes| ==> modes[k] == r[a].mode
  {
    var r := [s0] + tail;
    forall a, k | 0 <= a < |r| && r[a].start <= k < r[a].end && k < |modes| ensures modes[k] == r[a].mode {
      if a > 0 { assert r[a] == tail[a - 1]; }
    }
  }

  /** A non-empty group is cut into maximal runs of equal mode. */
  lemma RunsAreRuns(modes: seq<Mode>)
    requires |modes| > 0
    ensures IsRuns(modes, Runs(modes))
  {
    RunsFromAreRuns(modes, 1, 0, modes[0]);
  }

  /** Segments of a cut are ordered: an earlier one ends before a later one starts. */
  lemma {:induction false} RunsOrdered(modes: seq<Mode>, segs: seq<Segment>, from: nat, a: nat, b: nat)
    requires IsRunsFrom(modes, segs, from) && a < b < |segs|
    ensures segs[a].end <= segs[b].start
    decreases b - a
  {
    assert segs[a].end == segs[a + 1].start;
    if a + 1 < b {
      RunsOrdered(modes, segs, from, a + 1, b);
    }
  }

  /** Every position of the range lies in exactly one segment. */
  lemma RunsCover(modes: seq<Mode>, segs: seq<Segment>, from: nat, k: nat) returns (a: nat)
    requires IsRunsFrom(modes, segs, from) && from <= k < |modes|
    ensures a < |segs| && segs[a].start <= k < segs[a].end
    ensures forall b :: 0 <= b < |segs| && segs[b].start <= k < segs[b].end ==> b == a
  {
    a := 0;
    while segs[a].end <= k
      invariant a < |segs| && segs[a].start <= k
      decreases |segs| - a
    {
      a := a + 1;
    }
    forall b | 0 <= b < |segs| && segs[b].start <= k < segs[b].end
      ensures b == a
    {
      if b < a {
        RunsOrdered(modes, segs, from, b, a);
      } else if a < b {
        RunsOrdered(modes, segs, from, a, b);
      }
    }
  }

  /** A group whose lines are all of mode `m` is one segment. */
  lemma RunsUniform(modes: seq<Mode>, m: Mode)
    requires |modes| > 0
    requires forall k :: 0 <= k < |modes| ==> modes[k] == m
    ensures Runs(modes) == [Segment(0, |modes|, m)]
  {
    RunsFromUniform(modes, 1, m);
  }

  lemma {:induction false} RunsFromUniform(modes: seq<Mode>, idx: nat, m: Mode)
    requires 0 < idx <= |modes|
    requires forall k :: 0 <= k < |modes| ==> modes[k] == m
    ensures RunsFrom(modes, idx, 0, m) == [Segment(0, |modes|, m)]
    decreases |modes| - idx
  {
    if idx < |modes| {
      RunsFromUniform(modes, idx + 1, m);
    }
  }
}
