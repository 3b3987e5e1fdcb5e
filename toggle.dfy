/**
 * The entry point: a uniform run in one mode, the mixed run that toggles
 * every maximal same-mode segment on its own slice, and `toggleLines`,
 * which picks one of them by policy and reports a single action.
 */
module Toggle {
  import opened Text
  import opened Types
  import opened Indent
  import opened LineComment
  import opened BlockComment
  import opened Segments
  import opened Mixed

  /** `runUniformMode`: the whole group in one mode, keeping the lines' count. */
  function RunUniformMode(mode: Mode, lines: seq<string>, infos: seq<CommentInfo>): (r: RunResult<string>)
    requires |infos| == |lines|
    ensures |r.lines| == |lines|
  {
    if mode == Block then RunBlockMode(lines, infos) else RunLineMode(lines, infos)
  }

  /** The detection a line faces inside a mixed run: its own mode's predicate with its own descriptor. */
  predicate Detected(line: string, info: CommentInfo) {
    if info.mode == Block then IsBlockCommented(line, info) else IsLineCommented(line, info)
  }

  /** The removal a line gets inside a mixed run when its segment is already commented. */
  function Removed(line: string, info: CommentInfo): string {
    if info.mode == Block then RemoveBlockComment(line, info) else RemoveLineComment(line, info)
  }

  /**
   * A uniform run over descriptors that all carry its mode is already
   * commented iff every line passes its own mode's detection.
   */
  lemma UniformVerdict(mode: Mode, lines: seq<string>, infos: seq<CommentInfo>)
    requires |infos| == |lines| && AllMode(infos, mode)
    ensures RunUniformMode(mode, lines, infos).already <==> forall i :: 0 <= i < |lines| ==> Detected(lines[i], infos[i])
  {
    if mode == Block {
      BlockTagged(infos);
    }
  }

  /** When such a uniform run is already commented, every line has its comment removed in its own mode. */
  lemma UniformRemoved(mode: Mode, lines: seq<string>, infos: seq<CommentInfo>)
    requires |infos| == |lines| && AllMode(infos, mode)
    requires RunUniformMode(mode, lines, infos).already
    ensures forall i :: 0 <= i < |lines| ==> RunUniformMode(mode, lines, infos).lines[i] == Removed(lines[i], infos[i])
  {
    if mode == Block {
      BlockTagged(infos);
    }
  }

  /** `runUniformMode` accepts every group with one descriptor per line and keeps its length. */
  lemma UniformKeeps()
    ensures Keeps(RunUniformMode)
  {
  }

  /** `runUniformMode` is a sound runner for the mixed run, with Detected and Removed as its line-by-line behaviour. */
  lemma UniformSound()
    ensures Sound(RunUniformMode, Detected, Removed)
  {
    UniformKeeps();
    forall m, lines, infos | |infos| == |lines| && AllMode(infos, m)
      ensures SoundOn(RunUniformMode, Detected, Removed, m, lines, infos)
    {
      UniformVerdict(m, lines, infos);
      if RunUniformMode(m, lines, infos).already {
        UniformRemoved(m, lines, infos);
      }
    }
  }

  /** The specification of `runMixedMode`: the mixed run with `runUniformMode` toggling each segment. */
  function MixedRun(lines: seq<string>, infos: seq<CommentInfo>): (r: RunResult<string>)
    requires |infos| == |lines|
    ensures |r.lines| == |lines|
  {
    UniformKeeps();
    Run(RunUniformMode, lines, infos)
  }

  /** `runMixedMode`: the lines cut into segments, then each segment toggled and written into a copy of the lines. */
  method RunMixedMode(lines: seq<string>, infos: seq<CommentInfo>) returns (r: RunResult<string>)
    requires |infos| == |lines|
    ensures r == MixedRun(lines, infos)
  {
    UniformKeeps();
    var segments := CutSegments(SegmentModes(infos));
    var output := new string[|lines|](i requires 0 <= i < |lines| => lines[i]);
    var allAlready := ToggleSegments(RunUniformMode, lines, infos, segments, output);
    r := RunResult(output[..], allAlready);
  }

  /**
   * The mixed verdict: the run is already commented, and the action is
   * "uncomment", iff every line passes its own mode's detection.
   */
  lemma MixedVerdict(lines: seq<string>, infos: seq<CommentInfo>)
    requires |infos| == |lines|
    ensures MixedRun(lines, infos).already <==> forall j :: 0 <= j < |lines| ==> Detected(lines[j], infos[j])
  {
    UniformSound();
    RunVerdict(RunUniformMode, Detected, Removed, lines, infos);
  }

  /** When the whole mixed run is already commented, every line has its comment removed in its own mode. */
  lemma MixedUncomment(lines: seq<string>, infos: seq<CommentInfo>)
    requires |infos| == |lines| && MixedRun(lines, infos).already
    ensures forall j :: 0 <= j < |lines| ==> MixedRun(lines, infos).lines[j] == Removed(lines[j], infos[j])
  {
    UniformSound();
    RunUncomment(RunUniformMode, Detected, Removed, lines, infos);
  }

  /** A group whose descriptors are all of one mode is one segment, so the mixed run is the uniform run. */
  lemma MixedUniform(lines: seq<string>, infos: seq<CommentInfo>, m: Mode)
    requires |infos| == |lines| > 0 && AllMode(infos, m)
    ensures MixedRun(lines, infos) == RunUniformMode(m, lines, infos)
  {
    UniformKeeps();
    RunUniform(RunUniformMode, lines, infos, m);
  }

  /**
   * `toggleLines`: an empty group is returned as it is with action
   * "comment"; otherwise the policy, mixed when none is given, picks the
   * mixed run or a uniform run in line or block mode. `preferred` is never
   * read.
   */
  function Toggle(lines: seq<string>, infos: seq<CommentInfo>, preferred: Mode, policy: Policy := PolicyMixed): (r: ToggleResult)
    requires |infos| == |lines|
    ensures |r.lines| == |lines|
    ensures lines == [] ==> r == ToggleResult(lines, Comment)
  {
    if |lines| == 0 then ToggleResult(lines, Comment)
    else
      var result :=
        if policy == PolicyMixed then MixedRun(lines, infos)
        else RunUniformMode(if policy == PolicyBlock then Block else Line, lines, infos);
      ToggleResult(result.lines, if result.already then Uncomment else Comment)
  }

  /** `toggleLines` with the mixed run computed by its loops. */
  method ToggleLines(lines: seq<string>, infos: seq<CommentInfo>, preferred: Mode, policy: Policy := PolicyMixed) returns (r: ToggleResult)
    requires |infos| == |lines|
    ensures r == Toggle(lines, infos, preferred, policy)
  {
    if |lines| == 0 {
      return ToggleResult(lines, Comment);
    }
    var result: RunResult<string>;
    if policy == PolicyMixed {
      result := RunMixedMode(lines, infos);
    } else {
      result := RunUniformMode(if policy == PolicyBlock then Block else Line, lines, infos);
    }
    r := ToggleResult(result.lines, if result.already then Uncomment else Comment);
  }

  /** What "already commented" means under each policy. */
  predicate AlreadyCommented(lines: seq<string>, infos: seq<CommentInfo>, policy: Policy)
    requires |infos| == |lines|
  {
    match policy
    case PolicyMixed => forall j :: 0 <= j < |lines| ==> Detected(lines[j], infos[j])
    case PolicyLine => forall j :: 0 <= j < |lines| ==> IsLineCommented(lines[j], infos[j])
    case PolicyBlock => forall j :: 0 <= j < |lines| ==> IsBlockCommented(lines[j], BlockInfos(infos)[j])
  }

  /** The action is "uncomment" iff the group is non-empty and every line is already commented under the policy. */
  lemma ToggleVerdict(lines: seq<string>, infos: seq<CommentInfo>, preferred: Mode, policy: Policy)
    requires |infos| == |lines|
    ensures Toggle(lines, infos, preferred, policy).action == Uncomment
      <==> |lines| > 0 && AlreadyCommented(lines, infos, policy)
  {
    if |lines| > 0 && policy == PolicyMixed {
      MixedVerdict(lines, infos);
    }
  }

  /** The result does not depend on `preferred`. */
  lemma TogglePreferredUnused(lines: seq<string>, infos: seq<CommentInfo>, policy: Policy)
    requires |infos| == |lines|
    ensures Toggle(lines, infos, Line, policy) == Toggle(lines, infos, Block, policy)
  {
  }

  /**
   * The line round trip: a non-empty group with Line-tagged descriptors of
   * clean prefixes that is not fully commented is commented by one toggle,
   * and a second toggle gives the original lines back with action
   * "uncomment". This holds under the line and the mixed policy.
   */
  lemma LineRoundTrip(lines: seq<string>, infos: seq<CommentInfo>, preferred: Mode, policy: Policy)
    requires |infos| == |lines| > 0 && policy != PolicyBlock
    requires forall i :: 0 <= i < |infos| ==> infos[i].mode == Line && CleanPrefix(infos[i].prefix)
    requires !AlreadyCommented(lines, infos, PolicyLine)
    ensures var once := Toggle(lines, infos, preferred, policy);
      once.action == Comment && Toggle(once.lines, infos, preferred, policy) == ToggleResult(lines, Uncomment)
  {
    LineToggleOnce(lines, infos, preferred, policy);
    LineToggleTwice(lines, infos, preferred, policy);
  }

  /** The first toggle of a Line-tagged group that is not fully commented comments every line at the shared indent. */
  lemma LineToggleOnce(lines: seq<string>, infos: seq<CommentInfo>, preferred: Mode, policy: Policy)
    requires |infos| == |lines| > 0 && policy != PolicyBlock
    requires forall i :: 0 <= i < |infos| ==> infos[i].mode == Line
    requires !AlreadyCommented(lines, infos, PolicyLine)
    ensures Toggle(lines, infos, preferred, policy) == ToggleResult(AlignLineComments(lines, infos), Comment)
  {
    if policy == PolicyMixed {
      MixedUniform(lines, infos, Line);
    }
  }

  /** The second toggle of a commented group with clean Line-tagged descriptors gives the lines back with action "uncomment". */
  lemma LineToggleTwice(lines: seq<string>, infos: seq<CommentInfo>, preferred: Mode, policy: Policy)
    requires |infos| == |lines| > 0 && policy != PolicyBlock
    requires forall i :: 0 <= i < |infos| ==> infos[i].mode == Line && CleanPrefix(infos[i].prefix)
    ensures Toggle(AlignLineComments(lines, infos), infos, preferred, policy) == ToggleResult(lines, Uncomment)
  {
    if policy == PolicyMixed {
      MixedUniform(AlignLineComments(lines, infos), infos, Line);
    }
    LineGroupRoundTrip(lines, infos);
  }

  /** The first toggle of an uncommented Block-tagged group wraps every line. */
  lemma BlockToggleOnce(lines: seq<string>, infos: seq<CommentInfo>, preferred: Mode, policy: Policy)
    requires |infos| == |lines| > 0 && policy != PolicyLine
    requires forall i :: 0 <= i < |infos| ==> infos[i].mode == Block
    requires !AlreadyCommented(lines, infos, PolicyBlock)
    ensures Toggle(lines, infos, preferred, policy) == ToggleResult(AddBlockComments(lines, infos), Comment)
  {
    BlockTagged(infos);
    var run := RunBlockMode(lines, infos);
    assert !run.already && run.lines == AddBlockComments(lines, infos);
    assert RunUniformMode(Block, lines, infos) == run;
    if policy == PolicyMixed {
      MixedUniform(lines, infos, Block);
    }
  }

  /** The second toggle of a wrapped Block-tagged group unwraps it with action "uncomment". */
  lemma BlockToggleTwice(lines: seq<string>, infos: seq<CommentInfo>, preferred: Mode, policy: Policy)
    requires |infos| == |lines| > 0 && policy != PolicyLine
    requires forall i :: 0 <= i < |infos| ==> infos[i].mode == Block && CleanBlock(infos[i])
    ensures var once := AddBlockComments(lines, infos);
      Toggle(once, infos, preferred, policy) == ToggleResult(RunBlockMode(once, infos).lines, Uncomment)
  {
    BlockTagged(infos);
    if policy == PolicyMixed {
      MixedUniform(AddBlockComments(lines, infos), infos, Block);
    }
    BlockGroupRoundTrip(lines, infos);
  }

  /**
   * Block comment then uncomment: a non-empty group with Block-tagged clean
   * descriptors that is not fully wrapped is wrapped by one toggle, and a
   * second toggle unwraps it with action "uncomment" — but each line comes
   * back as the shared indentation followed by its trimmed rest, so any
   * indentation beyond the shared one, and trailing whitespace, are lost.
   */
  lemma BlockCommentThenUncomment(lines: seq<string>, infos: seq<CommentInfo>, preferred: Mode, policy: Policy)
    requires |infos| == |lines| > 0 && policy != PolicyLine
    requires forall i :: 0 <= i < |infos| ==> infos[i].mode == Block && CleanBlock(infos[i])
    requires !AlreadyCommented(lines, infos, PolicyBlock)
    ensures var once := Toggle(lines, infos, preferred, policy);
      var twice := Toggle(once.lines, infos, preferred, policy);
      once.action == Comment && twice.action == Uncomment && |twice.lines| == |lines|
      && forall i :: 0 <= i < |lines| ==> twice.lines[i] == SharedIndent(lines) + Trim(Rests(lines)[i])
  {
    BlockToggleOnce(lines, infos, preferred, policy);
    BlockToggleTwice(lines, infos, preferred, policy);
    BlockGroupRoundTrip(lines, infos);
  }
}
