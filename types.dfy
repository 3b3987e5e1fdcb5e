/**
 * The entities exchanged with the toggle core: one comment descriptor per
 * line, the result of one toggle, and the caller's mixed-mode policy.
 */
module Types {

  datatype Option<T> = None | Some(value: T)

  /** Which comment syntax a descriptor describes. */
  datatype Mode = Line | Block

  /**
   * A comment descriptor as the commentstring resolver returns it. `source`
   * is a provenance label and `resolvable` an optional flag: `None` stands
   * for a property that is absent (`undefined`).
   */
  datatype CommentInfo = CommentInfo(
    mode: Mode,
    prefix: string,
    suffix: string,
    source: Option<string>,
    resolvable: Option<bool>)

  datatype Action = Comment | Uncomment

  /** The lines to write back and one verdict for the whole call. */
  datatype ToggleResult = ToggleResult(lines: seq<string>, action: Action)

  /** What one uniform run returns: new lines, and whether it was already commented. */
  datatype RunResult<L> = RunResult(lines: seq<L>, already: bool)

  /** `'line' | 'block' | 'mixed'` */
  datatype Policy = PolicyLine | PolicyBlock | PolicyMixed

  /** The first descriptor tagged with mode `m`, if any. */
  function FirstWithMode(infos: seq<CommentInfo>, m: Mode): (r: Option<CommentInfo>)
    ensures r.None? <==> forall j :: 0 <= j < |infos| ==> infos[j].mode != m
    ensures r.Some? ==> exists j :: (0 <= j < |infos| && infos[j] == r.value
                                     && infos[j].mode == m && forall i :: 0 <= i < j ==> infos[i].mode != m)
  {
    FirstWithModeFrom(infos, m, 0)
  }

  /** The search from position `k` on. */
  function FirstWithModeFrom(infos: seq<CommentInfo>, m: Mode, k: nat): (r: Option<CommentInfo>)
    requires k <= |infos|
    ensures r.None? <==> forall j :: k <= j < |infos| ==> infos[j].mode != m
    ensures r.Some? ==> exists j :: (k <= j < |infos| && infos[j] == r.value
                                     && infos[j].mode == m && forall i :: k <= i < j ==> infos[i].mode != m)
    decreases |infos| - k
  {
    if k == |infos| then None
    else if infos[k].mode == m then Some(infos[k])
    else FirstWithModeFrom(infos, m, k + 1)
  }
}
