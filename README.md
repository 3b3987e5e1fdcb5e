# cmt.nvim comment toggling, modelled in Dafny

cmt.nvim is a Neovim plugin that comments and uncomments a range of lines.
Its core is `toggleLines(lines, infos, preferred, mixedPolicy)` in
`denops/cmt/core/line_toggle.ts`. It takes:

- the lines;
- one comment descriptor per line: mode `line` or `block`, `prefix`, `suffix`,
  an optional `source` and an optional `resolvable` flag;
- a policy: `line`, `block` or `mixed`.

It returns the new lines and one action, `comment` or `uncomment`. Around
the core, `denops/cmt/main.ts` adds a few pure steps. It numbers the lines
of the requested range and computes the column handed to the commentstring
resolver. It decides whether the resolver's answers force a fallback, and
clamps the range. It normalises the policy and builds the leader typed by
the open-comment command.

The modules follow the structure of the program:

- `Text`: the JavaScript string primitives the core relies on.
  - The whitespace set shared by `\s`, `\S`, `trim`, `trimStart` and
    `trimEnd` (ECMAScript WhiteSpace and LineTerminator).
  - `indexOf`, `slice` with a negative end, and `" ".repeat`.
- `Indent`: `stripIndent` and `longestCommonIndent`.
  - The latter and its inner scan are methods with loops.
  - They are proved equal to `CommonIndent`, a fold of `CommonPrefix`, which
    is shown to be the longest common prefix.
- `Width`: `displayWidth`.
- `LineComment`: detection, removal and aligned adding of line comments, and
  `runLineMode`.
- `BlockComment`: detection and removal of a block wrapper, `addBlockComments`
  with its padding to a common closing column, and `runBlockMode`.
- `Segments`: `segmentModes` and the cut of a group into maximal runs of one
  mode.
- `Mixed`: `runMixedMode`, written over the uniform runner it applies to each
  segment.
  - The segmentation loop, the loop over segments and the copy loop into the
    output array are methods.
  - They are proved equal to the specification `Mixed.Run`.
  - The properties of the mixed run are proved for any runner that keeps the
    line count and that decides and removes line by line on a group of one
    mode (`Mixed.Sound`).
- `Toggle`: `runUniformMode`, shown to be such a runner; the mixed run it
  gives (`MixedRun`, computed by the method `RunMixedMode`); and
  `toggleLines` itself with its round trips.
- `Host`: the pure helpers of `main.ts`. `enumerate` is a counting loop proved
  against `Range`.

Strings are sequences of code points. One run's result (`RunResult`) is
generic over the line type only so that `Mixed` can state its theory once.
The plugin itself only uses strings.

## Model

| member | source | states |
|---|---|---|
| Text.LeadingWs | denops/cmt/core/line_toggle.ts:22 | the length of the `^\s*` match: every code point before it is whitespace and the next one is not |
| Text.IndexFrom | denops/cmt/core/line_toggle.ts:60 | `indexOf` from `k`: the first position where the needle occurs, or -1 exactly when it occurs nowhere after `k` |
| Text.SliceTo | denops/cmt/core/line_toggle.ts:91 | `slice(0, end)` gives a prefix whose length is `end`, or `|s| + end` clamped at 0 for a negative end |
| Text.TrimStart | denops/cmt/core/line_toggle.ts:46 | `trimStart` leaves no whitespace at the front and is no longer than the text; that it is the suffix after the leading whitespace is `TrimStartShape` |
| Text.TrimEnd | denops/cmt/core/line_toggle.ts:50 | `trimEnd` gives a prefix of the text with no whitespace at its end; that what it drops is all whitespace is `TrimEndShape` |
| Text.TrimStartShape | denops/cmt/core/line_toggle.ts:46 | exactly the leading whitespace run (as long as `LeadingWs` says) is dropped |
| Text.TrimEndShape | denops/cmt/core/line_toggle.ts:50 | exactly the trailing whitespace run (as long as `TrailingWs` says) is dropped |
| Text.Trim | denops/cmt/core/line_toggle.ts:81 | `trim` leaves whitespace at neither end; that it is the middle of the text is `TrimShape` |
| Text.TrimShape | denops/cmt/core/line_toggle.ts:81 | `trim` keeps the contiguous middle that starts where the leading whitespace ends, with only whitespace on either side of it |
| Text.Pad | denops/cmt/core/line_toggle.ts:75 | the pad before a rest is one space exactly when something follows, and nothing for an empty rest |
| Text.TrimAround | denops/cmt/core/line_toggle.ts:91 | whitespace on either side of a text does not change its `trim` |
| Indent.StripIndent | denops/cmt/core/line_toggle.ts:21-25 | indent and body put back together give the line; the indent is all whitespace and the body does not start with whitespace |
| Indent.StripIndentUnique | denops/cmt/core/line_toggle.ts:21-25 | those three properties determine the split |
| Indent.CommonPrefix | denops/cmt/core/line_toggle.ts:34-39 | a common prefix of both strings that ends where they differ or one of them ends |
| Indent.CommonPrefixLongest | denops/cmt/core/line_toggle.ts:34-39 | every common prefix of the two strings is a prefix of it |
| Indent.CommonLength | denops/cmt/core/line_toggle.ts:34-38 | the inner scan returns the length of the longest common prefix |
| Indent.CommonIndent | denops/cmt/core/line_toggle.ts:27-42 | a prefix of every indent, and empty for no indents |
| Indent.CommonIndentLongest | denops/cmt/core/line_toggle.ts:27-42 | no common prefix of a non-empty list is longer than it |
| Indent.CommonIndentEmptyStays | denops/cmt/core/line_toggle.ts:32 | once the running prefix is empty it stays empty, so the early loop exit changes nothing |
| Indent.LongestCommonIndent | denops/cmt/core/line_toggle.ts:27-42 | the loop returns exactly the longest common prefix of all indents |
| Indent.SharedIndent | denops/cmt/core/line_toggle.ts:70 | all whitespace, and a prefix of every line's indent and of every line |
| Indent.Rests | denops/cmt/core/line_toggle.ts:74 | the shared indent followed by line `i`'s rest is line `i` |
| Width.DisplayWidth | denops/cmt/core/line_toggle.ts:16-19 | between the number of code points and twice that |
| Width.DisplayWidthConcat | denops/cmt/core/line_toggle.ts:16-19 | the width of a concatenation is the sum of the widths |
| Width.DisplayWidthLatin1 | denops/cmt/core/line_toggle.ts:18 | a string within Latin-1 is exactly as wide as it is long |
| Width.DisplayWidthWide | denops/cmt/core/line_toggle.ts:18 | a string with a code point above 0xFF is wider than it is long |
| Types.FirstWithMode | denops/cmt/core/line_toggle.ts:71 | `find` by mode: none iff no descriptor has the mode, else the first one that has it |
| LineComment.IsLineCommented | denops/cmt/core/line_toggle.ts:44-52 | true iff the line is not blank and, after its leading whitespace, starts with the right-trimmed prefix; a blank line never is |
| LineComment.RemoveLineComment | denops/cmt/core/line_toggle.ts:54-66 | when the body starts with the right-trimmed prefix: the indent, then what follows the prefix less one leading space; otherwise the line unchanged |
| LineComment.RemoveLineCommentShape | denops/cmt/core/line_toggle.ts:54-66 | a removal only takes away the prefix and at most one space right after the indent |
| LineComment.DropOneSpace | denops/cmt/core/line_toggle.ts:62-64 | drops exactly one leading space, and changes nothing iff there is none |
| LineComment.PrimaryLine | denops/cmt/core/line_toggle.ts:71 | the descriptor that `find` by Line returns when there is one, and this is the Line-tagged descriptor with no Line-tagged one before it; otherwise the first descriptor |
| LineComment.AddInfo | denops/cmt/core/line_toggle.ts:73 | a Line-tagged line uses its own descriptor, and every other line uses `PrimaryLine` of the group |
| LineComment.AfterPrefix | denops/cmt/core/line_toggle.ts:60-61 | in a body that starts with the prefix, the search finds the prefix at position 0, so what is kept is exactly the body after the prefix |
| LineComment.AlignLineComments | denops/cmt/core/line_toggle.ts:68-78 | every line: the shared indent, its descriptor's prefix, one space unless nothing follows, then its rest |
| LineComment.RunLineMode | denops/cmt/core/line_toggle.ts:116-122 | already iff every line is commented under its own descriptor; then every line has the comment removed, otherwise the group is aligned and commented |
| LineComment.LineAddThenRemove | denops/cmt/core/line_toggle.ts:54-76 | a line commented with a clean prefix is detected, and removal gives it back |
| LineComment.LineGroupRoundTrip | denops/cmt/core/line_toggle.ts:116-122 | a group with clean Line-tagged descriptors, once commented, is detected as commented and removal gives the original lines |
| BlockComment.RemoveBlockComment | denops/cmt/core/line_toggle.ts:85-94 | a line that is not wrapped is unchanged; a wrapped one keeps its leading whitespace |
| BlockComment.RemoveBlockCommentInner | denops/cmt/core/line_toggle.ts:85-94 | with non-overlapping markers: the trimmed line is prefix, inner text and suffix, and removal gives indent plus trimmed inner text |
| BlockComment.IsBlockCommented | denops/cmt/core/line_toggle.ts:80-83 | a wrapped line has a body (the line past its indentation) starting with the prefix, and its trimmed text is at least as long as each marker; an all-whitespace line counts as wrapped exactly when both markers are empty |
| BlockComment.PrimaryBlock | denops/cmt/core/line_toggle.ts:125 | the descriptor that `find` by Block returns when there is one, and this is the Block-tagged descriptor with no Block-tagged one before it; otherwise the first descriptor |
| BlockComment.BlockInfos | denops/cmt/core/line_toggle.ts:126 | Block-tagged descriptors are kept and every other one is replaced by the primary one |
| BlockComment.Widths | denops/cmt/core/line_toggle.ts:100 | one width per body, each its display width |
| BlockComment.MaxWidth | denops/cmt/core/line_toggle.ts:101 | an upper bound of the widths that is one of them, and 0 for none |
| BlockComment.BlockMaxWidth | denops/cmt/core/line_toggle.ts:99-101 | the width of the widest rest of the group |
| BlockComment.SuffixPad | denops/cmt/core/line_toggle.ts:106 | at least 1, and the distance to one past the widest body when the body is no wider |
| BlockComment.BlockLine | denops/cmt/core/line_toggle.ts:104-109 | a wrapped line never ends in whitespace |
| BlockComment.AddBlockComments | denops/cmt/core/line_toggle.ts:96-111 | every line wrapped against the group's shared indent and widest body |
| BlockComment.BlockLineSolid | denops/cmt/core/line_toggle.ts:104-109 | with a suffix ending in non-whitespace nothing is trimmed, and the pad reaches one column past the widest body |
| BlockComment.BlockSuffixesAligned | denops/cmt/core/line_toggle.ts:96-111 | non-empty lines with solid suffixes and equally wide prefixes have their suffix in the same display column |
| BlockComment.BlockLineColumnEmpty | denops/cmt/core/line_toggle.ts:104-109 | with an empty body there is no pad after the prefix, so the suffix starts at width(shared) + width(prefix) + maxWidth + 1 |
| BlockComment.BlockSuffixColumnBlank | denops/cmt/core/line_toggle.ts:96-111 | in a wrapped group, a line with an empty rest has its suffix one column left of the non-empty lines' suffixes |
| BlockComment.BlockWidestOneSpace | denops/cmt/core/line_toggle.ts:106-108 | the widest body is followed by exactly one space before its suffix |
| BlockComment.BlockAddThenRemove | denops/cmt/core/line_toggle.ts:80-94 | a wrapped line is detected as wrapped, and unwrapping gives its indent and trimmed body |
| BlockComment.BlockTagged | denops/cmt/core/line_toggle.ts:126 | with every descriptor Block-tagged, the effective descriptors are the descriptors |
| BlockComment.RunBlockMode | denops/cmt/core/line_toggle.ts:124-132 | already iff every line is wrapped under its effective descriptor; then every line is unwrapped, otherwise the group is wrapped |
| BlockComment.BlockGroupRoundTrip | denops/cmt/core/line_toggle.ts:124-132 | a wrapped group with clean Block-tagged descriptors is detected as wrapped, and each line unwraps to shared indent plus trimmed rest |
| Segments.SegmentModes | denops/cmt/core/line_toggle.ts:113-114 | one mode per descriptor: Block exactly where the descriptor is Block |
| Segments.Runs | denops/cmt/core/line_toggle.ts:138-150 | at least one segment, all inside the group; an empty group gives one empty Line segment |
| Segments.RunsAreRuns | denops/cmt/core/line_toggle.ts:138-150 | the segments of a non-empty group are non-empty, adjacent, of one mode each, with neighbours of different modes, from 0 to the end |
| Segments.RunsOrdered | denops/cmt/core/line_toggle.ts:138-150 | an earlier segment ends before a later one starts |
| Segments.RunsCover | denops/cmt/core/line_toggle.ts:138-150 | every line lies in exactly one segment |
| Segments.RunsUniform | denops/cmt/core/line_toggle.ts:138-150 | a group of one mode is one segment |
| Mixed.CutSegments | denops/cmt/core/line_toggle.ts:138-150 | the segmentation loop returns exactly the maximal runs |
| Mixed.WriteAt | denops/cmt/core/line_toggle.ts:158-160 | the copy loop writes the result over the output from the segment start and leaves every other line as it was |
| Mixed.ToggleSegment | denops/cmt/core/line_toggle.ts:154-162 | one pass of the segment loop advances the written output and the combined verdict by one segment |
| Mixed.ToggleSegments | denops/cmt/core/line_toggle.ts:152-164 | the segment loop leaves the output of the specification and the conjunction of the segments' verdicts |
| Mixed.WrittenAt | denops/cmt/core/line_toggle.ts:158-160 | a line covered by one segment and by no later one holds that segment's result |
| Mixed.AllAlreadyUpToAll | denops/cmt/core/line_toggle.ts:161 | `allAlready` is true iff every segment so far was already commented |
| Mixed.Run | denops/cmt/core/line_toggle.ts:137-165 | the specification of a mixed run: one output line per input line, and a verdict that is the conjunction of the segments' verdicts (its meaning is in `RunAt`, `RunVerdict` and `RunUncomment`) |
| Mixed.RunAt | denops/cmt/core/line_toggle.ts:152-164 | locality: each line of a mixed run holds what toggling its own segment alone gives |
| Mixed.SegmentSound | denops/cmt/core/line_toggle.ts:155-157 | a one-mode segment is already commented iff each of its lines is detected; then each line is removed |
| Mixed.RunAlready | denops/cmt/core/line_toggle.ts:161 | a mixed run is already commented iff every segment's run is |
| Mixed.RunVerdict | denops/cmt/core/line_toggle.ts:137-165 | for a sound runner: already commented iff every line passes its own detection |
| Mixed.RunUncomment | denops/cmt/core/line_toggle.ts:137-165 | for a sound runner whose run is already commented: every line is the removal of it |
| Mixed.RunUniform | denops/cmt/core/line_toggle.ts:137-165 | a non-empty group of one mode gives exactly the uniform run |
| Toggle.RunUniformMode | denops/cmt/core/line_toggle.ts:134-135 | block mode or line mode by the mode given, keeping the line count |
| Toggle.UniformVerdict | denops/cmt/core/line_toggle.ts:134-135 | on a group tagged with its mode: already iff each line passes its own mode's detection |
| Toggle.UniformRemoved | denops/cmt/core/line_toggle.ts:134-135 | on such a group, once already commented: each line has its own mode's comment removed |
| Toggle.UniformKeeps | denops/cmt/core/line_toggle.ts:134-135 | accepts any group with one descriptor per line and keeps its length |
| Toggle.UniformSound | denops/cmt/core/line_toggle.ts:134-135 | is a sound runner for the mixed run |
| Toggle.MixedRun | denops/cmt/core/line_toggle.ts:137-165 | the mixed run keeps the number of lines |
| Toggle.RunMixedMode | denops/cmt/core/line_toggle.ts:137-165 | the two loops over an array copy of the lines compute exactly the mixed run |
| Toggle.MixedVerdict | denops/cmt/core/line_toggle.ts:137-165 | already iff every line is commented in its own mode with its own descriptor |
| Toggle.MixedUncomment | denops/cmt/core/line_toggle.ts:154-162 | when already commented, every line has its own mode's comment removed |
| Toggle.MixedUniform | denops/cmt/core/line_toggle.ts:137-165 | a group of one mode is toggled exactly as in uniform mode |
| Toggle.Toggle | denops/cmt/core/line_toggle.ts:167-185 | keeps the line count; the empty group comes back unchanged with action "comment"; the policy is mixed when none is given |
| Toggle.ToggleLines | denops/cmt/core/line_toggle.ts:167-185 | the method, with the mixed run computed by its loops, gives exactly `Toggle` |
| Toggle.ToggleVerdict | denops/cmt/core/line_toggle.ts:173-184 | the action is "uncomment" iff the group is non-empty and every line is already commented under the policy |
| Toggle.TogglePreferredUnused | denops/cmt/core/line_toggle.ts:170 | the result does not depend on `preferred` |
| Toggle.LineToggleOnce | denops/cmt/core/line_toggle.ts:177-184 | the first toggle of an uncommented Line-tagged group comments it at the shared indent |
| Toggle.LineToggleTwice | denops/cmt/core/line_toggle.ts:177-184 | the second toggle gives the original lines back with action "uncomment" |
| Toggle.LineRoundTrip | denops/cmt/core/line_toggle.ts:167-185 | toggling twice under the line or mixed policy gives the original lines back, with actions "comment" then "uncomment" |
| Toggle.BlockToggleOnce | denops/cmt/core/line_toggle.ts:177-184 | the first toggle of an unwrapped Block-tagged group wraps every line |
| Toggle.BlockToggleTwice | denops/cmt/core/line_toggle.ts:177-184 | the second toggle unwraps it with action "uncomment" |
| Toggle.BlockCommentThenUncomment | denops/cmt/core/line_toggle.ts:167-185 | twice under the block or mixed policy gives "comment" then "uncomment", each line back as shared indent plus its trimmed rest |
| Host.Range | denops/cmt/main.ts:6-12 | the numbers from `start` to `finish` in ascending order, `finish - start + 1` of them, or none when `finish < start` |
| Host.Enumerate | denops/cmt/main.ts:6-12 | the counting loop returns exactly `Range(start, finish)` |
| Host.FirstColumn | denops/cmt/main.ts:14-20 | on a non-blank line the index of the first non-whitespace code point, with only whitespace before it; 0 on a blank line |
| Host.FirstColumnIndent | denops/cmt/main.ts:14-20 | on a non-blank line the first column is where `stripIndent`'s indent ends and `trimStart` begins |
| Host.LineOrEmpty | denops/cmt/main.ts:32 | a line past the end of those read counts as empty |
| Host.Locations | denops/cmt/main.ts:30-33 | one location per line number from start to end, consecutive, each at the first column of its line, or 0 past the lines read |
| Host.AnyUnresolvableFrom | denops/cmt/main.ts:43-44 | `some` over the suffix: true iff one descriptor there has `resolvable === false` |
| Host.NeedsFallback | denops/cmt/main.ts:43-44 | true iff some descriptor has `resolvable` set to false; an absent flag does not count |
| Host.FindUnresolvableFrom | denops/cmt/main.ts:46-47 | `find` over the suffix: none iff no descriptor is unresolvable, else the first such position |
| Host.FallbackReason | denops/cmt/main.ts:46-47 | the `source` of the first unresolvable descriptor, and nothing when there is none |
| Host.FallbackReasonFirst | denops/cmt/main.ts:46-47 | whenever a first unresolvable descriptor exists, a fallback is needed and its `source` is the reason |
| Host.OpenNeedsFallback | denops/cmt/main.ts:78-79 | the open-comment command falls back iff no descriptor came back or the first is not flagged resolvable, an absent flag included |
| Host.OpenFallbackReason | denops/cmt/main.ts:80 | the reason is the first descriptor's `source`, and nothing when no descriptor came back |
| Host.OpenFallbackStricter | denops/cmt/main.ts:79 | on one descriptor, whenever the toggle check falls back so does the open-comment check, which falls back alone exactly when the flag is absent |
| Host.Clamp | denops/cmt/main.ts:55-56 | start at least 1 and finish at least start, each the larger of its value and its bound |
| Host.ClampIdempotent | denops/cmt/main.ts:55-56 | a valid range is left alone, so clamping twice is clamping once |
| Host.ClampedRange | denops/cmt/main.ts:55-56 | a clamped range numbers at least one line, all of them positive |
| Host.NormalisePolicy | denops/cmt/main.ts:101-103 | `line` and `block` are kept; anything else, absent included, gives `mixed` |
| Host.NormalisePolicyName | denops/cmt/main.ts:101-103 | every policy sent by name comes back as itself |
| Host.Leader | denops/cmt/main.ts:86-87 | the prefix, followed by one space exactly when padding is on and the mode is Line |

## Left out

- Editor and host I/O: `fn.bufnr`, `getline`, `luaeval`, `nvim_buf_set_lines`,
  `nvim_feedkeys`, `getbufvar`, async/await and the dispatcher.
  - The commentstring resolver (`cmt.commentstring`, in Lua) is not part of
    this model. Its answers, the descriptors, are inputs.
  - The `cmt_eol_insert_pad_space` setting is the `padSpace` parameter of
    `Host.Leader`.
- `toggleRange` and `openCommentLine` are glue around I/O. Their pure steps
  are modelled separately: clamping, locations, the two fallback checks, the
  call of `toggleLines`, and the leader.
  - The two commands decide the fallback differently, and both are modelled.
    `toggleRange` uses `needsFallback` (main.ts line 63, `Host.NeedsFallback`),
    where an absent `resolvable` flag does not count. `openCommentLine` uses
    its own check (main.ts line 79, `Host.OpenNeedsFallback`), which falls
    back on an absent flag and on an empty answer.
  - The early exit for an empty read is not modelled.
  - The `info` message formatting is not modelled, being user-facing text.
- Descriptor count: every toggle function requires exactly one descriptor
  per line. The source accepts other counts, with these effects.
  - Fewer descriptors than lines:
    - `addBlockComments` reads `infos[idx]` without a fallback (line 103);
    - an empty `infos` makes `infos[0]` undefined;
    - mixed mode leaves the lines past the last descriptor as copied
      (line 152), because the segments only cover the descriptors.
  - More descriptors than lines. The buffer read (`getline`, main.ts line 58)
    can return fewer lines than the range, while the locations give one
    descriptor per line number (main.ts lines 30-33, `Host.Locations`).
    - `find` at lines 71 and 125 then searches the extra descriptors as well.
      For example, under the line policy the line `a` with the descriptors
      Block `/*` then Line `#` becomes `# a` in the source. With only the
      Block `/*` descriptor, which is all the model admits, it becomes `/* a`.
    - In mixed mode the extra descriptors form segments whose slices of
      lines are short or empty.

  So the fallbacks `infos[idx] ?? infos[0]` (lines 117, 119) and
  `blockInfos[idx] ?? primary` (127, 129) are never taken in the model.
  `Segments.Runs` does model the `modes[0] ?? "line"` fallback of line 141:
  an empty group gives one empty Line segment. `Toggle` never reaches it,
  because it returns early for an empty group (line 173). The fallback of
  line 143 is never taken, in the source or the model, because `idx` stays
  below `modes.length`.
- Unicode: `displayWidth` normalises to NFC first (line 17); the model
  assumes its input is already normalised.
  - Strings are sequences of code points, while JavaScript indexes UTF-16 code
    units. Lengths, `slice` positions and `firstColumn` agree only for text
    within the Basic Multilingual Plane.
  - `charCodeAt(0)` of a code point outside that plane is a surrogate above
    0xFF, and the model counts such a code point as wide too.
- Numbers are unbounded integers: line numbers, widths and columns have no
  floating-point or NaN behaviour, and `Math.max(...widths, 0)` has no
  argument-count limit.
- BlockComment.RemoveBlockComment: the contract describes the result only for
  non-overlapping markers (in `RemoveBlockCommentInner`). When the prefix and
  suffix overlap in the trimmed line, the body follows JavaScript's `slice`
  with a negative end, but no lemma states what comes out.
- Toggle.BlockCommentThenUncomment: the block round trip is not an identity,
  and none is claimed. Commenting and uncommenting gives each line as the
  shared indent followed by its trimmed rest, so extra relative indentation
  and trailing whitespace are lost.
- Blank lines in a block group are not aligned with the others. A line with
  an empty rest gets no pad after the prefix (line 104), so its suffix lands
  one display column left of the other lines' suffixes; for example the
  lines `ab`, an empty line and `c` wrap to `/* ab */`, `/*   */` and
  `/* c  */`. The model keeps this (`BlockComment.BlockSuffixColumnBlank`),
  and `BlockComment.BlockSuffixesAligned` claims alignment only for
  non-empty rests.
- Quirks of the source are kept, not corrected. In mixed mode detection uses each line's own descriptor.
  In line mode (`RunLineMode`) a Block-tagged descriptor is still checked for a
  line comment with its own prefix, while comments are added with the first
  Line-tagged descriptor.
