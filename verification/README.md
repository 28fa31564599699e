# maw: merge, protocol and recovery

maw merges the work of many workspaces into one epoch. This project models the parts of it that decide what happens to
people's edits, and proves what they keep.

- **Shared paths** (`MergeAlgebra`, `LineMerge`, `SharedPath`, `Attribution`, `ResolvePartition`). The generic k-way
  merge, the two pipelines that resolve a path touched by several workspaces, the replay that names the sides of a
  conflict, and the accounting of a whole partition. `diff3`, block alignment, the atom parser and the AST engine are
  deterministic parameters. Where a theorem speaks of lines it is about line-wise diff3: the rule of `stub_diff3` at every
  position of files of equal length, an abstraction of `git merge-file`.
- **Text helpers** (`Blocks`, `ShiftedBlocks`, `Markers`). Splitting into blocks, moving shifted blocks back, and reading
  diff3 markers, down to the characters of the text.
- **AST merge** (`AstItems`, `AstMerge`, `AstRebuild`, `AstTheorems`, `AstAtoms`, `AstGaps`, `AstUses`, `AstPath`,
  `AstCorners`). Keyed edit scripts, the per-key verdict, the rebuild, what the atoms of a conflict tell, what becomes of
  gaps and of added uses, what a path resolved by it holds, and merges carried out on concrete inputs that lose edits. The parser is a parameter whose items are ordered, disjoint,
  non-empty and hold their own bytes; uses are named by their text.
- **Stale workspaces** (`PartitionPaths`, `EpochDelta`, `NoLostUpdate`, `LostLines`). The epoch-delta injection and the
  pipeline run around it, on top of the shared-path model; and concrete runs that lose lines.
- **Protocol** (`MergeProtocol`, `CommitRecovery`, `RefRace`). The phase machine with crashes, the commit phase and its
  recovery with a crash after any durable write, and committers racing with a promotion.

Methods follow the program's loops and state and are proved against functions; the lemmas are about those functions.
`Prelude` holds orders, sorting and permutations. `dafny verify dfyconfig.toml` takes in the whole project.

Where the code does less than its comments or its documentation say, the model follows the code, and a lemma says exactly
when the promise holds:

- With one stale base a stale workspace cannot revert the epoch's lines (`NoLostUpdate.StaleWorkspaceLosesNothing`). With
  several, the ancestor comes from the base whose id sorts first, and only the lines that the epoch changed since that
  base are safe (`NoLostUpdate.EpochLineSurvivesIff`, `LostLines.TwoBaseRun`).
- The same injection drops the edit of an up-to-date workspace that puts a line back to the ancestor's value
  (`NoLostUpdate.EditSurvivesIff`, `LostLines.MixedRun`).
- A path that the least stale base lacks is merged over the epoch's own file, not without a base
  (`NoLostUpdate.AddedSinceSurvivesIff`, `LostLines.AddedRun`).
- Not every workspace that touched a path is a side of its conflict (`Attribution.EverybodyIsASideIff`).
- The AST merge compares files key by key, and of items with one key it sees only the last. It is right item by item when
  no file has two items with one key (`AstTheorems.CleanMergeByItem`, `AstItems.AllSeenIff`); otherwise edits can be dropped
  or written twice (`AstCorners.MergeHiddenEdits`, `AstCorners.MergeLastImpl`).
- A clean AST merge always has the base's gaps (`AstTheorems.MergeSeesContentsOnly`). When no item changed it is the base,
  before gaps are compared (`AstGaps.GapEditsDroppedUnless`, `AstPath.UnchangedItemsGiveBase`,
  `AstCorners.ResolveCommentEdits`). Otherwise the comparison protects a variant's gaps unless its item count differs or some
  gap is empty in one file only (`AstGaps.GapCheckExact`, `AstCorners.MergeCommentWithAddition`,
  `AstCorners.MovedGapIsUndone`).
- Added use declarations go behind the first bytes that look like the last surviving use, which may lie in a comment
  (`AstUses.AddedUsesArePlaced`, `AstCorners.MergeUseIntoComment`), and miss it altogether only when that use is not UTF-8
  (`AstCorners.MergeUnreadableUse`).
- The commit-state file is left behind by a promotion (`CommitRecovery.PromotionTruthfulIff`). It says that a merge is
  committed only if the commit lived to its third write and no commit was retried after it, or a recovery finished a half
  promotion; otherwise it stays open for good (`CommitRecovery.FileClosedIff`, `CommitRecovery.OpenForGood`).
- Lock-step of the two refs needs committers that expect the branch where they read the epoch
  (`RefRace.WindowCommitIff`).

Every lemma carries `{:induction false}`: all inductions are written out.

## Model

| member | source | states |
|---|---|---|
| `MergeAlgebra.ResolveEntries` | src/merge/resolve.rs:182-263 | the k-way merge with one running value: classification, then a fold of diff3 that stops at the first overlap or failure; every branch tied to the fold that the lemmas below are about |
| `MergeAlgebra.DefiniteHasContent` | src/merge/resolve.rs:322-350 | the two verdicts that pick content are given only when every entry has content and there is one |
| `LineMerge.JoinStep` | src/merge/kani_proofs.rs:85-98 | one fold step under line-wise diff3 overlaps exactly when the next file clashes with one already merged, and otherwise extends their join |
| `LineMerge.FoldIsJoin` | src/merge/resolve.rs:182-263 | folding any number of files overlaps exactly when two of them give one line two different new values; otherwise every line is its one new value, or base's |
| `LineMerge.ClassifyOrderFree` | src/merge/kani_proofs.rs:205-262 | the verdict depends on the entries only as a multiset, for any number of them; the bounded proofs take two and three |
| `LineMerge.MergeOrderFree` | src/merge/resolve.rs:182-263 | for any number of entries, every permutation gives the same outcome |
| `LineMerge.MergeClosedForm` | src/merge/resolve.rs:182-263 | outcome of live entries with a base, without any fold: a diff3 conflict iff two files clash, else their join, so every entry's line edits are in a clean result |
| `LineMerge.StubIsOneLine` | src/merge/kani_proofs.rs:85-98 | the stub diff3 on one value is line-wise diff3 on one line |
| `LineMerge.StubOrderFree` | src/merge/resolve.rs:182-263 | order independence over the stub for any number of entries and any content type |
| `SharedPath.ProbeFoldedParticipants` | src/merge/resolve.rs:1152-1173 | the exclusion probe, with its keep-everybody fallback |
| `SharedPath.FoldAndProbe` | src/merge/resolve.rs:1211-1282 | the fold with its list of members folded in so far, and the probe at the step that gets stuck |
| `SharedPath.RecoverDiff3AtomsWithParticipants` | src/merge/resolve.rs:1211-1282 | the replay on the conflict path: atoms and participants |
| `SharedPath.ResolveSharedPath` | src/merge/resolve.rs:781-918 | the plain pipeline: blob shortcut, generic merge with retry, replay on a diff3 conflict, base and sides of the record |
| `SharedPath.ResolveSharedPathWithAst` | src/merge/resolve.rs:926-1139 | the AST-aware pipeline: its own classification, its own fold without retry, AST fallback, sides named by atoms |
| `Attribution.PipelinesAgree` | src/merge/resolve.rs:781-1139 | what the AST-off pipeline resolves or fails on, the plain one does identically; what the plain one reports as a conflict, the other does identically; equal everywhere when the retry never helps |
| `Attribution.SettledExact` | src/merge/resolve.rs:182-263 | both pipelines before any diff3: all deletions delete, a deletion beside something else is modify/delete, missing content is a conflict of its own, equal contents are written, and without a base different contents are add/add iff every workspace added the path; each conflict has its base and every entry as a side |
| `Attribution.RetryExact` | src/merge/resolve.rs:1430-1450 | one merge with retry: diff3 decides, unless it conflicts and a side can be moved; then diff3 of the moved sides decides, its failure and its second conflict included |
| `Attribution.RetryNeverHelpsIff` | src/merge/resolve.rs:1430-1450 | the retry never helps iff after every conflict no side moves or the moved sides conflict again |
| `Attribution.PlainPair` | src/merge/resolve.rs:781-918 | the plain pipeline on two live entries in terms of diff3 and alignment alone: content, error, or a conflict with both sides and the atoms of the first marker output under their names |
| `Attribution.AstOffPair` | src/merge/resolve.rs:926-1139 | the AST-off pipeline on two live entries: one diff3 and no retry |
| `Attribution.MergedIff` | src/merge/resolve.rs:926-1050 | for any diff3, the AST-off fold merges to a value iff going through the entries one by one does, an entry equal to the merge so far being skipped |
| `Attribution.StuckExact` | src/merge/resolve.rs:1040-1139 | for any diff3, every diff3 conflict of the AST-off pipeline: the trigger, the merge before it, the markers between them, the sides (the trigger and the earlier entries that conflict with it on their own, or all of them when none does), and atoms read from those markers under those names |
| `Attribution.ProbeExact` | src/merge/resolve.rs:1152-1173 | for any diff3, the probe keeps a member iff it does not merge cleanly with the trigger, or all do |
| `Attribution.AstOnlyTouchesConflicts` | src/merge/resolve.rs:1060-1139 | turning the AST engine on changes nothing but diff3 conflicts, which keep reason and base and take their sides from the entries |
| `Attribution.ReplayFindsTheConflict` | src/merge/resolve.rs:892-906 | for any diff3 and any retry, a diff3 conflict makes the replay reach its conflict arm, and the real fold had passed everything before that point |
| `Attribution.SidesExact` | src/merge/resolve.rs:1152-1282 | under line-wise diff3 the sides are exactly the first entry that overlaps an earlier one and the earlier entries that overlap it pairwise; at least two, so the fallback never fires |
| `Attribution.AstOffSidesExact` | src/merge/resolve.rs:926-1139 | the same for every conflict of the AST-aware pipeline on a path without AST language, also where the plain pipeline's retry would have succeeded |
| `Attribution.EverybodyIsASideIff` | src/merge/pushout_tests.rs:776 | every touching workspace is a side iff the last entry overlaps each earlier one and these do not overlap among themselves |
| `Attribution.BystanderIsNotASide` | src/merge/pushout_tests.rs:776 | three workspaces, two fight, the third is not a side: the documented claim fails on this input |
| `Attribution.LineOutcome` | src/merge/resolve.rs:926-1139 | the AST-off pipeline on live entries in closed form: conflict iff a clash, else the join |
| `ResolvePartition.EmitDfClashConflicts` | src/merge/resolve.rs:444-479 | one file/directory conflict per clashing file path, the first clash of each, sorted by path |
| `ResolvePartition.ResolvePaths` | src/merge/resolve.rs:503-570 | clashes, then unique paths, then shared paths pushed onto the two lists, sorted at the end; the first failing path ends it |
| `ResolvePartition.OutputAccounting` | src/merge/resolve.rs:503-570 | conservation: paths of resolved plus paths of conflicts, with multiplicity, are the partition's paths outside clashes plus each clash file once |
| `ResolvePartition.OutputSortedAndDisjoint` | src/merge/resolve.rs:563-569 | with distinct partition paths both lists are strictly sorted, disjoint, and hold exactly the accounted paths |
| `ResolvePartition.ResolvedComesFrom` | src/merge/resolve.rs:520-561 | a change is in the output iff it is the outcome of its own unique or shared path outside the clashes |
| `ResolvePartition.ConflictIsReported` | src/merge/resolve.rs:520-561 | every conflict of a shared path outside the clashes is in the output |
| `ResolvePartition.UniqueExact` | src/merge/resolve.rs:517-546 | a path of one workspace, outside clashes: a deletion is in the output as a deletion, content as exactly that content, missing content as a conflict over the base with that one side |
| `ResolvePartition.ClashReported` | src/merge/resolve.rs:444-479 | the first clash of a file is in the output: no base, the workspace of the file and then that of the directory as sides, the example below the directory in the reason |
| `ResolvePartition.ClashesHeldBack` | src/merge/resolve.rs:511-522 | neither the file nor the example below the directory of a clash is resolved |
| `ResolvePartition.ResolversKeepPaths` | src/merge/resolve.rs:781-1139 | both pipelines answer for the path they were asked about, so the accounting applies to both |
| `PartitionPaths.PartitionByPath` | crates/maw-core/src/merge/partition.rs:265-302 | each touched path once, sorted; one change makes it unique, more make it shared, with all its changes sorted by workspace |
| `PartitionPaths.EntriesExact` | crates/maw-core/src/merge/partition.rs:265-302 | the changes to a path are those of every patch set that lists it, each under its own workspace with its kind, content and blob |
| `PartitionPaths.SharedByWorkspace` | crates/maw-core/src/merge/partition.rs:290-302 | the entries of a shared path are its changes in ascending order of workspace id, those of one workspace as it listed them |
| `EpochDelta.InjectEpochDelta` | src/merge/build_phase.rs:509-625 | the stale bases, the touched paths the epoch changed since any of them, the synthetic patch with the epoch's content or deletion of each, and base overrides from the least stale base |
| `EpochDelta.ReadBaseContents` | src/merge/build_phase.rs:1141-1172 | base contents of the partition's paths that exist at the epoch |
| `EpochDelta.RunPipeline` | src/merge/build_phase.rs:633-669 | injection, partition, base contents, overrides on top, resolution |
| `EpochDelta.RunAt` | src/merge/build_phase.rs:509-669 | with any stale bases, a touched path reaches resolution with exactly the workspaces' changes plus the epoch's when it changed the path since any of them, over the content of the least stale base when there is one, else the epoch's |
| `NoLostUpdate.ResultOverAncestor` | src/merge/build_phase.rs:509-625 | for any stale bases: a path with a common ancestor (the least stale base's file) that resolves to content still exists at the epoch, and over that ancestor the result has the edits of the epoch and of every workspace, and no other line |
| `NoLostUpdate.EpochLineSurvivesIff` | src/merge/build_phase.rs:547-604 | for any stale bases: a line of the epoch survives iff the epoch changed it since the least stale base, or no workspace's file differs from that base on it |
| `NoLostUpdate.StaleWorkspaceLosesNothing` | src/merge/build_phase.rs:509-625 | with one stale base, a path of it that resolves to content still exists at the epoch and holds every line the epoch changed since and every workspace's own line edits |
| `NoLostUpdate.EpochDeletionConflicts` | src/merge/build_phase.rs:588-590 | a path the epoch deleted since any stale base, and a workspace did not, is always a modify/delete conflict over the ancestor, with the epoch and every touching workspace as sides |
| `NoLostUpdate.RunClosedForm` | src/merge/build_phase.rs:633-669 | outcome of a run at one path, for any stale bases: diff3 conflict iff two inputs clash over the ancestor, else their join |
| `NoLostUpdate.EditSurvivesIff` | src/merge/build_phase.rs:592-604 | a line a workspace wrote unlike the epoch survives iff it also differs from the least stale base: putting a line back to that base is lost |
| `LostLines.FreshRevertIsLost` | src/merge/build_phase.rs:592-604 | concrete input, every run: an up-to-date workspace's revert disappears without a conflict because another workspace is stale |
| `LostLines.MixedRun` | src/merge/build_phase.rs:633-669 | that run carried out by the modelled pipeline, from patch sets to output |
| `LostLines.SecondBaseReverts` | src/merge/build_phase.rs:547-566 | concrete input with two stale bases, every run: the epoch's line is replaced, without a conflict, by the unedited line of the workspace that is not stale at the least base |
| `LostLines.TwoBaseRun` | src/merge/build_phase.rs:633-669 | that run carried out by the modelled pipeline |
| `NoLostUpdate.ResolutionSucceeds` | src/merge/resolve.rs:596-662 | without AST and over line-wise diff3 every partition resolves |
| `NoLostUpdate.AddedSinceSurvivesIff` | src/merge/build_phase.rs:604-610 | a path that the epoch has and the least stale base lacks is not merged without a base as the comment says: its base is the epoch's own file; with every entry live that file survives iff every workspace wrote the same, and one workspace always overwrites it; a deletion or missing content is a conflict |
| `LostLines.AddedRun` | src/merge/build_phase.rs:604-610 | concrete run: a file that both the epoch and a stale workspace created comes out as the workspace's, without a conflict |
| `Blocks.SplitBlocks` | src/merge/resolve.rs:1581-1599 | blocks cut after each blank line, the rest as a last block |
| `Blocks.ConcatSplit` | src/merge/resolve.rs:1581-1599 | joining the blocks of a text gives the text |
| `Blocks.SplitConcat` | src/merge/resolve.rs:1581-1599 | splitting a joined block list gives it back iff every block but the last ends in its only blank line and the last is non-empty with no earlier blank line |
| `Blocks.SplitIsSplit` | src/merge/resolve.rs:1581-1599 | the blocks of every text have that form |
| `ShiftedBlocks.AnchorExact` | src/merge/resolve.rs:1489-1502 | an anchored block is the only one with its signature on either side, anchored to its match |
| `ShiftedBlocks.SignatureExact` | src/merge/resolve.rs:1568-1570 | the signature of a block is the block up to its last character that is not white space |
| `ShiftedBlocks.NormalizeShiftedBlocks` | src/merge/resolve.rs:1462-1566 | anchors, previous and next anchors, ranks, the sort by rank and position, and the two ways of returning nothing |
| `ShiftedBlocks.GroupsMove` | src/merge/resolve.rs:1531-1554 | the sort moves whole groups: an anchored block with the unanchored run after it (a leading run with the first group), intact, arranged by strictly ascending base position |
| `ShiftedBlocks.NormalizedText` | src/merge/resolve.rs:1556-1566 | the returned text is the variant's groups joined in that order, a permutation of its blocks |
| `ShiftedBlocks.NormalizedIff` | src/merge/resolve.rs:1462-1566 | a text is returned iff both texts have two blocks at least and ranking the variant's blocks changes it; the test for a moved anchor only saves work |
| `ShiftedBlocks.ReorderingIsStable` | src/merge/resolve.rs:1489-1554 | anchoring and ranking the reordered list again changes nothing |
| `ShiftedBlocks.LastResortUnused` | src/merge/resolve.rs:1533-1545 | once some anchor exists the last-resort rank is never given |
| `Markers.ParseDiff3Atoms` | src/merge/resolve.rs:1637-1728 | the four-state parser with its refilled accumulators, from text to atoms |
| `Markers.RegionsInOrder` | src/merge/resolve.rs:1649-1717 | for every input, however malformed, regions are ordered, do not overlap, start at 1 or later, and end within the lines read |
| `Markers.ParsedAtomsTell` | src/merge/resolve.rs:1637-1728 | from text to atoms, for any text printed from pieces whose lines cannot be mistaken for a marker of their section: the k-th atom stands where the k-th hunk stands in the base; its first edit gives the first workspace the ours lines, its second the second workspace the theirs lines, joined so that they can be read back; it is an insertion iff the hunk has no base lines |
| `Markers.ParseRender` | src/merge/resolve.rs:1637-1728 | the atoms of such a text are the closed form that the two rows around this one speak about |
| `Markers.RegionsSelectBase` | src/merge/resolve.rs:1667-1671 | each atom's region selects exactly its hunk's base lines in the base file |
| `Markers.LinesReadBack` | src/merge/resolve.rs:1644-1645 | lines are read back whether each ends in LF or CRLF, and a last one without an ending too |
| `Markers.PrintedHunk` | src/merge/resolve.rs:1612-1624 | ten literal lines with one hunk, and the one atom they give |
| `AstItems.ComputeEditScript` | src/merge/ast_merge.rs:432-483 | one change for each key whose content differs, of the right kind, and nothing else |
| `AstItems.ScriptIsFaithful` | src/merge/ast_merge.rs:432-483 | applying the script to the base's keyed items gives the variant's, key by key, nothing left over |
| `AstItems.EmptyScriptIff` | src/merge/ast_merge.rs:432-483 | the script is empty iff the two keyed files agree on content |
| `AstItems.SameKeyIff` | src/merge/ast_merge.rs:260-275 | two items have one key iff they are of one kind and one name, or of one kind, nameless and at one index |
| `AstItems.SeenIff` | src/merge/ast_merge.rs:437-447 | the keyed view that scripts are computed from holds an item iff no later item of the file has its key |
| `AstItems.AllSeenIff` | src/merge/ast_merge.rs:437-447 | it holds every item of a file iff no two items share a key; impl blocks of one type do |
| `AstMerge.TryAstMerge` | src/merge/ast_merge.rs:548-671 | parse failures, constraints, grouping, verdict per key, atoms, gap check, rebuild, in the program's order of precedence |
| `AstMerge.CollectRegions` | src/merge/ast_merge.rs:920-933 | the non-empty gaps of a file |
| `AstMerge.VerdictExact` | src/merge/ast_merge.rs:674-693 | the constraints on a key differ iff two variants change it to different outcomes |
| `AstTheorems.ConflictExact` | src/merge/ast_merge.rs:588-651 | a conflict is returned iff two variants change one key to different outcomes; one atom per such key, in base order |
| `AstAtoms.ConflictTold` | src/merge/ast_merge.rs:699-779 | each conflicting key has an atom and each atom tells one: one edit per variant that changed the key, in order, with its workspace, its item's node and text, or no text at the base's node where it dropped the item; the atom stands at the base's item, or the first added one; the modify/delete mark is set iff some variant dropped the item and another changed it; atoms ascend by start |
| `AstTheorems.ConflictOrderFree` | src/merge/ast_merge.rs:588-651 | verdict, set of conflicting keys and number of atoms do not depend on variant order |
| `AstTheorems.CleanOrderFree` | src/merge/ast_merge.rs:548-671 | neither does the kind of result, nor, without additions, the merged bytes |
| `AstTheorems.VerdictTable` | src/merge/ast_merge.rs:548-671 | the four outcomes for files that all parse: the base when no key changed, else a conflict iff two variants disagree on a key, else unsupported iff some variant with the base's item count has other non-empty gaps, else clean |
| `AstTheorems.CleanMergeExact` | src/merge/ast_merge.rs:548-671 | every clean merge, additions included, by key: base items become what the variants that changed their key have there; each key that variants add is written exactly once, as the first of them has it; nothing else is in the file but base gaps, comments before added items, and newlines |
| `AstTheorems.CleanMergeByItem` | src/merge/ast_merge.rs:548-671 | when neither the base nor any file has two items with one key, that is right item by item: an item some file changed or dropped became that, an item all left alone is the base's, every new item is added |
| `AstTheorems.MergeSeesContentsOnly` | src/merge/ast_merge.rs:548-671 | gaps, and items hidden behind a later item with their key, never enter a clean result: files with the same contents under each key give a conflict both or neither, and clean results with the same base gaps and bodies; the same bytes without additions |
| `AstTheorems.OnlyAdditionsKeepBase` | src/merge/ast_merge.rs:938-943 | variants that only add, whatever they did to gaps: a clean result is the whole base with the additions in it |
| `AstTheorems.OutcomesKept` | src/merge/ast_merge.rs:548-671 | whatever any variant has under a key otherwise than the base, or adds or drops, is so in the clean merge |
| `AstPath.AstResolutionKeepsEdits` | src/merge/resolve.rs:1060-1139 | end to end: a path on which diff3 is stuck and that the AST merge resolves holds what every workspace has under each key it changed, dropped or added; for a workspace whose file and the base have distinct keys, every item it edited |
| `AstPath.UnchangedItemsGiveBase` | src/merge/resolve.rs:1077-1083 | end to end: when diff3 is stuck on a path and no workspace changed an item, the path is resolved to the base, without a conflict, whatever the workspaces did to the gaps |
| `AstPath.AstConflictSidesExact` | src/merge/resolve.rs:1084-1122 | the sides of an AST conflict are exactly the workspaces that changed a key on which two of them disagree; at least two, so the fallback to diff3's participants is never taken |
| `AstTheorems.CleanIsThreeWay` | src/merge/ast_merge.rs:548-671 | when no variant adds a key, a clean result is the base's gaps interleaved item by item with what the variants that changed the item's key have there, else the base's item; base items with one key get one body |
| `AstGaps.LoneVariant` | src/merge/ast_merge.rs:548-671 | one variant over the base's keys in closed form: the base when no item changed, unsupported when the gap check fires, else base gaps around variant items |
| `AstGaps.LoneVariantReproduced` | src/merge/ast_merge.rs:653-671 | one variant whose gaps equal the base's at every position is reproduced byte for byte |
| `AstGaps.GapEditsDroppedUnless` | src/merge/ast_merge.rs:584-586 | any number of variants, no item changed: the result is the base before gaps are compared; a variant is reproduced iff its items and gaps are the base's |
| `AstGaps.GapCheckExact` | src/merge/ast_merge.rs:920-963 | for all files: the check never refuses equal gaps, nor another item count; it lets other gaps through exactly when it passes and either the counts differ or some gap is empty in one file only |
| `AstGaps.CleanKeepsGapsIff` | src/merge/ast_merge.rs:653-671 | any number of variants, some item changed: a clean merge has let a variant's other gaps through iff its item count differs or some gap is empty in one of the two files only |
| `AstGaps.LoneIsRefusedIff` | src/merge/ast_merge.rs:653-671 | one variant never conflicts, and is refused iff it changes an item and the check sees other gaps |
| `AstGaps.LoneVariantReproducedOrRefused` | src/merge/ast_merge.rs:548-671 | one variant that changes an item and leaves no gap empty on one side only is reproduced byte for byte iff its gaps are the base's, and refused otherwise |
| `AstGaps.MissedGapIsTheBases` | src/merge/ast_merge.rs:548-671 | a gap that is empty on one side only and is not refused is replaced by the base's |
| `AstCorners.MovedGapIsUndone` | src/merge/ast_merge.rs:924-926 | white space moved between gaps passes the comparison, which skips empty gaps, and is put back: concrete input |
| `AstCorners.MergeMovedGap` | src/merge/ast_merge.rs:548-671 | the merge itself on that input |
| `AstCorners.MergeHiddenEdits` | src/merge/ast_merge.rs:124-129 | carried out: two workspaces rewrite the first of two impl blocks of one type differently; the result is the base, without a conflict |
| `AstCorners.MergeLastImpl` | src/merge/ast_merge.rs:989-1031 | carried out: a workspace rewrites the second of them; its text is written in both places |
| `AstCorners.ResolveCommentEdits` | src/merge/resolve.rs:1077-1083 | carried out end to end: two workspaces edit one comment differently; diff3 alone reports a conflict, with the AST merge the path is resolved to the base and both edits are gone |
| `AstCorners.MergeCommentWithAddition` | src/merge/ast_merge.rs:940-943 | carried out: a workspace edits a comment between two items and adds a third; the base's comment stays |
| `AstRebuild.SkipTrailingWhitespace` | src/merge/ast_merge.rs:1177-1183 | the end of the white space from a position |
| `AstRebuild.WalkBase` | src/merge/ast_merge.rs:989-1031 | the cursor walk over the base's items: gaps copied, modified items replaced, deleted items skipped with the white space after them |
| `AstRebuild.CoreIsWoven` | src/merge/ast_merge.rs:989-1031 | its result in closed form: every gap (after a deleted item without leading white space) interleaved with every item's body |
| `AstRebuild.KeptGapExact` | src/merge/ast_merge.rs:1012-1018 | the gap after a deleted item is kept from its first byte that is not a blank, tab, LF or CR; every other gap is kept whole |
| `AstRebuild.SourceIsWoven` | src/merge/ast_merge.rs:989-1031 | with nothing changed the walk reproduces the file |
| `AstRebuild.AddedResolutionItems` | src/merge/ast_merge.rs:1118-1136 | the added items in key order, then sorted by workspace and start |
| `AstRebuild.AdditionsExact` | src/merge/ast_merge.rs:1118-1136 | each added resolution occurs exactly once, in (workspace, start) order |
| `AstRebuild.ReconstructMergedFile` | src/merge/ast_merge.rs:983-1112 | walk, splice of use declarations behind their anchor, the rest appended with blank lines and leading comments |
| `AstRebuild.RebuiltConserves` | src/merge/ast_merge.rs:983-1112 | a rebuilt file is the core with every addition written exactly once: uses together at the end of the first occurrence of the last surviving use's base content, when it occurs; the others at the end, each after a blank line |
| `AstRebuild.WrittenExact` | src/merge/ast_merge.rs:1088-1109 | an addition is written as the comments in front of it in its own workspace's file, its text and a newline |
| `AstRebuild.UsesGoBehindAnchorIff` | src/merge/ast_merge.rs:1034-1078 | behind a last surviving use that is the base's own the added uses always find a place; it is right behind that use iff its bytes do not occur earlier in the file |
| `AstUses.UseIsOnlyDeleted` | src/merge/ast_merge.rs:324-334 | a use is named by its text, so a base use whose bytes are UTF-8 can only be deleted, never modified |
| `AstUses.AddedUsesArePlaced` | src/merge/ast_merge.rs:1034-1078 | in every clean merge in which a base use survives, the last of them UTF-8: added uses find a place, never behind the end of that use, and right behind it iff its bytes do not occur earlier |
| `AstCorners.MergeUseIntoComment` | src/merge/ast_merge.rs:1065-1078 | carried out: a comment before the only use ends in that use's bytes, and the added use is written into the comment's place |
| `AstCorners.MergeUnreadableUse` | src/merge/ast_merge.rs:1065-1078 | carried out: the only use holds bytes that are not UTF-8 and is changed under its empty name; the added use goes to the end of the file |
| `MergeProtocol.InitialState` | crates/maw-assurance/src/model.rs:158-190 | initial workspaces, refs and the set of commits to protect |
| `MergeProtocol.WorkspacesExact` | crates/maw-assurance/src/model.rs:158-190 | workspace i starts present and clean with head 10 + i, unless its name is used again |
| `MergeProtocol.Actions` | crates/maw-assurance/src/model.rs:201-292 | the offered actions are exactly the enabled ones |
| `MergeProtocol.AbortableIff` | crates/maw-assurance/src/model.rs:201-292 | in every run a merge under way can crash, and can be aborted iff its epoch has not moved |
| `MergeProtocol.StepKeepsInvariant` | crates/maw-assurance/src/model.rs:294-416 | every enabled step keeps the inductive invariant |
| `MergeProtocol.Safety` | crates/maw-assurance/src/model.rs:418-495 | over every run with any workspaces and crashes: G1, G3 and G4; nothing committed is unreachable in any phase; a destroyed workspace's head is in the recovery refs; recovery never meets a missing state file or inconsistent refs |
| `MergeProtocol.HistoryDecides` | crates/maw-assurance/src/model.rs:294-416 | in every run: the epoch is at the candidate iff it was committed, the branch iff it was committed or recovery finished it; a workspace is gone iff it was destroyed; the recovery refs are exactly the heads captured; nothing is committed without validation, or after an abort |
| `MergeProtocol.EpochStays` | crates/maw-assurance/src/model.rs:294-416 | once the epoch has moved it stays in every later state, none of which is aborted |
| `MergeProtocol.RecoveryExact` | crates/maw-assurance/src/model.rs:374-416 | recovery ends in Cleanup with both refs at the candidate iff the epoch had moved, else aborted with both refs where they were |
| `MergeProtocol.AbortEnds` | crates/maw-assurance/src/model.rs:294-330 | an abort or failed validation is the last step of its run and leaves both refs where they were |
| `MergeProtocol.StepLowers` | crates/maw-assurance/src/model.rs:294-416 | every step but a crash lowers the measure, a crash raises it by at most one |
| `MergeProtocol.Progress` | crates/maw-assurance/src/model.rs:201-416 | a run with n workspaces and c crashes has at most 7 + 2n + 2c steps, and a non-terminal state offers a step that is not a crash |
| `CommitRecovery.Repository.RunCommitPhase` | src/merge/commit.rs:144-190 | the commit phase dying after any number of durable writes |
| `CommitRecovery.Repository.PromoteRefs` | src/merge/quarantine.rs:397-407 | promotion's two compare-and-swaps, dying anywhere, with no write to the commit-state file |
| `CommitRecovery.Repository.RecoverPartialCommit` | src/merge/commit.rs:207-246 | recovery from the refs, dying anywhere |
| `CommitRecovery.Repository.Finish` | spike/src/inproc.rs:136-165 | recovery allowed to finish, and a retry when it reports that nothing moved |
| `CommitRecovery.Repository.UpdateRefsAtomic` | crates/maw-core/src/refs.rs:431-460 | both refs or neither |
| `CommitRecovery.CommitReports` | src/merge/commit.rs:144-190 | a commit that finishes reports done, with both refs and every field of the file, iff both refs stood where expected; else a mismatch with the refs as they were |
| `CommitRecovery.PromotionReports` | src/merge/quarantine.rs:397-407 | a promotion that finishes reports done iff both refs stood at the epoch; a mismatch can leave the epoch moved alone |
| `CommitRecovery.RecoveryReports` | src/merge/commit.rs:207-246 | the verdict of recovery on any two refs whatever, and what it writes |
| `CommitRecovery.RecoveryVerdictExact` | src/merge/commit.rs:207-246 | any number of attempts dying anywhere in commit, promotion or recovery never yields an inconsistent state; with a new candidate the verdict says exactly which refs moved |
| `CommitRecovery.RecoveryConverges` | spike/src/inproc.rs:149-165 | recovery plus a retry on a not-committed verdict ends with both refs at the candidate |
| `CommitRecovery.FileTruthfulWithoutPromotion` | src/merge/commit.rs:144-246 | commits and recoveries of any merges, dying anywhere, keep: the file says committed only while both refs stand at its candidate |
| `CommitRecovery.PromotionTruthfulIff` | src/merge/quarantine.rs:397-407 | a promotion keeps that iff no committed merge is on file or it never moves the epoch |
| `CommitRecovery.PromotionLeavesFileBehind` | src/merge/quarantine.rs:397-407 | a commit followed by a promotion leaves the file naming the old candidate as committed |
| `CommitRecovery.FileClosedIff` | src/merge/commit.rs:144-246 | for any attempts at one merge with a new candidate, promotions included, each dying anywhere: the file ends as committed iff an attempt wrote so (the commit that moved both refs and lived to its third write, or a recovery that moved the branch after a half promotion and lived to its second) and no later commit wrote anything |
| `CommitRecovery.FileClosedWithoutPromotionIff` | src/merge/commit.rs:144-246 | without promotions: iff the first commit with two durable writes had three, and every later commit had none |
| `CommitRecovery.OpenForGood` | src/merge/commit.rs:218-220 | once both refs have moved and the file does not say so, no attempt ever closes it, and every recovery reports the merge as committed and writes nothing |
| `CommitRecovery.RetryReopensFile` | src/merge/commit.rs:144-190 | a retry after a completed commit rewrites the file to the commit phase and then fails |
| `CommitRecovery.PromotionNeverClosesFile` | src/merge/quarantine.rs:397-407 | a completed promotion is found committed by recovery, with the file as it was before |
| `CommitRecovery.RecoveryLeavesFileOpen` | src/merge/commit.rs:218-220 | the shortest such history: a commit that died between moving the refs and its last write |
| `RefRace.RefsInLockStep` | src/merge/quarantine.rs:397-407 | committers on one branch and one promotion in any interleaving: refs differ only between promotion's steps, no commit succeeds there, its second step always does, and advances form one chain, each replacing exactly the epoch it was built on |
| `RefRace.WindowCommitIff` | src/merge/commit.rs:144-172 | a committer that read the two refs separately succeeds in that window iff it read both inside it, and then makes the promotion's second step fail, unless its candidate is the very commit the promotion was built on |
| `RefRace.FailedStep` | src/merge/commit.rs:144-172 | a step that fails moves no ref; a failed second step only gives the promotion up |
| `RefRace.SuccessfulStep` | src/merge/commit.rs:144-172 | what each successful step found and what it leaves |
| `RefRace.SharedRefs.CommitBoth` | src/merge/commit.rs:165-172 | the commit's compare-and-swap on both refs as one step |
| `RefRace.SharedRefs.PromoteFirst` | src/merge/quarantine.rs:401-403 | promotion's epoch step |
| `RefRace.SharedRefs.PromoteSecond` | src/merge/quarantine.rs:405-407 | promotion's branch step |

## Left out

- Tree-sitter parsing, language detection, configuration, signatures and the semantic labels and confidence of AST conflict reasons: library calls and one-branch logic; only the modify/delete mark of an atom is kept.
- `git merge-file`, git objects and their errors: diff3 is a parameter; line-wise diff3 compares files line by line at equal length and treats other files as one value.
- gitattributes drivers (union, ours, binary), merge drivers and `regenerate`: foreign commands. A failed optional `regenerate` takes a path out of both output lists, so the accounting is about resolution before drivers run.
- Detection of directory/file clashes: the clash list is a parameter of the run.
- File modes, file ids and timestamps: carried along, never branched on here.
- SharedPath.ResolveSharedPath: the gitattributes strategies union, ours and binary in the same function are not modelled.
- SharedPath.ResolveSharedPathWithAst: the same strategies are not modelled.
- EpochDelta.RunPipeline: loading gitattributes, and their effect on resolution, is not modelled.
- AstItems.ComputeEditScript: the order of the changes in a script is not stated, because grouping by key makes it unobservable.
- AstRebuild.ReconstructMergedFile: the scan for leading comments is a parameter, and the base is assumed well parsed, as the parser guarantees.
- AstMerge.TryAstMerge: reasons of conflict atoms are not modelled beyond the modify/delete mark; their text is kept as bytes, and their positions do not saturate at 32 bits.
- ShiftedBlocks.NormalizeShiftedBlocks: text is a sequence of characters; input that is not UTF-8, for which the program returns nothing, is outside the model, and so is saturation of ranks at 64 bits.
- ShiftedBlocks.ReorderingIsStable: speaks of the block list; splitting the joined text again can give other blocks when the last block lacks a final newline.
- Markers.ParseDiff3Atoms: line numbers do not wrap at 32 bits, and replacement of invalid UTF-8 is not modelled.
- NoLostUpdate.ResultOverAncestor: like the other line theorems, assumes files of equal length at the path and that equal blob ids mean equal content.
- CommitRecovery.RecoveryVerdictExact: assumes no other writer while one merge is being recovered; I/O errors other than a crash are not modelled.
- RefRace.RefsInLockStep: recovery does not take part in the race, and a promotion is assumed to bring a new commit.
- PREPARE take-over, snapshot collection, events, worktree handling and cleanup of quarantines: I/O with shallow logic.
