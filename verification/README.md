# A verified model of the tree engines

Several engines of this repository edit one kind of value: a UI tree whose nodes are
addressed by unique ids. This project models them and proves that they agree.

- **Trees** (`Tree`, `Table`): nodes with an opaque own content, ordered layout children or
  single-node arms, state placeholders, and the style, accessibility and tooltip facets;
  traversal, search and rewriting by position.
- **The tree-op engine** (`Ops`, `Engine`, `ApplySafety`, `ApplyVerdict`, `OpWrites`, with
  `Turns`): the reducer of the fourteen op kinds, the guards around it, the law that an
  accepted op keeps a tree well formed, what the guards ask beyond the dry run, and what each
  op leaves or is refused with.
- **Property paths** (`PropPath`, `PropPathLaws`, with `Dotted` and `Decimal`).
- **The diff** (`Diff`, `DiffScript`, `DiffRoundTrip`, `DiffEdits`).
- **Placement and cloning** (`Placements`, `PlacementLaws`, `PlacementCodes`,
  `PlacementVerdict`, `Clone`, `CloneLaws`).
- **The three-way merge** (`Merge`, `MergeRun`, and the law files `MergeSymmetry`,
  `MergeLaws`, `MergeUnique`, `MergeContent`, `MergeOrder`, `MergeTold`, `MergeCells`,
  `MergeReached`, `MergeRepeats`, `MergeEnvelope`, with `Ordinal`).
- **The op log** (`OpChain`, `OpSink`, `OpReplay`, `AppendProtocol`): the hash chain, the
  sink with its compare-and-append, and its concurrent appenders as a state machine.
- **The server-driven connection** (`Driver`, `Connection`) and **the frame codec** (`Frames`).
- **Emphasis resolution** (`EmphasisTokens`, `Emphasis`) and **theme tokens** (`ThemeTokens`,
  `ThemeBuild`, `ThemeLaws`).
- `DocumentedGaps` holds the places where the repository's own documentation promises more
  than the code gives, each as a concrete input.

Where the code updates state step by step, the model is a method or a class (`Engine`,
`DiffScript`, `MergeRun`, `OpSink`, `Driver`, `Connection`, `Frames`, `Emphasis`, `ThemeBuild`,
`Clone`), proved equal to a function; the laws are then about that function.

Assumptions a reader should know:

- Canonical encoding is structural equality. The one place that orders two encodings
  (merge/merge.go:879-882) takes that order as the parameter `before`.
- The digest is the parameter `link`. Results that need it ask for an injective digest, the
  protocol also for one that is never the genesis value. The chain reads no op, so records
  are generic in the op type.
- `UpdateProp` carries its coercion as a function on the kind's own content; child positions
  are not part of that content.
- Handlers, capability gates, push failures and other writers are parameters, arbitrary
  except where a contract says otherwise.
- The sink and the connection hold a lock for each whole method, so a method is one step.
- `Wrapped` in `EmphasisTokens` records the two runs that made it; the source's node keeps
  only the kind, and nothing in the model reads the record back.
- `stray` in `Kind` is what storing children on a non-layout kind leaves under the empty key
  (ops/traverse.go:78-85); only a batch over a tree that repeats ids can write one, and
  nothing reads it.

Four documented statements do not hold as written; each has its exact condition.

- `CanApply` is described as equivalent to `Apply` (ops/apply.go:126-128), and runs none of the
  guards: `ApplyExactly` says, op kind by op kind, what an op has to meet besides.
- `Diff` is described as a round trip for every pair (diff/diff.go:298-303), and is refused when
  an id leaves a seat the script replaces later for one it replaces earlier: `RoundTrip`.
- The merge is described as taking the changed side's value where at most one side changed a
  facet (merge/merge.go:9-12). It loses, with no conflict recorded, what one branch puts into
  an empty container that the other turns into a kind without children (`CleanMergeLaw`), and
  any edit to the non-facet extras of a node both sides match with a base node (`Agreement`,
  `IdleBranch`). And it contests a facet only one side changed when the other edited those
  extras, which every cell but a style member's compares along (`CellsExactly`,
  `ExtrasContestTooltip`).
- A placement helper is described as agreeing with the engine, no false permit and no false
  refusal (ops/placement.go:88-91). It permits a child that repeats an id of its own, and what
  does not fit the limits (`MoveOpVerdict`, `PlaceOpVerdict`, `PlaceOpFalsePermit`). Where both
  refuse, the codes differ for a node no child list holds, if the engine finds the destination
  wrong first (`MoveCodes`).

A clean merge of trees without repeats may also repeat an id, as when both branches add it under
different parents (`MergeRepeatsAnId`); `CleanMergeRepeats` says exactly when.

## Model

| member | source | states |
|---|---|---|
| Tree.PutAt | ops/traverse.go:173-183 | a rewrite put at a path is what is found there afterwards |
| Tree.PutPut | ops/traverse.go:93-157 | two rewrites of one position leave the second, through every rebuild closure above it |
| Tree.OccPut | ops/traverse.go:173-191 | a rewrite changes how often each id occurs by exactly what went out and what came in |
| Tree.UniquePath | ops/traverse.go:159-169 | on a tree without repeated ids an id has one place |
| Tree.FirstPath | ops/traverse.go:159-169 | a search finds an id exactly when some node holds it, and answers with a place that holds it |
| Tree.FirstParentComplete | ops/traverse.go:194-208 | the layout-parent search finds a parent whenever some layout node lists the id |
| Tree.PutShrinks | ops/traverse.go:173-183 | a sub-node replaced by a smaller, shallower one never makes the tree larger or deeper |
| ApplySafety.ApplyKeepsWellFormed | ops/apply.go:63-82 | every accepted op, nested batches included, keeps ids unique, depth within MaxNodeDepth and count within MaxNodes |
| ApplySafety.OneTidy | ops/apply.go:193-482 | the invariant behind it: whatever an op does to a tree, ids it did not install keep one owner per occurrence |
| ApplySafety.SeqTidy | ops/apply.go:456-478 | the same over every intermediate tree of a batch, which may repeat ids |
| ApplySafety.Settled | ops/apply.go:107-124 | once no installed id repeats, the invariant leaves no repeated id at all: checking only the installed ids is enough |
| ApplySafety.UniqueKept | ops/apply.go:63-124 | an accepted op keeps ids unique |
| ApplySafety.UnchargedShrinks | ops/limits.go:129-147 | an op the growth test lets pass makes no tree larger or deeper, so skipping the limit walk is sound |
| ApplySafety.UnchargedInstallsNothing | ops/limits.go:82-147 | an op the growth test lets pass installs no node |
| ApplySafety.ReorderedPermutes | ops/apply.go:408-446 | an accepted reorder permutes the very same child nodes |
| ApplyVerdict.ApplyExactly | ops/apply.go:63-132 | on a well-formed tree the engine accepts exactly the ops the dry run accepts that fit: per op kind, distinct new ids and room in depth and count, read off op and tree; an op the growth test lets pass always fits, and only a growing batch is judged by its outcome |
| ApplyVerdict.MoveFits | ops/apply.go:373-407 | a move fits exactly when the destination has depth left for the moved subtree |
| ApplyVerdict.EditFits | ops/apply.go:197-212 | a new kind fits exactly when its nodes repeat no id of the rest of the tree and stay within the limits |
| DocumentedGaps.DryRunDiffers | ops/apply.go:126-132 | the dry run is not the engine's verdict: a replacement root that repeats an id passes the one and is refused by the other |
| Engine.Run | ops/apply.go:63-132 | on a well-formed tree the engine answers an op's own refusal, LimitExceeded for a result deeper than 24 or larger than 100000, DuplicateNodeId for one that repeats an id, and otherwise the tree the op leaves, as OpWrites tells it without the reducer's arms |
| OpWrites.AcceptedLeaves | ops/apply.go:193-482 | what an accepted op leaves, kind by kind: the node found under the target is the old one with exactly that kind, state, style, trait, coerced content, bound slot or child list, and every other row of the tree is as it was; a move takes out and appends; a batch is its members in turn |
| OpWrites.OneRewrite | ops/traverse.go:173-183 | that is one tree: two results with the same node found and the same other rows are equal |
| OpWrites.OtherRowsKept | ops/apply.go:193-260 | an edit that leaves a node its sub-nodes leaves every other node's row alone |
| OpWrites.RefusedExactly | ops/apply.go:193-482 | an op is refused exactly when a table over the tree says so, with that code: target or parent missing, no child list, shared id, wrong order, no slot, bad path, root or descendant, nowhere listed |
| OpWrites.BatchTurns | ops/apply.go:456-478 | a batch goes through exactly when each member is accepted on what the one before it left |
| OpWrites.BatchStops | ops/apply.go:456-478 | a batch fails with index i exactly when its first i members go through in turn and member i is refused |
| OpWrites.BindingKeyIs | ops/prop.go:690-710 | the content key a binding slot writes, for exactly the fifteen kinds and slots there are |
| OpWrites.EngineAnswers | ops/apply.go:63-132 | the guards add exactly the two refusals of the result |
| Engine.Reduce | ops/apply.go:456-478 | the batch loop over a running state is the fold of the reducer, all or nothing, with the index of the failing member |
| Engine.CheckInstalledIds | ops/apply.go:107-124 | the count-map walk answers whether some id the op installed is held twice by the result |
| Engine.SameIds | ops/apply.go:484-499 | the decrementing count map accepts exactly equality of id multisets |
| Engine.TreeMetrics | ops/limits.go:43-54 | one walk yields the depth and the node count |
| Engine.CheckTreeLimits | ops/limits.go:63-76 | the limit check is depth and count within the two limits |
| PropPath.ParseSegment | ops/prop.go:447-484 | the segment loop with its wrapping 64-bit index is its specification, refusals in order |
| PropPath.ParsePath | ops/prop.go:488-501 | the path loop returns the segments, or the first segment's refusal |
| PropPath.FieldIs | ops/prop.go:437-443 | the character tests of a field accept exactly the letters, the underscore and, after the first, the digits |
| PropPathLaws.SegmentRefuses | ops/prop.go:447-484 | a segment is refused exactly so: empty, no field before the bracket, brackets malformed or empty, a character that is no digit, a leading zero, in that order |
| PropPathLaws.PathRefuses | ops/prop.go:488-501 | a path is refused exactly when it is all white space, or with the reason of its first refused segment |
| PropPathLaws.PathAccepts | ops/prop.go:424-501 | the parser accepts exactly the path grammar |
| PropPathLaws.SegmentAccepts | ops/prop.go:447-484 | a segment is accepted exactly when it is a field, or a field and a bracketed numeral without leading zero |
| PropPathLaws.IndexMeans | ops/prop.go:447-484 | an accepted index is its numeral's number in 64 signed bits |
| PropPathLaws.PathPrints | ops/prop.go:447-501 | printing the segments gives back the path exactly when every index is below 2^63 |
| PropPathLaws.PathInjective | ops/prop.go:488-501 | two accepted paths with equal segments and indices below 2^63 are equal |
| DiffRoundTrip.RoundTrip | diff/diff.go:298-326 | applying the batched diff of a and b to a gives b, exactly when no new subtree holds an id of an old subtree the script replaces later; otherwise it is refused, never a third tree |
| DiffRoundTrip.SameParentsRoundTrip | diff/diff.go:298-326 | the documented round trip holds for all pairs whose shared ids keep their parent |
| DocumentedGaps.MigrationIsRefused | diff/diff.go:288-295 | the documented guarantee does not cover every pair: an id migrating to an earlier replaced seat has its batch refused |
| DiffRoundTrip.DiffRun | diff/diff.go:259-296 | the script of a matched pair, run where the old node stands, writes the new node there exactly when the way is clear |
| DiffRoundTrip.SeatRun | diff/diff.go:285-295 | remove, insert and restate replace one seat in place, exactly when nothing outside it holds an id of the new node |
| DiffRoundTrip.StyleEditResult | diff/diff.go:153-176 | the whole-record edit and the delta edit each store exactly the new style |
| DiffRoundTrip.FacetRun | diff/diff.go:186-209 | the facet edits of a pair turn the old node's facets into the new one's and touch nothing else |
| DiffScript.DiffNode | diff/diff.go:259-296 | the recursion appends to the shared script exactly the specified ops |
| DiffScript.Diff | diff/diff.go:304-311 | the script starts empty, and differing root ids give a single whole-tree swap |
| DiffScript.DiffBatched | diff/diff.go:316-326 | the script is every edit between the trees, each once and in order, one batch when it holds two or more; applied to the first tree it gives the second, or is refused when an id migrates |
| DiffEdits.DiffIsEdits | diff/diff.go:259-296 | which edits: going down through layout nodes that differ in nothing of their own but facets and list the same ids, exactly the facet edits that moved, and elsewhere a node replaced whole in place, the order restated unless it was last; a node before its children, children in order |
| DiffEdits.StyleEditIs | diff/diff.go:153-176 | the whole record exactly when all six style members moved, otherwise exactly the members that moved, none when none did |
| DiffEdits.EmptyMeansEqual | diff/diff.go:298-304 | the script is empty exactly for equal trees |
| MergeSymmetry.Swap | merge/merge.go:1050-1059 | swapping the branches changes neither the verdict nor the tree, and refuses the same cells with sides exchanged |
| MergeSymmetry.AuthoredSwap | merge/merge.go:1066-1082 | the same for the authored merge when the authors are swapped too |
| MergeSymmetry.SortSwapped | merge/merge.go:990-1000 | sorted envelopes agree cell by cell under the swap |
| MergeLaws.Agreement | merge/merge.go:904-914 | merging a branch with itself is clean, whatever it moved, deleted or inserted; it gives the branch back exactly when the nodes matched under one parent keep the base's non-facet extras, and otherwise the branch with those extras restored |
| MergeLaws.IdleBranch | merge/merge.go:671-699 | against an idle branch the merge refuses exactly when the other relocated a node and edited it, and otherwise gives that branch, its edits to the extras of matched nodes dropped |
| MergeLaws.AuthorIndependence | merge/merge.go:1050-1082 | the agnostic merge accepts with a tree exactly when the authored merge accepts the same tree with nothing resolved |
| MergeUnique.MergeKeepsUnique | merge/merge.go:703-960 | when the three trees agree on where each id hangs, the merged tree repeats no id, refused or not |
| MergeRepeats.CleanMergeRepeats | merge/merge.go:703-960 | a clean merge of unique trees, relocations included, repeats an id exactly when some id stands in a part taken over from one branch and elsewhere in a part taken over from the other |
| DocumentedGaps.MergeRepeatsAnId | merge/merge.go:703-960 | two branches add one node under different parents: the merge is clean and holds it twice |
| MergeUnique.AgreeByOwner | merge/merge.go:586-597 | for unique trees that agreement is id by id: no base node re-parented, ids new on both sides put under one parent |
| MergeContent.CleanMergeLaw | merge/merge.go:703-960 | a clean merge holds an id exactly when the three-way rule keeps it, and every kept node has in each facet the changed side's value or else the base's, for every id except, exactly, those below an empty container that one branch fills while the other makes it a kind without children |
| MergeContent.PinnedMergeLaw | merge/merge.go:175-200 | with only facet cells contested, a pinned merge differs in nothing but storing the primary's value in each contested facet, a facet being compared together with the node's non-facet extras; what it drops is, exactly, below an empty list that a branch fills where the kind that wins is childless |
| MergeOrder.ListsSettle | merge/merge.go:826-960 | the child list of every node all three versions hold: the other branch's where one left it alone, the common one where both agree, the base's ids in order and then both branches' new ids strictly ascending where both only add nothing in common, and otherwise the primary's, or the base's with no pin; a child both added, differently, is the one whose bytes come first |
| MergeOrder.PureIsOnlyAdds | merge/merge.go:512-529 | a head is a pure addition exactly when it holds every base id and any two of them in the base's order |
| MergeCells.CleanLists | merge/merge.go:826-960 | in a clean merge no list was contested and each is settled by that rule |
| MergeReached.CleanThroughout | merge/merge.go:703-960 | relocations included: in a clean merge of unique trees every node met in all three versions, going down from the roots through children all three list, is a node of the merged tree with each facet the changed side's or else the base's, and its list settled |
| MergeReached.MergedThroughout | merge/merge.go:703-960 | the same of any merge, conflicts and all, with the primary's value or list where the branches clash and the base's where nobody is primary |
| MergeTold.CellsAre | merge/merge.go:368-505 | relocations included, a merge of unique trees records exactly these cells, and each says exactly this: which facet of which node, the class, the base's and both sides' texts with their tags, winner and loser of a pin, and the choices offered |
| MergeCells.AgnosticVerdict | merge/merge.go:1050-1059 | the agnostic merge of unique trees is clean exactly when there is no such cell, and otherwise refuses with exactly those |
| MergeCells.AuthoredVerdict | merge/merge.go:1066-1082 | the authored merge refuses exactly when there is such a cell and not exactly one author is primary; refused or resolved, it lists exactly those cells |
| MergeTold.PlacementMeans | merge/merge.go:586-597 | the placement index of a unique tree names the node an id hangs under, and none for the root |
| MergeTold.SubIsFound | merge/merge.go:599-613 | the node index of a unique tree holds what a search finds |
| MergeCells.CellsExactly | merge/merge.go:206-305 | a facet cell is recorded exactly for the nodes all three versions hold whose value, taken together with the extras, both branches changed, and differently; whatever else is in conflict, under any authorship |
| MergeCells.ExtrasContestTooltip | merge/merge.go:299-305 | one branch edits an extra, the other the tooltip: the tooltip is contested though one side changed it; the merge refuses, and pinned to the first branch keeps the old tooltip |
| MergeCells.OnePrimaryNeverRefuses | merge/merge.go:1066-1082 | with exactly one primary author no merge is refused, and every cell is returned as resolved |
| MergeContent.StyleSettles | merge/merge.go:446-502 | each style member settles on its own, absence and default spelling included |
| MergeContent.LostIsGone | merge/merge.go:957-960 | what lies below such a container is in no merged tree, though a branch holds it and the base does not |
| DocumentedGaps.MergeDropsAddedChild | merge/merge.go:957-960 | the law at work: a clean merge of three small trees loses the child one side added |
| MergeEnvelope.CellsOnce | merge/merge.go:986-989 | every (node, facet) cell of a merge of unique trees is recorded once |
| MergeEnvelope.EnvelopeSorted | merge/merge.go:990-1000 | the sorted envelope holds the very cells, by node id and then by facet in the order written out |
| Ordinal.LessIs | merge/merge.go:972-982 | the order of ids: a proper prefix first, otherwise the first differing character decides |
| MergeEnvelope.EnvelopeCanonical | merge/merge.go:990-1000 | the sorted envelope depends on which cells were refused, not on the order they were met |
| MergeRun.DetectConcurrentMoves | merge/merge.go:641-700 | the pre-pass loop appends exactly the move cells, node cells only where content differs too |
| MergeRun.RecordDeletes | merge/merge.go:778-824 | the delete/modify loop appends a cell for each child one side edited and the other removed from its whole tree |
| MergeRun.RunMerge3 | merge/merge.go:703-960 | the recursion on one shared conflict list computes the specified node and appends the specified cells |
| MergeRun.RunMerge3Way | merge/merge.go:1050-1059 | pre-pass then recursion, accepted exactly when the list stays empty; what it returns is told by AgnosticVerdict, CleanThroughout, CleanLists and CleanMergeLaw |
| MergeRun.RunMerge3WayWithAuthor | merge/merge.go:1066-1082 | only cells without a held primacy block; what it returns is told by AuthoredVerdict, MergedThroughout and ListsSettle |
| OpChain.VerifyChain | opstream/chain.go:151-173 | none exactly when every record is contiguous from 1, linked to the one before and hashed; otherwise the first record that breaks the chain, and whether by its sequence, its previous hash or its own hash, asked in that order |
| OpChain.ChainedIs | opstream/chain.go:147-173 | no violation found is every record in its place |
| OpChain.SameHeadSameHistory | opstream/chain.go:84-136 | two verified chains ending in the same hash have the same length and agree record by record on everything hashed |
| OpChain.TamperEvidence | opstream/chain.go:130-173 | replacing a record passes verification with the same head exactly when every hashed field is kept |
| OpChain.StreamIdUnprotected | opstream/chain.go:84-98 | the stream id is not hashed: relabelling a record passes verification |
| OpChain.HeadsDiffer | opstream/chain.go:130-136 | under a sound hash no earlier head of a stream comes back, so a head comparison excludes ABA |
| OpSink.InMemorySink.constructor | opstream/sink.go:82-84 | a new sink is empty |
| OpSink.InMemorySink.Append | opstream/sink.go:87-103 | a taken sequence is refused and changes nothing; otherwise records and head both advance |
| OpSink.InMemorySink.Replay | opstream/sink.go:106-117 | the records of a range of sequences, ascending |
| OpSink.ReplayHolds | opstream/sink.go:106-117 | a replay holds exactly the records whose sequence is in the range, each as often as the stream does, by ascending sequence |
| OpSink.InMemorySink.Head | opstream/sink.go:147-154 | the maintained head is the last record's hash, or genesis |
| OpSink.InMemorySink.LatestSequence | opstream/sink.go:120-130 | the loop's running maximum is the highest sequence, or 0 |
| OpSink.LatestBounds | opstream/sink.go:120-130 | no sequence is above the latest, and the latest is 0 or taken |
| OpSink.InMemorySink.AppendIf | opstream/sink.go:160-174 | stale head first, then duplicate, then the append, as one step |
| OpSink.CompareMeans | opstream/sink.go:160-174 | a head other than the expected one is answered with the head there is, before the sequence is looked for |
| OpSink.TryAppend | opstream/replay.go:167-198 | one attempt among arbitrary other writers: on a verified stream it lands the next record or sees a stale head, never a duplicate |
| OpSink.AppendNext | opstream/replay.go:159-205 | the retry loop among arbitrary other writers: the record carries the call's stream, op, user, time and prompt as a success, hashed with its place; the stream stays verified, no duplicate is ever reported, and giving up takes at least eight foreign records |
| OpSink.SequenceFirstCollides | opstream/replay.go:144-151 | the read order is load-bearing: reading the sequence before the head turns a race into a duplicate |
| OpSink.NextKeepsChain | opstream/replay.go:168-185 | the next record keeps a verified stream verified |
| OpSink.NextFollows | opstream/replay.go:167-185 | the next record carries the call's context, is linked to the stream's last hash or sixty-four zeros, and is numbered one past its highest sequence |
| OpSink.AppendOp | opstream/replay.go:104-133 | the plain append writes a record that carries the call's stream, op, user, time and prompt, on a verified stream right after its last, or reports the gap |
| OpSink.PlainAppendAgrees | opstream/replay.go:77-133 | on a verified stream the plain append writes the very record the compared one does |
| OpSink.NoGap | opstream/replay.go:77-88 | on the in-memory sink the gap refusal cannot happen |
| OpSink.ReplayTail | opstream/sink.go:106-117 | replaying a verified stream from a position gives exactly its tail |
| AppendProtocol.EveryRunVerifies | opstream/replay.go:159-205 | for any number of calls under every interleaving of their steps, every stream verifies and no call is refused for a duplicate |
| AppendProtocol.AppendsAreExact | opstream/replay.go:159-205 | in every run each record was appended by exactly one call, which answered with it, and carries the stream, op, user, time and prompt that call was begun with; a refused call appended nothing |
| AppendProtocol.ExhaustionNeedsContention | opstream/replay.go:138-204 | in every run a call that gives up made eight attempts and saw at least eight appends by other calls since it began |
| AppendProtocol.UndisturbedLands | opstream/replay.go:159-205 | in every run a call whose next three steps no other call interrupts lands, right after what the stream held |
| OpReplay.ApplyTo | opstream/replay.go:20-30 | the fold of the records through the engine, or the first refusal with the sequence of the record it came from |
| OpReplay.ApplyAndPersist | opstream/replay.go:219-226 | the answer is the apply's whatever became of the append; an accepted op is logged once, as a record that carries the call's context and it, unless other writers came in between; a refused one not at all; a sole writer's log replays to its tree |
| OpReplay.ReplayStream | opstream/replay.go:36-42 | a range replayed from a tree, the end defaulting to the latest sequence |
| OpReplay.CheckpointResume | opstream/replay.go:32-42 | resuming one past a checkpoint from its snapshot ends where a full replay ends, refusals included |
| Driver.SeenIsFound | serverdriven/driver.go:188-235 | the session's own search, node before sub-nodes, finds what the engine's search by position finds, on every tree |
| Driver.Session.Step | serverdriven/driver.go:133-183 | ops are committed exactly when the event's node is in the tree and raises it, the handler produced them, the gate withholds nothing from any and they apply in turn, leaving the tree; each of the five refusals exactly when its own condition holds, a capability refusal with what is withheld from the first such op, and the tree kept; well-formedness is kept |
| Driver.StepMeans | serverdriven/driver.go:133-183 | the order of questions has that meaning |
| Driver.OneMeaning | serverdriven/driver.go:133-183 | and no answer has another, so each is given exactly when its condition holds |
| Driver.LegitimateIs | serverdriven/driver.go:59-84 | the events a kind raises, read from the event's side |
| Driver.ScriptLeads | serverdriven/driver.go:169-181 | ops that run are ops each accepted on the tree the one before it left |
| Connection.Connection.constructor | serverdriven/connection.go:94-110 | a new connection is at sequence 0 with nothing buffered |
| Connection.Connection.Handle | serverdriven/connection.go:128-149 | a committing step pushes its ops as the next frame; a refusal pushes only what the host projects and keeps the tree; the answer is what Step's conditions say; without a projection the frames always lead from the first tree to the session's |
| Connection.Connection.PushOps | serverdriven/connection.go:153-158 | the frame is numbered, buffered and pushed, and stays buffered when the push is lost |
| Connection.Connection.BufferFrame | serverdriven/connection.go:162-167 | the buffer is always the last frames up to its capacity |
| Connection.Connection.Resync | serverdriven/connection.go:175-188 | the retained frames newer than a sequence are pushed once each in order, up to the first lost push |
| Connection.ResyncWindow | serverdriven/connection.go:169-174 | a resync carries exactly the frames after k precisely for clients within the retained window, and the whole retained tail otherwise |
| Connection.ResyncCatchesUp | serverdriven/connection.go:169-188 | a client within the window that applies them ends at the tree the whole history leads to |
| Connection.Reconnect | serverdriven/connection.go:169-188 | resync and client together: exactly frames k+1 on, and the client's tree is the session's |
| Frames.WriteFrame | serverdriven/wsframe.go:78-97 | the bytes written are the final-frame bit with the opcode, the length in seven bits or 126 and two bytes or 127 and eight, high byte first, and the payload, as in section 5.2 of RFC 6455; a write that fails leaves exactly the prefix the peer took |
| Frames.ReadFrame | serverdriven/wsframe.go:150-215 | on every byte stream the answer is what the header's bits say: short, refused as protocol error or too big exactly when, or the payload with each byte unmasked, and what is left after it; a positive limit bounds the buffer it allocates and excludes a crash |
| Frames.Unmask | serverdriven/wsframe.go:206-210 | the in-place loop is exclusive-or with the repeating key (section 5.3 of RFC 6455) |
| Frames.XorIs | serverdriven/wsframe.go:206-210 | a bit of the combined byte is set where exactly one of the two has it set |
| Frames.RoundTrip | serverdriven/wsframe.go:78-215 | reading a written frame, masked or not and whatever follows, gives it back, or refuses it exactly for control length, missing mask or the limit |
| Frames.FramesComeApart | serverdriven/wsframe.go:78-215 | concatenated frames come apart again, each where it began |
| Frames.CloseIsReadable | serverdriven/wsframe.go:123-131 | a close frame is readable whatever its reason, carries its code and as much of the reason as fits 125 bytes (section 5.5.1 of RFC 6455) |
| PlacementLaws.MoveOpLands | ops/placement.go:456-475 | a move op applies: the node stands among the destination's other children as placed, the old parent lacks it, no other node changes in any way; the op is a bare move when the node ends up last, else a move and the order restated |
| PlacementVerdict.MoveOpVerdict | ops/placement.go:456-475 | the engine accepts an emitted move exactly when the destination has depth left for the subtree; the reorder leg changes no measure |
| PlacementLaws.MoveBack | ops/placement.go:456-475 | moving the node back to its old place gives the original tree |
| PlacementLaws.CanPlaceLast | ops/placement.go:345-384 | the pre-check with Last accepts exactly the moves the engine accepts |
| PlacementLaws.RepositionMeans | ops/placement.go:231-279 | only an unknown kind or an anchor that is the node itself or outside the list is refused, each with its code; otherwise the other siblings keep their order and the node sits where the placement says |
| PlacementLaws.PlaceOpLands | ops/placement.go:414-442 | a placed insert applies: the child stands among the destination's children as placed, in a tree otherwise unchanged; the op is a bare insert when it ends up last, else an insert and the order restated |
| PlacementCodes.MoveCodes | ops/placement.go:93-120 | a refused move carries the code the engine's refusal corresponds to, except exactly where no child list holds the node and the engine asks about the destination first |
| PlacementCodes.PlaceCodes | ops/placement.go:88-107 | an insert at the end of a list is refused exactly when the engine refuses it, with the corresponding code |
| PlacementCodes.CanPlaceRefuses | ops/placement.go:345-384 | the move check refuses exactly when a table over the tree says so, with that code: nowhere listed, into itself, below itself, the destination, the place in it |
| PlacementCodes.MoveOpRefuses | ops/placement.go:448-475 | so does the move helper |
| PlacementCodes.PlaceOpRefuses | ops/placement.go:406-442 | a placed insert is refused exactly for its destination, a shared id, or its placement, with that code |
| PlacementCodes.NudgeOpRefuses | ops/placement.go:488-539 | a nudge is refused exactly for the root, for a node no list holds, and past an end of its list, with that code |
| PlacementVerdict.PlaceOpVerdict | ops/placement.go:414-442 | the engine accepts an emitted insert exactly when the child repeats no id of its own and the destination has room in depth and count |
| DocumentedGaps.PlaceOpFalsePermit | ops/placement.go:88-91 | a child that repeats an id of its own is permitted by the helper and refused by the engine |
| PlacementLaws.PlaceUndo | ops/placement.go:414-442 | removing what was placed gives the original tree |
| PlacementLaws.NudgeLands | ops/placement.go:496-539 | a nudge applies, under the guards too, and exchanges exactly the two siblings |
| PlacementLaws.NudgeBack | ops/placement.go:496-539 | nudging back by the same distance gives the original tree |
| Table.TableIsTree | ops/traverse.go:93-191 | the laws above are about whole trees: a tree without repeats is determined by its rows of own content and child ids |
| Clone.DerivedIds | ops/placement.go:167-177 | the probe terminates for every finite taken set, with the copy suffix if that is free, else the first free number from two on after it |
| Clone.SequentialIds.Fresh | ops/placement.go:184-195 | the first free number of the prefix after those the counter has passed, and the counter never goes back |
| Clone.CandidateInjective | ops/placement.go:167-195 | a strategy never tries one id twice |
| Clone.RemapForInsert | ops/placement.go:608-640 | the loop over the incoming ids mints once per colliding id and rewrites the subtree by that renaming |
| CloneLaws.RenamingMeans | ops/placement.go:608-640 | exactly the colliding ids are renamed, injectively, to ids new to both trees |
| CloneLaws.CopyNames | ops/placement.go:608-640 | under the default strategy every colliding id is given its first free copy name, the names given before it being taken too |
| CloneLaws.CloneApart | ops/placement.go:608-640 | the copy shares no id with the tree it enters |
| CloneLaws.CloneUnique | ops/placement.go:608-640 | a copy of a subtree without repeats has none |
| CloneLaws.CloneShape | ops/placement.go:590-602 | renaming back gives the source, ids without a collision stay in place |
| CloneLaws.PasteRefuses | ops/placement.go:679-692 | a paste is refused only for its destination or placement, never as a duplicate |
| CloneLaws.PasteLands | ops/placement.go:686-692 | otherwise its op applies, the copy stands as placed, and the engine accepts it exactly when the destination has room for the source |
| CloneLaws.PasteVerdict | ops/placement.go:686-692 | for anything pasted, the engine accepts the op exactly when the source repeats no id and there is room for it |
| CloneLaws.PasteOpLands | ops/placement.go:679-692 | the default paste is refused exactly for destination or placement; otherwise its op puts a copy with ids of its own, renamed back the source, where the target says |
| CloneLaws.DuplicateOpLands | ops/placement.go:646-670 | the default duplicate likewise, refused also when the tree lacks the source |
| CloneLaws.SequentialPasteLands | ops/placement.go:184-195 | the same under the counter strategy, from any counter |
| CloneLaws.DuplicateIsPaste | ops/placement.go:656-670 | a duplicate is the paste of a node of the tree itself |
| Emphasis.Resolve | renderer/markdown.go:710-778 | the resolver terminates although its cursor goes back, keeps the text, leaves no two runs that the rule of three, written out, would still pair, and gives what pairing from the start of the list every time gives |
| Emphasis.FindOpener | renderer/markdown.go:718-732 | the nearest opener that may pair, by the rule of three |
| Emphasis.ProcessEmphasis | renderer/markdown.go:710-789 | the inlines are those of the cursor-free rule, the leftmost closer with an opener wrapped with its nearest opener until none is left; they stand for the token string in order; at any depth a wrapper was made from two runs that may meet, is strike for '~', strong when both held two delimiters and plain when one held a single one, takes two or two or one from each side, and stands next to what they kept |
| Emphasis.QuietedStep | renderer/markdown.go:733-740 | turning a closer without an opener into text changes no later pairing |
| ThemeBuild.FieldMap.Insert | thememanifest/encode.go:78-93 | the nested maps, shared by reference and filled in place, stand for the tree with the leaf inserted; groups never share a map |
| ThemeBuild.TokensTree | thememanifest/encode.go:95-101 | the maps built in place stand for the tokens inserted one after another |
| ThemeLaws.SurvivorStands | thememanifest/encode.go:41-55 | a token no later one collides with stands at its path as an object of exactly its value and the type, description and role it has |
| ThemeLaws.InsertLookup | thememanifest/encode.go:78-93 | an insert writes its path and clears exactly what that path runs through or covers |
| ThemeLaws.WalkOfBuilt | thememanifest/decode.go:79-111 | the walk gives exactly the tokens no later one collides with, in path order |
| ThemeLaws.Fixpoint | thememanifest/encode.go:95-101 | build, walk, build is build |
| ThemeLaws.CleanExactly | thememanifest/decode.go:79-111 | a token alone is read back exactly when no segment starts with '$' and its first segment is not empty with others after it |

## Left out

- The wire decoder, the IDL tables and canonical number and string layout: only their results reach these engines.
- Ops that are not decoded (fields of the wrong shape), and the texts of error messages; a state block that is absent is kept, as `NoState`.
- The arms of the merge for a facet that cannot be encoded: encoding is equality here and cannot fail.
- The per-kind coercion tables of `UpdateProp`: opaque functions, as said above.
- HTML rendering, the block parser and the tokenizer in front of `Emphasis`, the egress policy: string assembly.
- Sockets, the HTTP upgrade, SSE, pings, deadlines, context cancellation and panic recovery; a recovered handler panic is one of the answers a handler may give.
- `EncodeEnvelope`, `FormatVersion`, `SnapshotHash`, `Streams` and `OnSinkError`: easy members.
- The role, invariant and metadata parts of a theme manifest.
- Emphasis.Resolve: tokens are values rather than shared pointers; the two tokens whose counts the source lowers are dropped from the list in the same step.
- DiffRoundTrip.RoundTrip: the target is taken to be within the limits, as a decoded tree is.
- MergeContent.CleanMergeLaw: which ids survive is stated for trees that agree on where ids hang; what the nodes met hold is stated for all unique trees by MergeReached.CleanThroughout.
- MergeContent.PinnedMergeLaw: likewise.
- MergeRun.RunMerge3Way: says which cells a refusal returns, each once, and not the order they are met in, which SortCanonical removes.
- MergeRun.RunMerge3WayWithAuthor: likewise.
- MergeLaws.Agreement: styles are in the form the engine stores, no member at its default.
- Clone.RemapForInsert: a strategy is a state-passing function that returns an id not taken, which is what the seam asks of one.
