# Verified models of four parts of the repository

This project models four parts of the repository in Dafny and proves what they promise.
`dafny verify dfyconfig.toml` checks all of it.

**The EPC thread pool** (`Epc`, `EpcLockGranular`, `EpcWakeUp`, `EpcExecutor`, `EpcAtomic`, `EpcThreadPool`). Events
carry an optional collision; those with the same collision are to run one at a time and in order, and one with the top
collision is to run alone. `EpcThreadPool` is the pool as a class; each of its methods is proved to do what a function
of `Epc` says. Three machines then interleave those functions. In `EpcLockGranular` every section under the push lock
is a step of its own, as in the code. There nothing is lost or doubled and no wake-up is lost (`EpcWakeUp`), but the
exclusion promises fail for what is handed to the executor, and it is proved exactly when: in a run they are kept if
and only if no thread comes late to the collision queue of a task it has ended, and over all runs they are kept if and
only if the pool has room for one task. `EpcExecutor` adds the executor's own threads, of which there are no more than
`corePoolSize`; its runs are proved to be runs at the grain of the lock. Among the tasks that really run, the
exclusion promises are kept by all runs if and only if there is one such thread. In `EpcAtomic` it is assumed that
what a thread does after a task (`afterRun`) is one step; under that assumption all the promises are proved for all
runs, of the tasks handed over and so of those that run.

**The diff engine** (`DiffText` to `DiffEscape`). Every stage must keep the text before and the text after. A list of
diffs is an object whose entries are spliced in place. `DiffDistance` says how far apart two texts are: how many units
must be deleted or inserted at least. The bisection is proved to split where a shortest way from text to text passes,
never in a corner of the grid, which is what lets the recursion come to an end; without half matches, line mode and
deadline the diff is a shortest. A half match can lead away from the shortest way (`DiffDetour`). Line mode can lose
text (a line's number is kept in 16 bits) or fail (the table of lines is a plain object that a line can make
unusable); `DiffLoss` gives the condition under which neither happens, and texts that do not meet it. The texts are
sequences of 16-bit code units. Whether a timeout is set is a parameter (`halves`), and so is whether there is a
deadline (`timed`); if there is one, it may pass at any time.

**The Vue runtime** (`VueChildren`, `VueWatchers`, `VueScheduler`). Child reconciliation against the children of a DOM
element, the graph of watchers and dependencies, and the scheduler whose queue grows while it is flushed.

**Algorithmic cores** (`HeapSort`, `QuickSort`, `FindMaxK`, `Snowflake`, `ConsistentHash`, `MsecCounter`, `MapReduce`).

Where code and promise differ, the model follows the code, and the difference is proved:

- tasks of one collision can run together and a task can run beside a top task (`EpcExecutor.KeyExclusionFails`,
  `EpcExecutor.TopAloneFails`), and more tasks can be handed over than the pool has room for (`PoolBoundFails`);
- the diff of two texts with 65536 different lines is not one of those texts (`TooManyLines`), and a first text whose
  last line is `hasOwnProperty` makes the diff fail (`OwnPropertyLine`);
- a half match can keep a diff from being a shortest (`HalfIsNotShortest`);
- sliding an empty edit before an empty equality goes on for ever (`SlideToBest`, `EndlessList`);
- a patch of non-zero length whose start is below -1, or of length zero whose start is negative, is written as a
  header that cannot be read (`HeaderRead`);
- looking up a key such as `constructor` makes reconciliation fail (`InheritedNameFails`);
- removing a node from the hash ring can take other nodes' points with it, and their keys go to others
  (`CollisionLosesNode`, `NoPointLostExactly`, `OwnersKeptExactly`).

## Model

| member | source | states |
|---|---|---|
| EpcThreadPool.EpcThreadPool.constructor | epc/src/main/java/shine/epc/impl/EpcThreadPool.java:77-89 | the pool starts empty; its size is the larger of the core size and the maximal size, each replaced by its default if below one |
| EpcThreadPool.EpcThreadPool.PushEvent | epc/src/main/java/shine/epc/impl/EpcThreadPool.java:125-144 | a push offers the task, lets the main queue be looked at, and changes nothing by its look for deadlocks |
| EpcThreadPool.EpcThreadPool.CheckMainQueue | epc/src/main/java/shine/epc/impl/EpcThreadPool.java:191-240 | the loop over the main queue does what polling one task after the other does, starting, setting aside or making top each of them |
| EpcThreadPool.EpcThreadPool.PollOne | epc/src/main/java/shine/epc/impl/EpcThreadPool.java:211-235 | one polled task begins, waits behind the running task of its collision, or becomes the top task |
| EpcThreadPool.EpcThreadPool.BeginTask | epc/src/main/java/shine/epc/impl/EpcThreadPool.java:147-169 | the whole new state: one more task running, its collision taken unless it is the top one |
| EpcThreadPool.EpcThreadPool.EndTask | epc/src/main/java/shine/epc/impl/EpcThreadPool.java:172-188 | the whole new state: one task fewer, its collision freed or the top task cleared |
| EpcThreadPool.EpcThreadPool.CheckDeadlock | epc/src/main/java/shine/epc/impl/EpcThreadPool.java:243-284 | the repair visits every waiting collision once; in a pool that keeps its invariant it does nothing |
| EpcThreadPool.EpcThreadPool.CheckCollisionQueue | epc/src/main/java/shine/epc/impl/EpcThreadPool.java:319-340 | it starts the first task waiting for a collision exactly if there is one |
| EpcThreadPool.EpcThreadPool.AfterRun | epc/src/main/java/shine/epc/impl/EpcThreadPool.java:287-310 | ending a task, then starting one that waited for it or else looking at the main queue |
| Epc.NoDeadlock | epc/src/main/java/shine/epc/impl/EpcThreadPool.java:247 | there are never more running collisions than running tasks, so the repair branch is never taken |
| Epc.ScanConserved | epc/src/main/java/shine/epc/impl/EpcThreadPool.java:208-236 | looking through the main queue neither loses nor doubles a task |
| Epc.AfterRunConserved | epc/src/main/java/shine/epc/impl/EpcThreadPool.java:287-310 | nor does what follows the end of a task |
| EpcLockGranular.EveryInterleaving | epc/src/main/java/shine/epc/impl/EpcThreadPool.java:159-222 | in every interleaving of locked sections: the counter is the number of running tasks, every running collision is held by a running task, the repair is not triggered, at most one top task runs, and every pushed task is in exactly one place |
| EpcWakeUp.NoLostWakeUp | epc/src/main/java/shine/epc/impl/EpcThreadPool.java:191-304 | in every interleaving, with no thread on its way to a queue: the main queue is empty, or a top task is set, or the pool is full; a pending top task and whatever waits for a collision has something with the executor that will wake it; and unfinished work means that something is with the executor |
| EpcWakeUp.StepWatched | epc/src/main/java/shine/epc/impl/EpcThreadPool.java:287-340 | every step keeps the watch this rests on: who finds nobody waiting after a task goes on to the main queue |
| EpcLockGranular.KeyExclusionExactly | epc/src/main/java/shine/epc/impl/EpcThreadPool.java:286-297 | tasks of one collision are never with the executor together in a run if and only if no late look at a collision queue finds its collision taken again |
| EpcLockGranular.TopAloneExactly | epc/src/main/java/shine/epc/impl/EpcThreadPool.java:201-223 | a top task is always alone with the executor in a run if and only if no late look finds it started |
| EpcLockGranular.PoolBoundExactly | epc/src/main/java/shine/epc/impl/EpcThreadPool.java:192-210 | no more tasks than the pool size are handed over in a run if and only if no late look finds the pool full |
| EpcLockGranular.KeyExclusionFails | epc/src/main/java/shine/epc/impl/EpcThreadPool.java:286-297 | with room for two or more there is a run after which two tasks of one collision are with the executor, the later one handed over first |
| EpcLockGranular.TopAloneFails | epc/src/main/java/shine/epc/impl/EpcThreadPool.java:201-206 | with room for two or more there is a run after which a task is with the executor beside a top task |
| EpcLockGranular.PoolBoundFails | epc/src/main/java/shine/epc/impl/EpcThreadPool.java:324-333 | with room for two or more there is a run after which one task more is handed over than the pool size |
| EpcLockGranular.PromisesKeptExactlyByRoomForOne | epc/src/main/java/shine/epc/impl/EpcThreadPool.java:191-240 | of the tasks handed to the executor, each of the three promises is kept by all runs if and only if the pool size is one |
| EpcExecutor.PromisesKeptExactlyByOneCoreThread | epc/src/main/java/shine/epc/Epc.java:13-17 | tasks of one collision never run at the same time, in any run, if and only if the executor has one core thread, however large the pool; and so it is with a top task running alone |
| EpcExecutor.KeyExclusionFails | epc/src/main/java/shine/epc/impl/EpcThreadPool.java:286-297 | with two core threads or more there is a run after which two tasks of one collision run at the same time |
| EpcExecutor.TopAloneFails | epc/src/main/java/shine/epc/impl/EpcThreadPool.java:201-206 | with two core threads or more there is a run after which a task runs beside a top task |
| EpcExecutor.NoMoreThanCoreThreads | epc/src/main/java/shine/epc/impl/EpcThreadPool.java:82-84 | in every run no more tasks run than there are core threads, each of them handed over and not ended |
| EpcExecutor.RunSeen | epc/src/main/java/shine/epc/impl/EpcThreadPool.java:82-84 | every run with the executor's threads is, but for which thread does what, a run at the grain of the lock, so that all that is proved of those holds of it |
| EpcExecutor.NoLostWakeUp | epc/src/main/java/shine/epc/impl/EpcThreadPool.java:286-310 | with no thread on its way to a queue nothing is left lying, and while work is unfinished a task can be ended or taken by a thread |
| EpcAtomic.RunInvariant | epc/src/main/java/shine/epc/impl/EpcThreadPool.java:125-340 | with atomic completion, every state of every run keeps the invariant that the next three rest on |
| EpcAtomic.CollisionsRunInTurn | epc/src/main/java/shine/epc/Epc.java:13-17 | with atomic completion: at most one task of a collision runs, and those begun, waiting and queued are, in this order, those pushed; waiting collisions are running ones with non-empty queues |
| EpcAtomic.TopTaskIsBarrier | epc/src/main/java/shine/epc/impl/EpcThreadPool.java:201-223 | with atomic completion: all that was pushed before a top task has ended before it begins, it runs alone, and nothing pushed after it begins before it has ended |
| EpcAtomic.NoLostWakeUp | epc/src/main/java/shine/epc/impl/EpcThreadPool.java:192-240 | with atomic completion: the pool size is a bound; with no pusher under way the main queue is empty, or a top task is set, or all threads are busy; and unfinished work means that something runs |
| EpcAtomic.CompletionsDrainThePool | epc/src/main/java/shine/epc/impl/BaseEpc.java:46-56 | with atomic completion: while work is unfinished a completion is possible, and every completion leaves one unfinished task fewer |
| DiffText.CommonPrefix | annotation/src/main/resources/static/backend/js/plugins/diff_match_patch/diff_match_patch.js:11 | bisection finds the length of the longest common prefix |
| DiffText.CommonSuffix | annotation/src/main/resources/static/backend/js/plugins/diff_match_patch/diff_match_patch.js:12 | and that of the longest common suffix |
| DiffText.CommonOverlap | annotation/src/main/resources/static/backend/js/plugins/diff_match_patch/diff_match_patch.js:13 | the result is an overlap of the end of one text with the beginning of the other, and none is longer |
| Diffs.DiffText1 | annotation/src/main/resources/static/backend/js/plugins/diff_match_patch/diff_match_patch.js:26 | the first text of a list is that of its equalities and deletions |
| Diffs.DiffText2 | annotation/src/main/resources/static/backend/js/plugins/diff_match_patch/diff_match_patch.js:26 | the second text of a list is that of its equalities and insertions |
| Diffs.SplicedTexts | annotation/src/main/resources/static/backend/js/plugins/diff_match_patch/diff_match_patch.js:26 | replacing part of a list by what reads the same keeps both texts of the whole list |
| DiffMerge.CleanupMerge | annotation/src/main/resources/static/backend/js/plugins/diff_match_patch/diff_match_patch.js:22-24 | for every list: it comes to an end, both texts are kept, equalities and edits alternate but for a deletion before an insertion that share neither end, no edit between two equalities can be slid over either, and the measure of inserted and deleted units and entries does not grow |
| DiffMerge.MergeRuns | annotation/src/main/resources/static/backend/js/plugins/diff_match_patch/diff_match_patch.js:22-23 | the first pass keeps both texts and merges every run of edits |
| DiffMerge.SlideEdits | annotation/src/main/resources/static/backend/js/plugins/diff_match_patch/diff_match_patch.js:23-24 | the second pass keeps both texts; if it changes something the list gets shorter, otherwise nothing can be slid |
| DiffCleanup.DissolveSemantic | annotation/src/main/resources/static/backend/js/plugins/diff_match_patch/diff_match_patch.js:16 | in spite of its backtracking with a stack pointer that may go below zero: both texts are kept, only equalities no longer than the edits on either side are dissolved, none such is left, and something changes if and only if there was one |
| DiffCleanup.CleanupEfficiency | annotation/src/main/resources/static/backend/js/plugins/diff_match_patch/diff_match_patch.js:21 | the same for equalities that cost more to keep than to edit; if any was dissolved the result is merged and settled |
| DiffCleanup.AppliedFirst | annotation/src/main/resources/static/backend/js/plugins/diff_match_patch/diff_match_patch.js:16 | an equality is dissolved in some step only if the rule applied to one of the list to begin with |
| DiffCleanup.OutweighedExactly | annotation/src/main/resources/static/backend/js/plugins/diff_match_patch/diff_match_patch.js:16 | an equality is outweighed exactly if it is not empty and no longer than what is inserted or what is deleted, whichever is more, on either side up to the next equality |
| DiffCleanup.CostlyExactly | annotation/src/main/resources/static/backend/js/plugins/diff_match_patch/diff_match_patch.js:21 | an equality is costly exactly if it is not empty, shorter than the edit cost, and has insertions and deletions on both sides, or is shorter than half of that and has all but one of the four |
| DiffLossless.SlideToBest | annotation/src/main/resources/static/backend/js/plugins/diff_match_patch/diff_match_patch.js:18-19 | of all places to the right the last best-scoring one is found, never one within words if there is one between words, except that the loop never ends exactly when edit and following equality are empty |
| DiffLossless.Ladder | annotation/src/main/resources/static/backend/js/plugins/diff_match_patch/diff_match_patch.js:18-19 | how good a boundary is, from the characters that meet there: an end of the text, a blank line, a line break, the end of a sentence before whitespace, whitespace, another character that is no letter or digit, the midst of a word, from 6 down to 0 |
| DiffLossless.NotWithinWords | annotation/src/main/resources/static/backend/js/plugins/diff_match_patch/diff_match_patch.js:18-19 | an edit that can be slid to where there is whitespace at both boundaries is not left with letters or digits on both sides of both |
| DiffLossless.CleanupSemanticLossless | annotation/src/main/resources/static/backend/js/plugins/diff_match_patch/diff_match_patch.js:18-20 | both texts are kept, and every edit between equalities has been slid in turn to the best of all places from as far left as it goes; it comes to an end if and only if no edit it comes to is empty with an empty equality behind it |
| DiffLossless.SlidOnce | annotation/src/main/resources/static/backend/js/plugins/diff_match_patch/diff_match_patch.js:18-20 | what is left when all edits have been slid is determined by the list |
| DiffLossless.EndlessList | annotation/src/main/resources/static/backend/js/plugins/diff_match_patch/diff_match_patch.js:18-19 | an equality, an empty insertion and an empty equality: a list on which neither this clean-up nor the semantic one comes to an end |
| DiffLossless.ExtractOverlap | annotation/src/main/resources/static/backend/js/plugins/diff_match_patch/diff_match_patch.js:17 | the longer of the two longest overlaps is taken out as an equality if it is half of either text, and both texts are kept |
| DiffLossless.OverlapExactly | annotation/src/main/resources/static/backend/js/plugins/diff_match_patch/diff_match_patch.js:17 | an equality as long as the longer overlap is put in if that is half of either text or more; otherwise nothing changes |
| DiffLossless.CleanupSemantic | annotation/src/main/resources/static/backend/js/plugins/diff_match_patch/diff_match_patch.js:16-17 | both texts are kept; outweighed equalities have been dissolved and merged, edits slid, overlaps taken out, in this order; it comes to an end if and only if an equality is outweighed to begin with or sliding the list comes to an end |
| DiffLossless.SettledNoHang | annotation/src/main/resources/static/backend/js/plugins/diff_match_patch/diff_match_patch.js:16-20 | a list that the merging clean-up has left is one on which sliding comes to an end |
| DiffHalf.HalfMatch | annotation/src/main/resources/static/backend/js/plugins/diff_match_patch/diff_match_patch.js:14-15 | for texts that pass the length test there is no half exactly if neither the second quarter nor the third leads to one; otherwise the half is what the third leads to, unless the second leads to something longer, and no stretch around a place where either quarter is found is longer |
| DiffHalf.HalfFromIsLongest | annotation/src/main/resources/static/backend/js/plugins/diff_match_patch/diff_match_patch.js:14 | a stretch found with a quarter of the longer text is shared by both texts, and none shared around a place where the quarter is found is longer; if none is found, none is long enough |
| DiffHalf.HalfFromExactly | annotation/src/main/resources/static/backend/js/plugins/diff_match_patch/diff_match_patch.js:14 | a quarter leads to nothing exactly if no stretch of half the longer text is shared around a place where it is found; otherwise to the first of the longest such stretches |
| DiffHalf.HalfOfShares | annotation/src/main/resources/static/backend/js/plugins/diff_match_patch/diff_match_patch.js:14-15 | a common half is part of both texts, in their order, and at least half as long as either |
| DiffDetour.HalfIsNotShortest | annotation/src/main/resources/static/backend/js/plugins/diff_match_patch/diff_match_patch.js:14-15 | for "abcdab" and "bcabc" the half found does not lie on a shortest way: a diff around it has more edits than are needed |
| DiffDistance.NoShorterWay | annotation/src/main/resources/static/backend/js/plugins/diff_match_patch/diff_match_patch.js:7-8 | no way that passes a point is shorter than the distance of the whole texts |
| DiffDistance.ThroughParts | annotation/src/main/resources/static/backend/js/plugins/diff_match_patch/diff_match_patch.js:9 | what a way through a point costs at least is the distance of the parts before it and that of the parts behind it |
| DiffShortest.NoDiffShorter | annotation/src/main/resources/static/backend/js/plugins/diff_match_patch/diff_match_patch.js:2-9 | no diff at all deletes and inserts fewer units than its two texts are apart |
| DiffBisect.FindSplit | annotation/src/main/resources/static/backend/js/plugins/diff_match_patch/diff_match_patch.js:7-8 | the point at which the two fronts meet is neither the first corner of the grid nor the last, and a shortest way leads through it: the distances of the parts on either side add up to that of the texts; if none is found and there is no deadline, the texts are as far apart as their lengths together, with nothing in common |
| DiffBisect.TightNext | annotation/src/main/resources/static/backend/js/plugins/diff_match_patch/diff_match_patch.js:7-8 | a step of either walk keeps its front exact: every diagonal is followed as far as that many edits lead, and no farther, skipped diagonals included |
| DiffBisect.FartherOdd | annotation/src/main/resources/static/backend/js/plugins/diff_match_patch/diff_match_patch.js:7 | if no forward diagonal of turn `v` has met the reverse front, the texts are at least `2 * v + 1` apart |
| DiffBisect.FartherEven | annotation/src/main/resources/static/backend/js/plugins/diff_match_patch/diff_match_patch.js:8 | if no reverse diagonal of turn `v` has met the forward front, they are at least `2 * v + 2` apart |
| DiffBisect.ForwardMeetsShortest | annotation/src/main/resources/static/backend/js/plugins/diff_match_patch/diff_match_patch.js:7 | where a forward diagonal meets the reverse front a shortest way leads through |
| DiffBisect.ReverseMeetsShortest | annotation/src/main/resources/static/backend/js/plugins/diff_match_patch/diff_match_patch.js:8 | and so where a reverse diagonal meets the forward front, through the point that one has come to |
| DiffBisect.NextFront | annotation/src/main/resources/static/backend/js/plugins/diff_match_patch/diff_match_patch.js:7-8 | a step of either walk keeps the invariant of its front, skipped diagonals included |
| DiffBisect.ForwardMeeting | annotation/src/main/resources/static/backend/js/plugins/diff_match_patch/diff_match_patch.js:7-8 | where a forward diagonal meets the reverse front is a proper place to split |
| DiffBisect.ReverseMeeting | annotation/src/main/resources/static/backend/js/plugins/diff_match_patch/diff_match_patch.js:8 | and so is where a reverse diagonal meets the forward front |
| DiffLines.LineTable.NumberOf | annotation/src/main/resources/static/backend/js/plugins/diff_match_patch/diff_match_patch.js:10 | a line gets its number, or there is none exactly if the table's own look-up method has been overwritten by a line; the numbers of all other lines stay, and so does its own but for the line `__proto__`, which is never found |
| DiffLines.LineTable.Munge | annotation/src/main/resources/static/backend/js/plugins/diff_match_patch/diff_match_patch.js:10 | a text, whatever was entered before, becomes one unit a line and the table grows by its lines; it fails exactly if a line entered before is `hasOwnProperty` and there is a line to look up |
| DiffLines.ComesBackLater | annotation/src/main/resources/static/backend/js/plugins/diff_match_patch/diff_match_patch.js:10-11 | with no number beyond 16 bits a text comes back however the table has grown since, even if a later text ends in the line `__proto__` as it does |
| DiffLines.DecodedExactly | annotation/src/main/resources/static/backend/js/plugins/diff_match_patch/diff_match_patch.js:10-11 | a text comes back from its units if and only if the number of each of its lines fits 16 bits |
| DiffLines.BothDecodedExactly | annotation/src/main/resources/static/backend/js/plugins/diff_match_patch/diff_match_patch.js:10-11 | two texts come back if and only if they have fewer than 65536 different lines |
| DiffLines.LossShows | annotation/src/main/resources/static/backend/js/plugins/diff_match_patch/diff_match_patch.js:10-11 | a text that does not come back from its units comes back with fewer lines, since the line numbered 65536 comes back as nothing |
| DiffLines.CharsToLines | annotation/src/main/resources/static/backend/js/plugins/diff_match_patch/diff_match_patch.js:11 | decoding every entry decodes both texts of the list |
| DiffLoss.FewNewlinesLoseNothing | annotation/src/main/resources/static/backend/js/plugins/diff_match_patch/diff_match_patch.js:2-6 | texts with fewer than 65534 newlines between them, the first without the name `hasOwnProperty`, lose nothing whichever way the diff is made |
| DiffLoss.TooManyLines | annotation/src/main/resources/static/backend/js/plugins/diff_match_patch/diff_match_patch.js:4-6 | a text of 131072 units and one of 101 that are diffed by line and lose something |
| DiffLoss.OwnPropertyLine | annotation/src/main/resources/static/backend/js/plugins/diff_match_patch/diff_match_patch.js:10 | a text that ends in the line `hasOwnProperty` and one of 101 units that are diffed by line and fail |
| DiffLoss.PartsRegain | annotation/src/main/resources/static/backend/js/plugins/diff_match_patch/diff_match_patch.js:4-5 | two parts around a common stretch, each of which is right or does not even contain what it should be, give the right whole only if both are right, and otherwise a whole that does not contain it |
| DiffMain.DiffMain | annotation/src/main/resources/static/backend/js/plugins/diff_match_patch/diff_match_patch.js:2-3 | for all texts and any deadline, with and without a timeout: the result is merged and settled; without line mode it leads from the first text to the second; without half matches and deadline, and without line mode unless a text has no more than 100 units, it is a shortest diff: it deletes and inserts as many units as the texts are apart; with line mode a diff is made and leads there if and only if nothing is lost on the way; a diff that does not lead there gives a text that does not even contain the one it should be |
| DiffMain.Compute | annotation/src/main/resources/static/backend/js/plugins/diff_match_patch/diff_match_patch.js:4-5 | texts without common ends: an empty text, one within the other and a single unit not found are dealt with as shortly as can be; a half, if one is tried and found, is kept as it is with a diff on either side |
| DiffMain.DiffHalves | annotation/src/main/resources/static/backend/js/plugins/diff_match_patch/diff_match_patch.js:4-5 | the diffs of two halves and the stretch between them lead from text to text if and only if no half loses anything: what one loses the other never makes up for; without line mode the diffs on either side lead from part to part |
| DiffMain.LineMode | annotation/src/main/resources/static/backend/js/plugins/diff_match_patch/diff_match_patch.js:6 | it fails exactly if the first text has the line `hasOwnProperty`; otherwise its diff leads from text to text if and only if there are fewer than 65536 different lines |
| DiffMain.RediffRuns | annotation/src/main/resources/static/backend/js/plugins/diff_match_patch/diff_match_patch.js:6 | diffing again whatever lines were replaced keeps both texts; without half matches and deadline every run of edits then deletes and inserts as many units as its texts are apart |
| DiffMain.Bisect | annotation/src/main/resources/static/backend/js/plugins/diff_match_patch/diff_match_patch.js:7-9 | whether a split is found or time runs out, the diff leads from text to text; without a deadline it is made of the diffs on either side of a point on a shortest way, or replaces one text by the other if they have nothing in common; without half matches too it is a shortest |
| DiffDelta.ToDelta | annotation/src/main/resources/static/backend/js/plugins/diff_match_patch/diff_match_patch.js:27 | there is a delta exactly if every inserted text can be encoded, and it is the tokens joined by tabs |
| DiffDelta.TokenSays | annotation/src/main/resources/static/backend/js/plugins/diff_match_patch/diff_match_patch.js:27 | a token is `+` and the encoded text, or `-` or `=` and how many units are deleted or kept |
| DiffDelta.FromDelta | annotation/src/main/resources/static/backend/js/plugins/diff_match_patch/diff_match_patch.js:28-29 | reading token by token, with all its errors, is what `Decoded` describes |
| DiffDelta.DeltaRoundTrip | annotation/src/main/resources/static/backend/js/plugins/diff_match_patch/diff_match_patch.js:27-29 | the delta of any diff, read against the diff's first text, gives the diff back |
| DiffDelta.AcceptedDelta | annotation/src/main/resources/static/backend/js/plugins/diff_match_patch/diff_match_patch.js:28-29 | whatever delta is accepted for a text, the diff it gives is one of that text |
| DiffEscape.PercentCodingIsFaithful | annotation/src/main/resources/static/backend/js/plugins/diff_match_patch/diff_match_patch.js:27-29 | there is a coding that encodes every text and meets what the round trips ask of one |
| DiffPatch.ToText | annotation/src/main/resources/static/backend/js/plugins/diff_match_patch/diff_match_patch.js:45-48 | patches have a text exactly if all their diffs can be encoded |
| DiffPatch.RangeSays | annotation/src/main/resources/static/backend/js/plugins/diff_match_patch/diff_match_patch.js:48 | a range counts from 1, an empty one from 0, and its length follows a comma unless it is 1 |
| DiffPatch.HeaderSays | annotation/src/main/resources/static/backend/js/plugins/diff_match_patch/diff_match_patch.js:48 | the header has the range in the first text behind its minus sign and that in the second behind its plus sign |
| DiffPatch.DiffLineSays | annotation/src/main/resources/static/backend/js/plugins/diff_match_patch/diff_match_patch.js:48 | the line of a diff is its sign and its encoded text |
| DiffPatch.FromText | annotation/src/main/resources/static/backend/js/plugins/diff_match_patch/diff_match_patch.js:46-47 | reading the lines, with all its errors, is what `Parsed` describes |
| DiffPatch.HeaderRead | annotation/src/main/resources/static/backend/js/plugins/diff_match_patch/diff_match_patch.js:46-48 | a header, in each of its forms for lengths 0, 1 and more, is read again if and only if no printed position is negative |
| DiffPatch.PatchRoundTrip | annotation/src/main/resources/static/backend/js/plugins/diff_match_patch/diff_match_patch.js:45-48 | patches written as text are read again, all of them, if and only if all their positions can be printed |
| VueChildren.UpdateChildren | annotation/src/main/resources/static/backend/js/vue.js:5029-5102 | the pass succeeds if and only if it looks up no misleading key; then the children are exactly the new nodes' elements in order, each once; an element is used again only for a node with the same key, tag, comment flag and presence of data, and for inputs the same type, and is for a keyed node whenever there is such an old one; equal nodes at the beginning of both lists keep their elements, so that an unchanged list keeps all |
| VueChildren.SameVnodeExactly | annotation/src/main/resources/static/backend/js/vue.js:4723-4740 | which nodes are the same: those that key, tag, comment flag, presence of data and, for inputs, the type do not tell apart |
| VueChildren.NoneMisled | annotation/src/main/resources/static/backend/js/vue.js:4743-4751 | a pass whose new nodes all have keys that are not inherited names, or that old nodes have, succeeds |
| VueChildren.InheritedNameFails | annotation/src/main/resources/static/backend/js/vue.js:4743-4751 | a one-node list replaced by a node with the key `constructor` fails |
| VueChildren.Turn | annotation/src/main/resources/static/backend/js/vue.js:5046-5094 | every branch of the loop keeps the layout of the children and the claims on elements, and leaves fewer nodes to deal with; which ends of the lists are compared first, and what is done where they are the same |
| VueChildren.CreateKeyToOldIdx | annotation/src/main/resources/static/backend/js/vue.js:4743-4751 | every entry leads to a node with its key, and every key that can be entered has one, the last of those with that key |
| VueChildren.KeyFound | annotation/src/main/resources/static/backend/js/vue.js:5072-5073 | the table finds the old node for every new node still to be dealt with, though some old nodes have been used |
| VueChildren.AddVnodes | annotation/src/main/resources/static/backend/js/vue.js:4966-4970 | new elements for all new nodes left, in order, in front of those behind them |
| VueChildren.RemoveVnodes | annotation/src/main/resources/static/backend/js/vue.js:4986-4998 | once the elements of the old nodes left are removed only the new nodes' elements remain |
| VueChildren.LayoutMoveRight | annotation/src/main/resources/static/backend/js/vue.js:5058-5062 | moving the first old element behind the last puts it in front of those dealt with at the end |
| VueChildren.LayoutMoveLeft | annotation/src/main/resources/static/backend/js/vue.js:5085-5088 | moving any old element in front of the first puts it behind those dealt with at the beginning |
| VueWatchers.SubscriptionsMirrored | annotation/src/main/resources/static/backend/js/vue.js:2739-2797 | after any script of evaluations nested in each other, dependency reads and teardowns: an active watcher is subscribed to a dependency exactly once if it has it and not at all if not, its ids are those of its dependencies, and nothing is left under collection |
| VueWatchers.EvaluationSubscribes | annotation/src/main/resources/static/backend/js/vue.js:2739-2797 | an evaluation that does not re-enter its watcher leaves it subscribed exactly to what was read in its course |
| VueWatchers.RunSubscribes | annotation/src/main/resources/static/backend/js/vue.js:2818-2855 | running or evaluating an active watcher that is idle leaves it, if it is still active, subscribed once to exactly what was read in its course, and to nothing else |
| VueWatchers.RunOfInactive | annotation/src/main/resources/static/backend/js/vue.js:2818-2820 | running a watcher that has been torn down changes nothing |
| VueWatchers.CreateSubscribes | annotation/src/main/resources/static/backend/js/vue.js:2690-2738 | a new watcher is subscribed to exactly what its first evaluation reads, a lazy one to nothing, all else being as it was |
| VueWatchers.TeardownUnsubscribes | annotation/src/main/resources/static/backend/js/vue.js:2869-2885 | a watcher torn down is subscribed to nothing, and no other watcher changes |
| VueWatchers.TouchSubscribes | annotation/src/main/resources/static/backend/js/vue.js:713-748 | what is touched, or depended on by way of another watcher, the watcher under evaluation is subscribed to |
| VueWatchers.ExecKeeps | annotation/src/main/resources/static/backend/js/vue.js:713-748 | every script keeps the graph wired and the target stack as it was |
| VueWatchers.TeardownKeeps | annotation/src/main/resources/static/backend/js/vue.js:2869-2885 | a teardown keeps all other watchers' subscriptions |
| VueWatchers.Runtime.RunScript | annotation/src/main/resources/static/backend/js/vue.js:2739-2885 | the imperative runtime does what the functions say, nested evaluations included |
| VueWatchers.Runtime.Cleanup | annotation/src/main/resources/static/backend/js/vue.js:2779-2797 | leaving the dependencies not read again, and swapping the collections |
| VueScheduler.Scheduler.QueueWatcher | annotation/src/main/resources/static/backend/js/vue.js:2658-2679 | a watcher not waiting is pushed, or during a flush spliced in so that the part still to be run stays strictly increasing and is exactly what is recorded as waiting |
| VueScheduler.Scheduler.Flush | annotation/src/main/resources/static/backend/js/vue.js:2569-2611 | whatever the running watchers queue: every run is that of the least id waiting; a flush that comes to its end leaves none waiting; it breaks off if and only if a watcher has queued itself more than 100 times; the state is reset |
| VueScheduler.QueuedIsRunLater | annotation/src/main/resources/static/backend/js/vue.js:2585-2605 | in a flush that has come to its end, what a run queued has been run after it |
| VueScheduler.Spliced | annotation/src/main/resources/static/backend/js/vue.js:2665-2671 | the place found from the back, but not before the running watcher, keeps the rest of the queue in order |
| HeapSort.SwapDown | java/src/main/java/com/java/algorithm/HeapSort.java:41-46 | swapping a node with its greatest child moves what is wrong with the heap down to that child |
| HeapSort.MaxHeap | java/src/main/java/com/java/algorithm/HeapSort.java:28-47 | a heap but for one node becomes a heap, the same entries, the rest untouched |
| HeapSort.BuildMaxHeap | java/src/main/java/com/java/algorithm/HeapSort.java:16-23 | any array becomes a heap of the same entries |
| HeapSort.RootIsGreatest | java/src/main/java/com/java/algorithm/HeapSort.java:53-57 | the root that is swapped to the end is the greatest entry of the heap |
| HeapSort.MaximumMoved | java/src/main/java/com/java/algorithm/HeapSort.java:54-59 | that swap leaves a sorted end none of which is less than the rest, and a heap but for its root |
| HeapSort.SortHeap | java/src/main/java/com/java/algorithm/HeapSort.java:52-61 | a heap becomes an ascending permutation |
| HeapSort.Sort | java/src/main/java/com/java/algorithm/HeapSort.java:7-61 | both passes together sort any array of strings |
| QuickSort.Partition | java/src/main/java/com/java/algorithm/QuickSort.java:15-34 | the moving hole divides the stretch at the place the pivot comes to, keeping the entries |
| QuickSort.Sort | java/src/main/java/com/java/algorithm/QuickSort.java:13-39 | the stretch ends up ascending, a permutation, all outside it untouched |
| QuickSort.SidesSorted | java/src/main/java/com/java/algorithm/QuickSort.java:36-37 | sorting both sides of a divided stretch sorts it |
| FindMaxK.PartitionDown | java/src/main/java/com/java/algorithm/FindMaxK.java:29-47 | the same for descending order, the hole being at either end in turn |
| FindMaxK.SortDown | java/src/main/java/com/java/algorithm/FindMaxK.java:50-56 | the stretch ends up descending, a permutation |
| FindMaxK.MaxK | java/src/main/java/com/java/algorithm/FindMaxK.java:15-26 | the entries put out are the k greatest, or none and nothing is changed exactly if k is more than there are |
| Snowflake.SnowflakeIdGenerator.NextId | vertx/src/main/java/shine/spring/util/SnowflakeIdGenerator.java:80-106 | the new state and the id, refusal or wait are what `Next` describes |
| Snowflake.IdsIncrease | vertx/src/main/java/shine/spring/util/SnowflakeIdGenerator.java:80-106 | over any run of calls, clock readings within 41 bits after the start, the ids issued are strictly increasing |
| Snowflake.NextGrows | vertx/src/main/java/shine/spring/util/SnowflakeIdGenerator.java:83-105 | one call issues a larger id than the last, or is refused because the clock moved back and changes nothing |
| Snowflake.NextExactly | vertx/src/main/java/shine/spring/util/SnowflakeIdGenerator.java:80-106 | in a later millisecond the sequence begins at 0, in the same one it goes on up to 4095 and then waits for the first later reading, in an earlier one the call is refused; the id is these numbers side by side |
| Snowflake.WordIsSum | vertx/src/main/java/shine/spring/util/SnowflakeIdGenerator.java:103-105 | for fields in range, shifting and or-ing puts them side by side |
| Snowflake.FieldsDecode | vertx/src/main/java/shine/spring/util/SnowflakeIdGenerator.java:103-105 | timestamp, worker and sequence can be read back from the id |
| Snowflake.WorkersDiffer | vertx/src/main/java/shine/spring/util/SnowflakeIdGenerator.java:103-105 | ids of different workers differ |
| Snowflake.NewGenerator | vertx/src/main/java/shine/spring/util/SnowflakeIdGenerator.java:68-73 | a worker's number is accepted exactly from 0 to 1023 |
| ConsistentHash.Ring.Get | java/src/main/java/com/java/hash/ConsistentHash.java:43-53 | the owner of the next point clockwise, or none exactly if the ring is empty |
| ConsistentHash.PointsAre | java/src/main/java/com/java/hash/ConsistentHash.java:26-36 | a node's points are the hashes of its name with each replica's number behind it, as many as there are replicas unless hashes collide |
| ConsistentHash.AddedOwner | java/src/main/java/com/java/hash/ConsistentHash.java:26-30 | adding a node changes a key's owner to that node or not at all, even where points collide |
| ConsistentHash.RemovedOwner | java/src/main/java/com/java/hash/ConsistentHash.java:32-36 | removing a node whose points are all its own changes the owner of no key it did not own |
| ConsistentHash.NoPointLostExactly | java/src/main/java/com/java/hash/ConsistentHash.java:32-36 | removing a node takes no other node's point off the ring if and only if all its points on the ring are its own |
| ConsistentHash.OwnersKeptExactly | java/src/main/java/com/java/hash/ConsistentHash.java:32-53 | removing a node leaves every key that it did not own with its owner if and only if every point it takes from another node is followed on the ring by one that this node keeps |
| ConsistentHash.RemoveAfterAdd | java/src/main/java/com/java/hash/ConsistentHash.java:26-36 | removing a node after adding it restores the ring if and only if none of its points was there before |
| ConsistentHash.CollisionLosesNode | java/src/main/java/com/java/hash/ConsistentHash.java:32-36 | where points collide removing one node can take another off the ring |
| MsecCounter.Counter.Count | epc/src/main/java/shine/epc/MsecCounter.java:68-79 | after any samples the two arrays are the sorted longest and shortest of all of them and of the sentinels |
| MsecCounter.LongestOfMore | epc/src/main/java/shine/epc/MsecCounter.java:81-86 | one sample more changes the longest only if it exceeds the least of them, which it replaces |
| MsecCounter.ShortestOfMore | epc/src/main/java/shine/epc/MsecCounter.java:88-93 | and the shortest only if it is below the greatest of them |
| MsecCounter.Counter.GetAvgMills | epc/src/main/java/shine/epc/MsecCounter.java:103-105 | the quotient rounded towards zero, for a negative total too, or zero without samples |
| MapReduce.EvaluateExpression | akka/src/main/java/akka/remote/server/MapActor.java:91-119 | the tokens of a line that in lower case are words of letters and not stop words, in order |
| MapReduce.CountedInLine | akka/src/main/java/akka/remote/server/MapActor.java:91-119 | a word is counted as often as a token in lower case is that word, or not at all if it has anything but letters from A to Z in upper case or is a stop word |
| MapReduce.DelimiterSeparates | akka/src/main/java/akka/remote/server/MapActor.java:94-97 | the tokens of a line are those before any delimiter and those behind it |
| MapReduce.Reduce | akka/src/main/java/akka/remote/server/ReduceActor.java:62-77 | how often each word is in a list, and no other entries |
| MapReduce.AggregateActor.AggregateInMemoryReduce | akka/src/main/java/akka/remote/server/AggregateActor.java:40-52 | a partial count is added to the final one, word by word |
| MapReduce.Receive | akka/src/main/java/akka/remote/server/MapReduceActor.java:25-36 | every message but the end mark is passed on to be counted, the display request included, which alone goes both ways |
| MapReduce.StepConserves | akka/src/main/java/akka/remote/server/MapReduceActor.java:25-36 | no delivery, in any order, gains or loses a word |
| MapReduce.QuiescentCount | akka/src/main/java/akka/remote/server/AggregateActor.java:40-52 | with nothing under way the final map is the direct count of all the lines accepted |

## Left out

- EPC: `shutdown`, `shutdownNow` and the dropping of tasks by `beginTask` once the executor is terminating; of the
  executor no more is modelled than its number of threads, any of which may take any task handed over; the thread
  factory, timing, logging and dumps; null events. That `afterRun` is one step is an assumption of `EpcAtomic`, not
  something the code provides.
- DiffMain.DiffMain: how much longer than the shortest a diff can be that is made with half matches, by line or against
  a deadline is not stated.
- DiffLossless.CleanupSemanticLossless: an endless search is modelled by a result that says so, and so is its effect on
  `CleanupSemantic` and `LineMode`.
- Diff engine: null texts, the wall clock, `diff_xIndex`, the HTML form, the Levenshtein distance, fuzzy matching,
  making and applying patches. The two arrays of the bisection are maps. Escaping (`encodeURI`, `decodeURI`) is any
  coding that is faithful in the sense of `DiffCodec.Faithful`.
- VueChildren.UpdateChildren: nodes are values with their elements kept beside them; keys are strings; duplicate keys,
  which the code warns of, are excluded; `removeOnly`, transitions and what patching a node does besides handing over
  its element are left out; the children are not described where a lookup fails. The inherited names are those of the
  language standard.
- VueWatchers: watchers and dependencies are kept by number in one object; getters that throw, synchronous watchers
  and callbacks are left out.
- VueScheduler.Scheduler.Flush: what watchers queue is given as a list of calls, one for each run; a flush for which
  the list is too short is reported as still running, since that a flush comes to its end is not so in general. The
  hooks called after a flush are left out.
- Snowflake: the state, which is shared by all generators of a class loader, is that of one generator.
- ConsistentHash: the hash function is arbitrary.
- MsecCounter, FindMaxK: floating-point numbers are reals; rounding and not-a-number are left out.
- QuickSort, HeapSort: integers are unbounded.
- MapReduce: changing the case of a word, which depends on the locale, and the list of stop words are parameters; the
  answer to the end mark, which passes by the workers, and failures of actors are left out.
- The other demonstration programs of the repository, its Spring, Vert.x, Akka cluster and I/O code, and the jQuery
  plugins.
