# llprof, verified

llprof profiles a running process without sampling. Hooks in the process keep a
calling-context tree per thread and hand out, interval by interval, records of
what changed. A monitor stores those records, adds values up along the tree,
keeps one slice per interval beside the running totals, and can gather the
slices of all threads of all targets into one tree. A browser copies the
monitor's trees and draws them.

This project models both halves and the way they depend on each other, and
proves what they promise, for every sequence of events:

- `CallTree`, `CallTreeRuns`, `Nesting`, `Profiler`: the process. Records exist
  only for nodes touched in the current generation, and buffers are swapped with
  a shared one; the classes of `Profiler` do this in place, the functions of
  `CallTree` say what one hook does, and `CallTreeRuns` compares whole runs with
  a reference that looks at the events alone: a stack and three counters per
  calling context.
- `StoreModel`, `ThreadStores`, `StoreRuns`, `TimeSlices`, `Representations`,
  `SliceChecks`: the monitor's store for one thread. The class `ThreadStore`
  marks, collects and clears in place; `StoreModel` states the result of one
  store as sums over subtrees; the other modules prove what holds after any run
  of stores, of look-ups of slices and, in single-tree mode, of removals of all
  slices. `StoreRuns.PutState` and `StoreRuns.LookState` are the effects proved
  of `ThreadStore.Store` and `ThreadStore.GetTimeSlice`.
- `PathIds`, `GlobalModel`, `GlobalStores`, `GlobalRuns`, `GlobalLedger`,
  `GlobalPaths`, `GlobalWindows`: single-tree mode, in which the class
  `GlobalStore` gathers all stores' slices by the hash of a node's chain of
  names, and answers questions about its own tree and slices.
- `EndToEnd`, `SelfTime`, `WindowTime`, `GlobalCounters`: the process and the
  monitor together, for one thread and for all threads of all targets. A
  monitor's log is any sequence of stores of the buffers a thread handed out, at
  whatever times, with any look-ups in between (`EndToEnd.Feeds`).
- `Viewer`, `ViewerSync`, `PanelLists`, `PanelSquares`: what the browser does
  with the monitor's replies: linking, accumulating, the incrementally sorted
  list and the nested rectangles.
- `NameQuery`: asking a target for names.
- `Wire`, `Forest`, `Sums`, `Ordering`: records, tree shape, sums, id order.

## Assumptions

A hook and a snapshot are each one atomic step, taken by one dispatcher. The
profile columns are the deployed ones: one counter with its total in column 0
and its start value in column 1, and only event columns after them, which the
process leaves at zero (`CallTreeRuns.EventColumnsZero`). Values are integers without bounds. Clock readings are
positive and do not go back (`Nesting.Clocked`, only where time nesting is
concerned). The switch for attribute nodes is off, as it is by default; the test
for their names, which is made all the same, is modelled (see below). A target's
table of names is a fixed function (`StoreModel.Config.nameOf`), and the hash of
path strings is a parameter. Gathering presupposes that it gave no node one of
the two reserved ids 0 and 1 (`PathIds.Unreserved`), and statements about paths
that it does not collide on the strings hashed for the paths they speak of
(`PathIds.CollisionFreeOn`).

## What the proofs showed about the code

- A return that happens in a later interval than its call makes a fresh record,
  whose column 1 is zero, so the monitor then shows start time 0 for a finished
  call. `CallTreeRuns.Shown` says exactly when; nodes with an open call always
  show their start, unless a call around it is named like an attribute (below).
- The running flags are set before the nodes of the buffer are added
  (`webmon/data_store.cpp:680`), so a node that runs in the interval in which it
  first appears is not flagged, nor are its ancestors.
  `Representations.FlagsAreAncestors` has the condition.
- A node whose name begins with '#' is taken for an attribute node also when
  attribute nodes are switched off: `webmon/data_store.cpp:845-893` makes the
  test whatever the switch says. Nothing below such a node is ever cleared. Its
  descendants stay dirty, and what is reported of them is in no total, no slice
  and no gathering tree, for good. Names like that occur: Ruby names an anonymous
  class `#<Class:0x...>`. A store leaves the tree clean exactly if no dirty node
  has such a node above it (`StoreModel.CleanIffSeen`). The run theorems hold for
  all names: they speak of the nodes that are seen (`StoreModel.Seen`), which are
  those of exposed contexts (`EndToEnd.Exposed`), and say that the others show
  zeros. `EndToEnd.CallLost` is a call that is counted and shown as never made.
- The monitor's own check of slices against totals looks up every node of the
  tree and dereferences what it finds (`webmon/data_store.cpp:555-556`). The
  nodes it misses are exactly those that no store since the last removal of
  slices has marked and cleared. Outside single-tree mode a profiled thread's
  check misses the nodes that are not seen and no others
  (`SliceChecks.ThreadCheck`); in single-tree mode, where the check can be asked
  for as well (`webmon/data_store.cpp:1109-1112`), it misses every node once the
  slices have been gathered (`SliceChecks.CheckAfterRemoval`), and before that it
  reports an error for every node but the root that it does find, as only the
  root keeps totals there (`SliceChecks.CheckFindsAll`).
- A store asserts that it finds the slice for the current time
  (`webmon/data_store.cpp:752-753`). That can fail in single-tree mode: after a
  gathering, a viewer that asks for a window beginning in the future moves the
  start of the slices there. `GlobalCounters.AssertionFails` is such a run.
  `GlobalCounters.StoreFindsSlice` has the exact condition for a store, wherever
  nothing stored is waiting to be gathered; `GlobalCounters.ReceiverFindsSlice`
  shows that this is so at every answer of every pass of the receiver, and
  `GlobalCounters.GatheringFindsSlice` has the condition for the gathering.
- In a window a call that began before it and was completed in it counts in
  full, since its whole time arrives with the record of its return. The viewer
  only cuts the value at the window's length (`webmon/files/llprof_ui.js:367-368`).
  So what it shows for a window is at least the time really spent in the window,
  at most the window's length, and too much exactly if such a call carried time
  in and the window was not filled anyway: `WindowTime.WindowShowsTime`.
- A window that begins with the first slice has no slice before it, and takes its
  start reading from that first slice, which was made at its end
  (`webmon/data_store.cpp:485-490`). So the first interval's time is shown, but
  not counted in the window's length; and the window that is the first interval
  alone shows zero for every node: `WindowTime.FirstWindowShowsTime`.
- A slice that is still current when its target is asked again would be lost, as
  `GlobalLedger.Ledger` accounts for. The receiver
  (`webmon/data_store.cpp:107-118`) asks each target once per pass and gathers
  after every pass, so this does not happen: `GlobalLedger.ReceiverDisciplined`.
- Static columns are not gathered, and stay zero in the gathering tree.
- Names that contain a newline, or more names than fit the server's buffer, bind
  ids to wrong names without an error; a question about 8191 ids or more makes
  the target abort; in all other cases every id gets its name.
- The viewer never takes the branch that accumulates a difference
  (`webmon/files/llprof_ui.js:285-288`): `g_clear_cct` is set to true (lines 6,
  326 and 620) and nowhere to false, so in real time each reply is the whole
  current tree, for an emptied view. `ViewerSync.ReloadShowsTree` is about that;
  `ViewerSync.WindowShowsTree` shows that accumulating would be right too.
- A thread's root is never called, so it shows no time, in real time and in every
  window; the viewer takes its children's totals off all the same, so its self
  value is negative as soon as a call at the top has taken time:
  `SelfTime.RootShown`, `WindowTime.RootInWindow`. All other self values in real
  time are not negative.
- With a negative value a child's rectangle can leave its parent's;
  `PanelSquares.InsideAtEverySize` says exactly when it cannot.

## Model

| member | source | states |
|---|---|---|
| Profiler.StartNode | llprofcommon/call_tree.cpp:217-228 | in the deployed layout the loop over columns writes the clock reading to column 1 and nothing else |
| Profiler.EndNode | llprofcommon/call_tree.cpp:230-241 | in the deployed layout the loop adds the time since the start value to column 0 and nothing else |
| Profiler.ThreadInfo.GetCurrentNodeInfo | llprofcommon/call_tree.cpp:425-434 | the current node has a record in this generation afterwards, made only if it had none, and its index is returned |
| Profiler.ThreadInfo.CallHandler | llprofcommon/call_tree.cpp:461-482 | the hook run at a call takes a valid thread to `CallTree.Call` of it |
| Profiler.ThreadInfo.ReturnHandler | llprofcommon/call_tree.cpp:503-529 | the hook run at a return takes a valid thread to `CallTree.Return` of it; at the root nothing happens |
| Profiler.Server.AddThread | llprofcommon/call_tree.cpp:308-333 | a thread's first hook puts a new thread, with the root alone, at the end of the list, with buffers of its own |
| Profiler.Server.GetSerializedBuffer | llprofcommon/call_tree.cpp:575-589 | the thread's records are handed out and its state becomes the snapshot's; buffers are exchanged, stay pairwise distinct and are the same set of objects |
| Profiler.Server.SendProfileData | llprofcommon/server.cpp:111-138 | one request sends, for every thread in list order, exactly its records and then the now-info belonging to them, and ends; every thread has started a new generation and no buffer is shared |
| CallTree.GenerationIffRecord | llprofcommon/call_tree.cpp:365-434 | a node's generation is the thread's exactly if the front buffer has a record for it; that record is the only one, is at the stored index, and has the node's parent and name |
| CallTree.EnterValid | llprofcommon/call_tree.cpp:354-362 | entering a child keeps trie, indexes and records consistent, and ends at the child of that name |
| CallTree.TouchValid | llprofcommon/call_tree.cpp:365-382 | making a record on first touch keeps everything consistent, and the current node then has one |
| CallTreeRuns.LookupPath | llprofcommon/call_tree.cpp:354-362 | following a node's names down the child maps leads back to the node |
| CallTreeRuns.PathInjective | llprofcommon/call_tree.cpp:439-456 | different nodes stand for different chains of names |
| CallTreeRuns.KnownPrefix | llprofcommon/call_tree.cpp:439-456 | with a chain of names all its prefixes have nodes |
| CallTreeRuns.PrefixNodesDiffer | llprofcommon/call_tree.cpp:461-482 | the nodes of the open calls are pairwise distinct, even under recursion |
| CallTreeRuns.RunCurrent | llprofcommon/call_tree.cpp:461-529 | after every run the current node stands for the names of a reference stack on which a return with nothing open is ignored |
| CallTreeRuns.RunStream | llprofcommon/call_tree.cpp:365-382 | in all records handed out, in order, a parent's first record precedes its children's, parent ids are smaller, and every node has been reported |
| CallTreeRuns.EventColumnsZero | llprofcommon/call_tree.cpp:365-382 | in every record of every run the columns after the first two are zero |
| CallTreeRuns.RunCounters | llprofcommon/call_tree.cpp:461-589 | the lazy delta records refine plain counters: for every context and every run, their totals are its number of calls and the summed durations of its completed calls, and their latest start value is the reference's |
| CallTreeRuns.ShownOnStack | llprofcommon/call_tree.cpp:461-482 | no open call's start value is overwritten or reset while it is open |
| Nesting.RunNested | llprofcommon/call_tree.cpp:503-529 | in every reachable state with a clock that does not go back, a non-root node's children together spent no more time than the node, open calls included |
| StoreModel.GainSplit | webmon/data_store.cpp:837-916 | in a plain column the subtree sum of a node that is cleared is its own value plus the subtree sums of those of its children that are, the recursion that clearing runs on |
| StoreModel.StagedStep | webmon/data_store.cpp:701-750 | adding, marking and filling one record more takes the closed form for a prefix of the buffer to that of the longer prefix, also where marking stops at nodes still dirty from before |
| StoreModel.StoreValid | webmon/data_store.cpp:667-755 | a store keeps the tree well formed with complete child sets, leaves no dirty node that clearing gets to, and gives every node the global id of its path |
| StoreModel.CleanIffSeen | webmon/data_store.cpp:845-893 | a store leaves the tree clean if and only if no node that was dirty when clearing began has a proper ancestor, other than the root, whose name begins with '#' |
| ThreadStores.ThreadStore.GetTimeSlice | webmon/data_store.cpp:951-967 | slices are made on demand up to the time asked for, and none for times before the first |
| ThreadStores.ThreadStore.MarkNodeDirty | webmon/data_store.cpp:762-786 | the node and its ancestors up to the first that is dirty already become dirty, with fresh temporaries, and no others |
| ThreadStores.ThreadStore.SetRunning | webmon/data_store.cpp:636-655 | walking up from the running node flags it and its ancestors and nothing else |
| ThreadStores.ThreadStore.FlushTemp | webmon/data_store.cpp:895-915 | a node's temporaries go into its totals and its slice node, which the assertion finds zero |
| ThreadStores.ThreadStore.ClearDirtyNode | webmon/data_store.cpp:837-916 | the recursion, which skips what is below attribute nodes and clears these after their siblings, clears exactly the dirty nodes of the subtree with no attribute node above them, each once, with totals, children sums and slice as given by subtree sums |
| ThreadStores.ThreadStore.TouchGNID | webmon/data_store.cpp:1196-1207 | the node gets the hash of its parent's global id and its own name; the parent is always found |
| ThreadStores.ThreadStore.Store | webmon/data_store.cpp:667-755 | storing a buffer in place yields the tree and the slice of the closed form, and touches no other slice |
| ThreadStores.ThreadStore.MergeSlice | webmon/data_store.cpp:512-528 | all nodes of a slice are accumulated, new ones starting from zero |
| ThreadStores.ThreadStore.MergeTimeSlice | webmon/data_store.cpp:499-531 | a window is the merge of the slices in it; times before the first slice contribute nothing, later ones are padded; the last slice is returned |
| ThreadStores.ThreadStore.GetStartProfileValue | webmon/data_store.cpp:482-497 | the reading of the slice before the window, or of the first slice if that is later, or none |
| ThreadStores.ThreadStore.DumpWindow | webmon/data_store.cpp:582-614 | a reply has the merge of the window's slices, the reading and running node of the last of them, and that start reading |
| ThreadStores.ThreadStore.CheckAllTimeSlice | webmon/data_store.cpp:542-564 | reports exactly the nodes whose totals or children's totals differ from those merged from all slices, and those looked up in vain |
| StoreRuns.SliceSays | webmon/data_store.cpp:837-916 | in either mode a node of a store's slice has the calls and, column by column, what the buffer says about the seen nodes of its subtree or about itself; in a static column the value received, or else the one it had, or zero in single-tree mode |
| StoreRuns.StoreColumn | webmon/data_store.cpp:837-916 | what one store adds to a node's total is what the buffer says about the seen nodes of its subtree, or about the node itself in an A column |
| StoreRuns.InclusiveTotals | webmon/data_store.cpp:820-916 | after any run a plain column holds the sum of everything received for the seen nodes of the subtree, an A column what was received for the node if it is seen, and the children sum is the sum of the children's totals |
| StoreRuns.CountTotals | webmon/data_store.cpp:912-913 | call counts are the sums of those received for nodes that are seen, and zero for the others |
| StoreRuns.StaticTotals | webmon/data_store.cpp:770-773 | a static column holds the last value received, also across intervals without a record, at the nodes that are seen, and zero at the others |
| StoreRuns.SliceFound | webmon/data_store.cpp:951-967 | the slice for a time can be found or made exactly if no store or look-up since the last removal of slices came first with a later time |
| TimeSlices.MergeAppend | webmon/data_store.cpp:499-531 | adjacent windows compose to the larger window, static columns included |
| TimeSlices.MergePadded | webmon/data_store.cpp:951-967 | slices made on demand change no window |
| TimeSlices.MergeDifference | webmon/data_store.cpp:924-940 | a window is the difference of two windows from the beginning, in every summed column |
| Representations.SliceIsMarked | webmon/data_store.cpp:837-843 | a slice's nodes are exactly those with a record, the running node if it was known, and their ancestors up to the first still dirty from before, as far as they are seen |
| Representations.RepresentationsAgree | webmon/data_store.cpp:542-564 | outside single-tree mode, after any run every node has the all-values, children values and call count of the merged slices, and zeros if it is in none |
| Representations.MergedNodes | webmon/data_store.cpp:1299-1302 | in both modes the merged slices have exactly the nodes that the stores since the last removal of slices marked and cleared |
| Representations.KeptIsSeen | webmon/data_store.cpp:551-556 | outside single-tree mode these are all seen nodes as soon as some store found something to mark, and none before, when there is only the root |
| Representations.FlagsAreAncestors | webmon/data_store.cpp:646-655 | after a store the running flags are the running node's ancestors if and only if the node was not made by this very buffer |
| Representations.WindowIsDifference | webmon/data_store.cpp:499-531 | the window for any times p1 <= p2, beginning or ending in a gap, before the first slice or after the last, is the cumulative tree at p2 minus that just before p1, in every summed column |
| Representations.WindowClosed | webmon/data_store.cpp:499-531 | the nodes of any such window are closed under parents and have the root if there are any |
| SliceChecks.CheckFindsNothing | webmon/data_store.cpp:542-564 | in every reachable state of either mode, wherever look-ups have moved the first slice, as long as stores bear times from 0 to now, the check misses exactly the nodes no store since the last removal marked and cleared; outside single-tree mode it finds no difference, and misses the nodes not seen, or the root as long as nothing was marked |
| SliceChecks.CheckFindsAll | webmon/data_store.cpp:533-561 | in single-tree mode the check finds every merged node but the root wrong, and the root exactly if some summed column of it was not zero at the last removal |
| SliceChecks.CheckAfterRemoval | webmon/data_store.cpp:1109-1112 | in single-tree mode, right after a gathering, the check misses every node |
| SliceChecks.ThreadCheck | webmon/data_store.cpp:542-564 | for a profiled thread outside single-tree mode, whenever its buffers are stored and whatever is looked up, the check finds no difference and misses exactly the nodes inside a call named like an attribute |
| EndToEnd.FrontFits | webmon/data_store.cpp:724-739 | every buffer a process hands out has the parents the store needs |
| EndToEnd.StoresRunnable | webmon/data_store.cpp:667-755 | every buffer of every run can be stored, and afterwards the monitor's nodes have the process's ids, parents and names |
| EndToEnd.NextFits | webmon/data_store.cpp:724-739 | whenever a thread's next buffer is handed out, a monitor that has stored all before it finds every parent the buffer needs |
| EndToEnd.MonitorShowsCounters | webmon/data_store.cpp:667-755 | right after a snapshot, at whatever times the buffers are stored and with any look-ups in between, the monitor shows for every exposed context its number of calls, the summed durations of its completed calls and its reported start, for a context inside a call whose name begins with '#' zeros; other contexts were never called |
| EndToEnd.OrdinaryNamesShown | webmon/data_store.h:188-192 | a context that was called, none of whose outer calls has a name that begins with '#', has exactly its own counters |
| EndToEnd.CallLost | webmon/data_store.h:188-192 | a call inside one whose name begins with '#' is counted once by the process and shown zero times |
| EndToEnd.OpenCallsShowTheirStart | llprofcommon/call_tree.cpp:461-482 | after any log of stores of a thread's buffers, column 1 of every node on the stack is the start time of its open call, or zero if a call around it has a name that begins with '#' |
| EndToEnd.StoresMark | webmon/data_store.cpp:646-655 | every snapshot finds something to mark: a new record, or a running node that is known |
| Viewer.ViewerThread.SetRunningNode | webmon/files/llprof_ui.js:169-184 | flags the running node and its ancestors and nothing else |
| Viewer.ViewerThread.Update | webmon/files/llprof_ui.js:241-294 | after a reply all nodes are linked to a present parent, the one they were sent with if they are new, values are accumulated, and exactly the running node's ancestor chain is flagged |
| ViewerSync.RepliesLink | webmon/data_store.cpp:566-616 | a dump of nodes in ascending order lists each parent before its children, and nothing else, if its nodes are closed under parents |
| ViewerSync.ThreadRepliesLink | webmon/data_store.cpp:566-616 | in either mode, after any run, every reply of a thread's store, for its current tree or any window, lists parents first, so the linking loop always finds them |
| GlobalWindows.GatheringRepliesLink | webmon/data_store.cpp:566-616 | so does every reply of the gathering store, for its current tree or any window of its slices, after any interleaving, unless the hash collides on strings hashed for nodes there are |
| GlobalWindows.GatheringWindow | webmon/data_store.cpp:499-531 | a window of the gathering store is its tree as the last gathering of the window left it minus the tree just before the first, in every number gathered |
| ViewerSync.ReloadShowsTree | webmon/files/llprof_ui.js:100-110 | a reply with the whole current tree can be linked into an emptied view, which then has the tree's parents and values and flags the running node's ancestors |
| ViewerSync.ViewerInSync | webmon/data_store.cpp:582-597 | accumulating the window for any times p1 <= p2 takes the cumulative values just before p1 to those at p2, for all nodes but new ones that are not seen |
| ViewerSync.WindowShowsTree | webmon/files/llprof_ui.js:266-291 | so a view of the tree just before p1 that takes the reply for the window shows the tree at p2: the reply can be linked, and the values are right |
| SelfTime.ValueIsTime | webmon/files/llprof_ui.js:347-370 | for every run, log of stores and snapshot, what the viewer computes for column 0 in real time is the time spent in the node, completed calls and open one, or zero inside a call whose name begins with '#' |
| SelfTime.SelfIsTime | webmon/files/llprof_ui.js:377-380 | in real time the self value in column 0 is the time spent in the node less that of its children's completed calls; zero inside a call whose name begins with '#', and with nothing taken off for the children of such a call |
| SelfTime.ColumnShown | webmon/files/llprof_ui.js:347-380 | in the other columns the value is what was received, the last value or the sum over the seen nodes, and the self value is what the children's totals leave of it |
| SelfTime.EventColumnsShown | webmon/data_store.cpp:820-916 | of a profiled thread the monitor holds zeros in the columns after the first two |
| SelfTime.SelfNeverNegative | webmon/files/llprof_ui.js:372-380 | for every run, log of stores and snapshot the real-time self value of every node but the root is not negative |
| SelfTime.RootShown | webmon/files/llprof_ui.js:347-380 | in real time the root's value is zero, and its self value is minus the time of all completed calls at the top |
| WindowTime.RootInWindow | webmon/files/llprof_ui.js:347-370 | in every window the root's value is zero |
| WindowTime.TimeAdvances | llprofcommon/call_tree.cpp:461-529 | between two moments of any run with a clock that does not go back, the time spent in a node grows by no less than zero and no more than the time passed |
| WindowTime.WindowValue | webmon/files/llprof_ui.js:347-370 | from a node's difference of totals, running flag and start, the viewer computes the time spent in the window plus what a call completed in it had spent before, cut at the window's length; it is more than the time spent exactly if there is such a part and the window is not filled |
| WindowTime.WindowShowsTime | webmon/files/llprof_ui.js:347-370 | end to end: with the readings that come in the reply, what the viewer shows for the window from one store to another is that value, for every node but the root, if the running context at the end is exposed |
| WindowTime.FirstWindowShowsTime | webmon/data_store.cpp:482-497 | for a window that begins with the first slice it is all the time spent so far, cut at the time between the first snapshot and the last, so zero for the first slice alone |
| PathIds.GnidIsPathHash | webmon/data_store.cpp:1196-1207 | a global id depends on the chain of resolved names alone |
| PathIds.KeyText | webmon/data_store.cpp:1202-1204 | what is hashed is the parent's global id in decimal digits without leading zeros, a slash, and the name |
| PathIds.PathKeyInjective | webmon/data_store.cpp:1204 | parent id and name can be read back from the string that is hashed |
| PathIds.SameGnidIffSamePath | webmon/data_store.cpp:1196-1207 | nodes of any threads and targets share a global id exactly if their name paths are equal, unless the hash collides on the strings of these two paths |
| GlobalModel.AbsorbStep | webmon/data_store.cpp:1260-1297 | gathering one node more adds its values once, to the tree and the slice, and keeps the numbering sound |
| GlobalModel.GatheredStep | webmon/data_store.cpp:1240-1303 | gathering one source more adds what its slice holds for each global id |
| GlobalStores.GlobalStore.GnidToSeq | webmon/data_store.cpp:1218-1231 | a known global id keeps its number, a new one gets the next |
| GlobalStores.GlobalStore.IntegrateSlice | webmon/data_store.cpp:1260-1297 | gathering a slice in ascending order gives every node of tree and slice exactly the sum over the source nodes with its global id, and always finds the parent's number |
| GlobalStores.GlobalStore.Integrate | webmon/data_store.cpp:1233-1305 | gathers the current slice of every store once and removes all their slices; the new slice gets the same values as the tree |
| GlobalRuns.GlobalHolds | webmon/data_store.cpp:1233-1305 | after any interleaving every number of a global node is the sum over all gathered slices, and equals the merge of the gathering store's own slices |
| GlobalRuns.GlobalNodes | webmon/data_store.cpp:1266-1279 | there is a global node for every global id gathered, and no other but the root |
| GlobalLedger.Ledger | webmon/data_store.cpp:1248-1302 | whatever was stored has been gathered exactly once, or waits, or was dropped because its target was asked again first |
| GlobalLedger.ReceiverDisciplined | webmon/data_store.cpp:107-118 | in every sequence of rounds, each asking any targets once and then gathering, with look-ups in between, no target is asked while a slice of its waits |
| GlobalLedger.EverythingGathered | webmon/data_store.cpp:107-118 | after any number of rounds each global node holds exactly what was ever stored for its global id |
| GlobalLedger.NothingElseStored | webmon/data_store.cpp:1266-1279 | and nothing was ever stored for a global id without a node |
| GlobalLedger.RootTotal | webmon/data_store.cpp:1233-1305 | after any number of rounds the gathering root's total in a plain column is the sum of every value any thread ever reported in it about a node that is seen |
| GlobalPaths.MeetsByPath | webmon/data_store.cpp:1263-1283 | in every sound state source nodes go to the global node with the same name path, whatever thread or target they come from, unless the hash collides on the strings of these two paths |
| GlobalPaths.OneNodePerPath | webmon/data_store.cpp:1263-1283 | different global nodes have different paths |
| GlobalPaths.Numbering | webmon/data_store.cpp:1218-1231 | numbers are dense from 2, differ for different global ids, and parents have smaller ones than children |
| GlobalCounters.SourceIsRun | webmon/data_store.cpp:359-374 | in every interleaving each thread's store goes through a run of its own: the stores, look-ups and removals that concern it |
| GlobalCounters.StoreFindsSlice | webmon/data_store.cpp:752-753 | in any interleaving in which no target is asked while its slice waits, and with nothing of this thread waiting, the store's assertion holds exactly if no store or look-up of it since the last gathering came first with a time beyond the new one |
| GlobalCounters.ReceiverFindsSlice | webmon/data_store.cpp:107-118 | that is the condition at every answer of a pass, first or later, after any number of rounds |
| GlobalCounters.GatheringFindsSlice | webmon/data_store.cpp:1252-1254 | in any interleaving at all, a gathering finds a thread's current slice exactly if the first store or look-up since the last gathering was not later than now |
| GlobalCounters.AssertionFails | webmon/data_store.cpp:752-753 | a run with a single look-up ahead of time, after which no buffer for time 1 can be stored |
| GlobalCounters.GatheredCounters | webmon/data_store.cpp:107-118 | after any number of rounds the calls and the column 0 of a global node are the sums of all threads' own counters over all their exposed contexts with its name path |
| PanelLists.PanelList.UpdateItem | webmon/files/panel_list.js:68-98 | the item of a thread and name accumulates, no other item changes, and the assertion on its id holds |
| PanelLists.PanelList.InsertUnordered | webmon/files/panel_list.js:114-122 | the loop whose list grows while it runs ends, with the list descending and numbered and nothing left that belongs before its end |
| PanelLists.PanelList.MergeOrdered | webmon/files/panel_list.js:100-130 | after any interleaving the list has every item once, in descending order, each knowing its place |
| PanelSquares.Draw | webmon/files/panel_square.js:86-159 | the loops draw `Layout`; `DrawsTree` and `DrawnInOrder` say, without it, which rectangles these are and in what order |
| PanelSquares.DrawsTree | webmon/files/panel_square.js:86-159 | each rectangle bears the id of the tree node at its path; the root has the given rectangle; and child k of a drawn node is drawn exactly if the depth allows it and its rectangle, cut from the parent's by its share of the larger of the parent's value and the children's sum, with a border of 2, is larger than 2 both ways |
| PanelSquares.DrawnInOrder | webmon/files/panel_square.js:116-158 | nodes are drawn before their descendants and children in order, none twice |
| PanelSquares.LayoutNested | webmon/files/panel_square.js:86-159 | with values that are not negative, every rectangle lies inside those of all its ancestors and apart from all others, at any depth |
| PanelSquares.AncestorsDrawn | webmon/files/panel_square.js:86-159 | every rectangle comes after its parent's |
| PanelSquares.StripsFill | webmon/files/panel_square.js:107-117 | the children's strips fill the rectangle exactly if the node's own value does not exceed theirs |
| PanelSquares.ChildInsideIff | webmon/files/panel_square.js:107-153 | whatever the signs of the values, a child's rectangle lies inside its parent's exactly if the shares before and through it leave the side it is cut from by no more than the border |
| PanelSquares.InsideAtEverySize | webmon/files/panel_square.js:107-153 | a child that is drawn lies inside its parent at every size exactly if the values before it and those through it add up to something between zero and the whole |
| NameQuery.AnswerNames | llprofcommon/server.cpp:140-180 | the server's loop over words answers as `ServeFrom`, of which `ServeSections` says what it does with every section and `RoundTrip` what that means for names |
| NameQuery.ServeSections | llprofcommon/server.cpp:148-175 | a message of any sections is answered section by section, a names section with a line per id and any other with as many empty lines |
| NameQuery.ServePacked | webmon/data_store.cpp:333-337 | a packed question is answered with one line per id, or refused exactly if some name does not fit |
| NameQuery.SplitIffOneLine | webmon/data_store.cpp:338-345 | splitting the lines binds every id to its name exactly if no name contains a newline |
| NameQuery.RoundTrip | webmon/data_store.cpp:333-346 | asking binds every id to the server's name for it, or (ERR) if it has none, if and only if at most 8190 are asked for, none of these names contains a newline, and each fits in what those before it leave of 256000 characters |
| NameQuery.CollectUnknown | webmon/data_store.cpp:314-330 | exactly the unknown ids are asked for, each once |
| NameQuery.LearnNames | webmon/data_store.cpp:314-347 | after storing buffers all their ids are bound, known ones as before, and the new ones to the server's names under the same condition |

## Left out

- What the switch for attribute nodes guards (`GetAttrNode`, `attr_node_map_` and `attr_node_id_alt_`): off by default, and it adds leftovers of children that are not dirty.
- StoreModel.IsAttr: never takes the root for an attribute node; if a target's name for id 0 began with '#', the code would look for the root's parent.
- `llprof_icl_profile_value` and layouts with several counters: the process never assigns the index that would enable them, and the loops over columns write to column 0 whatever the counter.
- Interleavings inside a hook after the mutex is released, two dispatchers sharing the back buffer, and the `stop` flag.
- `free_stride_vector`, struct offsets, byte order and the `MessageBuf` cursor: buffers are sequences of records.
- Integer widths: ids, counts, values and clock readings are unbounded.
- Sockets, HTTP, JSON text and the DOM; the files that draw with it only (`panel_cct.js`, the time bar).
- The CRC behind global ids: a parameter.
- Names that change: a target's table is a fixed function, so the interval in which a name still reads as being asked for is not modelled.
- EndToEnd.NowValues: the log in which a thread's buffers are stored at times 1, 2, 3 has zeros in the columns of the now-info other than the clock reading, where the process sends whatever the memory held; the theorems about logs compare records and running node only.
- WindowTime.WindowShowsTime: speaks of windows from one store of the thread to a later one; a window before or at the end of which a slice was made by a look-up alone comes without readings, and with a running context that is not exposed the flags end at the last exposed node.
- GlobalWindows.GatheringWindow: does not cover static columns, which stay zero in the gathering store.
- GlobalStores.GlobalStore.Integrate: does not model that running node and now values are copied from the first source; the node id copied belongs to another tree.
- GlobalRuns.Step: does not model what happens to a node that is given one of the reserved ids 0 and 1; 0 would be hashed again at each touch, and 1 would send the node's values to the root.
- GlobalCounters.GatheredCounters: covers call counts and column 0; event columns are zero, and static columns are not gathered.
- Viewer.ViewerThread.Accumurate: models real-time mode, in which a node is accumulated without its thread; the viewer as it is does not get there.
- ViewerSync.ReloadShowsTree: outside single-tree mode only; in single-tree mode a thread's nodes other than the root have no totals to send.
- PanelLists.PanelList.Sort: stands for the library's stable sort.
- PanelSquares.Draw: uses real numbers for floating point, and does not model the infinite shares that arise when values of different sign add up to zero.
- NameQuery.AnswerNames: does not bound what sections of another kind write to the buffer; the monitor sends none.
