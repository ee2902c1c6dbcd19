# Attribute store and attribute resolver of the Z-Wave protocol controller

A Dafny model of the attribute store, the attribute resolver, the association toolbox and the
attribute timeouts, with proofs over all inputs, all interleavings and all reachable states.

| files | what they model |
|---|---|
| `AttributeResolver.dfy`, `ResolverInvariants.dfy`, `ResolverState.dfy` | the resolver as a class with one method per entry point and per pass of its loop; what every step keeps |
| `ResolverRuns.dfy` | runs of the resolver from its initial state that show where a promise fails |
| `ResolverWalk.dfy`, `ScanRequests.dfy` | the resumable stack walk against the recursion it replaces; what a scan request during a walk is worth |
| `RuleSlot.dfy`, `RuleGroups.dfy` | the executor slot with its history; the rule books and group lookup |
| `AttributeStore.dfy`, `StoreLedger.dfy`, `StoreRows.dfy`, `StoreLoad.dfy`, `NodeHeap.dfy` | the node objects as a heap of pointers, the id map, write-behind persistence, save and load |
| `AssociationSet.dfy`, `AssociationCodec.dfy`, `AssociationGroups.dfy` | the ordered association set, its byte stream (Multi Channel Association Command Class), editing of groups |
| `AttributeTimeouts.dfy` | the list of timeouts with its one shared timer |
| `Common.dfy` | the types that several parts share |
| `LockOrder.dfy` | the mutexes along the call paths, a semantics for any number of threads, freedom from deadlock |

`dafny verify dfyconfig.toml` checks the whole project.

## How the model is built

The resolver is stepped by its own thread, by store callbacks, by senders and by timers.
`Resolver.Run` takes any sequence of such steps. A pass of the walk is a step of its own, because
the loop of the source is not bounded when every pass may bring new scan requests. The resolver
thread holds the resolver lock while it walks, so the steps of other threads that need that lock
(`LockedKind`) wait for the end of the walk. Steps that take only the store lock or the rule lock
(`FreeKind`: a value changes, a node is linked or cut off, the slot is freed; and the status or
timeout of a Get) also fall between two passes. What the environment does (the answer of a rule
function, whether a sender accepts a frame, whether a rejecting sender completes the rule at once,
status reports for any node at any time) is a parameter of the step. A sender that accepts a frame
completes it later, as the comment at lines 399-401 of `attribute_resolver_rule.cpp` says.

A thread that frees the slot makes its completion call later. The calls that are on the way are
part of the state of `Slot` (`due`), and so are timers that have expired and handlers that have
read the slot.

Ghost fields record histories: `slot.log` (claims, releases, withdrawals, calls), `walk` (what the
current scan has considered and is to consider, the requested nodes that have not been considered
since, those of them that the scan under way is asked for, and the listeners that were told),
`tally` (accepted Gets and give-ups per pending entry) and `floor` (the earliest time of the next Set).
`Valid()` ties them to the fields of the source.

The node objects of the store are entries of a map from pointers to nodes, with parent and child
pointers. The resolver reads the same heap for the links and types, and keeps the values of the
attributes in a map of its own. An undefined value is an empty byte string. The datastore is a map
whose operations succeed; rows are fetched in any order. The clock is a number; where the timeouts
read it twice in one step, the time between the readings is a parameter.

## Where the code does less than one might expect

- A completion call can come after the next claim of the slot: the slot is freed under one lock
  and the call needs another. `ResolverRuns.OvertakingGet` is such a run. Only a pass that claims
  while a call is owed does it (`Resolver.NextPass`, `Resolver.OwnStep`), it cannot happen in a run
  in which a NEXT event waits for the owed calls (`Resolver.RunInOrder`), and `RuleSlot.Balance` is
  what holds in every run.
- A deletion during a walk can make the walk skip a node that is neither paused nor deleted,
  because the child indexes on the stack are not corrected
  (`ScanRequests.DeletionSkipsSibling`, `ScanRequests.DeletionKeepsAheadIff`). A node that was
  requested since the scan began is still considered by the next scan. An addition can do the same,
  when it makes an index that was one beyond the children, and so counted as 0, the end of the
  children (`ScanRequests.AdditionSkipsGrandchild`, `ScanRequests.GrowthKeepsAheadIff`).
- A single-frame Set that is still due after its completion is paced only while its entry among
  the pending Sets lives. Two things drop the entry first. A status that ends the Set of the group
  clears the desired value, and the update drops the entry before a re-arm restores the value: this
  is the re-arm path that the comment at lines 1073-1077 of `attribute_resolver.cpp` says is paced
  (`ResolverRuns.StatusSkipsPacing`). And a completion call that comes after a later Get can give
  that Get up, which clears the desired value too (`ResolverRuns.GiveUpSkipsPacing`).
  `Resolver.StatusThenCall` and `AttributeResolver.WillPaceIff` have the exact condition.
- A deletion that meets a node that is being deleted already stops there and leaves its own node
  marked, so that it can neither be deleted nor changed nor given children later
  (`Store.DeleteNode`).
- Rows without a parent row are loaded as nodes that the root does not lead to (`Store.Load`).
- Registering a type twice leaves its old entry in the inverted rule book, and group membership is
  then not symmetric (`RuleGroups.RegisteredTwiceIsAsymmetric`).
- Loading writes an empty root row before it reads the rows, so the values of the root are never
  read back; with a zero cooldown loading over an existing tree also deletes the other rows
  (`Store.SaveThenLoad`).
- Switching the cooldown to zero while a deletion is queued leaves the queued id open to three
  failures once it is in use again: its row is lost if the id is issued after the switch
  (`StoreLedger.ReissuedIdIsLost`) or if its node is written after the switch
  (`StoreLedger.WrittenNodeIsLost`), and its old row stays if another node and then this one are
  deleted (`StoreLedger.DeletedNodeIsKept`). `StoreLedger.ApplySoundIff` and
  `StoreLedger.CarelessLoses` say exactly which steps are to blame. The last assigned id is stored
  only by a save that had something to write.
- A give-up overwrites the retry count with the configured one and may keep the entry, so that the
  accepted Gets of an entry can exceed its count if its limit was above the configured one, or if
  that is 0 (`ResolverRuns.GiveUpForgetsGets`, `AttributeResolver.GiveUpKeepsBoundIff`).
  `Resolver.RetryBound` is what holds in every run, and `Resolver.RetriesCounted` says when the
  count is kept.
- The retry timer is not set for a paused node, and resuming a node with a pending Get requests no
  scan, so its deadline can pass with nobody looking at it (`ResolverRuns.LostRetry`;
  `Resolver.Resume` has the exact condition).
- A group stream of 256 bytes or more is stored with its length modulo 256
  (`AssociationGroups.StoredIntactIffFits`). A multiple of 256 leaves no desired value, and the
  group is then the reported one, which may be past the capacity
  (`AssociationGroups.FallBackOverflows`, `AssociationGroups.ApplyBoundedIff`).
- The timeout handler and the function that sets a timeout read the clock twice and can lose entries
  in between (`AttributeTimeouts.LostTimeout`, `AttributeTimeouts.LateSet`; `Timeouts.HandlerPass`
  and `Timeouts.SetCallback` have the exact conditions).

## Model

| member | source | states |
|---|---|---|
| ResolverWalk.Scan | components/attribute_resolver/src/attribute_resolver.cpp:611-740 | The loop over a whole scan ends and considers exactly the post-order of the tree pruned at paused nodes: each node once, and exactly the nodes that are neither paused nor below a paused node |
| ResolverWalk.Pass | components/attribute_resolver/src/attribute_resolver.cpp:639-740 | One pass of the resumable loop: what the stack still leads to before the pass is what this pass considers, followed by what the stack leads to afterwards; the remaining work shrinks |
| ResolverWalk.IsPausedAbove | components/attribute_resolver/src/attribute_resolver.cpp:362-371 | The upward loop answers whether the node or an ancestor is paused; false for a node that does not exist |
| ResolverWalk.PrunedMembers | components/attribute_resolver/src/attribute_resolver.cpp:627-638 | The pruned post-order of a subtree holds exactly the nodes below its top that no paused node in between cuts off |
| ResolverWalk.PrunedDistinct | components/attribute_resolver/src/attribute_resolver.cpp:627-638 | No node occurs twice in the pruned post-order |
| ResolverWalk.ScanMembers | components/attribute_resolver/src/attribute_resolver.cpp:639-663 | A scan from the root considers a node if and only if it exists and neither it nor an ancestor is paused |
| ScanRequests.RemainingMembers | components/attribute_resolver/src/attribute_resolver.cpp:639-740 | A node will be considered before the stack empties if and only if it is not cut off by a pause and some entry's position is not past it |
| ScanRequests.ResetNearest | components/attribute_resolver/src/attribute_resolver.cpp:871-881 | The nearest ancestor-or-self on the stack, its first entry, gets index 0 and nothing else changes; if none is on the stack, nothing changes |
| ScanRequests.RequestedIsAhead | components/attribute_resolver/src/attribute_resolver.cpp:871-900 | After a scan request the node is ahead of the walk, and it will be considered if and only if it is not cut off by a pause |
| ScanRequests.RootIsNearEnough | components/attribute_resolver/src/attribute_resolver.cpp:1228-1232 | A stack with the root at its bottom always has an ancestor-or-self of an existing node |
| ScanRequests.ResetKeepsAhead | components/attribute_resolver/src/attribute_resolver.cpp:871-881 | Starting any entry over never removes a node from what is ahead |
| ScanRequests.GrowthKeepsAheadIff | components/attribute_resolver/src/attribute_resolver.cpp:656-661 | Adding a child keeps another node ahead of an entry if and only if it does not turn an index one beyond the children, which counts as 0, into their end |
| ScanRequests.AdditionSkipsGrandchild | components/attribute_resolver/src/attribute_resolver.cpp:656-661 | A concrete tree and stack where adding a child of the root makes the walk skip a node that was ahead, and adding a node elsewhere does not |
| ScanRequests.DeletionKeepsAheadIff | components/attribute_resolver/src/attribute_resolver.cpp:650-661 | Deleting a node keeps another node ahead of an entry if and only if it does not move the entry's next child to a place before its index |
| ScanRequests.DeletionSkipsSibling | components/attribute_resolver/src/attribute_resolver.cpp:650-661 | A concrete tree and stack where deleting one child makes the walk skip its sibling, which is neither paused nor deleted |
| RuleGroups.GroupNodes | components/attribute_resolver/src/attribute_resolver_rule.cpp:163-201 | Group lookup returns exactly the nodes with the same depth-th ancestor whose type is registered with the node's rule; nothing for a missing node, a missing ancestor or a negative depth |
| RuleGroups.Visit | components/attribute_store/include/attribute.hpp:511-523 | The recursive visitor collects exactly the nodes at the wanted level below the top that have one of the types |
| RuleGroups.GroupsAgree | components/attribute_resolver/src/attribute_resolver_rule.cpp:148-201 | When every type is registered once and grouped types share a depth, all members of a group have the same group; one way only |
| RuleGroups.GroupSymmetric | components/attribute_resolver/src/attribute_resolver_rule.cpp:148-201 | Under the same two conditions, which are sufficient, group membership is symmetric |
| RuleGroups.InOwnGroupIff | components/attribute_resolver/src/attribute_resolver_rule.cpp:148-201 | A node is in its own group if and only if its type has the rule and it has enough ancestors |
| RuleGroups.RuleBook.Register | components/attribute_resolver/src/attribute_resolver_rule.cpp:518-554 | Registration gives the types a fresh rule in both books; the books keep agreeing if and only if none of the types had a rule before |
| RuleGroups.RuleBook.SetDepth | components/attribute_resolver/src/attribute_resolver_rule.cpp:484-490 | The type is grouped at the new depth and no other type is; which types go together does not change; types of one rule that shared a depth still do if and only if the new depth is that of the other types of the rule |
| RuleGroups.RegisteredTwiceIsAsymmetric | components/attribute_resolver/src/attribute_resolver_rule.cpp:518-554 | A concrete re-registration and tree after which one node is in the group of another but not the other way round |
| RuleSlot.Balance | components/attribute_resolver/src/attribute_resolver_rule.cpp:203-311 | In every legal history each claim of a node ends once, by a release or a withdrawal, unless the node holds the slot now; and each release has had exactly one completion call, unless it is still owed |
| RuleSlot.ExecutedKeepsIff | components/attribute_resolver/src/attribute_resolver_rule.cpp:299-365 | A history in which every claim found all completion calls made is still one after an execution if and only if the execution claimed nothing or no call was owed when it began |
| RuleSlot.Slot.Claim | components/attribute_resolver/src/attribute_resolver_rule.cpp:342-365 | A free slot is claimed for a node and a rule; the history stays legal |
| RuleSlot.Slot.Accept | components/attribute_resolver/src/attribute_resolver_rule.cpp:395-407 | An accepted frame arms the 60 s timer and records whether more frames follow |
| RuleSlot.Slot.Withdraw | components/attribute_resolver/src/attribute_resolver_rule.cpp:371-377 | An execution without a frame frees the slot, unless a completion already did |
| RuleSlot.Slot.Release | components/attribute_resolver/src/attribute_resolver_rule.cpp:291-308 | The slot is freed if and only if the node holds it, the timer stops, and one completion call is owed |
| RuleSlot.Slot.Call | components/attribute_resolver/src/attribute_resolver_rule.cpp:309-311 | An owed completion call is made, once |
| ResolverState.NodeOrChildNeedsResolution | components/attribute_resolver/src/attribute_resolver.cpp:340-360 | False if and only if no node of the subtree has an unexhausted Get or a Set to do |
| ResolverState.HighestListener | components/attribute_resolver/src/attribute_resolver.cpp:859-869 | The topmost ancestor-or-self with a listener; none if and only if there is none |
| ResolverInvariants.NudgedAwake | components/attribute_resolver/src/attribute_resolver.cpp:883-900 | Scan requests and queued events never break the wake-up invariant |
| ResolverInvariants.ScanComplete | components/attribute_resolver/src/attribute_resolver.cpp:1217-1249 | An undisturbed scan that has emptied its stack has considered its whole plan, nothing that it was asked for is left, and without a new request no requested node is left |
| ResolverInvariants.ScanningShrunk | components/attribute_resolver/src/attribute_resolver.cpp:650-661 | After a deletion everything that was asked of the scan under way is still ahead of it, except the deleted node and those that the deletion moved past an index; the same for requests without a new scan |
| ResolverInvariants.ScanningGrown | components/attribute_resolver/src/attribute_resolver.cpp:656-661 | After an addition everything that was asked of the scan under way is still ahead of it, except what only an index one beyond the children of the new parent led to |
| AttributeResolver.Resolver.constructor | components/attribute_resolver/src/attribute_resolver.cpp:1167-1198 | The initial state is valid, a scan is requested and its event is queued |
| AttributeResolver.Resolver.Run | components/attribute_resolver/src/attribute_resolver.cpp:1271-1299 | Every interleaving of events, passes, timers, status reports, completion calls, writes, tree changes and client calls, with every behaviour of the senders, goes through valid states only. Steps that take no resolver lock (a value changes, a node is linked or cut off, the slot is freed, a Get status or timeout arrives) also fall between the passes of a walk |
| AttributeResolver.Resolver.OwnStep | components/attribute_resolver/src/attribute_resolver.cpp:611-740 | Every step of the resolver thread and of the timers keeps the state valid. Only a pass of the walk can claim the slot before an owed completion call, and it does if and only if, before the pass, one is owed and the node that the pass reaches has a rule to run. What is asked of the scan under way is lost only to a pass that considers it, or that leaves no way to a missing or paused node |
| AttributeResolver.Resolver.FreeStep | components/attribute_resolver/src/attribute_resolver_rule.cpp:299-311 | Every step that takes no resolver lock keeps the state valid, at any moment, and keeps completion calls before claims; what is asked of the scan is lost only if it is deleted, if a deletion moves it past an index, or if an addition makes an index that led to it the end of the children |
| AttributeResolver.Resolver.LockedStep | components/attribute_resolver/src/attribute_resolver.cpp:1014-1103 | Every step of the store, the senders and the clients that takes the resolver lock keeps the state valid, claims nothing, and takes nothing from what is asked of the scan under way |
| AttributeResolver.Resolver.RunInOrder | components/attribute_resolver/src/attribute_resolver_rule.cpp:299-311 | In every run in which a NEXT event waits for the completion calls that are owed, every completion call precedes the next claim of the slot |
| ResolverRuns.OvertakingGet | components/attribute_resolver/src/attribute_resolver_rule.cpp:299-365 | A run from the initial state in which a Get claims the slot before the completion call of the Set that held it: the Set is aborted, the reported value is lost, and the next scan comes first |
| AttributeResolver.Resolver.NoLostWakeUp | components/attribute_resolver/src/attribute_resolver.cpp:1217-1249 | In every valid state between events: a requested scan that has not begun has a NEXT event; a scan under way has a NEXT event, or the slot is claimed, or a completion call is owed |
| AttributeResolver.Resolver.SlotProtocol | components/attribute_resolver/src/attribute_resolver_rule.cpp:126-139 | In every valid state: one node at most holds the slot, claims, releases, withdrawals and completion calls balance for every node, and a claimed slot has its 60 s timer armed or its timeout on the way |
| AttributeResolver.Resolver.PendingSetInFlight | components/attribute_resolver/src/attribute_resolver.cpp:573-609 | A node is among the pending Sets only while it holds the slot for a Set rule or its completion call is owed |
| AttributeResolver.Resolver.RetryBound | components/attribute_resolver/src/attribute_resolver.cpp:495-562 | In every valid state, for every pending Get: the accepted executions since the entry was made exceed its count by at most, for each give-up that kept the entry, the difference between the largest retry limit so far (or 1) and the configured retry count; and the count never exceeds that limit, or 255 |
| AttributeResolver.Resolver.RetriesCounted | components/attribute_resolver/src/attribute_resolver.cpp:495-562 | In every valid state the accepted executions since a pending entry was made do not exceed its count, if no give-up kept the entry, or if the configured retry count is at least 1 and no larger limit was ever in force |
| AttributeResolver.GiveUpKeepsBoundIff | components/attribute_resolver/src/attribute_resolver.cpp:495-509 | Read before a give-up, which overwrites the count with the configured one: the accepted executions stay within the count if the entry is made anew (undefining the desired value erases it first) or its count is not above the configured one; and if every counted attempt was accepted, only then |
| ResolverRuns.GiveUpForgetsGets | components/attribute_resolver/src/attribute_resolver.cpp:495-509 | A run from the initial state after which an entry that was never erased has three accepted executions and count 1: the retry count is 1 and the node, whose type has a Get rule alone, asks for 3 |
| AttributeResolver.Resolver.SetsArePaced | components/attribute_resolver/src/attribute_resolver.cpp:1073-1085 | In every valid state no Set rule ran on a paced node before its time; before that time its cooldown is running, and every cooldown belongs to a paced node and ends at its time. When a Set becomes paced is in `StatusThenCall` |
| AttributeResolver.Resolver.StatusThenCall | components/attribute_resolver/src/attribute_resolver.cpp:1014-1085 | The status of a Set followed by its completion call: if the node then has a Set to do, it is paced for 500 ms if and only if it was a pending single-frame Set, and either the status leaves its value alone and the completion does not give up its Get, or the status leaves it a Set to do; otherwise nothing paces it anew. The condition is read before the status arrives |
| AttributeResolver.Resolver.TimeoutThenCall | components/attribute_resolver/src/attribute_resolver_rule.cpp:126-139 | The same for a Set that times out |
| AttributeResolver.WillPaceIff | components/attribute_resolver/src/attribute_resolver.cpp:792-795 | For a pending single-frame Set with a defined desired value the condition is: the status does not end the Set of a group that the node belongs to, and the completion does not give up the Get of the node |
| AttributeResolver.PacedIff | components/attribute_resolver/src/attribute_resolver.cpp:1046-1085 | The condition read before the status decides the pacing after the completion call, whatever the status and whatever was re-armed in between |
| ResolverRuns.StatusSkipsPacing | components/attribute_resolver/src/attribute_resolver.cpp:792-795 | A run from the initial state after which a Set is due and nothing paces it: a re-arm is requested while the Set is in flight, and the failed transmission drops its entry before the completion restores the desired value |
| ResolverRuns.GiveUpSkipsPacing | components/attribute_resolver/src/attribute_resolver.cpp:1024-1085 | A run from the initial state after which a Set is due and nothing paces it: the completion call comes after a later Get and gives that Get up, which drops the entry of the Set before the re-arm is consumed |
| AttributeResolver.Resolver.ScanFollowsPlan | components/attribute_resolver/src/attribute_resolver.cpp:611-740 | An undisturbed scan has considered a prefix of the pruned post-order of the tree at its start, and all of it when the stack is empty, over however many events it runs |
| AttributeResolver.Resolver.AskedServed | components/attribute_resolver/src/attribute_resolver.cpp:871-900 | In every valid state everything that was asked of the scan under way is ahead of its stack, and nothing is left of it when that stack is empty, with or without another scan requested |
| AttributeResolver.Resolver.RequestScan | components/attribute_resolver/src/attribute_resolver.cpp:883-900 | A request during a scan asks that scan for the whole subtree of the node, if it exists, and takes nothing from what it is asked for |
| AttributeResolver.Resolver.RequestsServed | components/attribute_resolver/src/attribute_resolver.cpp:871-900 | When no scan is under way and none is requested, no requested node is waiting to be considered |
| AttributeResolver.Resolver.ListenersToldTruly | components/attribute_resolver/src/attribute_resolver.cpp:1087-1096 | In every valid state the WATCH events in the queue are, in order, of the nodes that were told last, and every node that was ever told had nothing left to resolve in its subtree when it was told |
| AttributeResolver.SetSettlesGroup | components/attribute_resolver/src/attribute_resolver_rule.cpp:203-289 | After a failed transmission, or the last frame of any other outcome, no member of the Set group has a Set to do; verified makes the desired value the reported one, failure leaves the reported value, the other two undefine it; nodes outside the group keep their values, but for the resolved one |
| AttributeResolver.Resolver.ScanNode | components/attribute_resolver/src/attribute_resolver.cpp:883-900 | A request marks the scan, queues one NEXT event if none was requested, starts over exactly the nearest ancestor-or-self on the stack, and leaves the whole subtree of the node ahead of a walk that started at the root |
| AttributeResolver.Resolver.IsToBeScanned | components/attribute_resolver/src/attribute_resolver.cpp:979-1009 | True if and only if the node is not paused and a Get may be tried, or a Set is due, not pending and not cooling down; an expired cooldown is dropped |
| AttributeResolver.Resolver.OnNodeUpdated | components/attribute_resolver/src/attribute_resolver.cpp:785-807 | Drops the pending Get that is resolved or exhausted, and the pending Set and cooldown that are no longer due; if the node is due or a listener waits above it, a scan is requested and the scan under way is asked for the node |
| AttributeResolver.Resolver.Write | components/attribute_resolver/src/attribute_resolver.cpp:1110-1119 | A write changes exactly that value; if it changed and the type is watched for it, the resolver is told as by an update; of the pending Sets and the pacing of nodes with a Set rule exactly those stay whose value is as before or that still need a Set |
| AttributeResolver.Resolver.ChangeGroup | components/attribute_resolver/src/attribute_resolver_rule.cpp:236-239 | The loop over a Set group changes exactly the values of its members |
| AttributeResolver.Resolver.ApplyStatus | components/attribute_resolver/src/attribute_resolver_rule.cpp:229-289 | What each send status does to every value, with and without more frames to come, for Set and Get rules, and which pending entries survive it |
| AttributeResolver.Resolver.GiveUp | components/attribute_resolver/src/attribute_resolver.cpp:495-509 | Every member of the Get group loses its desired value and counts as exhausted; its accepted executions are kept unless its entry is made anew; all other values and pending Gets stay |
| AttributeResolver.Resolver.RestartTimer | components/attribute_resolver/src/attribute_resolver.cpp:925-977 | Every retry deadline and cooldown that has passed has a scan requested, and for every later one the last event sets the timer in time |
| AttributeResolver.Resolver.FinishGet | components/attribute_resolver/src/attribute_resolver.cpp:1024-1041 | A completed Get waits for its report until the retry timeout; after the last attempt its group is given up |
| AttributeResolver.Resolver.ConsumeRearm | components/attribute_resolver/src/attribute_resolver.cpp:1061-1071 | A recorded re-arm is consumed once and writes the last requested count as desired value |
| AttributeResolver.Resolver.PaceSet | components/attribute_resolver/src/attribute_resolver.cpp:1073-1085 | After a single frame a Set that is still due is paced for 500 ms and has its timer; one that is not due has no cooldown |
| AttributeResolver.Resolver.Announce | components/attribute_resolver/src/attribute_resolver.cpp:1087-1102 | A WATCH event is queued and recorded if and only if the node has a listener and nothing in its subtree is left to resolve; a scan under way gets its NEXT event |
| AttributeResolver.Resolver.OnComplete | components/attribute_resolver/src/attribute_resolver.cpp:1014-1103 | The completion as a whole: reported values stay; a re-arm is consumed once and leaves a Set to do when the reported value is undefined; a pending single-frame Set that is still due is paced if and only if the completion does not give up the Get of the node with its desired value; a Set that is not pending is not paced; a listener is told exactly when its subtree is settled; and the walk goes on |
| AttributeResolver.Resolver.CompleteAtOnce | components/attribute_resolver/src/attribute_resolver_rule.cpp:203-311 | A sender that rejects a frame may complete the rule at once: the slot is free again and no call is left owed |
| AttributeResolver.Resolver.Transmit | components/attribute_resolver/src/attribute_resolver_rule.cpp:367-435 | An accepted frame changes nothing but the slot; any other answer leaves the slot free; the status is that of the answer |
| AttributeResolver.Resolver.Execute | components/attribute_resolver/src/attribute_resolver_rule.cpp:331-435 | The status for an unregistered type, a busy slot, a missing function or the answer of the rule; only an accepted frame takes the slot |
| AttributeResolver.Resolver.AlreadyQueued | components/attribute_resolver/src/attribute_resolver.cpp:480-493 | True if and only if some node of the group has the same kind of resolution pending |
| AttributeResolver.Resolver.RetryGet | components/attribute_resolver/src/attribute_resolver.cpp:523-541 | A retry is counted before it runs, the 8-bit count does not wrap around, and an accepted one is tallied once |
| AttributeResolver.Resolver.CountRetry | components/attribute_resolver/src/attribute_resolver.cpp:523-531 | The count goes up by one and stays within 8 bits, no execution is tallied yet, and the largest limit so far becomes that of the node if it is larger |
| AttributeResolver.Resolver.ExecuteGet | components/attribute_resolver/src/attribute_resolver.cpp:519-563 | Aborts exactly when exhausted, waits exactly until the deadline or while the group is pending, and runs otherwise |
| AttributeResolver.Resolver.ExecuteSet | components/attribute_resolver/src/attribute_resolver.cpp:573-609 | Waits exactly while the node or its group is pending or cools down, and runs otherwise |
| AttributeResolver.Resolver.Attempt | components/attribute_resolver/src/attribute_resolver.cpp:664-683 | Get operations have priority; a taken frame holds the slot for the node with that rule |
| AttributeResolver.Resolver.Consider | components/attribute_resolver/src/attribute_resolver.cpp:664-709 | The loop returns with a rule under way exactly when a frame was taken, with the entries of that frame booked, and otherwise only with its next event queued or an empty stack; the slot was claimed if and only if a rule was to run, whatever became of its frame |
| AttributeResolver.Resolver.BeginNext | components/attribute_resolver/src/attribute_resolver.cpp:1217-1238 | A requested scan starts at the root with an empty stack and the whole pruned post-order as its plan; with a rule under way nothing is walked |
| AttributeResolver.Resolver.Advance | components/attribute_resolver/src/attribute_resolver.cpp:639-737 | The walk moves on along its plan; of what it is asked for, it drops the node that it considers and what the stack no longer leads to, and nothing else |
| AttributeResolver.Resolver.NextPass | components/attribute_resolver/src/attribute_resolver.cpp:639-740 | One pass moves the stack by one step of the walk and considers at most one node; that node holds the slot with its rule afterwards if and only if its attempt was taken, and then the entries, the stack and the queue are exactly those of the taken frame. It keeps every completion call before the next claim if and only if no call is owed or, before the pass, the node that it reaches has no rule to run |
| AttributeResolver.Resolver.ChangeValue | components/attribute_store/src/attribute_store.cpp:660-734 | A value changes under the store lock alone, at any moment of a walk, and the state stays valid before the callback comes |
| AttributeResolver.Resolver.NodeUpdated | components/attribute_resolver/src/attribute_resolver.cpp:770-807 | The callback of an update, whenever it comes: a node that is due or below a listener has its scan, and a node that no longer exists is forgotten |
| AttributeResolver.Resolver.StoreWrite | components/attribute_store/src/attribute_store.cpp:660-734 | A write whose callback follows at once changes that value alone, requests a scan if it leaves the node due, and drops exactly the entries that it makes useless |
| AttributeResolver.Resolver.SendDataComplete | components/attribute_resolver/src/attribute_resolver_rule.cpp:203-311 | The values change as the status says, exactly the entries survive whose value is as before or that still need a Set, the slot is freed if and only if the node holds it, and then one completion call is owed; for a Get rule also during a walk |
| AttributeResolver.Resolver.FreeSlot | components/attribute_resolver/src/attribute_resolver_rule.cpp:299-308 | The end of a status report under the rule lock alone, at any moment of a walk |
| AttributeResolver.Resolver.CompletionCall | components/attribute_resolver/src/attribute_resolver_rule.cpp:309-311 | An owed call is made, does what a completion does, and keeps the state valid; with every pending Get paused and no cooldown it queues nothing but its WATCH and NEXT events |
| AttributeResolver.Resolver.HandleTimeout | components/attribute_resolver/src/attribute_resolver_rule.cpp:126-139 | The timeout handler completes the rule it read as failed, with the effect of that status; for a Get rule also during a walk |
| AttributeResolver.Resolver.Resume | components/attribute_resolver/src/attribute_resolver.cpp:204-232 | The node is resumed; a scan or a timer will look at it afterwards if and only if one would before, or no resolution of it is pending |
| ResolverRuns.LostRetry | components/attribute_resolver/src/attribute_resolver.cpp:925-977 | A run from the initial state that ends with an idle slot and a Get that is to be tried again at its deadline, while no scan is requested or leads to it, and no timer is armed or about to be: the node is paused when its completion sets the timer, and then resumed |
| AttributeResolver.Resolver.RestartGet | components/attribute_resolver/src/attribute_resolver.cpp:295-304 | A pending Get is dropped and scanned again |
| AttributeResolver.Resolver.RestartSet | components/attribute_resolver/src/attribute_resolver.cpp:278-293 | A pending Set is dropped with its cooldown, resumed and scanned again |
| AttributeResolver.Resolver.RestartExhausted | components/attribute_resolver/src/attribute_resolver.cpp:306-320 | In the subtree exactly the exhausted Gets that are still due start over |
| AttributeResolver.Resolver.StartGroupResolution | components/attribute_resolver/src/attribute_resolver.cpp:385-403 | With a Set in flight the request is recorded and no value changes; otherwise the reported value is undefined and the count becomes the desired value |
| AttributeResolver.Resolver.ResumeExpired | components/attribute_resolver/src/attribute_resolver.cpp:902-923 | Afterwards every retry deadline and cooldown has its scan or its timer |
| AttributeResolver.Resolver.OnNodeDeleted | components/attribute_resolver/src/attribute_resolver.cpp:809-828 | The deleted node is forgotten, its rule is aborted with its completion call made, and it no longer holds the slot |
| AttributeResolver.Resolver.AbortRule | components/attribute_resolver/src/attribute_resolver_rule.cpp:456-472 | The slot is not held by the node afterwards and no new call is left owed |
| AttributeResolver.Resolver.Unlink | components/attribute_resolver/src/attribute_resolver.cpp:650-661 | A leaf leaves the tree, at any moment of a walk; exactly those stay asked for that are not the leaf and that the deletion does not move past an index |
| AttributeResolver.Resolver.LinkChild | components/attribute_resolver/src/attribute_resolver.cpp:656-661 | A node is linked last, at any moment of a walk; exactly those stay asked for that are still ahead of the stack |
| AttributeStore.Store.constructor | components/attribute_store/src/attribute_store.cpp:343-388 | A started store has one node per row of the datastore, with an empty root, linked to its parent if the parent has a row; it is a tree that stands for exactly the rows if and only if the rows form one tree, and its bookkeeping is then steady |
| AttributeStore.Store.FindId | components/attribute_store/src/attribute_store_node.cpp:74-90 | The traversal finds a node below its start with the id if and only if there is one |
| AttributeStore.Store.Lookup | components/attribute_store/src/attribute_store.cpp:135-163 | The id map answers for every id; the traversal after a miss never finds anything |
| AttributeStore.Store.IndexAgreesWithTree | components/attribute_store/src/attribute_store.cpp:135-163 | The id map holds an id if and only if a node reachable from the root has it, and maps it to that node |
| AttributeStore.Store.GetNextId | components/attribute_store/src/attribute_store.cpp:93-105 | The next id is neither 0 nor the root id nor in use, with 32-bit wrap-around, and the search ends if there is a usable id |
| AttributeStore.Store.AttachChild | components/attribute_store/src/attribute_store_node.cpp:62-72 | The new node is the last child of its parent, the heap stays a tree that agrees with the id map, and the rows gain exactly one |
| AttributeStore.Store.AddNode | components/attribute_store/src/attribute_store.cpp:468-519 | Fails exactly for the invalid type, a missing parent, a parent being deleted or a refused type; otherwise a fresh id is added, one CREATED event is emitted, and the bookkeeping is that of an add |
| AttributeStore.Store.SetValue | components/attribute_store/src/attribute_store.cpp:660-734 | Fails exactly for a missing node, a node being deleted or a refused value; an identical value is only touched; otherwise exactly that value changes, with one UPDATED event and the bookkeeping of a write |
| AttributeStore.Store.DeleteNode | components/attribute_store/src/attribute_store.cpp:521-612 | Succeeds if and only if no node of the subtree is being deleted already; then it removes exactly the subtree from tree and id map, with one DELETED event per node in post-order and the bookkeeping of those deletions, and the root stays and only loses its values. Otherwise it is in progress, a first part of the post-order below the node is gone, and the node stays marked |
| AttributeStore.Store.DeleteChildren | components/attribute_store/src/attribute_store.cpp:556-575 | The loop that deletes the first child until there is none removes exactly what is below, in post-order, and stops at a child whose deletion is in progress |
| AttributeStore.Store.ReleaseLeaf | components/attribute_store/src/attribute_store_node.cpp:46-60 | A leaf leaves the tree, the id map and the bookkeeping, with one event |
| AttributeStore.BelowIsSubtree | components/attribute_store/src/attribute_store.cpp:521-612 | The deletion order lists exactly the proper descendants, each once |
| AttributeStore.Store.FlushDeletions | components/attribute_store/src/attribute_store.cpp:321-338 | The queue is emptied and exactly its ids that were saved lose their rows |
| AttributeStore.Store.SaveNode | components/attribute_store/src/attribute_store.cpp:280-312 | A subtree is saved: the root and the pending nodes of it get their rows and are no longer pending |
| AttributeStore.Store.SaveAll | components/attribute_store/src/attribute_store.cpp:418-443 | A save as the ledger says; the last id is stored only if something was pending |
| AttributeStore.Store.FetchRows | components/attribute_store/src/attribute_store.cpp:213-243 | One unlinked node per row, in any order of the rows |
| AttributeStore.Store.LinkRows | components/attribute_store/src/attribute_store.cpp:245-263 | Exactly the nodes whose rows name a parent with a row are linked to it |
| AttributeStore.Store.Load | components/attribute_store/src/attribute_store.cpp:205-269 | Every row that the datastore holds once the old tree is deleted has its node, linked to its parent if the parent has a row; the nodes form a tree in agreement with the id map if and only if the rows form one tree, and it is then exactly what the datastore holds |
| AttributeStore.Store.SaveThenLoad | components/attribute_store/src/attribute_store.cpp:205-269 | With a non-zero cooldown every node but the root comes back with id, type, parent and values, and the root without values; with a zero cooldown only the root is left |
| AttributeStore.Store.Restart | components/attribute_store/src/attribute_store.cpp:343-412 | A new process finds every node of the old one, for every cooldown, with an empty root |
| AttributeStore.Store.RunThenSave | components/attribute_store/src/attribute_store.cpp:418-443 | After any run of adds, writes, deletions, saves and cooldown changes through the store, in which the cooldown is switched off only while no deletion is queued, a save leaves the datastore equal to the tree |
| StoreLedger.SaveExact | components/attribute_store/src/attribute_store.cpp:418-443 | A save leaves the datastore equal to the tree: same ids, types, parents and values, even for ids that were queued for deletion and issued again |
| StoreLedger.RunThenSaveExact | components/attribute_store/src/attribute_store.cpp:280-443 | The same after any run of bookkeeping steps in which, while the cooldown is zero, no queued id is added or written and nothing is deleted while another queued id is in use again; the cooldown may change at any time |
| StoreLedger.ApplySoundIff | components/attribute_store/src/attribute_store.cpp:280-443 | A step keeps the bookkeeping sound if and only if it is careful in that sense |
| StoreLedger.CarelessLoses | components/attribute_store/src/attribute_store.cpp:280-443 | After a step that is not careful, a save at once or after one more deletion is not exact |
| StoreLedger.AddThenSaveExactIff | components/attribute_store/src/attribute_store.cpp:114-125 | After issuing an id the next save is exact if and only if the cooldown is not zero or the id is not queued for deletion |
| StoreLedger.WriteThenSaveExactIff | components/attribute_store/src/attribute_store.cpp:114-125 | The same after a write to a node whose id is queued for deletion |
| StoreLedger.DeleteThenSaveExact | components/attribute_store/src/attribute_store.cpp:584-597 | A save after one deletion is exact in any case |
| StoreLedger.DeleteTwiceThenSaveExactIff | components/attribute_store/src/attribute_store.cpp:321-338 | A save after two deletions is exact if and only if the cooldown is not zero or the second one does not take an id that was queued, issued again and not saved before the first one flushed the queue past it |
| StoreLedger.ReissuedIdIsLost | components/attribute_store/src/attribute_store.cpp:321-338 | A run from a fresh store that loses a row: the cooldown becomes zero with a deletion queued, and the id is issued again |
| StoreLedger.WrittenNodeIsLost | components/attribute_store/src/attribute_store.cpp:114-125 | A run from a fresh store that loses a row: the id is issued again, the cooldown becomes zero, and the node is written |
| StoreLedger.DeletedNodeIsKept | components/attribute_store/src/attribute_store.cpp:321-338 | A run from a fresh store that keeps the row of a deleted node: the id is issued again, the cooldown becomes zero, and another node and then this one are deleted |
| StoreLedger.DeleteAllSteady | components/attribute_store/src/attribute_store.cpp:584-597 | Deleting distinct nodes one after the other keeps the bookkeeping in order |
| StoreLoad.RowsAreATree | components/attribute_store/src/attribute_store.cpp:205-269 | The rows of a tree are parent-closed: every row but the root's has its parent among them, one level up |
| StoreLoad.AllLinked | components/attribute_store/src/attribute_store.cpp:245-263 | Once all links are made the nodes of rows that form one tree are a tree that stands for exactly the rows |
| StoreLoad.LinkedTree | components/attribute_store/src/attribute_store.cpp:245-263 | If the linked nodes form a tree, the rows do |
| NodeHeap.PostOrderIsSubtree | components/attribute_store/src/attribute_store_node.cpp:46-60 | The post-order lists exactly the subtree |
| NodeHeap.PostOrderDistinct | components/attribute_store/src/attribute_store_node.cpp:46-60 | No node occurs twice in the post-order |
| StoreRows.UnlinkIsRemoved | components/attribute_store/src/attribute_store_node.cpp:152-155 | Only the parent links to a node, so unlinking it there removes every link to it |
| AssociationSet.KeyInjective | components/attribute_store/include/zwave_association_toolbox.hpp:33-40 | The comparison key never confuses two associations |
| AssociationSet.SameMembersEqual | components/attribute_store/include/zwave_association_toolbox.hpp:33-40 | The order makes a set of associations unique as a sequence |
| AssociationSet.Insert | components/attribute_store/include/zwave_association_toolbox.hpp:33-40 | Insertion keeps the order and adds exactly one member, once |
| AssociationSet.Erase | components/attribute_store/include/zwave_association_toolbox.hpp:33-40 | Erasing keeps the order and drops exactly that member |
| AssociationCodec.Decode | components/attribute_store/src/zwave_association_toolbox.cpp:62-99 | The byte loop yields exactly the associations that the stream lists |
| AssociationCodec.Decoded | components/attribute_store/src/zwave_association_toolbox.cpp:62-99 | A decoded stream is ordered and holds exactly what the stream lists: node ids before the marker, complete pairs after it, invalid nodes dropped |
| AssociationCodec.Encode | components/attribute_store/src/zwave_association_toolbox.cpp:120-146 | The loop over the set writes the declared layout: node ids, marker, pairs; a lone marker for the empty set |
| AssociationCodec.EncodedLists | components/attribute_store/src/zwave_association_toolbox.cpp:120-146 | An encoded set lists exactly its members |
| AssociationCodec.RoundTrip | components/attribute_store/src/zwave_association_toolbox.cpp:62-146 | Decoding an encoded set gives the set back if and only if all its nodes are valid and its NodeID entries have endpoint 0 |
| AssociationCodec.NormalForm | components/attribute_store/src/zwave_association_toolbox.cpp:62-146 | For every byte string, decode, encode, decode gives what the first decode gave; two streams have the same normal form if and only if they list the same associations |
| AssociationCodec.LongRangeNodeIsMistaken | components/attribute_store/src/zwave_association_toolbox.cpp:120-146 | A node number above 255 comes back as another node |
| AssociationCodec.CutLayout | components/attribute_store/src/zwave_association_toolbox.cpp:120-146 | A stream that is cut short stands for the whole set only if nothing was cut |
| AssociationCodec.CutLayoutShrinks | components/attribute_store/src/zwave_association_toolbox.cpp:62-99 | A stream that is cut short lists only members of the set |
| AssociationGroups.EditedSize | components/attribute_store/src/zwave_association_toolbox.cpp:277-415 | No edit takes a group past the larger of its capacity and its previous size |
| AssociationGroups.ForceAddKeepsNewEntry | components/attribute_store/src/zwave_association_toolbox.cpp:341-388 | A forced add that succeeds holds the new entry and drops at most one other; it is refused exactly when the capacity is zero and nothing else is in the group |
| AssociationGroups.ApplyExact | components/attribute_store/src/zwave_association_toolbox.cpp:277-415 | After an edit whose stream fits, the stored group is exactly the edited set |
| AssociationGroups.StoredIntactIffFits | components/attribute_store/src/zwave_association_toolbox.cpp:277-307 | A non-empty set is stored intact if and only if its stream is shorter than 256 bytes |
| AssociationGroups.RunBounded | components/attribute_store/src/zwave_association_toolbox.cpp:277-415 | Over any run of edits whose streams fit, the group never exceeds the larger of its capacity and its initial size |
| AssociationGroups.RunBoundedByReported | components/attribute_store/src/zwave_association_toolbox.cpp:277-415 | Over any run of edits, even with streams cut by the 8-bit length, the group never exceeds the largest of its capacity, its initial size and the reported group |
| AssociationGroups.ApplyBoundedIff | components/attribute_store/src/zwave_association_toolbox.cpp:277-415 | One edit takes the group past the larger of its capacity and its size if and only if its stream has a length that is a multiple of 256 and the reported group is past it |
| AssociationGroups.FallBackOverflows | components/attribute_store/src/zwave_association_toolbox.cpp:277-307 | A concrete add within the capacity after which the group is a larger reported one |
| AssociationGroups.SmallGroupsFit | components/attribute_store/src/zwave_association_toolbox.cpp:277-415 | Every run fits when capacity and initial size are at most 127 |
| AssociationGroups.RemoveNodeId | components/attribute_store/src/zwave_association_toolbox.cpp:183-199 | Removing a node id ends and leaves exactly the entries of other nodes |
| AssociationGroups.BumpOne | components/attribute_store/src/zwave_association_toolbox.cpp:356-374 | The entry bumped out of a full group is the first one that is not the new one |
| AssociationGroups.GroupContent.AddDesired | components/attribute_store/src/zwave_association_toolbox.cpp:277-307 | Adds within the capacity, or leaves the group as it was |
| AssociationGroups.GroupContent.ForceAddDesired | components/attribute_store/src/zwave_association_toolbox.cpp:341-388 | Adds, bumping one entry out of a full group |
| AssociationGroups.GroupContent.RemoveDesired | components/attribute_store/src/zwave_association_toolbox.cpp:390-415 | Removes exactly that entry |
| AssociationGroups.GroupContent.RemoveDesiredNode | components/attribute_store/src/zwave_association_toolbox.cpp:570-595 | Removes exactly the entries of the node |
| AssociationGroups.GroupContent.RemoveAllDesired | components/attribute_store/src/zwave_association_toolbox.cpp:444-458 | Leaves the empty group |
| AssociationGroups.GroupLoopEnds | components/attribute_store/src/zwave_association_toolbox.cpp:597-622 | The loop with an 8-bit counter over the groups ends if and only if there are at most 254, and then visits each in order |
| AttributeTimeouts.RunAll | components/attribute_timeouts/src/attribute_timeouts.cpp:58-218 | In every interleaving of sets, cancellations, deletions, timer passes and time, with any time between the two clock readings of a step, the list is exactly what is due, one entry per pair, and no callback is taken before the deadline of its latest set or after a cancellation or deletion; a non-empty list has its timer armed or its handler running unless some step lost it, and only a step whose second reading is late does |
| AttributeTimeouts.Timeouts.Perform | components/attribute_timeouts/src/attribute_timeouts.cpp:58-218 | A watched list stays watched after a step if and only if the step is not a set of an empty list that is late by its whole duration with no timer and no handler, nor a last pass of the handler that the clock overtakes |
| AttributeTimeouts.Timeouts.SetCallback | components/attribute_timeouts/src/attribute_timeouts.cpp:164-199 | The pair becomes due after the duration, counted from the first clock reading, replacing an earlier one; other pairs are untouched; a zero duration starts nothing. The list is then watched by nobody if and only if the new deadline and all others have passed at the second reading, no timer is armed and no handler is running |
| AttributeTimeouts.Timeouts.CancelLocked | components/attribute_timeouts/src/attribute_timeouts.cpp:58-68 | Finds the pair if and only if it is due, and removes it |
| AttributeTimeouts.Timeouts.IsActive | components/attribute_timeouts/src/attribute_timeouts.cpp:201-212 | True if and only if the pair is due according to the history |
| AttributeTimeouts.Timeouts.OnNodeDeleted | components/attribute_timeouts/src/attribute_timeouts.cpp:132-142 | No entry of the node is left |
| AttributeTimeouts.Timeouts.HandlerPass | components/attribute_timeouts/src/attribute_timeouts.cpp:100-130 | Takes only a callback whose deadline has passed; stops only when no entry has expired at its first clock reading. Entries are left that nobody watches if and only if there are some, the clock passed all of them before the second reading, and no set armed the timer meanwhile |
| AttributeTimeouts.LostTimeout | components/attribute_timeouts/src/attribute_timeouts.cpp:70-130 | A run from nothing that ends with an entry in the list, no timer armed and no handler running |
| AttributeTimeouts.LateSet | components/attribute_timeouts/src/attribute_timeouts.cpp:164-199 | A run of one set after which an entry is in the list, no timer is armed and no handler is running |
| AttributeTimeouts.Timeouts.RestartWatchTimer | components/attribute_timeouts/src/attribute_timeouts.cpp:70-98 | The timer is armed for the nearest future deadline |
| LockOrder.TableUpward | components/attribute_store/src/attribute_store.cpp:64-71 | Every block of the call-path table takes locks in rank order only |
| LockOrder.StepOrdered | components/attribute_resolver/src/attribute_resolver_rule.cpp:68-74 | Every step of every thread keeps mutual exclusion and the rank order |
| LockOrder.RunOrdered | components/attribute_store/src/attribute_store_callbacks.cpp:104-169 | Every run of any number of threads keeps them |
| LockOrder.BlockedWaitsUpward | components/attribute_timeouts/src/attribute_timeouts.cpp:100-130 | A blocked thread waits for a lock that ranks above everything it holds |
| LockOrder.DeadlockFree | components/attribute_resolver/src/zpc_attribute_resolver_callbacks.cpp:87-116 | In every reachable state of every interleaving all threads are finished or some thread can step |
| LockOrder.CompletionUnderLockDeadlocks | components/attribute_resolver/src/attribute_resolver_rule.cpp:68-74 | The rule is necessary: a thread that makes the completion call with the rule lock held and a resolver thread reach, in two steps, a state where neither is finished and neither can step |

## Left out

- Multicast pooling, follow-up frames and supervision of the group resolver: part of the nondeterministic sender.
- The frame parser and generator, and the sending of frames.
- Registration of rules while the resolver runs, and teardown: the rule book of a `Resolver` is fixed.
- A second initialisation without a restart: `attribute_resolver_rule_init` does not reset the pending node, so the slot is modelled for runs with one initialisation.
- What user callbacks do inside the call (give-up, resolution and resumption listeners, rule functions that write attributes): their effects are later steps of the environment.
- Interleavings inside one pass of the walk, and inside the loops of one status report over a group: each is one step.
- Which thread reports what for a node between its DELETED callback and its unlinking: callbacks, writes and the unlinking are independent steps in any order.
- Number conversion of attribute values: `numberOf` is any function to the reals.
- Attribute type validation, type names, network-id helpers and configuration setters: validation outcomes are parameters.
- The callbacks that a load re-sends for the new tree, and the auto-save timer.
- Exceptions for missing nodes and failing datastore operations.
- ScanRequests.ResetNearest: the 16-bit counter of the inner loop is not modelled; a stack deeper than 65535 entries would not end the loop.
- RuleGroups.GroupNodes: the lookup `rule_book[attribute_type]` at line 150 of `attribute_resolver_rule.cpp` inserts an empty rule for an unregistered type, which a later execution would find and follow; the model leaves the book alone.
- AttributeStore.Store.GetNextId: asks for a usable id to exist, because the loop of the source does not end otherwise.
- AttributeStore.Store.constructor: asks that no row has the id of no node, which no save writes.
- AttributeStore.Store.Load: asks that no row has the id of no node, and that no deletion is going on.
- AttributeResolver.Resolver.RestartTimer: a postcondition and not an invariant of runs; `ResolverRuns.LostRetry` shows that resuming breaks it, and the other steps that may (a rejected retry, a raised limit) are not characterised.
- AttributeStore.Store.DeleteNode: one step; the source gives up the store lock between the children and around the callback, so calls of other threads in between are not modelled.
- Several resolution listeners of one node count as one.
- AttributeResolver.Resolver.RestartSet: the abort of the lower layers is a later status report.
- AttributeStore.Store.RunThenSave: the cooldown is switched off only while no deletion is queued; `StoreLedger.RunThenSaveExact` covers the other runs at the level of the bookkeeping.
- LockOrder.TableUpward: callbacks that other components register are not part of the table.
