# Hiro: a verified model of its hard parts

Hiro runs a tree of LLM agents: a control plane registers agent instances, schedules them, keeps
their conversations within a model's context window, decides which tools each may call, and shows
their terminals. This project models eight of its mechanisms in Dafny and proves what they are for.
Every method that runs under one mutex (or one database transaction) is one atomic step; time, cron
parsing, the summarizer, the tool-pattern matchers and the digest are parameters; database writes may
fail at any point. Compaction passes are stated for every configuration with the fan-outs that
all context windows lead to (`CompactionSteps.ConfigIsUsable`).

| files | mechanism | main results |
|---|---|---|
| `Seccomp`, `SeccompVerdicts` | seccomp filter generator, with an interpreter of classic BPF | the generated program computes the policy on every system call iff its 8-bit clone jump does not wrap; the verdict on every call of both platforms by number |
| `Conversation`, `CompactionSteps`, `Compactor`, `Sizing`, `Assembly` | compaction of a conversation into a tree of summaries, and assembly under a token budget | lossless over every run; tree shape; size bounds for any summarizer; assembly is the longest suffix that fits |
| `SubscriptionHeap`, `SchedulerProtocol`, `SchedulerDiscipline`, `Scheduler` | cron scheduler | removal and pause are final over every interleaving, even mid-fire, and without them a subscription stays live; exactly when an addition breaks that; the heap slice refines a bag |
| `Registry`, `RegistryRuns`, `Manager`, `MessageWaits`, `CallChains` | forest of instances | every reachable registry is a forest; traversal without a visited set is exact; teardown is leaf-first and its result is stated in full; no cycle of message waits, exact call chains |
| `ToolRules`, `Permissions`, `Wildcard`, `PermissionPatterns` | tool permissions | the decision along any chain of instances is the conjunction of their declarations; the wildcard matcher decides the recursive meaning; both together, down to the text of rules and lists |
| `GitConfigLines`, `GitGrammar`, `GitIdentity`, `GitRewrite`, `GitRoundTrip`, `GitUnterminated`, `GitGlued` | gitconfig reader and updater | for every text, exactly when the identity is read back, when updating is idempotent and when other lines are kept |
| `DeltaLog`, `DeltaTurn` | context deltas inside a history that may lose messages | self-healing from every history; first provider per type wins, and what is recorded is shown |
| `ReplayFilter`, `ReplayVerdicts`, `TerminalAttach`, `Notifications` | terminal replay and notification queue | unique tokenization; what is dropped in bytes; no gap on attach; no lost wakeup |

`Common` and `Sequences` hold shared types and sequence lemmas, `Text` the Go string functions that
the parsers use. `dafny verify dfyconfig.toml` checks everything.

## Where the code does not do what one would expect

The model follows the code; the lemma named in each point gives the exact condition.

- A seccomp block list long enough to push the clone inspection out of 8-bit reach makes the offset
  wrap around, and then clone is misjudged for some flags (`Seccomp.CorrectExactlyWhenItFits`); a
  still longer one is refused by the kernel (`Seccomp.InstalledExactly`). The shipped lists are far
  below the limit (`Seccomp.InstallableFilter`).
- Adding a subscription breaks the scheduler's invariant exactly if it is live or has no instance id
  (`SchedulerDiscipline.AddKeepsInvExactly`), and lets it start after its own removal exactly if a
  copy was queued, a fire of it was to come back, or it recurs without an instance
  (`SchedulerDiscipline.OutlivesExactly`).
- Registering an instance breaks the registry invariant exactly if its parent already lists it
  (`Registry.RegisterKeepsInvExactlyWhenUnlisted`). Two overlapping restarts of one instance do that
  (`RegistryRuns.TwoRestartsListTwice`). A single restart is safe but forgets the children
  (`Registry.RestartForgetsDescendants`).
- Tool input that is not valid JSON is refused only where some rule is left after filtering, so a
  child may accept it for a tool for which its parent refuses it (`Permissions.DecompositionExactly`).
- A gitconfig whose last line has no newline gets the first missing key glued to that line, and one
  with a line of 64 KiB cannot be read at all (`GitUnterminated.ReadsBackExactly`,
  `GitGlued.TwiceExactly`, `GitGlued.KeepsOthersExactly`).
- Dropping a query from a replayed stream can join a lone ESC with what follows
  (`ReplayFilter.OutputTokens`); the rest of the output then reads differently and may hold a query
  (`ReplayFilter.SecondFiltering`, `ReplayFilter.JoiningFormsSequence`).

## Model

| member | source | states |
|---|---|---|
| `Seccomp.BuildSeccompFilter` | cmd/hiro/agent_linux.go:87-202 | the loop with placeholders and back-patching emits the layout `Compile`, uint8 conversion of the clone distance included |
| `Seccomp.FilterIsAccepted` | cmd/hiro/agent_linux.go:87-202 | the program passes the kernel's own check (at most 4096 instructions, known opcodes, loads inside the structure, jumps forward and in range, a return at the end) iff twice the list plus 15, or 20 without network, is at most 4096 |
| `Seccomp.FilterImplementsPolicy` | cmd/hiro/agent_linux.go:87-202 | if the clone distance fits, running the program on any call returns exactly the first-match policy, and never faults |
| `Seccomp.CorrectExactlyWhenItFits` | cmd/hiro/agent_linux.go:153-176 | the program is right on every call iff the clone distance is at most 255 |
| `Seccomp.WrappedJumpMisjudgesClone` | cmd/hiro/agent_linux.go:153-176 | once the distance wraps, a concrete clone call gets the wrong verdict |
| `Seccomp.SubmittedIsAccepted` | cmd/hiro/agent_linux.go:57-77 | the same after the length went through uint16: a program cut short by the wrap-around is refused |
| `Seccomp.InstalledExactly` | cmd/hiro/agent_linux.go:57-77 | what is submitted is accepted and enforces the policy on every call iff the clone distance is at most 255 |
| `Seccomp.InstallableFilter` | cmd/hiro/agent_linux.go:221-230 | for amd64 and arm64 with the shipped lists the submitted filter is accepted and enforces the policy on every call; no filter for other architectures |
| `SeccompVerdicts.LoadsStruct` | cmd/hiro/agent_linux.go:80-84 | the machine's loads are the sixteen words of struct seccomp_data, low halves first |
| `SeccompVerdicts.AcceptedReturns` | cmd/hiro/agent_linux.go:57-77 | any program that the kernel's check accepts returns on every call, without a fault |
| `SeccompVerdicts.ShortProgram` | cmd/hiro/agent_linux.go:87-211 | the whole program for a list of one syscall, every opcode, offset and return value as a number |
| `SeccompVerdicts.Amd64Verdicts` | cmd/hiro/agent_linux.go:98-119 | on x86-64, for every call: killed for a foreign architecture; clone (56) denied for a new user or network namespace; 20 listed numbers denied; socket (41) denied without network unless its domain is 1; all else allowed |
| `SeccompVerdicts.Arm64Verdicts` | cmd/hiro/agent_linux.go:98-119 | the same for arm64 with its numbers |
| `SeccompVerdicts.NumbersAreDistinct` | cmd/hiro/agent_linux.go:98-119 | on both platforms clone and socket differ and are not among the denied calls |
| `Conversation.AppendKeepsInv` | internal/platform/db/messages.go:77-131 | appending a message keeps the context an exact image of the log |
| `Conversation.ReplaceIsSplice` | internal/platform/db/messages.go:355-377 | deleting a range of ordinals and inserting one summary at its start replaces exactly that run |
| `Conversation.SpliceKeepsInv` | internal/platform/db/messages.go:355-377 | if the new summary expands to what the run stood for, the whole context still expands to the whole log |
| `Conversation.LeafCommitKeepsInv` | internal/inference/compaction.go:329-386 | committing a leaf summary over a run of messages loses nothing |
| `Conversation.CondenseCommitKeepsInv` | internal/inference/compaction.go:422-480 | committing a summary one level above a run of summaries loses nothing and gets its time range from the first and last |
| `Conversation.OrphansKeepInv` | internal/platform/db/messages.go:209-260 | rows left behind by a pass that failed between its writes do not disturb the context |
| `Conversation.SummaryStandsForMany` | internal/inference/compaction.go:217-234 | a summary of depth d stands for at least 4 * 3^d messages |
| `Conversation.DepthCounts` | internal/inference/compaction.go:217-234 | in numbers: at least 4, 12, 36, 108, 324, 972, 2916, 8748 and 26244 messages at depths 0 to 8 |
| `Conversation.ChildIsOneLevelDown` | internal/inference/compaction.go:422-480 | every child of a summary of depth d is a complete summary of depth d - 1 whose messages are among the parent's |
| `Conversation.TimeRangeCovers` | internal/inference/compaction.go:355-365 | with messages in time order a summary's range contains the times of all messages below it |
| `Conversation.RecallIsContiguous` | internal/inference/tools_history.go:92-100 | every context item stands for a contiguous stretch of the log |
| `CompactionSteps.CompactionIsLossless` | internal/inference/compaction.go:329-506 | over every run of appends and passes: summaries then messages, and full expansion yields the log, each message once and in order |
| `CompactionSteps.ConfigIsUsable` | internal/inference/compaction.go:217-234 | every configuration derived from a context window is one that the passes accept |
| `CompactionSteps.RunsContinue` | internal/inference/compaction.go:482-506 | every append and every sweep iteration with a configuration of some context window continues a run |
| `CompactionSteps.SweepStepKeepsInv` | internal/inference/compaction.go:482-506 | every iteration keeps the invariant, only appends messages, and a pass that changes the context strictly shrinks it up to messages appended meanwhile |
| `CompactionSteps.OldestChunkIsUnique` | internal/platform/db/messages.go:414-455 | the chunk selection is determined by its specification |
| `CompactionSteps.FreshTailStaysRaw` | internal/inference/compaction.go:329-386 | after a leaf pass the last FreshTailCount items and everything appended since stand unchanged at the end |
| `CompactionSteps.CondensationKeepsMessages` | internal/inference/compaction.go:422-480 | a condensation replaces no message |
| `Compactor.Session.AppendMessage` | internal/platform/db/messages.go:77-131 | the new tables are the old ones with the message logged and put last in the context |
| `Compactor.Session.OldestMessageContextItems` | internal/platform/db/messages.go:414-455 | returns exactly the oldest chunk outside the tail, by position and token sum |
| `Compactor.Session.ContiguousSummariesAtDepth` | internal/platform/db/messages.go:464-529 | returns the longest adjacent run at a depth, the first of that length, or nothing if none reaches the minimum |
| `Compactor.LongestAdjacent` | internal/platform/db/messages.go:500-529 | the run-length scan finds the first longest block of adjacent positions |
| `Compactor.Session.MaxSummaryDepth` | internal/platform/db/messages.go:533-547 | the greatest depth in the context, or -1 |
| `Compactor.Session.MessageTokensOutsideTail` | internal/platform/db/messages.go:398-410 | the token sum of the messages before the tail |
| `Compactor.Session.LeafPass` | internal/inference/compaction.go:329-386 | unchanged iff the oldest chunk is too short; error iff the summarizer or a write fails, with the context untouched; otherwise that chunk becomes one leaf whose text is the first answer if within target, else the second if within 3/2 of it, else the second cut before the last bullet, space or budget end; with its times and tokens |
| `Compactor.Session.CondenseAtDepth` | internal/inference/compaction.go:422-480 | the same for the longest run of summaries at one depth |
| `Compactor.Session.CondensationPass` | internal/inference/compaction.go:388-418 | works at the lowest depth with a long enough run and never above the maximal depth; unchanged only if no allowed depth has one |
| `Compactor.Session.FullSweep` | internal/inference/compaction.go:482-506 | at most ten passes, each the right kind for its state, ending early only on an error or with nothing to condense |
| `Sizing.ConfigIsSound` | internal/inference/compaction.go:164-234 | for every window soft <= hard <= budget, 3/2 of the leaf target is below the chunk size, fan-outs and depth are in range |
| `Sizing.ConfigIsMonotone` | internal/inference/compaction.go:217-234 | every derived parameter grows with the window |
| `Sizing.TruncationFits` | internal/inference/compaction.go:761-777 | the truncation is a prefix estimated within its budget |
| `Sizing.TruncationKeepsWholeBullets` | internal/inference/compaction.go:761-777 | it cuts before the last bullet that starts inside the budget |
| `Sizing.ConfigShares` | internal/inference/compaction.go:164-234 | every derived parameter by itself: which share of the window, rounded down, between which bounds |
| `Sizing.DocumentedSizes` | internal/inference/compaction.go:198-216 | chunk and target sizes, tail, fan-out and thresholds at 32K, 200K, 1M and 2M in numbers |
| `Sizing.EscalationExactly` | internal/inference/compaction.go:508-547 | the escalation fails iff the first answer failed, or was over target and the second failed; otherwise it answers the text described for the leaf pass |
| `Sizing.StoredIsUnique` | internal/inference/compaction.go:508-547 | that description admits one text |
| `Sizing.StoredIsBounded` | internal/inference/compaction.go:508-547 | whatever the summarizer answers, what is stored is at most 3/2 of its target and a prefix of an answer |
| `Assembly.CapFreshTail` | internal/inference/assembly.go:75-97 | splits the items; the tail shrinks only while above 80% of the budget and never to nothing |
| `Assembly.FillBudget` | internal/inference/assembly.go:101-116 | keeps a suffix within the budget that cannot be extended |
| `Assembly.Assemble` | internal/inference/assembly.go:43-53 | always a suffix, over budget only as a single item; with positive sizes the longest suffix that fits, or the last item |
| `Assembly.LongestFitIsUnique` | internal/inference/assembly.go:43-53 | that specification admits one result |
| `SubscriptionHeap.Init` | internal/agent/scheduler.go:440-465 | an arbitrary slice becomes a heap with the same bag of entries |
| `SubscriptionHeap.Push` | internal/agent/scheduler.go:440-465 | heap order is kept and the bag gains the entry |
| `SubscriptionHeap.Pop` | internal/agent/scheduler.go:440-465 | an earliest entry leaves; the rest is a heap with the rest of the bag |
| `SubscriptionHeap.Remove` | internal/agent/scheduler.go:114-131 | entry i leaves; the rest is a heap with the rest of the bag |
| `SchedulerProtocol.RunKeepsInv` | internal/agent/scheduler.go:97-318 | over every disciplined run: cancelled ids are running, heap copies plus uncancelled fires are at most one per id |
| `SchedulerProtocol.FiresMatchRunningKeys` | internal/agent/scheduler.go:233-318 | in-flight fires and running keys correspond one to one, so no subscription overlaps itself |
| `SchedulerProtocol.RemovedNeverStarts` | internal/agent/scheduler.go:114-131 | after Remove, mid-fire or not, the id does not start before it is added again |
| `SchedulerProtocol.PausedNeverStarts` | internal/agent/scheduler.go:134-157 | after a successful pause no subscription of the instance starts before it is added again |
| `SchedulerProtocol.StaysLive` | internal/agent/scheduler.go:233-318 | over every disciplined run an added subscription that is neither removed nor paused is, after every step, in the heap or firing uncancelled: a recurring one for good, a one-shot until its fire has ended |
| `SchedulerProtocol.OnceStartsAtMostOncePerAdd` | internal/agent/scheduler.go:268-318 | a one-shot subscription starts at most once per Add, whether its fire fails or not |
| `SchedulerProtocol.OnceIsAddedBetweenStarts` | internal/agent/scheduler.go:268-318 | between two starts of a one-shot subscription, and before its first, there is an Add of it |
| `SchedulerDiscipline.AddKeepsInvExactly` | internal/agent/scheduler.go:97-109 | an Add keeps the invariant iff the id is not live and the entry has an instance |
| `SchedulerDiscipline.OutlivesExactly` | internal/agent/scheduler.go:97-131 | after an Add and no further one of its id, some run starts the id after a Remove iff a copy was in the heap, an uncancelled fire of it recurs, or the new entry recurs without an instance |
| `SchedulerDiscipline.DuplicateOutlivesRemoval` | internal/agent/scheduler.go:97-131 | a run in which a twice-added id starts after its removal |
| `SchedulerDiscipline.EmptyInstanceOutlivesRemoval` | internal/agent/scheduler.go:268-318 | a run in which an id without instance starts after its removal |
| `Scheduler.BuildEntryExactly` | internal/agent/scheduler.go:322-351 | an entry is built iff it is what the subscription asks for: its parsed cron schedule with the first time after now, or a single time in the future |
| `Scheduler.Scheduler.Add` | internal/agent/scheduler.go:97-109 | the heap gains the entry the subscription asks for, as one Add step of the protocol, or nothing changes if there is none |
| `Scheduler.Scheduler.Remove` | internal/agent/scheduler.go:114-131 | one Remove step of the protocol |
| `Scheduler.Scheduler.PauseInstance` | internal/agent/scheduler.go:134-157 | one Pause step, or nothing on a database error; filter-then-Init keeps a heap |
| `Scheduler.Scheduler.ResumeInstance` | internal/agent/scheduler.go:160-188 | one Add step per subscription that can be built, in order |
| `Scheduler.Scheduler.PopReady` | internal/agent/scheduler.go:233-266 | what is taken is due and a minimum; an overlapping entry goes back; a start is one Start step |
| `Scheduler.Scheduler.FireReady` | internal/agent/scheduler.go:233-266 | starts due entries earliest first until nothing is due or an overlap stops it |
| `Scheduler.Scheduler.FinishFire` | internal/agent/scheduler.go:268-318 | one Finish step: running and cancelled are cleared; the heap gains the entry at the next time of its schedule iff it has one, was not cancelled and is no successful one-shot |
| `Registry.UnregisterKeepsInv` | internal/agent/manager.go:206-219 | unregistering keeps: listed children are registered under that parent, once, younger than it |
| `Registry.RegisterKeepsInvExactlyWhenUnlisted` | internal/agent/manager_lifecycle.go:597-606 | registering keeps the invariant iff the parent does not already list the id |
| `RegistryRuns.ReachableIsForest` | internal/agent/manager_lifecycle.go:378-433 | over every run from the empty registry (creation under an earlier id, restart, restore, removal, status, reboot) the invariant holds with the order of creation, and every instance has the parent it was created with |
| `RegistryRuns.NoParentCycle` | internal/agent/manager_lifecycle.go:378-433 | in every reachable registry parent links close no cycle |
| `RegistryRuns.RemovedIsGone` | internal/agent/manager.go:206-219 | a removed id is a key of neither map, and a reboot empties both |
| `RegistryRuns.NewExactly` | internal/agent/manager_lifecycle.go:378-433 | a creation is new iff its id is not empty and no earlier id, and its parent, if any, was created before |
| `RegistryRuns.AlwaysEnabled` | internal/agent/manager_lifecycle.go:378-433 | in every reachable state a fresh id can be created under any registered instance, and any created id can be registered and removed again under its own parent |
| `RegistryRuns.StepKeepsLoosely` | internal/agent/manager.go:206-219 | even with overlapping restarts a listed child stays registered under that parent |
| `RegistryRuns.TwoRestartsAreSteps` | internal/agent/manager_session.go:340-358 | two overlapping restarts: both unregister, then both register |
| `RegistryRuns.TwoRestartsListTwice` | internal/agent/manager_session.go:340-358 | they leave the instance listed twice, the invariant broken, and the traversal from its parent listing it twice |
| `Registry.RestartForgetsDescendants` | internal/agent/manager_session.go:355-358 | after unregister and register the instance reaches only itself; all other instances are as before |
| `Manager.BfsIsExact` | internal/agent/manager_query.go:254-271 | a fully expanded listing holds exactly the reachable instances |
| `Manager.Manager.RegisterInstance` | internal/agent/manager_lifecycle.go:597-606 | both maps after registering a fresh or a known id, as one step of the run model; the invariant survives iff the parent did not list the id |
| `Manager.Manager.UnregisterLocked` | internal/agent/manager.go:206-219 | both maps after removal, with a current or a stale instance, as one step of the run model; the invariant holds |
| `Manager.Manager.CollectDescendants` | internal/agent/manager_query.go:254-271 | terminates without a visited set; lists exactly the reachable instances, once, parents first; nothing for an unknown id |
| `Manager.Manager.IsDescendant` | internal/agent/manager_query.go:248-250 | true iff the ancestor is registered and reaches the target |
| `Manager.Manager.SoftStop` | internal/agent/manager_worker.go:68-96 | only the status of that instance changes |
| `Manager.Manager.DeleteInstance` | internal/agent/manager_lifecycle.go:147-188 | the registry with exactly the descendants gone from both maps and the root from its parent's list |
| `Manager.DeletedLeavesNoTrace` | internal/agent/manager_lifecycle.go:147-188 | no key and no list entry names a deleted instance |
| `Manager.StopStep` | internal/agent/manager_lifecycle.go:125-138 | what one more teardown does to the registry, for stopped, persistent and ephemeral instances |
| `Manager.Manager.StopInstance` | internal/agent/manager_lifecycle.go:113-143 | on a running root, running persistent descendants are marked stopped and ephemeral ones unregistered, nothing else changes; after every teardown a torn-down node has nothing running below it |
| `Manager.StoppedIsLeafFirst` | internal/agent/manager_lifecycle.go:113-143 | each intermediate registry is leaf-first |
| `MessageWaits.TargetIsBelowChain` | internal/inference/tools_spawn.go:384-402 | the target of a message lies strictly below every instance of the sender's call chain |
| `MessageWaits.RunKeepsGood` | internal/agent/manager_helpers.go:96-128 | over every run from the empty system, with any registry steps in between and background spawns that outlive their turn, turns, messages and spawns stay below their callers in the tree that the run itself created |
| `MessageWaits.LaunchSends` | internal/inference/tools_spawn.go:208-238 | a background spawn that sends later, with the call chain it was launched with, keeps that |
| `MessageWaits.NoWaitCycle` | internal/agent/manager_helpers.go:96-128 | in no reachable state do turns wait on each other in a cycle |
| `MessageWaits.ChainsFollowTheTree` | internal/inference/context.go:25-46 | a message waits only below its whole call chain, and a chain is no longer than the depth of the tree |
| `CallChains.ChainsAreExact` | internal/inference/context.go:25-46 | over every run: a message carries exactly its sender's call chain, a turn exactly that and its own instance, a background spawn exactly the chain of the turn that launched it |
| `CallChains.SentMessageRuns` | internal/agent/manager_helpers.go:96-128 | whatever happens after a turn sent to a slot, the message waits for that slot, and the turn that answers holds it and has the sender's chain of that moment and its own instance |
| `CallChains.WaitersAreInChain` | internal/agent/manager_helpers.go:96-100 | the chain of a turn holds the chain of every turn that waits for its answer, directly or through others, so it can message none of their instances |
| `CallChains.SendsToDescendants` | internal/inference/tools_spawn.go:384-402 | in every reachable state a running turn can message exactly the instances strictly below its own and the children of its instance: the chain check refuses nothing else |
| `CallChains.BlockedWaits` | internal/agent/manager_helpers.go:116-122 | a pending message can acquire its slot iff no turn holds it; otherwise its sending turn waits for the holder |
| `CallChains.SlotsAreExclusive` | internal/agent/manager_helpers.go:116-122 | in every reachable state no two turns hold the same slot |
| `CallChains.EndingFreesSlot` | internal/agent/manager_helpers.go:54-62 | when a turn ends, any message that waits for its slot can acquire it |
| `CallChains.ExchangeIsPossible` | internal/agent/manager_helpers.go:54-62 | from any reachable state a turn can send to a free slot below its own, the message runs with the longer chain and ends, and all is as before |
| `CallChains.SomeTurnIsFree` | internal/agent/manager_helpers.go:96-128 | in every reachable state in which turns run, one of them waits for no other |
| `ToolRules.ParsedIsWellformed` | internal/toolrules/rule.go:22-48 | parsing yields only rules with a trimmed, non-empty tool name without parenthesis |
| `ToolRules.ParseUndoesString` | internal/toolrules/rule.go:65-70 | printing a well-formed rule and parsing it gives it back |
| `ToolRules.ParseExactly` | internal/toolrules/rule.go:22-48 | a text is read as a rule iff, without the space around it, it is the tool alone or the tool, perhaps space, and a non-empty pattern in parentheses, the tool being all before the first parenthesis |
| `ToolRules.ParseRules` | internal/toolrules/rule.go:52-62 | all or nothing: succeeds iff every rule parses |
| `ToolRules.Check` | internal/toolrules/checker.go:152-199 | the loops decide: definite deny, then uncertain deny, then uncertain allow, then allow |
| `Permissions.CheckRules` | internal/inference/tools.go:63-98 | a call passes iff no deny rule and no layer stops it, unparsable input only if there are no rules |
| `Permissions.FilterRules` | internal/agent/manager_resolve.go:163-171 | keeps, in order, the rules of the given tools |
| `Permissions.StripRedundantWholeToolRules` | internal/agent/manager_resolve.go:142-160 | drops, in order, the whole-tool rules of tools that also have parameterized ones |
| `Permissions.HasParameterized` | internal/agent/manager_resolve.go:128-135 | true iff some rule has a pattern |
| `Permissions.ComputedNamesAndDeny` | internal/agent/manager_resolve.go:99-123 | a tool is in the computed set and passes the merged deny rules iff it is declared, passes the own deny rules and, with a parent, is in the parent's set and passes its deny rules |
| `Permissions.ComputedLayers` | internal/agent/manager_resolve.go:99-123 | the computed layers pass a call iff the own parameterized rules and all layers of the parent do |
| `Permissions.ComputeEffectiveTools` | internal/agent/manager_resolve.go:44-95 | fails iff a rule does not parse, otherwise equals the closed form `Compute` |
| `Permissions.ComputedIsStripped` | internal/agent/manager_resolve.go:142-160 | stored layers never hold a redundant whole-tool rule |
| `Permissions.ChildIsOwnAndParent` | internal/agent/manager_resolve.go:44-123 | a child may make a call iff its own declarations allow it and its parent's stored rules permit it |
| `Permissions.ChainIsConjunction` | internal/agent/manager_resolve.go:44-171 | along any chain the decision is the conjunction of all declarations |
| `Permissions.MissingParentPermitsNothing` | internal/agent/manager_resolve.go:99-123 | a missing parent permits nothing |
| `Permissions.DecompositionExactly` | internal/inference/tools.go:63-98 | the child permits whatever own rules and parent permit, and more exactly for unparsable input to a tool that no rule on either side restricts while some rule restricts another tool |
| `Permissions.UnparsableSlipsThrough` | internal/inference/tools.go:63-98 | a child that accepts unparsable input its parent refuses |
| `Wildcard.MatchCore` | internal/toolrules/wildcard.go:78-119 | two pointers with one backtrack point decide the recursive meaning of a pattern |
| `Wildcard.StandingStar` | internal/toolrules/wildcard.go:78-119 | after another star earlier backtrack points are not needed |
| `Wildcard.ContainsUnescapedStar` | internal/toolrules/wildcard.go:63-74 | true iff a star token occurs |
| `Wildcard.TrailingSpaceStarOptional` | internal/toolrules/wildcard.go:46-60 | true iff the only star is last and follows an unescaped space |
| `Wildcard.MatchWildcard` | internal/toolrules/wildcard.go:32-42 | the meaning of the pattern, or of the pattern without its optional trailing part |
| `PermissionPatterns.MatchCommaList` | internal/toolrules/checker.go:109-120 | matches iff some stretch between neighbouring commas or ends, trimmed and non-empty, does |
| `PermissionPatterns.RuleResult` | internal/toolrules/checker.go:202-236 | what the default checker answers for one rule is the matcher that the theorems use |
| `Text.SplitExactly` | internal/toolrules/checker.go:109-120 | splitting yields exactly the stretches between neighbouring separators or ends |
| `Text.JoinUndoesSplit` | internal/toolrules/checker.go:109-120 | the items hold no separator, there is at least one, and joining them gives the text back |
| `Text.SplitUndoesJoin` | internal/toolrules/checker.go:109-120 | splitting joined items without separator gives them back |
| `PermissionPatterns.PatternsDecide` | internal/toolrules/checker.go:202-236 | with the default matchers a declaration allows a call iff its patterns do, for every tool but the shell |
| `PermissionPatterns.ChainOfPatterns` | internal/toolrules/checker.go:202-236 | along any chain of instances the call is permitted iff the patterns of every declaration allow it |
| `GitConfigLines.SplitLinesKeepEOL` | internal/api/git_identity.go:339-352 | the loop yields the lines with their newlines |
| `GitConfigLines.ConcatLines` | internal/api/git_identity.go:339-352 | joining the lines gives the text back |
| `GitConfigLines.LinesOfConcat` | internal/api/git_identity.go:339-352 | splitting joined lines gives the lines back |
| `GitConfigLines.KeyLineReads` | internal/api/git_identity.go:320-336 | a written key line is recognized as that key and read as the cleaned value |
| `GitGrammar.HeaderExactly` | internal/api/git_identity.go:306-312 | a line is a section header iff, without the space around it, it is something in brackets |
| `GitGrammar.UserHeaderExactly` | internal/api/git_identity.go:202-206 | it is the header of a user section iff what the brackets hold, trimmed, spells user in any casing that simple folding allows |
| `GitGrammar.KeyExactly` | internal/api/git_identity.go:320-336 | a line is a name or email key iff what stands before its first equals sign, trimmed, spells it in any casing; comments never are |
| `GitGrammar.ValueExactly` | internal/api/git_identity.go:210-215 | its value is the rest without the space around it and then without the quotes around that |
| `GitIdentity.UpdateGitUserSection` | internal/api/git_identity.go:244-304 | the loop over lines with its flags computes `Update` |
| `GitIdentity.ReadGitUser` | internal/api/git_identity.go:185-224 | fails iff a line is 64 KiB or longer, otherwise the last name and email of [user] sections |
| `GitRoundTrip.UpdateThenRead` | internal/api/git_identity.go:185-304 | for every text that is empty or ends in a newline, reading after updating succeeds with the cleaned identity iff every kept line and both written lines are below 64 KiB |
| `GitRoundTrip.WrittenFitExactly` | internal/api/git_identity.go:320-336 | the written lines are short enough iff the name has fewer than 65528 bytes and the email fewer than 65527 |
| `GitRoundTrip.RoundTrip` | internal/api/git_identity.go:185-304 | it yields exactly the identity iff moreover both values are free of surrounding space and quotes |
| `GitRewrite.UpdateTwice` | internal/api/git_identity.go:244-304 | updating a text that is empty or ends in a newline twice is updating it once |
| `GitRewrite.UpdateKeepsOtherLines` | internal/api/git_identity.go:244-304 | for such a text every line that is not a name or email key of a [user] section is kept, unchanged and in order; at most a header is added |
| `GitUnterminated.GluedIsInert` | internal/api/git_identity.go:280-290 | a key glued to visible text is neither a key nor a [user] header for the reader |
| `GitUnterminated.ReadsBackExactly` | internal/api/git_identity.go:185-304 | for every text and every identity that cleaning leaves non-empty: reading after updating succeeds with the identity iff the text does not end, without newline, in the first [user] section on a visible line that is neither key while a key is missing, and every kept, written or glued line is below 64 KiB |
| `GitGlued.KeepsOthersExactly` | internal/api/git_identity.go:244-304 | for every text: the other lines are kept iff it ends in a newline, or has a [user] section and no key is glued to its last line |
| `GitGlued.TwiceExactly` | internal/api/git_identity.go:244-304 | for every text: updating twice is updating once iff no key is glued to its last line, or that line is the header of another [user] section |
| `GitUnterminated.LostExample` | internal/api/git_identity.go:244-304 | the text "[user]" loses every identity |
| `DeltaLog.ReplayAnnounced` | internal/inference/context_providers.go:82-102 | the replayed set; a name is in it iff some entry adds it and neither that nor a later one removes it |
| `DeltaLog.AnnouncedExactly` | internal/inference/context_providers.go:82-102 | the same for the fold over any entries |
| `DeltaLog.ReplayLatestHash` | internal/inference/context_providers.go:192-206 | the last non-empty hash of the type |
| `DeltaLog.ListingIsUnique` | internal/inference/context_providers.go:121-136 | a set has one sorted listing, so map order leaves no trace in a delta |
| `DeltaLog.LessExactly` | internal/inference/context_providers.go:121-136 | the sorting order: the first difference decides, and a proper prefix comes first |
| `DeltaLog.NamedSetDelta` | internal/inference/context_providers.go:232-273 | nothing iff the replay is current, otherwise one entry with the sorted differences and the rendered text in reminder tags |
| `DeltaLog.BlobDelta` | internal/inference/context_providers.go:434-454 | nothing without content or if its hash is the latest, otherwise one entry with the hash and the titled content in reminder tags |
| `DeltaLog.NamedDeltaHeals` | internal/inference/context_providers.go:316-353 | from any history, appending the delta makes the replay equal the current set; nothing is emitted iff it already does |
| `DeltaLog.BlobDeltaHeals` | internal/inference/context_providers.go:192-226 | appending the delta makes the hash the latest |
| `DeltaLog.UnwrapWrap` | internal/inference/context_providers.go:168-172 | removing the reminder tags gives the text back, and leaves a text without them alone |
| `DeltaTurn.ComputeDeltas` | internal/inference/context_providers.go:141-187 | one merged message of the kept results, or none |
| `DeltaTurn.MergeReplays` | internal/inference/context_providers.go:141-187 | per type the merged message replays like the kept messages one after the other |
| `DeltaTurn.FirstWins` | internal/inference/context_providers.go:141-187 | per type it has the effect of the first emitter's own message |
| `DeltaTurn.NobodyWins` | internal/inference/context_providers.go:141-187 | a type nobody emitted is left as it was |
| `DeltaTurn.SettledExactly` | internal/inference/loop.go:775-799 | after a turn a source is announced correctly iff it agrees with the first source of its type that had something to say |
| `DeltaTurn.MergedText` | internal/inference/context_providers.go:168-187 | the merged message is a reminder that holds the kept texts in order, exactly a blank line between neighbours and nothing else |
| `DeltaTurn.RecordedIsShown` | internal/inference/context_providers.go:141-187 | a type that some provider emitted is recorded in the message and its first emitter's text stands in it as a block |
| `DeltaTurn.RecordedWasEmitted` | internal/inference/context_providers.go:141-187 | every recorded type was emitted |
| `DeltaTurn.AskProvider` | internal/inference/context_providers.go:232-273 | a provider says nothing when inactive, without content or when current, and otherwise shows its rendered or titled text |
| `DeltaTurn.UnsettledIsShown` | internal/inference/loop.go:775-799 | what the history does not say about a source, the turn shows |
| `Text.JoinExactly` | internal/inference/context_providers.go:182-182 | joining yields the text with exactly the separator between neighbours, and no other |
| `DeltaTurn.ProgramSources` | internal/agent/manager_lifecycle.go:580-589 | the eight sources of the program have distinct types and non-empty digests, so the turn theorems apply to them |
| `DeltaTurn.TurnHeals` | internal/inference/loop.go:772-799 | with distinct types one turn settles every source, from any history whatsoever |
| `DeltaTurn.SilentExactly` | internal/inference/context_providers.go:141-187 | a turn is silent iff every source is settled |
| `DeltaTurn.SecondTurnIsSilent` | internal/inference/loop.go:775-799 | the turn after it adds nothing |
| `ReplayFilter.TokenizeSplits` | internal/api/terminal_filter.go:22-82 | every byte string is a valid sequence of tokens |
| `ReplayFilter.TokensAreUnique` | internal/api/terminal_filter.go:22-82 | and of only one |
| `ReplayFilter.ScanCSI` | internal/api/terminal_filter.go:88-111 | the extent of the control sequence, and whether it is a query; malformed and cut ones are kept |
| `ReplayFilter.ScanOSC` | internal/api/terminal_filter.go:149-163 | the extent of the operating system command up to BEL or ST, and whether it is a query |
| `ReplayFilter.IsOSCQueryLoop` | internal/api/terminal_filter.go:171-181 | true iff some parameter after a semicolon is a lone question mark |
| `ReplayFilter.ScanDCS` | internal/api/terminal_filter.go:185-197 | the extent of the device control string up to ST, and whether it is a query |
| `ReplayFilter.IsCSIQuery` | internal/api/terminal_filter.go:113-142 | the decision on a control sequence by its final byte |
| `ReplayVerdicts.CsiVerdict` | internal/api/terminal_filter.go:113-142 | in bytes, for every complete control sequence in front of anything: dropped iff c, or n for 5, 6 or a private report, or $ p, or t for 11 and 13 to 21; otherwise kept |
| `ReplayVerdicts.BadCsiVerdict` | internal/api/terminal_filter.go:88-111 | one broken off by a foreign byte is kept |
| `ReplayVerdicts.CutCsiVerdict` | internal/api/terminal_filter.go:88-111 | one cut off by the end of the input is kept |
| `ReplayVerdicts.OscVerdict` | internal/api/terminal_filter.go:149-181 | every complete operating system command: dropped iff it holds a lone question mark between a semicolon and another or the end |
| `ReplayVerdicts.DcsVerdict` | internal/api/terminal_filter.go:185-202 | every complete device control string: dropped iff it starts with $q |
| `ReplayVerdicts.CutStringVerdict` | internal/api/terminal_filter.go:149-197 | a control string without its end is kept |
| `ReplayVerdicts.PlainVerdict` | internal/api/terminal_filter.go:22-82 | any byte that introduces nothing is kept |
| `ReplayFilter.FilterReplayQueries` | internal/api/terminal_filter.go:22-82 | the output is the concatenation, in order, of the tokens that are no queries, for any valid split of the input |
| `ReplayFilter.UnchangedWithoutQueries` | internal/api/terminal_filter.go:18-22 | without query tokens the output is the input |
| `ReplayFilter.OutputTokens` | internal/api/terminal_filter.go:22-82 | the output splits into the kept tokens iff in the input no lone ESC is parted by queries alone from a plain byte that makes it an introducer |
| `ReplayFilter.FilterTwice` | internal/api/terminal_filter.go:22-82 | a second filtering changes the output iff the output holds a query; never without such a joined ESC |
| `ReplayFilter.SecondFiltering` | internal/api/terminal_filter.go:22-82 | with one, everything before the first joined ESC stays, and the rest is read anew, beginning with an escape sequence, and filtered |
| `ReplayFilter.JoiningFormsSequence` | internal/api/terminal_filter.go:22-82 | inputs whose output is a new control sequence: a query for one final byte, none for another |
| `Sequences.LastAppend` | internal/api/terminal_session.go:810-819 | cutting a buffer after every append is cutting once |
| `TerminalAttach.ReplayBuffer.Write` | internal/api/terminal_session.go:810-819 | the buffer stays the last capacity bytes of everything ever written |
| `TerminalAttach.ReplayBuffer.Bytes` | internal/api/terminal_session.go:822-828 | returns those bytes |
| `TerminalAttach.Subscribers.FanOutData` | internal/api/terminal_session.go:76-88 | every channel with room gets the chunk, a full one is left as it is |
| `TerminalAttach.StepKeepsInv` | internal/api/terminal_session.go:460-514 | each pump, attach, receive and detach step accounts for every byte fanned out since a client subscribed |
| `TerminalAttach.AttachAndReceive` | internal/api/terminal_session.go:460-514 | from any reachable state between two reads a client can subscribe, take the snapshot, get the next chunk and detach, and has then seen the end of the output |
| `TerminalAttach.CompleteExactly` | internal/api/terminal_session.go:76-88 | over every interleaving a client's channel carries everything fanned out since it subscribed iff no fan-out found it 256 chunks behind |
| `TerminalAttach.NoGap` | internal/api/terminal_session.go:494-514 | over every interleaving such a client can show the output without a hole from the start of its snapshot |
| `Notifications.NotificationQueue.Push` | internal/inference/notifications.go:55-74 | the pending items are the last 1000 pushed since the last drain, and a token is in the channel |
| `Notifications.NotificationQueue.Drain` | internal/inference/notifications.go:77-86 | returns those and leaves none |
| `Notifications.RunKeepsInv` | internal/inference/notifications.go:55-94 | over every run every batch is what was pushed between two drains, up to the bound, and pending items are awaited |
| `Notifications.NoLostWakeup` | internal/channel/router.go:360-393 | pending items with no producer mid-push and no pump mid-drain always have a token |
| `Notifications.PushIsDelivered` | internal/inference/notifications.go:55-94 | from any reachable state a push, its signal, the receive and the drain are possible and deliver everything pending, the pushed notification last |
| `Notifications.DeliveredInOrder` | internal/channel/router.go:360-393 | batches and pending items are the push log in order with omissions, and all of it if at most 1000 pushes fall between drains; pending items are a suffix of it |

## Left out

- Syscalls, Landlock, processes, PTYs, gRPC, WebSocket and HTTP handlers: I/O.
- SQL, and durability of the database: each table operation is an atomic step that may fail.
- Text sent to the summarizer, the preceding-summary hint and prompts: they do not affect the tables.
- Liveness of the scheduler loop and of the sweep: the loop stops at an overlapping entry, and the sweep may repeat a leaf pass that changes nothing.
- Heap `index` field: not maintained by heap.Init and never relied on.
- Manager.Manager.DeleteInstance: other goroutines do not run between the critical sections of one deletion, because an interfering restart can register a deleted id again.
- Manager.Manager.StopInstance: other goroutines do not run between the critical sections of one stop, for the same reason.
- Scheduler.Scheduler.FireReady: other goroutines do not run between its iterations; each iteration by itself, with any state before it, is `Scheduler.Scheduler.PopReady`, and `SchedulerProtocol` interleaves those freely.
- Worker death, shutdown and restore paths of the manager: they only repeat the registry steps.
- Locks other than session slots: only the slot ordering of message chains is claimed.
- Recomputing children when a parent's rules change: the code does not do it, so the theorem is about the moment of computation.
- Structural tools and skill-driven tool expansion: added outside the inheritance algebra.
- The shell parser behind Bash rules and the extraction of parameters: parameters of `PermissionPatterns`.
- Sizing.ConfigIsSound: thresholds are exact fractions of the window, not floating point.
- Sizing.ConfigIsMonotone: likewise.
- Bytes that are not valid UTF-8 in gitconfig text, patterns and rules: text is a sequence of code points.
- GitUnterminated.ReadsBackExactly: identities whose name or email is nothing but space and quotes are left out; the reader cannot tell such a value from a missing one.
- GitRewrite.UpdateTwice: only for text that is empty or ends in a newline; `GitGlued.TwiceExactly` covers every text.
- GitRewrite.UpdateKeepsOtherLines: only for text that is empty or ends in a newline; `GitGlued.KeepsOthersExactly` covers every text.
- Rendering of context listings: the text of a delta is a parameter; collisions of the 16-digit digest go unnoticed, as in the program.
- The exit event of a terminal: delivered on the same channel and lost in the same way when it is full.
- Random ids: generated summary ids may collide (the write then fails); subscriber ids are taken to be fresh.
- Delivery of a drained batch: a terminal error while processing one notification drops the rest of its batch.
- File sync, cluster, discovery, tokens, settings, usage and model lookup: only easy members.
