# The deterministic half of the concurrency-defect detector

The detector asks a language model for concurrency contracts and then decides, without the model, what the
contracts leave undischarged. This project models that deciding half and proves what it promises. Language-model,
LLVM, alias and code-graph answers are parameters: a theorem that mentions one holds for every answer it could give.

| file | what it models |
|---|---|
| `HBWalks.dfy`, `HBGraph.dfy` | the happens-before graph and its two depth-bounded searches |
| `Evidence.dfy`, `OrderThreshold.dfy`, `ConcurrencyContract.dfy`, `OrderingEvidence.dfy` | must-order evidence: static edges chained with contract guarantees |
| `Requirements.dfy`, `RequirementChecker.dfy`, `RequirementLaws.dfy` | which requirements are discharged, the checker's report, and what a report says of operands, accesses and guarantees |
| `Calibration.dfy` | the review that may only strike candidates off the report |
| `MessageHistory.dfy`, `TokenPruning.dfy`, `Compaction.dfy`, `TokenSafety.dfy`, `Conversation.dfy`, `ConversationRun.dfy`, `ConversationSafety.dfy`, `ConversationContent.dfy` | a conversation with a model: history, pruning, the tool loop, whole runs, and what the model is sent |
| `Paths.dfy`, `CfgContraction.dfy` | contracting control flow to the nodes that matter |
| `ThreadTree.dfy`, `ThreadOverlap.dfy`, `ThreadCreationTree.dfy` | which threads may run at the same time, and where |
| `LockEffects.dfy`, `LockPasses.dfy`, `LockSets.dfy` | what a node does to locks, one pass over a function step by step, the lockset worklist |
| `StableSorting.dfy`, `SurfaceBudget.dfy`, `SessionBudget.dfy` | the greedy surface budget and the session budget |
| `WorkerPool.dfy` | the contract workers under every interleaving |
| `FindingMerge.dfy`, `HypothesisDedup.dfy`, `HypothesisKeys.dfy` | merging raw conflicts, deduplicating hypotheses, what the keys tell apart |
| `Option.dfy`, `FiniteSets.dfy` | helpers |

Objects whose methods update their fields are classes with those fields; loops are loops, each proved against a
specification function or predicate about which the laws are then proved as lemmas. For each operation there are laws
that mention neither the specification function nor its helpers, only the fields of the inputs and of the result.

## Main results

- **Search.** For distinct nodes `HbReachable` is exactly "a walk of 1..cap edges, crossing an accepted edge if
  demanded"; from a cap of 2|V|-1 on, it is exactly unbounded reachability across an accepted edge. `ClassifyPath`
  names the edge kinds of a shortest walk.
- **Must-order.** `OrdReach` decides equality, a synchronised walk, or a chain of guarantees. Control flow alone
  never orders two nodes. On graphs of at most v nodes the relation is transitive for all evidence if and only if
  v <= 2, cap <= 0 or cap >= 2v-1.
- **Report.** `CheckRequirements` lists each undischarged requirement once, in contract order, by its first failing
  operand pair, and nothing else. In terms of the contracts: an unreported `MustPrecede` has every left operand ordered
  before every right one, a reported one names a pair that is not, and likewise for the other two forms; an Order
  guarantee discharges the requirement of its own direction and not the opposite one. Adding guarantees or widening the policy can only shrink the report. Calibration
  only strikes off what was last judged "reject".
- **Conversations.** Under a token budget no model behaviour ever leads to an orphaned tool response, and every pin
  survives; a compactor orphans a response if and only if it strands one, a condition on positions. Under a message
  limit, a run is free of orphans if and only if each of its turns fits a condition on the number of executed calls
  that can be checked beforehand. Every message of a request was there before, or is the prompt, a note, a reply, or
  what a tool returned under the id and name of its call.
- **Locks.** A run over a function makes exactly one lock for each acquiring node it processes and one for each call of
  an acquiring callee; a processed release closes the latest lock of its incoming lockset that it matches, and nothing
  else releases a lock.
- **Contraction.** Order edges preserve all reachability between the nodes of a function if and only if its entry is
  kept or no other node of it leads back there.
- **Threads.** The memoised relation equals its recursive definition, is symmetric, and has a closed form: at equal
  depth the pair of sibling ancestors decides, at unequal depth only membership of the same tree does. A thread and its
  descendant overlap in all of the descendant and, in the ancestor, exactly between the descendant's fork and join.
- **Budgets.** The greedy choice has maximum total priority under a global and a per-thread-set cap if and only if
  nothing chosen has negative priority; sessions conserve the clustered objects.
- **Workers.** Under every schedule each index is drawn exactly once, all are done when the workers have joined, every
  stored contract was generated for its thread, and a run takes at most three steps per index and one per worker. If
  the generator answers by thread, the key set is the same under every schedule.

## Where the code and its comments differ

The model follows the code in each case.

- The count-pruning comment (include/LLMUtil/Conversation.h:138-147) promises that a tool response never loses its
  call. A single turn with enough calls erases its own assistant message, after which further responses pile up
  behind the system prompt. `ConversationSafety.LongTurnOrphans` is such a turn, `CountTurnExact` says for which
  turns this happens.
- The same promise fails under a token budget when a compactor meets a pinned call with several responses:
  `TokenSafety.CompactorCanOrphan` is such a history, `CompactedOrphansIff` says for which this happens.
- Threads at unequal depth are lifted in lockstep until one side has no parent
  (src/CCPG/ThreadCreationTree.cpp:980-991); joins then play no part. `ThreadTree.UnequalDepthIgnoresJoins` states the
  result, `JoinsCountOnlyAtEqualDepth` the consequence: a join keeps a thread apart from its sibling, but not from
  the threads that sibling creates.
- `OrderingEvidence::ordReach` reads as a must-order relation, but a depth cap can make it intransitive:
  `OrderThreshold.BoundedOrderIsNotTransitive` gives evidence for every positive cap,
  `TransitiveIffCapIsHarmless` the exact threshold.
- An entry that is not itself a kept node is part of its function, but no order edge leads back to it:
  `CfgContraction.EntryCanBeLost` is the smallest case, `PreservesAllIffEntryIsSafe` the exact condition.

## Model

| member | source | states |
|---|---|---|
| HBGraphs.HBGraph.AddEdge | src/CCPG/HBGraph.cpp:83-89 | an edge is filed once under its source and once under its destination, so both tables keep holding the same multiset of edges; a null endpoint changes nothing |
| HBGraphs.HBGraph.Clear | src/CCPG/HBGraph.cpp:78-81 | both tables are empty again |
| HBGraphs.HBGraph.HbReachable | src/CCPG/HBGraph.cpp:617-661 | false on a null node; on equal nodes true iff no synchronisation is demanded; otherwise true iff a walk of 1..cap edges exists that, if demanded, crosses an edge the policy accepts |
| HBGraphs.HBGraph.Search | src/CCPG/HBGraph.cpp:628-660 | the product search over (node, crossed) with two visited sets and two parallel queues answers exactly that question, and terminates |
| HBGraphs.HBGraph.FollowEdges | src/CCPG/HBGraph.cpp:641-658 | following the edges of one dequeued node either finds the goal or leaves the breadth-first invariant intact with that node settled |
| HBGraphs.NoGoalWithin | src/CCPG/HBGraph.cpp:628-660 | a search that followed every edge nearer than depth n has missed no accepting walk of at most n edges |
| HBGraphs.HBGraph.ClassifyPath | src/CCPG/HBGraph.cpp:663-698 | the result is non-empty iff the query without synchronisation is true at the same cap, and is then the kinds of a shortest walk |
| HBGraphs.FoundShortest | src/CCPG/HBGraph.cpp:679-696 | when the target is first seen, no shorter walk to it exists |
| HBGraphs.ShortestMeans | src/CCPG/HBGraph.cpp:663-698 | the labels of a result are those of the edges of one walk, in order, and no walk between the nodes has fewer edges |
| HBWalks.SyncSaturation | src/CCPG/HBGraph.cpp:617-661 | for caps of at least 2V-1 the bounded synchronised query is unbounded reachability of an accepted edge and from it of the target |
| HBWalks.PlainSaturation | src/CCPG/HBGraph.cpp:617-661 | for distinct nodes and caps of at least V-1 the bounded query is plain reachability |
| HBWalks.ShortWalk | src/CCPG/HBGraph.cpp:617-661 | cutting loops turns any walk into one of fewer than V edges |
| HBWalks.AcceptedKinds | src/CCPG/HBGraph.cpp:602-614 | across a single edge the structural policy sees exactly locks, forks and joins, the wider one all but program order and calls, and the query without synchronisation every kind |
| Evidence.OneEdgeOrders | src/LLMUtil/AgentManager.cpp:1027-1068 | one edge orders its ends forwards iff the policy accepts its kind, and never backwards |
| Evidence.GuaranteeBridges | src/LLMUtil/AgentManager.cpp:1050-1068 | whatever leads to the left end of a guarantee is ordered before whatever its right end leads to |
| Evidence.OrderNeedsSynchronisation | src/LLMUtil/AgentManager.cpp:1046-1068 | distinct nodes are ordered only across an accepted edge or through a guarantee: control flow alone never suffices |
| Evidence.OrderedIsPreorder | src/LLMUtil/AgentManager.cpp:1038-1068 | when the cap saturates, admits no walk, or the graph has at most two nodes, the relation is reflexive and transitive over every mixture of static and guarantee witnesses |
| OrderThreshold.BoundedOrderIsNotTransitive | src/LLMUtil/AgentManager.cpp:1020-1068 | for every positive cap and either policy some evidence on at most max(3, (cap+3)/2) nodes orders a before b and b before c, but not a before c |
| OrderThreshold.TransitiveIffCapIsHarmless | src/LLMUtil/AgentManager.cpp:1020-1068 | for every v, cap and policy: the relation is transitive for all evidence on at most v nodes iff v is at most 2, cap is at most 0, or cap is at least 2v-1 |
| Evidence.SyncPolicyMono | src/CCPG/HBGraph.cpp:602-614 | widening the policy keeps every synchronised order |
| Evidence.OrderedMono | src/LLMUtil/AgentManager.cpp:1050-1068 | more guarantees or a wider policy keep every order |
| Evidence.ProtectionIsSymmetric | src/LLMUtil/AgentManager.cpp:1072-1097 | common exclusion and atomic compatibility do not depend on the order of their operands |
| OrderingEvidences.OrderingEvidence.CfReachable | src/LLMUtil/AgentManager.cpp:1027-1033 | true iff the ids are equal or both resolve and a walk within the cap joins them |
| OrderingEvidences.OrderingEvidence.StaticSyncOrder | src/LLMUtil/AgentManager.cpp:1038-1044 | true iff the ids differ, resolve, and a walk within the cap crosses an accepted edge |
| OrderingEvidences.OrderingEvidence.OrdReach | src/LLMUtil/AgentManager.cpp:1050-1068 | true iff the nodes are equal, statically synchronised, or joined by a non-empty guarantee chain whose gaps control flow closes; the worklist terminates |
| OrderingEvidences.OrderingEvidence.Advance | src/LLMUtil/AgentManager.cpp:1054-1066 | one pass over the guarantees marks exactly new chain ends, queues each once, and misses no guarantee control-flow-after x |
| OrderingEvidences.OrderingEvidence.CommonlyExcluded | src/LLMUtil/AgentManager.cpp:1072-1088 | true iff one token covers both nodes, at least one of them exclusively |
| OrderingEvidences.OrderingEvidence.AtomicallyCompatible | src/LLMUtil/AgentManager.cpp:1090-1097 | true iff one atomic token covers both nodes |
| OrderingEvidences.OrderingEvidence.AddGuarantee | src/LLMUtil/AgentManager.cpp:1110-1121 | after one more guarantee the evidence is that of the longer list: its resolving pairs or its resolving nodes, filed by form |
| OrderingEvidences.BuildEvidence | src/LLMUtil/AgentManager.cpp:1101-1125 | the evidence is that of all guarantees of the thread-set's contracts |
| OrderingEvidences.MoreGuaranteesMoreEvidence | src/LLMUtil/AgentManager.cpp:1101-1125 | every component of the evidence grows with the guarantees and the policy |
| RequirementLaws.ExclusionMeans | src/LLMUtil/AgentManager.cpp:1072-1088 | two nodes exclude each other iff the list holds two Exclude guarantees with the same token, one over each node, both resolving, and not both shared |
| RequirementLaws.SharedExcludesNothing | src/LLMUtil/AgentManager.cpp:1072-1088 | guarantees that are all shared exclude nothing |
| RequirementLaws.AtomicityMeans | src/LLMUtil/AgentManager.cpp:1090-1097 | two nodes are atomically compatible iff the list holds two AtomicOp guarantees with the same token, one over each |
| Requirements.MediationIsSymmetric | src/LLMUtil/AgentManager.cpp:1202-1220 | swapping the operands of a mediation requirement never changes whether it is reported |
| Requirements.UndischargedMono | src/LLMUtil/AgentManager.cpp:1161-1259 | more evidence never makes a discharged requirement fail |
| Requirements.ListedIffUndischarged | src/LLMUtil/AgentManager.cpp:1161-1259 | a position is in the report iff its requirement is undischarged |
| Requirements.MoreEvidenceFewerReports | src/LLMUtil/AgentManager.cpp:1101-1259 | with requirements, threads and objects fixed, added guarantees or a wider policy leave a subset of the reported requirements |
| RequirementLaws.LockMeans | src/LLMUtil/AgentManager.cpp:1146-1157 | a common lock is a named one, held by an access of the object at each of the two nodes |
| RequirementLaws.LastAccessesDecide | src/LLMUtil/AgentManager.cpp:1146-1157 | the last access at each node decides: there is a common lock iff both are protected by the same named one |
| RequirementLaws.ObjectMeans | src/LLMUtil/AgentManager.cpp:1172-1176 | the object of a requirement is one of the session that carries its index, and is missing only if none does |
| RequirementLaws.ConflictsMeans | src/LLMUtil/AgentManager.cpp:1221-1254 | the interfering nodes are those of the writes and frees of the object by other threads of the session |
| RequirementLaws.ReportNamesRequirements | src/LLMUtil/AgentManager.cpp:1161-1259 | each candidate names the thread, form and object of its requirement, and candidates follow the threads and their contracts in order |
| RequirementLaws.ReportEntry | src/LLMUtil/AgentManager.cpp:1161-1259 | a requirement that is not discharged has exactly one candidate in the report, any other none |
| RequirementLaws.PrecedeMeans | src/LLMUtil/AgentManager.cpp:1186-1201 | a MustPrecede goes unreported iff each left operand is ordered before each right one, in this direction |
| RequirementLaws.PrecedeCandidate | src/LLMUtil/AgentManager.cpp:1186-1201 | its candidate names a left and a right operand not so ordered, the first such pair |
| RequirementLaws.MediatedMeans | src/LLMUtil/AgentManager.cpp:1202-1220 | a MustBeMediated goes unreported iff each pair is ordered either way, or shares a token or a lock |
| RequirementLaws.MediatedCandidate | src/LLMUtil/AgentManager.cpp:1202-1220 | its candidate names the first pair that is neither |
| RequirementLaws.AtomicMeans | src/LLMUtil/AgentManager.cpp:1221-1254 | a MustBeAtomic goes unreported iff its region is empty, its object missing, or each interfering access is before the first node, after the last, or protected against a node of the region |
| RequirementLaws.AtomicCandidate | src/LLMUtil/AgentManager.cpp:1221-1254 | its candidate names the first node of the region and an interfering access that is none of these |
| RequirementLaws.OtherFormsAreSilent | src/LLMUtil/AgentManager.cpp:1178-1259 | requirements of other forms are never reported |
| RequirementLaws.LifetimeMeans | src/LLMUtil/AgentManager.cpp:1161-1259 | a candidate is a lifetime hazard iff the deciding access at the right operand, or for mediation at either, is a free |
| RequirementLaws.GuaranteeDischarges | src/LLMUtil/AgentManager.cpp:1101-1201 | an Order or Wait guarantee of the session keeps the MustPrecede over its own operands out of the report |
| RequirementLaws.OppositeIsReported | src/LLMUtil/AgentManager.cpp:1101-1201 | with no edge and no other ordering guarantee the opposite MustPrecede is in the report |
| RequirementChecker.ObjectsById | src/LLMUtil/AgentManager.cpp:1172-1176 | the index maps each id to the last object carrying it |
| RequirementChecker.AccTypeOfNode | src/LLMUtil/AgentManager.cpp:1140-1145 | the answer is a free iff the first access at the node is one |
| RequirementChecker.SameLockCovers | src/LLMUtil/AgentManager.cpp:1146-1157 | true iff the last accesses at both nodes hold the same named lock |
| RequirementChecker.CollectConflicts | src/LLMUtil/AgentManager.cpp:1223-1232 | the nodes where other threads of the session write or free the object, in access order |
| RequirementChecker.CheckPrecede | src/LLMUtil/AgentManager.cpp:1186-1201 | nothing iff every pair is ordered; otherwise the first unordered pair in operand order |
| RequirementChecker.CheckMediated | src/LLMUtil/AgentManager.cpp:1202-1220 | nothing iff every pair is ordered either way or protected; otherwise the first pair that is not |
| RequirementChecker.ExcludedFrom | src/LLMUtil/AgentManager.cpp:1237-1245 | true iff some node of the region is protected against the conflicting one |
| RequirementChecker.CheckAtomic | src/LLMUtil/AgentManager.cpp:1221-1254 | nothing iff every conflicting access stays out of the region; otherwise the first that does not |
| RequirementChecker.CheckRequirements | src/LLMUtil/AgentManager.cpp:1161-1259 | the report lists every undischarged requirement of the session exactly once, in contract order, by its first failing pair, and nothing else |
| Calibration.Calibrator.ExecuteTool | src/LLMUtil/AgentManager.cpp:1365-1383 | only a judge call with an id in range changes a verdict, and only that one; every other call leaves all of them |
| Calibration.JudgedKeeps | src/LLMUtil/AgentManager.cpp:1369-1378 | one more tool call keeps the invariant: a candidate is struck off iff the last valid verdict on it is "reject" |
| Calibration.LastVerdictMeans | src/LLMUtil/AgentManager.cpp:1369-1378 | the last verdict on a candidate is that of the last use of the judge tool with its id, and there is none iff there is no such use |
| Calibration.EndsSession | src/LLMUtil/AgentManager.cpp:1365-1383 | only the finish tool, or a shared tool that answers "finish", ends the session |
| Calibration.UsesMean | src/LLMUtil/Conversation.cpp:108-130 | the uses carried out in a turn are its calls in order, up to the first that ends the session |
| Calibration.Calibrator.Review | src/LLMUtil/AgentManager.cpp:1291-1301 | for any model behaviour a candidate is dropped iff its last valid verdict is "reject", at most 2n+8 requests are made, and each of them still carries the pinned batch and orphans no tool response |
| Calibration.Filter | src/LLMUtil/AgentManager.cpp:2227-2244 | the survivors are the kept candidates, all of them, in order |
| Calibration.CalibrationOnlyFilters | src/LLMUtil/AgentManager.cpp:2227-2244 | each survivor reports an undischarged requirement, and an undischarged requirement is missing only if it was rejected |
| Conversations.EstimateTokens | include/LLMUtil/Conversation.h:73-81 | the loop over the calls computes the recursive estimate |
| MessageHistory.TokensMean | include/LLMUtil/Conversation.h:73-81 | a quarter of the characters of the text and of the calls, with eight more for each call, and four |
| Conversations.Conversation.PruneByCount | include/LLMUtil/Conversation.h:109-152 | the in-place erasure leaves the count-pruned history |
| MessageHistory.CountPrunedIsLongest | include/LLMUtil/Conversation.h:109-152 | count pruning keeps the system prompt and the longest suffix that fits and does not open with a tool response |
| MessageHistory.CountPrunedKeepsNoOrphans | include/LLMUtil/Conversation.h:138-147 | one count pruning never orphans a tool response |
| MessageHistory.CountPrunedKeepsTail | include/LLMUtil/Conversation.h:109-152 | a tail that fits beside the prompt and opens with no response survives whole |
| Conversations.Conversation.PruneByTokens | include/LLMUtil/Conversation.h:159-220 | the in-place loop leaves the token-pruned history and terminates, with and without a compactor |
| Conversations.Conversation.ReplaceSpan | include/LLMUtil/Conversation.h:186-208 | one round of the loop does not change what trimming will lead to, the running total stays the true sum, and what is left to look at gets shorter |
| Conversations.TrimStep | include/LLMUtil/Conversation.h:186-208 | replacing one unit and stepping past it leaves the outcome of trimming and the token count right |
| TokenPruning.OldestRoundGoes | include/LLMUtil/Conversation.h:159-220 | over budget the oldest unpinned round goes as a whole, or leaves one note on all of it, and pruning goes on behind it |
| TokenPruning.OldestMessageGoes | include/LLMUtil/Conversation.h:159-220 | over budget the oldest message outside such a round stays if it is pinned and otherwise goes alone |
| TokenPruning.TrimKeepsNoOrphans | include/LLMUtil/Conversation.h:159-220 | without a compactor trimming never orphans a response, wherever the pins are |
| Compaction.CompactOrphansIff | include/LLMUtil/Conversation.h:159-220 | for any pins, budget and compactor: a response is orphaned iff a loose response (unpinned, outside every unpinned round) is compacted directly before a response that is pinned or at which pruning stops |
| Compaction.CompactKeepsNoOrphans | include/LLMUtil/Conversation.h:159-220 | a history in which no response stands directly behind a loose one is safe under every budget and compactor, and stays such a history |
| Compaction.TrimKeepsOpen | include/LLMUtil/Conversation.h:188-191 | the unpinned round at the end of the history survives whole |
| TokenSafety.CompactedOrphansIff | include/LLMUtil/Conversation.h:159-220 | the same condition for a whole history, the final guard included |
| TokenSafety.TokenPrunedFitsOrStuck | include/LLMUtil/Conversation.h:159-220 | without a compactor a pruned history fits the budget, or nothing behind its prompt can be pruned any further |
| TokenSafety.CompactorCanOrphan | include/LLMUtil/Conversation.h:193-205 | a history and budget for which pinning a call makes a compactor orphan a response |
| TokenPruning.TrimKeepsPins | include/LLMUtil/Conversation.h:159-220 | all pinned messages survive in order and the last message stays last |
| TokenPruning.TrimIsLeast | include/LLMUtil/Conversation.h:172-208 | with or without a compactor pruning treats the prunable ones among the first n units, doing so for fewer units would not have fitted, and it stops because all fits or only the trailing round is left |
| TokenPruning.TrimFitsOrStuck | include/LLMUtil/Conversation.h:172-208 | without a compactor, wherever the pins are, afterwards all fits, or everything left is pinned, shares a round with a pin, or is the trailing round |
| TokenSafety.BodyPrunedSafe | include/LLMUtil/Conversation.h:159-220 | behind a system prompt pins, last message and open round survive, nothing is orphaned, and the final guard finds nothing to erase |
| TokenSafety.TokenPrunedSafe | include/LLMUtil/Conversation.h:159-220 | the same for a whole history, whose prompt stays in front |
| Conversations.Conversation.PinMessageAt | include/LLMUtil/Conversation.h:69 | exactly the message at an index in range is pinned |
| Conversations.Conversation.SetSystemPrompt | src/LLMUtil/Conversation.cpp:135-146 | the prompt is put or replaced in front, then the history is pruned |
| Conversations.Conversation.SendMessage | src/LLMUtil/Conversation.cpp:36-133 | every request and the final history are those of the run of turns, and the outcome says exactly why the loop ended and with which text: an answer without calls, or what is read off the final history after "finish" or at the turn cap |
| Conversations.Conversation.AnswerCalls | src/LLMUtil/Conversation.cpp:108-130 | responses are pushed and pruned one by one up to the first "finish" |
| ConversationContent.PrunedMessages | include/LLMUtil/Conversation.h:138-220 | pruning drops messages and may add notes, and changes none |
| ConversationContent.PromptStays | include/LLMUtil/Conversation.h:138-220 | a system prompt in front stays there |
| ConversationContent.PromptedMeans | src/LLMUtil/Conversation.cpp:62-79 | a request opens with the prompt in force; nothing else is changed |
| ConversationContent.CarriedOut | src/LLMUtil/Conversation.cpp:108-130 | calls are carried out up to the first that returns "finish", and no further |
| ConversationContent.CallMessages | src/LLMUtil/Conversation.cpp:36-133 | every Tool message that was not there before is the result of a call carried out in some turn, under its id and name; every Assistant message a reply with its calls; every User message the text sent or a note |
| ConversationContent.ResponsesMean | src/LLMUtil/Conversation.cpp:108-130 | a turn yields one response for each call carried out, in order |
| ConversationContent.TurnAppends | src/LLMUtil/Conversation.cpp:79-130 | when nothing has to be pruned, a turn leaves the request as it was and behind it the reply and one response for each call carried out |
| ConversationSafety.CountRoundExact | src/LLMUtil/Conversation.cpp:96-130 | under a message limit a round of k responses leaves no orphan iff limit is at most 1, k+1 is below it, or k+1 is a multiple of it |
| ConversationSafety.CountTurnExact | src/LLMUtil/Conversation.cpp:96-130 | one turn leaves no orphan iff it fits, a condition on the number of executed calls only |
| ConversationSafety.LongTurnOrphans | src/LLMUtil/Conversation.cpp:96-130 | a turn of three calls under a limit of three leaves an orphan |
| ConversationSafety.CountRunExact | src/LLMUtil/Conversation.cpp:36-133 | a run of any length stays free of orphans iff all its turns fit |
| ConversationSafety.CountCallExact | src/LLMUtil/Conversation.cpp:36-133 | the requests of one call orphan nothing iff all its turns but the last fit |
| ConversationSafety.TokenRunSafe | src/LLMUtil/Conversation.cpp:36-133 | under a token budget every state of every run opens with its prompt, orphans nothing, and holds exactly the pins it started with |
| ConversationSafety.TokenCallSafe | src/LLMUtil/Conversation.cpp:36-133 | so does every request of a call, which also carries the pin of its own message |
| CfgContraction.CCPG.FindChildren | src/CCPG/CCPG.cpp:1209-1244 | cached or searched, the answer is exactly the kept nodes other than the start reached by a path that meets no kept node on the way |
| CfgContraction.CCPG.SearchChildren | src/CCPG/CCPG.cpp:1215-1243 | the breadth-first search finds exactly the children and terminates on cyclic flow |
| CfgContraction.CCPG.CreateFunction | src/CCPG/CCPG.cpp:1086-1126 | the function is built once; its nodes are the entry and every kept node control flow reaches from it, its order edges lead from each node to exactly its children |
| CfgContraction.CCPG.LinkChildren | src/CCPG/CCPG.cpp:1111-1125 | one order edge to each child, and each child not seen before is queued once |
| CfgContraction.Contract | src/CCPG/CCPG.cpp:1209-1244 | a control-flow path to a kept node contracts to a path over children |
| CfgContraction.GrownUp | src/CCPG/CCPG.cpp:1093-1126 | when the queue is empty the function is the whole contraction |
| CfgContraction.NodesAndEdgesMean | src/CCPG/CCPG.cpp:1086-1126 | the nodes are the entry and the kept nodes control flow reaches from it; order edges lead from each to the other kept nodes that a path meeting no kept node on the way leads to |
| CfgContraction.ContractionPreservesReachability | src/CCPG/CCPG.cpp:1086-1126 | between distinct nodes of a function the order edges reach exactly what control flow reaches, provided the target is kept |
| CfgContraction.PreservesAllIffEntryIsSafe | src/CCPG/CCPG.cpp:1086-1126 | all reachability between distinct nodes of the function is preserved iff the entry is kept or no other node of it leads back to the entry |
| CfgContraction.UnenteredEntryLosesNothing | src/CCPG/CCPG.cpp:1086-1126 | so nothing is lost when no control-flow edge enters the entry |
| CfgContraction.EntryCanBeLost | src/CCPG/CCPG.cpp:1086-1126 | a loop through an entry that is not kept loses the way back |
| ThreadCreationTrees.IsReachable | src/CCPG/ThreadCreationTree.cpp:651-682 | true iff a path leads from start to end whose inner nodes lie in the thread |
| ThreadCreationTrees.GetReachableNodes | src/CCPG/ThreadCreationTree.cpp:1327-1352 | exactly the nodes of the thread reached inside it, forwards or backwards; none if the start lies outside |
| ThreadCreationTrees.ThreadCreationTree.IsDescendant | src/CCPG/ThreadCreationTree.cpp:952-961 | the loop over parent links decides descent |
| ThreadCreationTrees.ThreadCreationTree.MayHappenInParallel | src/CCPG/ThreadCreationTree.cpp:834-909 | for any cache content left by earlier queries the answer is the uncached one |
| ThreadCreationTrees.ThreadCreationTree.JudgeSiblings | src/CCPG/ThreadCreationTree.cpp:843-908 | roots by entry kind, declaration, phase and shared data; siblings run in parallel iff neither one's join leads to the other's fork inside the parent |
| ThreadCreationTrees.ThreadCreationTree.MayThreadsRunConcurrently | src/CCPG/ThreadCreationTree.cpp:963-996 | for any query sequence the memoised answer equals the recursive definition |
| ThreadCreationTrees.ThreadCreationTree.JudgePair | src/CCPG/ThreadCreationTree.cpp:977-992 | a line of descent is parallel; other pairs are judged as siblings or by their parents |
| ThreadTree.SiblingsSymmetric | src/CCPG/ThreadCreationTree.cpp:834-909 | the sibling judgement does not depend on the order of its operands |
| ThreadTree.ConcurrentSymmetric | src/CCPG/ThreadCreationTree.cpp:963-996 | neither does the recursive relation, so one cache entry may serve both orders |
| ThreadTree.EqualDepthSiblingsDecide | src/CCPG/ThreadCreationTree.cpp:977-992 | distinct threads at equal depth are concurrent iff their pair of sibling ancestors is |
| ThreadTree.UnequalDepthIgnoresJoins | src/CCPG/ThreadCreationTree.cpp:977-992 | unrelated threads at unequal depth are concurrent iff they belong to the same tree |
| ThreadTree.JoinsCountOnlyAtEqualDepth | src/CCPG/ThreadCreationTree.cpp:977-992 | a thread joined before its sibling is forked is not concurrent with the sibling, but is with every thread the sibling creates |
| ThreadTree.ConcurrencyClosedForm | src/CCPG/ThreadCreationTree.cpp:963-996 | both cases in one statement for any two distinct threads |
| ThreadCreationTrees.ThreadCreationTree.ComputeParallelLocs | src/CCPG/ThreadCreationTree.cpp:1151-1242 | siblings overlap everywhere, a line of descent in the child and the ancestor's scope, other pairs nowhere |
| ThreadCreationTrees.ThreadCreationTree.ConcurrentScope | src/CCPG/ThreadCreationTree.cpp:1199-1215 | the forward closure of the fork, cut down to the backward closure of the join if there is one |
| ThreadTree.ScopeIsBetweenForkAndJoin | src/CCPG/ThreadCreationTree.cpp:1199-1215 | the scope is exactly the nodes on some walk inside the thread from fork to join, or all the fork reaches there when there is no join |
| ThreadTree.ParallelNodesSwap | src/CCPG/ThreadCreationTree.cpp:1461-1492 | the answer for swapped threads is the swapped answer |
| ThreadOverlap.DescendantOverlap | src/CCPG/ThreadCreationTree.cpp:1199-1215 | a thread below another overlaps with it everywhere; the other one exactly in the nodes on a path inside it from the fork of the lower thread to its join, or behind the fork if there is no join |
| ThreadOverlap.ScopeMeans | src/CCPG/ThreadCreationTree.cpp:1199-1215 | membership in the scope of a child in terms of its own fork and join and of paths inside the parent |
| ThreadOverlap.SiblingOverlap | src/CCPG/ThreadCreationTree.cpp:1151-1242 | concurrent threads of one parent overlap everywhere |
| ThreadOverlap.NoOverlap | src/CCPG/ThreadCreationTree.cpp:1151-1242 | roots, unrelated threads of different parents, and threads that are not concurrent overlap nowhere |
| ThreadOverlap.SiblingsMean | src/CCPG/ThreadCreationTree.cpp:834-909 | forked siblings are concurrent iff no path inside their parent leads from the join of either to the fork of the other |
| ThreadOverlap.RootsMean | src/CCPG/ThreadCreationTree.cpp:834-909 | distinct roots are concurrent iff both are kernel entries and both are declared by hand, or they are no initialisation and exit and share data as far as that is known |
| ThreadOverlap.SelfOverlap | src/CCPG/ThreadCreationTree.cpp:963-996 | a thread is concurrent with itself iff it is reentrant |
| ThreadOverlap.DescentMeans | src/CCPG/ThreadCreationTree.cpp:952-961 | descent is a chain of one or more parent links |
| ThreadOverlap.DescentIsConcurrent | src/CCPG/ThreadCreationTree.cpp:963-996 | a thread is concurrent with all its ancestors, in either order |
| ThreadCreationTrees.ParallelLocCache.GetParallelLocs | src/CCPG/ThreadCreationTree.cpp:1461-1492 | through the order-normalising cache either order of the threads gets the answer of a direct computation |
| LockEffects.ReleaseClosesLatest | src/CCPG/LSAnalysis.cpp:39-49 | a release closes at most one lock: held, unreleased, aliasing it, and the most recently added such one, which leaves the set |
| LockEffects.EffectGrows | src/CCPG/LSAnalysis.cpp:30-73 | a node only adds locks and only sets releases that were missing, so a lock gets at most one release |
| LockSets.LSAnalysis.AddLock | src/CCPG/LSAnalysis.cpp:31-38 | a new unreleased lock, originating at the node, joins the end of its lockset |
| LockSets.LSAnalysis.MatchRelease | src/CCPG/LSAnalysis.cpp:39-49 | the backward scan performs exactly that release |
| LockSets.LSAnalysis.Transfer | src/CCPG/LSAnalysis.cpp:30-73 | the node's own operation, then that of its callee; new locks originate at the node |
| LockSets.LSAnalysis.Propagate | src/CCPG/LSAnalysis.cpp:76-96 | exactly the order successors change: the unvisited inherit the lockset and are queued, the visited merge it with their own |
| LockSets.LSAnalysis.ProcessNode | src/CCPG/LSAnalysis.cpp:23-96 | one worklist step: the effect of the node and of its callee on locks and lockset, then its propagation; new locks originate at the node |
| LockSets.LSAnalysis.AnalyseFunction | src/CCPG/LSAnalysis.cpp:12-98 | every node the order edges reach from the entry is processed exactly once, in a recorded pass; the locks added are exactly one for each processed Acquire node and one for each processed call of an acquiring callee, with that acquire and that origin; only processed nodes release locks |
| LockSets.LSAnalysis.WorkThrough | src/CCPG/LSAnalysis.cpp:17-98 | the worklist loop takes each node once and enters its step into the record of the pass |
| LockPasses.PassCreates | src/CCPG/LSAnalysis.cpp:30-73 | after any number of steps the new locks are exactly those created at the nodes processed |
| LockPasses.ReleaseTakesPlace | src/CCPG/LSAnalysis.cpp:39-49 | a processed release whose incoming lockset holds a match releases the latest one, and it stays so |
| LockPasses.PassReleases | src/CCPG/LSAnalysis.cpp:39-73 | every release made during a pass was made by a processed node and aliases its acquire |
| LockPasses.LineLocksOnce | src/CCPG/LSAnalysis.cpp:10-99 | on acquire, other nodes, aliasing release in a row one lock is made and released by the last node; each node up to the one before it holds exactly that lock, and nothing is held behind |
| LockSets.LSAnalysis.Build | src/CCPG/LSAnalysis.cpp:10-99 | one such pass for each function in turn, each starting where the one before ended; every reachable node ends with a lockset, every reachable Acquire node with a lock of its own, and each release aliases its acquire |
| StableSorting.SortIsStable | src/LLMUtil/AgentManager.cpp:1585-1589 | sorting rearranges by a permutation, ascends, and keeps the old order of ties, for any strict weak order |
| SurfaceBudget.StableOrderRanks | src/LLMUtil/AgentManager.cpp:1583-1589 | objects are ranked by descending priority, ties by ascending id |
| SurfaceBudget.GreedyPass | src/LLMUtil/AgentManager.cpp:1594-1610 | forced objects are kept; the others respect both caps, whoever is left out was blocked by an exhausted cap, and no other choice within the caps has a higher total iff nothing chosen has negative priority |
| SurfaceBudget.PassOver | src/LLMUtil/AgentManager.cpp:1601-1605 | leaving out an object blocked by a cap keeps the choice optimal |
| SurfaceBudget.TakeOne | src/LLMUtil/AgentManager.cpp:1606-1608 | choosing an object of non-negative priority keeps the choice optimal |
| SurfaceBudget.NegativeIsNotOptimal | src/LLMUtil/AgentManager.cpp:1606-1608 | a choice with an object of negative priority is beaten by leaving that object out |
| SurfaceBudget.Exchange | src/LLMUtil/AgentManager.cpp:1594-1610 | a rival choice containing the blocked object can trade it for a chosen one without breaking a cap |
| SurfaceBudget.CountByGroup | src/LLMUtil/AgentManager.cpp:1602-1605 | a choice with no more members under each thread-set is no larger |
| SurfaceBudget.ApplyCostFirstSurfaceBudget | src/LLMUtil/AgentManager.cpp:1558-1621 | small or ordinary surfaces are kept whole; otherwise all flagged objects are kept and the rest as the two caps allow, optimal iff nothing chosen has negative priority |
| SurfaceBudget.MutationWeights | src/LLMUtil/AgentManager.cpp:1623-1634 | a free adds 600 to the priority of an object, a list mutation 300, a race with itself 250 |
| SurfaceBudget.AccessWeights | src/LLMUtil/AgentManager.cpp:1623-1634 | an unprotected write adds 120, access by several threads 80, a missing annotation 40 |
| SurfaceBudget.BaseWeights | src/LLMUtil/AgentManager.cpp:1623-1634 | risk and flow add themselves; without risk, flow and flags the priority is zero |
| SurfaceBudget.IsBudgeted | src/LLMUtil/AgentManager.cpp:1594-1610 | in terms of flags and thread-sets: objects with a free, list mutation or self-race are kept; the rest respects the global cap and one cap per thread-set; each object dropped found one of the two used up |
| SessionBudget.ChunksPartition | src/LLMUtil/AgentManager.cpp:1682-1700 | every clustered object is in the chunks exactly as often as in the clusters, under the same threads |
| SessionBudget.SlicesFit | src/LLMUtil/AgentManager.cpp:1689-1698 | each chunk has between one and the maximum number of objects and carries its own score |
| SessionBudget.SlicesInOrder | src/LLMUtil/AgentManager.cpp:1684-1699 | read one after the other the chunks of a cluster are its objects in ranked order, under its threads, and only the last may be shorter than the maximum |
| SessionBudget.ScoreSumConcat | src/LLMUtil/AgentManager.cpp:1689-1698 | the score of several lists of objects is the sum of their scores, that of one object its priority |
| SessionBudget.SessionsConserve | src/LLMUtil/AgentManager.cpp:1674-1721 | kept and dropped chunks together hold exactly the clustered objects, at most the maximum each; none dropped has a higher score than one kept, or more objects at the same score, or fewer threads at the same size; only an enabled non-negative cap drops any |
| SessionBudget.SliceCluster | src/LLMUtil/AgentManager.cpp:1684-1699 | the stepping loop appends the consecutive slices of the ranked cluster |
| SessionBudget.BuildBudgetedSessions | src/LLMUtil/AgentManager.cpp:1674-1734 | the loops compute the ranked chunks up to the limit |
| WorkerPool.NextKeeps | src/LLMUtil/AgentManager.cpp:2103-2149 | every step of every worker keeps the invariant: each index drawn is held by exactly the worker that drew it, or done |
| WorkerPool.RunKeeps | src/LLMUtil/AgentManager.cpp:2103-2149 | so does every run under every interleaving |
| WorkerPool.JoinedRun | src/LLMUtil/AgentManager.cpp:2103-2149 | when all have exited, every index was drawn exactly once and is done, the counter passed the end once per worker, the map holds exactly the threads for which a contract was generated, and each entry was generated for its thread |
| WorkerPool.KeysIgnoreSchedule | src/LLMUtil/AgentManager.cpp:2103-2149 | if the generator answers by thread, any two joined runs, with any numbers of workers, end with the same keys |
| WorkerPool.StepsGetFewer | src/LLMUtil/AgentManager.cpp:2103-2149 | every step lowers a bounded measure |
| WorkerPool.RunIsBounded | src/LLMUtil/AgentManager.cpp:2103-2149 | so no run takes more than three steps for each index and one for each worker |
| WorkerPool.StuckMeansJoined | src/LLMUtil/AgentManager.cpp:2103-2149 | a reachable state without a next step is exactly one in which all workers have exited |
| FindingMerge.MergeByAnchor | src/LLMUtil/AgentManager.cpp:771-793 | one representative per key that occurs: the first of its group's top tier, counting all members, its alternates being the sites of the others; the counts add up to the raw conflicts |
| FindingMerge.GroupsMean | src/LLMUtil/AgentManager.cpp:771-793 | each raw conflict has a group with its key and no lower tier; each representative is one of the raw conflicts with its key |
| FindingMerge.TakesOver | src/LLMUtil/AgentManager.cpp:782-788 | a candidate of higher tier replaces the representative, which becomes an alternate |
| FindingMerge.JoinsGroup | src/LLMUtil/AgentManager.cpp:789-793 | any other candidate becomes an alternate |
| HypothesisDedup.CanonicalKey | src/LLMUtil/AgentManager.cpp:1429-1460 | one scan finds the first node of highest mutation rank and the least object, and builds the key of the level |
| HypothesisDedup.LeastObjectIsLeast | src/LLMUtil/AgentManager.cpp:1437-1446 | the fallback object is the least one any grounded node touches |
| HypothesisKeys.AnchorMeans | src/LLMUtil/AgentManager.cpp:1438-1449 | the anchor is the first node that frees, otherwise the first that writes, otherwise none |
| HypothesisKeys.ObjectMeans | src/LLMUtil/AgentManager.cpp:1437-1454 | the object is that of the anchor if it has one, otherwise the least one touched |
| HypothesisKeys.ClassesStayApart | src/LLMUtil/AgentManager.cpp:1429-1460 | at no level do hypotheses of different hazard classes share a key |
| HypothesisKeys.ExactMerges | src/LLMUtil/AgentManager.cpp:1457-1460 | exact keys agree iff class and nodes do, in any order |
| HypothesisKeys.AnchorMerges | src/LLMUtil/AgentManager.cpp:1454-1460 | anchor keys agree iff the class does and either both are anchored at the same node of the same object, or neither is anchored and the nodes agree |
| HypothesisKeys.ObjectClassMerges | src/LLMUtil/AgentManager.cpp:1452-1460 | object-class keys agree iff the class does and either both touch an object and it is the same, or neither does and the nodes agree |
| HypothesisDedup.ObjectClassIsCoarser | src/LLMUtil/AgentManager.cpp:1429-1460 | equal anchor keys imply equal object-class keys |
| HypothesisDedup.BestOf | src/LLMUtil/AgentManager.cpp:1495-1502 | the member picked is the first one that no other beats in severity and then in grounded nodes |
| HypothesisKeys.RepresentativeMeans | src/LLMUtil/AgentManager.cpp:1495-1524 | what remains of a group is its first member of greatest severity and then of most nodes, with one note for each other member |
| HypothesisDedup.DedupHypotheses | src/LLMUtil/AgentManager.cpp:1468-1530 | exactly one hypothesis per key remains, the best of its group with a note on the others; a list without duplicates is returned as it is |
| HypothesisDedup.DedupIsIdempotent | src/LLMUtil/AgentManager.cpp:1468-1530 | deduplicating the result at the same level changes nothing |
| HypothesisDedup.ObjectClassLeavesNoMore | src/LLMUtil/AgentManager.cpp:1429-1530 | object-class deduplication never leaves more hypotheses than anchor deduplication |

## Left out

- Language-model client, prompts, JSON, logging, DOT dumps, checkpoints and command line: input and output only. Environment switches (depth cap, policy, budgets, levels) are parameters.
- LLVM, alias, code-graph and entry-name queries: arbitrary relations or flags; shared data between entries is assumed symmetric.
- Building the happens-before edges (lock, RCU, fork/join, completion, lifecycle): the graph is any graph made by `AddEdge`. The graph is not claimed acyclic.
- Fork, acquire and release potential of functions, deadlock and same-lock queries of the lockset analysis: not modelled.
- Contract normalisation, the earlier clause-based discharge that feeds the merge, and the per-tier caps applied after it: not modelled.
- Reason and note texts: a candidate is its object, operands, form and lifetime flag.
- ThreadCreationTrees.ThreadCreationTree.ComputeParallelLocs: gives the overlapping nodes, not yet mapped to source lines and call contexts; the same holds for the cache in front of it.
- Nodes and threads are identified by their ids, so address order is id order; a missing node is `None`.
- Adjacency lists of control flow are kept in order where the search depends on it; order edges and thread flow are sets of pairs, and sets are visited in any order.
- HypothesisDedup.DedupHypotheses: does not state the order of the representatives, which follows the key strings in the code; anchor and canonical keys are tuples and multisets instead of strings.
- LockSets.LSAnalysis.Propagate: says which locks a merged lockset holds, not their order, which in the code is that of their addresses, and merges a node with itself as concatenation without duplicates; no fixpoint is claimed, because queued nodes are overwritten and visited ones are not processed again.
- Conversations.Conversation.SendMessage: the model and its tools are a recorded script of any finite length; `Waiting` is the state in which the recording ends. Reading a result off the final history is a parameter.
- Calibration.Calibrator.Review: verdicts are applied turn by turn after the conversation has run; no tool response depends on an earlier verdict, so the order does not matter. The wording of tool responses is abbreviated.
- Compaction.CompactKeepsNoOrphans: one direction only, because it looks at the history alone and holds for every budget and compactor; the exact condition for a given budget and compactor is `CompactOrphansIff`. A compactor is a function of the messages it replaces.
- WorkerPool.JoinedRun: the shared map is updated under its lock in one step; what the generator does is an arbitrary answer.
- Integer width: scores, token counts and indices are unbounded integers.
