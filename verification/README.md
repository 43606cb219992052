# Verified models of the algorithms in this repository

A Dafny project that models the repository's algorithmic cores and proves what they are for. Each
`.dfy` file is one module; `dafny verify dfyconfig.toml` checks all of them. Loops, classes and
in-place updates of the originals are loops, classes and in-place updates here; each such method is
proved against an independent description of its answer, and the lemmas say what that description is
worth.

## What is modelled

**Porcupine, the linearizability checker** (`Linearizability`, `Entries`, `LinkedEntries`,
`LiveList`, `Search`, `SearchInvariant`, `CheckSingle`, `KvModel`, `CheckOperations`,
`Visualization`). A history is linearizable when some ordering of all its operations is accepted by
`Step` from `Init` and never places an operation before one that returned before its call. The
search is modelled with its doubly linked list of nodes on the heap, the hash-bucketed cache, the
stack of calls and the array of longest partial linearizations. It terminates and answers true
exactly for linearizable histories; its records are of greatest length in spite of the pruning by
the cache; the visualization of a partition never reaches its panic and shows, for each operation, a
longest partial linearization that holds it; and deciding each key of the key/value model alone
decides the whole store (locality).

**Regular expressions to automata** (`Automaton`, `Build`, `PostFix`, `RunAutomaton`). The compiler
from postfix form to an automaton without epsilon edges keeps that no edge enters state 0, that all
states are below n, that state n - 1 accepts and that t counts the edges, and its automaton accepts
exactly the language. The infix converter, with the inserted `&`s, undoes printing exactly for texts
in which `(` never follows a letter, a digit or `*`. Together: the simulator prints Y at position i
exactly when the prefix of length i + 1 is in the language.

**Raft** (`Raft`, `RaftElections`, `RaftStaleVotes`, `RaftLogs`, `RaftProgress`). Peers as a class
with the handlers' fields; runs of a group with timeouts, crashes, restarts from the persister, and
RPCs lost or arbitrarily delayed. A run is safe when no two peers ever lead the same term, at
whatever moments of the run. Elections as written are safe in every run if and only if there are at
most three peers; counting a granted vote only in the term it was asked for makes them safe for any
number. A leader's log, as the code compares logs, was not behind those of a majority when they
voted. Whatever has happened, a leader can still be elected, exactly in groups of two or more. Also:
starting agreement, compaction by absolute index, the commit rule of section 5.4.2 of the extended
Raft paper (Ongaro and Ousterhout) with the exact condition under which its scan leaves the log, and
applying in order.

**The key/value server on top** (`KvServer`). For every committed log, database and outcomes are
those of the log with later repeats of a command id removed; retries are answered with the first
outcome, by a loop that polls for it while the server leads; the database is the state of the model
that the checker uses.

**MapReduce** (`Coordinator`, `Sequential`, `MapReduce`, `JobProgress`). The coordinator's
bookkeeping in every run with timeouts, lost answers, late and repeated reports and crashing
workers; that every such run can still reach `Done`; and the result of any run that does: the output
files together hold exactly the lines of the sequential program, each key in the file of its bucket.

**Minimax and alpha-beta** (`AlphaBeta`). The pruned value is exact inside the window and a correct
strict bound outside; both agents choose the same action, ties included.

**Reverse-mode differentiation** (`Gradients`). Over every graph of nodes, with shared subgraphs and
repeated parents, the gradient is the sum over all paths of the product of local derivatives.

**Alignment and hidden states** (`SeqAlign`, `Viterbi`), **k-means** (`KMeans`), **mazes**
(`Mazes`), **the tape-shift gadget** (`TapeShift`). Optimality of the dynamic programs over all
alignments and all state paths; k-means ends on every data set; three maze searches compute true
distances; the shifters of the two-tape to one-tape conversion move a word one cell to the right,
exactly when it has no two adjacent marks.

`Sequences` and `Wrappers` hold the few shared definitions.

## Where the code and its description differ

- Raft: a granted vote is counted before the reply's term is compared with the current one
  (`raft.go:433-434`). The paper counts votes per term. As written, four or more peers can elect two
  leaders in one term: `RaftStaleVotes.TwoLeaders` builds the run, for every such number.
- Raft: a peer that has compacted its whole log compares candidates with (0, 0) (`raft.go:321-326`),
  so it grants peers whose logs are behind its snapshot. `RaftLogs.GuardsIff` gives the exact
  condition, `RaftLogs.CompactedExample` an input.
- Raft: the majority is tested only when a reply arrives, so a single peer never leads.
- Infix conversion: `addConcats` puts no `&` between a letter, digit or `*` and a following `(`
  (`build.cpp:196-219`), so `a(b)` loses its concatenation (`PostFix.ClashExample`).
- `viterbi` places its initial distribution on a state before the first symbol, not on the first.

## Modelling choices

Go maps are iterated in any order, and sorting is known only by its contract. Hash functions,
scoring functions, map and reduce functions, evaluation functions and square roots are parameters.
Floating point is replaced by exact integers and reals. The network, clocks and goroutines become
nondeterministic steps. A bitset is a finite set of naturals. `Call <= Return` is required of every
operation of a history, and a history given to `Check` is not empty.

## Model

| member | source | states |
|---|---|---|
| Entries.MakeEntries | Distributed Systems/porcupine/checker.go:48-60 | one call and one return entry per operation, sorted by time with calls first at equal times, whatever order sorting gives to equal entries |
| Entries.EventListTimeline | Distributed Systems/porcupine/checker.go:31-46 | in every such event list a return stands before a call exactly when its operation returned before the other was called |
| LinkedEntries.InsertBefore | Distributed Systems/porcupine/checker.go:70-81 | the list gains the node just before the mark, with next and prev consistent |
| LinkedEntries.Length | Distributed Systems/porcupine/checker.go:83-90 | the number of nodes |
| LinkedEntries.MakeLinkedEntries | Distributed Systems/porcupine/checker.go:121-138 | a fresh doubly linked list with a node per entry in order, where each call node points to the node of its own return |
| LinkedEntries.Lift | Distributed Systems/porcupine/checker.go:159-167 | the list becomes the list without the call and return node, which keep the pointers needed to go back, also when they are adjacent |
| LinkedEntries.Unlift | Distributed Systems/porcupine/checker.go:169-177 | the list from before the lift, every next and prev restored |
| CheckSingle.LiftPair | Distributed Systems/porcupine/checker.go:159-167 | after lifting any stack of pairs the list is the event list without those pairs, in order |
| CheckSingle.UnliftPair | Distributed Systems/porcupine/checker.go:169-177 | undoing the last lift of a stack gives the list of the shorter stack, down to the original list |
| LiveList.LiveWithout | Distributed Systems/porcupine/checker.go:159-167 | taking a pair out of the live positions of a set of operations gives the live positions of the larger set |
| CheckSingle.CacheContains | Distributed Systems/porcupine/checker.go:145-152 | looking only into the bucket of the entry's hash finds it exactly when it was ever added |
| Search.PartialMeaning | Distributed Systems/porcupine/checker.go:179-253 | the sequences the search can spell are exactly the partial linearizations: distinct operations, accepted by Step, holding every operation that returned before a member was called |
| Search.LinearizableIffComplete | Distributed Systems/porcupine/checker.go:179-253 | a history is linearizable exactly when the search can spell a sequence of all operations |
| Search.ClosedCoversPartials | Distributed Systems/porcupine/checker.go:200-213 | if a set of (operations, state) pairs is closed under steps, dropping cached pairs loses no partial linearization |
| SearchInvariant.EnterKeeps | Distributed Systems/porcupine/checker.go:194-207 | entering a new cached pair keeps the search invariant |
| SearchInvariant.SkipKeeps | Distributed Systems/porcupine/checker.go:196-213 | skipping a rejected or cached step keeps it: a cached pair not on the path was popped and failed |
| SearchInvariant.PopKeeps | Distributed Systems/porcupine/checker.go:235-241 | popping marks a dead end and keeps the invariant |
| SearchInvariant.FailedSearchIsExhaustive | Distributed Systems/porcupine/checker.go:214-217 | when the stack is empty at a return entry, there is no linearization and every partial linearization was visited |
| CheckSingle.UpdateLongest | Distributed Systems/porcupine/checker.go:218-234 | each operation on the stack gets the current sequence as its record if it had none or a shorter one |
| CheckSingle.RunSearch | Distributed Systems/porcupine/checker.go:187-251 | the loop over the linked list, cache and stack ends, and its answer is true exactly when the history is linearizable |
| CheckSingle.CheckSingle | Distributed Systems/porcupine/checker.go:179-253 | true exactly for linearizable histories; on success, or with computePartial, each operation's record is a partial linearization containing it of greatest length, and there is one if any exists |
| KvModel.StoreLegalByKey | Distributed Systems/models/kv.go:35-54 | an order is accepted by the whole store exactly when its part for each key is accepted by one string |
| KvModel.LegalIffGetsReadWritten | Distributed Systems/models/kv.go:35-54 | an order is accepted exactly when every get in it answers the last value put on its key before it, followed by what was appended since |
| KvModel.StoreLinearizable | Distributed Systems/models/kv.go:35-54 | a history is linearizable exactly when its operations can be ordered in real time such that every get does |
| KvModel.Locality | Distributed Systems/models/kv.go:18-54 | a history is linearizable for the whole store exactly when the part of each of its keys is linearizable for one string |
| CheckOperations.Partition | Distributed Systems/models/kv.go:18-34 | one part per occurring key, in the order of the sorted keys, each the operations on that key in order |
| KvModel.OnKeyJoin | Distributed Systems/models/kv.go:20-24 | the part of a key keeps the order of the history |
| Sequences.BeforeMeaning | Distributed Systems/models/kv.go:29 | strings are sorted by their first difference, a prefix first |
| CheckOperations.Check | Distributed Systems/porcupine/checker.go:274-305 | the conjunction over the parts is true exactly when the whole history is linearizable for the whole store |
| Visualization.UniqueRecords | Distributed Systems/porcupine/checker.go:323-336 | the recorded sequences, each once |
| Visualization.CollectValues | Distributed Systems/porcupine/visualization.go:37-54 | every operation's input and output, by id, and its element with client, start, end and description |
| Visualization.SortByLength | Distributed Systems/porcupine/visualization.go:59-61 | a permutation, longest first; the order of equal lengths is open |
| Visualization.Replay | Distributed Systems/porcupine/visualization.go:62-79 | replaying a partial linearization never panics and passes through the states of its prefixes |
| Visualization.LargestGrows | Distributed Systems/porcupine/visualization.go:73-76 | the two maps keep, for each id, the first and so a longest of the sequences that hold it |
| Visualization.ComputeData | Distributed Systems/porcupine/visualization.go:33-87 | no panic; all given partial linearizations, longest first, each replayed, and for each id the first that holds it |
| Visualization.Visualize | Distributed Systems/porcupine/visualization.go:33-87 | checking and showing a partition: no panic, every operation's element, and for each operation of any partial linearization a shown one that holds it and is as long as any |
| Build.BasicDFA | Theoretical Informatics/Assignment 1/build.cpp:35-49 | a well-formed automaton for one letter |
| Build.Star | Theoretical Informatics/Assignment 1/build.cpp:52-74 | well formed, and 0 accepts and every accepting state also has the edges of state 0 |
| Automaton.StarLanguage | Theoretical Informatics/Assignment 1/build.cpp:52-74 | that automaton accepts exactly the repetitions of the language |
| Build.CopySecond | Theoretical Informatics/Assignment 1/build.cpp:89-115 | the accepting states gain the shifted edges of the second start, the other states are copied shifted, and the count is the number of edges |
| Build.CopySecondUnion | Theoretical Informatics/Assignment 1/build.cpp:140-154 | the states of the second automaton but its start are copied shifted, and the count is the number of edges |
| Build.Concat | Theoretical Informatics/Assignment 1/build.cpp:117-138 | well formed, with the joined edges and accepting states |
| Automaton.ConcatAccepting | Theoretical Informatics/Assignment 1/build.cpp:117-138 | the stray accepting state 0 + incr does no harm: it is the first automaton's last state, which accepts anyway when the second accepts the empty word |
| Automaton.ConcatLanguage | Theoretical Informatics/Assignment 1/build.cpp:117-138 | that automaton accepts exactly the concatenations |
| Build.CopyAcceptStates | Theoretical Informatics/Assignment 1/build.cpp:156-162 | the first set, 0 if it is in the second, and the rest of the second shifted |
| Build.DfaUnion | Theoretical Informatics/Assignment 1/build.cpp:164-185 | well formed, with both starts merged |
| Automaton.UnionLanguage | Theoretical Informatics/Assignment 1/build.cpp:164-185 | that automaton accepts exactly the words of either language |
| Build.EvalPost | Theoretical Informatics/Assignment 1/build.cpp:273-306 | reading the postfix form of an expression pushes that expression, whatever is on the stack and follows |
| Build.Build | Theoretical Informatics/Assignment 1/build.cpp:273-306 | for every postfix expression a well-formed automaton that accepts exactly its language |
| PostFix.AddConcats | Theoretical Informatics/Assignment 1/build.cpp:196-219 | inserts `&` exactly where the two neighbours ask for it |
| PostFix.SymbolIsAlnum | Theoretical Informatics/Assignment 1/build.cpp:196-219 | the three ranges tested for are exactly the 62 letters and digits |
| PostFix.ConcatsRestored | Theoretical Informatics/Assignment 1/build.cpp:196-219 | on texts without the bad adjacency this restores every concatenation of the expression |
| PostFix.Convert | Theoretical Informatics/Assignment 1/build.cpp:224-269 | the loop with the operator stack computes the conversion |
| PostFix.YardReads | Theoretical Informatics/Assignment 1/build.cpp:224-269 | reading the text of an expression leaves exactly its pending operators on the stack and the rest in the answer |
| PostFix.FullConverts | Theoretical Informatics/Assignment 1/build.cpp:221-270 | every correctly parenthesised text with explicit `&`s becomes the postfix form of its expression |
| PostFix.PostFixUndoesPrinting | Theoretical Informatics/Assignment 1/build.cpp:196-270 | a correctly parenthesised text over the 62 letters and digits becomes the postfix form of its expression if and only if no `(` follows a letter, digit or `*` |
| PostFix.EveryExpressionConverts | Theoretical Informatics/Assignment 1/build.cpp:196-270 | every expression over letters and digits has a text without any `&` that becomes its postfix form |
| PostFix.ClashExample | Theoretical Informatics/Assignment 1/build.cpp:196-219 | `a(b)` is converted wrongly |
| RunAutomaton.ReadTable | Theoretical Informatics/Assignment 1/run.cpp:18-35 | the table lists exactly the edges |
| RunAutomaton.Run | Theoretical Informatics/Assignment 1/run.cpp:36-55 | Y at position i exactly when the prefix of length i + 1 is accepted |
| RunAutomaton.MatchPrefixes | Theoretical Informatics/Assignment 1/run.cpp:36-55 | from infix text to answer: Y at position i exactly when the prefix of length i + 1 is in the expression's language |
| Raft.Peer.constructor | Distributed Systems/raft/raft.go:728-762 | a restarted peer has the saved term, votes and log and fresh volatile state |
| Raft.Peer.HandleRequestVote | Distributed Systems/raft/raft.go:303-338 | the whole new state and the reply of the vote handler, in all its branches |
| RaftLogs.VoteGrantedIff | Distributed Systems/raft/raft.go:303-338 | a vote is granted exactly when the term is not old, no other candidate has the vote of that term, and the candidate's last term and absolute index are lexicographically no smaller than the voter's, where a log with only the dummy entry counts as (0, 0) |
| RaftLogs.VoteChanges | Distributed Systems/raft/raft.go:303-338 | what else becomes of the voter: term, role, recorded vote, everything saved, and the old term in the reply |
| RaftLogs.CandidateGranted | Distributed Systems/raft/raft.go:658-687 | between two peers with entries: a fresh candidate is granted exactly when the voter's log does not end with a later term, nor with the same term at a greater index |
| RaftLogs.GuardsIff | Distributed Systems/raft/raft.go:321-334 | a peer grants no candidate whose log is behind its own, snapshot included, if and only if its log still has an entry or there is none to forget |
| RaftLogs.CompactedExample | Distributed Systems/raft/raft.go:321-334 | a peer that has compacted its whole log grants a peer that never had an entry |
| RaftLogs.LeaderWasUpToDate | Distributed Systems/raft/raft.go:303-443 | in every run with own-term counting or at most three peers, a leader has a majority that granted it at moments when their logs were not ahead of the log with which it had started the election |
| Raft.Peer.StartElections | Distributed Systems/raft/raft.go:658-687 | the next term, the vote for oneself saved, one vote counted, and the arguments sent out |
| Raft.Peer.HandleVoteReply | Distributed Systems/raft/raft.go:421-443 | stale replies are counted as written; becoming leader needs a majority and the current term, and resets what is known about all peers |
| Raft.Peer.Start | Distributed Systems/raft/raft.go:579-601 | only a leader appends, at the end, saves, and answers with the absolute index |
| Raft.Peer.Snapshot | Distributed Systems/raft/raft.go:156-166 | all entries after the snapshot keep their absolute index, and the last index stays, for every index still in the log |
| Raft.Peer.CountedMajority | Distributed Systems/raft/raft.go:629-636 | the count exceeds half the group exactly when a majority of peers, this one among them, exists of which every other is known to have the index |
| Raft.MatchedCounts | Distributed Systems/raft/raft.go:629-634 | the inner loop counts the other peers whose match index is at least the index |
| Raft.Peer.UpdateCommitIndex | Distributed Systems/raft/raft.go:622-644 | the commit index never goes back and moves exactly to the greatest index that such a majority has and from which on no entry is of an older term; it panics exactly when the scan runs past the front of the log |
| Raft.Peer.SendApply | Distributed Systems/raft/raft.go:214-228 | the messages are the entries after the last applied one (or after the snapshot), in order, without gaps or repeats |
| RaftElections.RequestVoteKeeps | Distributed Systems/raft/raft.go:303-338 | terms never go back, a vote of a term is never changed, even across a crash, and a granted vote is saved before the reply |
| RaftElections.StepsDown | Distributed Systems/raft/raft.go:239-462 | a leader of the same or a later term, a later term in an answer, and a crash make any peer a follower |
| RaftElections.FailuresHappen | Distributed Systems/raft/raft.go:239-462 | the runs do lose any call or answer, change any log, and forget what was not saved |
| RaftElections.MajoritiesMeet | Distributed Systems/raft/raft.go:421-443 | a leader of a term now and a leader of that term in any later state are the same peer: their majorities share a voter, whose vote of the term stays |
| RaftElections.StepKeeps | Distributed Systems/raft/raft.go:239-462 | every step of a run keeps the invariant: calls in flight are unique and honest, and leaders hold a majority of their term |
| RaftElections.RunKeeps | Distributed Systems/raft/raft.go:303-443 | it holds after every run of at most three peers as written, and of any number with votes counted in their own term only |
| RaftElections.StepMoves | Distributed Systems/raft/raft.go:239-462 | no step of a group, crashes included, takes any peer back in its term or changes a vote it has given |
| RaftElections.OneLeaderPerTerm | Distributed Systems/raft/raft.go:303-443 | in one run, a peer that leads a term at one moment and a peer that leads it at any other moment are the same, under that condition |
| RaftElections.OwnTermVotesAreSafe | Distributed Systems/raft/raft.go:432-436 | counting a granted vote only in the term it was asked for, no term has two leaders over a whole run, for any number of peers and any run |
| RaftStaleVotes.TwoLeaders | Distributed Systems/raft/raft.go:432-436 | as written, every group of four or more peers has a run with two leaders in one term |
| RaftStaleVotes.AsWrittenSafeIffThree | Distributed Systems/raft/raft.go:303-443 | as written, no term has two leaders over a whole run, for every run, if and only if there are at most three peers |
| RaftProgress.ElectionPossible | Distributed Systems/raft/raft.go:303-443 | with two or more peers, whatever has happened in a run, it can go on so that some peer leads |
| RaftProgress.LonePeerNeverLeads | Distributed Systems/raft/raft.go:432-436 | a group of one never has a leader |
| RaftProgress.ElectableIffTwo | Distributed Systems/raft/raft.go:303-443 | a leader can be elected after every run if and only if there are at least two peers |
| KvServer.Server.Read | Distributed Systems/kvraft/server.go:128-163 | database and outcomes stay those of the applied log |
| KvServer.FirstTime | Distributed Systems/kvraft/server.go:128-163 | the first entry with its id, by kind: a Put sets the value, an Append adds to what the key reads, a Get leaves the database and records ErrNoKey exactly on a missing key, all else stays, and any other kind does nothing |
| KvServer.KeyPresent | Distributed Systems/kvraft/server.go:138-158 | a key is present exactly when a first entry put or appended to it |
| KvServer.Server.PutAppend | Distributed Systems/kvraft/server.go:78-91 | an operation is handed to Raft only if no entry with its id was applied here; otherwise the recorded outcome is the answer |
| KvServer.Await | Distributed Systems/kvraft/server.go:93-106 | the wait ends at the first poll that sees the outcome or the loss of leadership, and answers accordingly |
| KvServer.ExactlyOnce | Distributed Systems/kvraft/server.go:128-163 | database and outcomes equal those of the log with later repeats of a command id removed, and outcomes are recorded for exactly the kept ids |
| KvServer.FirstOnlyOnce | Distributed Systems/kvraft/server.go:133-137 | that shorter log has one entry for each recognised command id |
| KvServer.RetryHarmless | Distributed Systems/kvraft/client.go:62-77 | wherever a retry of a committed operation is committed again, taking it out of the log changes nothing |
| KvServer.OutcomeOfFirst | Distributed Systems/kvraft/server.go:78-107 | every retry finds the outcome of the first application |
| KvServer.DatabaseFollowsModel | Distributed Systems/kvraft/server.go:128-163 | the database is the state of the checker's whole-store model after the operations without repeats |
| KvServer.DatabaseHoldsWritten | Distributed Systems/kvraft/server.go:128-163 | every key reads the last value put on it by a first entry, followed by what first entries appended since |
| Coordinator.Coordinator.constructor | Distributed Systems/mr/coordinator.go:174-188 | map tasks numbered from 1, reduce tasks from 0, all free |
| Coordinator.Coordinator.AskForTask | Distributed Systems/mr/coordinator.go:58-118 | the report is booked, then a free map task while any map task is uncompleted, else a free reduce task, else -1 or -2 |
| Coordinator.AnswerCases | Distributed Systems/mr/coordinator.go:58-118 | the answer in each of the four cases, with -1 and -2 for nothing free |
| Coordinator.Coordinator.ReportDone | Distributed Systems/mr/coordinator.go:120-139 | a task is completed and counted once however often it is reported |
| Coordinator.Coordinator.CheckProgress | Distributed Systems/mr/coordinator.go:38-56 | a task still assigned becomes free, all else stays |
| JobProgress.TimeoutFrees | Distributed Systems/mr/coordinator.go:38-56 | a timeout frees the named task if it is assigned, and changes no other task and no counter |
| Coordinator.AskKeeps | Distributed Systems/mr/coordinator.go:58-139 | every answer keeps the books: counters are the numbers of uncompleted tasks, completed tasks stay completed, map answers carry the original number of buckets, and a reduce answer is given only when all map tasks are completed |
| Coordinator.ExpireKeeps | Distributed Systems/mr/coordinator.go:38-56 | so does every timeout |
| Coordinator.AllMapsDone | Distributed Systems/mr/coordinator.go:110-114 | when the map counter is 0 every map task is completed |
| Coordinator.AllReducesDone | Distributed Systems/mr/coordinator.go:165-169 | when the reduce counter is 0 every reduce task is completed |
| Sequential.SortByKey | Distributed Systems/main/mrsequential.go:59 | a sorted permutation; the order of equal keys is open |
| Sequential.ReduceRuns | Distributed Systems/main/mrsequential.go:68-84 | one line for each key of the sorted pairs, reduced over all its values |
| Sequential.Run | Distributed Systems/main/mrsequential.go:38-84 | the lines hold each emitted key once, reduced over all values emitted for it in any file |
| MapReduce.WriteInFile | Distributed Systems/mr/worker.go:59-67 | file b gets, in order, exactly the pairs whose key hashes to b |
| MapReduce.BucketValues | Distributed Systems/mr/worker.go:59-67 | every key is in exactly one bucket, with all its values in order |
| MapReduce.ProcessReduce | Distributed Systems/mr/worker.go:76-107 | fails exactly when a file is missing; otherwise one output line for each key in the files, reduced over all its values |
| MapReduce.RunBooks | Distributed Systems/mr/coordinator.go:58-139 | in every run of coordinator and workers the counters are exact, map answers carry the original number of buckets, and a worker holding a reduce answer finds all its files |
| MapReduce.CompletedForGood | Distributed Systems/mr/coordinator.go:120-139 | in every run a completed task stays completed |
| MapReduce.RunKeeps | Distributed Systems/mr/worker.go:69-136 | in every run every file holds what its name determines, whoever wrote it and however often |
| MapReduce.FinishedRun | Distributed Systems/mr/worker.go:76-107 | a run that reaches Done has every output file, each with the lines of its bucket of everything emitted |
| JobProgress.AlwaysFinishes | Distributed Systems/mr/coordinator.go:38-139 | from every world that a run reaches, whatever was lost or crashed, some continuation of timeouts, requests, writes and reports reaches Done |
| MapReduce.SameInputs | Distributed Systems/mr/worker.go:59-107 | each reduce task gets the keys of its bucket with the values that the sequential program gives them, up to order |
| MapReduce.SameAsSequential | Distributed Systems/main/mrsequential.go:59-84 | a run that reaches Done has written, over all output files, exactly the sequential program's lines, each key in its bucket's file only |
| AlphaBeta.MinimaxValue | AI/Multi-Agent Search/multiagent/multiAgents.py:131-152 | the minimax value, where the depth goes down at agent 0 only |
| AlphaBeta.BestIsOptimal | AI/Multi-Agent Search/multiagent/multiAgents.py:143-152 | the value of a node is one of its children's values, the greatest for agent 0 and the least for the others |
| AlphaBeta.PrincipalLine | AI/Multi-Agent Search/multiagent/multiAgents.py:131-152 | the value is the score at the end of a line of legal play, agents in turn, that goes on until the game is over or agent 0, to move again, has moved depth - 1 times |
| AlphaBeta.MinimaxAction | AI/Multi-Agent Search/multiagent/multiAgents.py:155-189 | the first action of greatest value |
| AlphaBeta.AlphaBetaValue | AI/Multi-Agent Search/multiagent/multiAgents.py:196-240 | for every window, the minimax value inside it and a correct strict bound outside |
| AlphaBeta.BoundsMeaning | AI/Multi-Agent Search/multiagent/multiAgents.py:196-240 | the pruned value is above beta or below alpha exactly when the true one is, and equal to it in between |
| AlphaBeta.AlphaBetaAction | AI/Multi-Agent Search/multiagent/multiAgents.py:242-273 | the first action of greatest minimax value, hence the action that minimax chooses |
| AlphaBeta.ChoiceUnique | AI/Multi-Agent Search/multiagent/multiAgents.py:155-273 | there is only one such action, so the two agents return the same one |
| AlphaBeta.ChoiceAttainsValue | AI/Multi-Agent Search/multiagent/multiAgents.py:155-273 | the chosen action attains the minimax value of the position with one turn more, unless the game is over |
| Gradients.AllPathsComplete | AI/Machine Learning/machinelearning/nn.py:358-365 | every path from a node to another is listed exactly once |
| Gradients.PathSumIsSum | AI/Machine Learning/machinelearning/nn.py:371-375 | the recursive path sum is the sum, over all paths, of the product of local derivatives |
| Gradients.Visit | AI/Machine Learning/machinelearning/nn.py:358-363 | the tape gets each node once and after all its parents |
| Gradients.SweepStep | AI/Machine Learning/machinelearning/nn.py:371-375 | one turn of the reverse sweep keeps that final plus carried gradients make up the path sums |
| Gradients.ComputeGradients | AI/Machine Learning/machinelearning/nn.py:355-377 | each parameter's gradient is the sum over all paths from the loss to it of the product of local derivatives; zero if there is none |
| TapeShift.Simulate | Theoretical Informatics/Assignment 2/simulate.cpp:4-28 | for every machine, halting or not, and every number of rounds: the states entered in order, the tape reached, whether it stopped, and -1 if it got stuck |
| TapeShift.StatesAre | Theoretical Informatics/Assignment 2/simulate.cpp:4-28 | what is printed is the state after each round, up to the round in which the machine stops |
| TapeShift.PaddingHarmless | Theoretical Informatics/Assignment 2/simulate.cpp:22-35 | the number of blanks to the right of the input does not matter |
| TapeShift.CreateShifters | Theoretical Informatics/Assignment 2/convert.cpp:24-140 | the rules of the eleven states are set as listed, all other rules are as before, and on states without rules so far the result shifts every word as ShiftGadget says |
| TapeShift.ShiftGadget | Theoretical Informatics/Assignment 2/convert.cpp:24-140 | from w$_ with a blank on its left the machine halts in its last state with Z$w$, head on the Z, all else unchanged, if no two marks are adjacent in w; otherwise it gets stuck |
| TapeShift.ShiftsIff | Theoretical Informatics/Assignment 2/convert.cpp:24-140 | it reaches its last state if and only if no two marks are adjacent in w |
| SeqAlign.SeqalignDP | BioInformatics/Assignment1/ps1-seqalign.py:9-47 | the tables hold the recurrence and its arrows, with ties resolved as the stable sort does |
| SeqAlign.LastInStableSort | BioInformatics/Assignment1/ps1-seqalign.py:42-44 | the chosen entry is the one that a stable sort by score of the list puts last |
| SeqAlign.MatrixOrder | BioInformatics/Assignment1/ps1-seqalign.py:36-38 | the matrix is read by the first sequence's base and then the second's, in the order A, G, C, T |
| SeqAlign.NoneBetter | BioInformatics/Assignment1/ps1-seqalign.py:34-45 | F[i][j] bounds the score of every alignment of the two prefixes |
| SeqAlign.Attained | BioInformatics/Assignment1/ps1-seqalign.py:34-47 | following the arrows from any cell gives an alignment of the two prefixes that scores F[i][j] |
| SeqAlign.BestIsMaximum | BioInformatics/Assignment1/ps1-seqalign.py:34-45 | for all i and j, F[i][j] is the greatest score over all alignments of the two prefixes |
| SeqAlign.Traceback | BioInformatics/Assignment1/ps1-seqalign.py:50-74 | ends with two rows of equal length that give back the inputs when gaps are removed, score exactly the returned value, and are beaten by no alignment |
| Viterbi.NoneBetter | BioInformatics/Assignment1/viterbi.py:53-73 | V[i][k] bounds every path that ends in state k |
| Viterbi.Attained | BioInformatics/Assignment1/viterbi.py:78-82 | following best predecessors attains V |
| Viterbi.OneStatePath | BioInformatics/Assignment1/viterbi.py:53-73 | the first state is entered from a state of the initial distribution and emits the first symbol |
| Viterbi.Viterbi | BioInformatics/Assignment1/viterbi.py:40-83 | a path that no path from any start state beats |
| KMeans.RecalculatingImproves | BioInformatics/Assignment2/kmeans.py:19-29 | recalculating lowers the cost by exactly the sum of cluster size times squared centre movement |
| KMeans.ReassigningImproves | BioInformatics/Assignment2/kmeans.py:7-16 | reassigning never raises it |
| KMeans.IterationImproves | BioInformatics/Assignment2/kmeans.py:108-120 | an iteration with total movement of 5 or more lowers the cost by at least 25 divided by the number of centres |
| KMeans.EuclideanDist | BioInformatics/Assignment2/kmeans.py:32-42 | the root of the sum of squared differences |
| KMeans.Cluster | BioInformatics/Assignment2/kmeans.py:101-122 | ends on every data set with points assigned to nearest centres, centres that moved less than 5 in the last step, and no greater cost than at the start |
| Mazes.BreadthFirstSearch | AI/Multi-Agent Search/multiagent/multiAgents.py:500-530 | actions that lead over open cells to the goal in the least number of steps; an empty queue exactly when there is no walk |
| Mazes.Displacement | AI/Multi-Agent Search/multiagent/game.py:312-317 | the end of a list of actions is where its numbers of North, South, East and West say |
| Mazes.AdjacentMeaning | AI/Multi-Agent Search/multiagent/game.py:312-317 | steps lead to the cells that differ by one in one coordinate |
| Mazes.MazeDistance | AI/Multi-Agent Search/multiagent/multiAgents.py:532-548 | the true distance |
| Mazes.ComputeDistances | AI/Ghostbusters/ghostbusters/distanceCalculator.py:145-183 | for all pairs of open cells the true distance, or 1000000000 when no walk is shorter than that |
| Mazes.TableAgrees | AI/Ghostbusters/ghostbusters/distanceCalculator.py:145-183 | the table and the breadth-first distance are the same number, up to that cap |
| Mazes.ClosestFood | AI/Reinforcement Learning/reinforcement/featureExtractors.py:44-64 | the least distance to any reachable food, None exactly when there is none |

## Left out

- Build: expressions whose stack runs empty (the original pops an empty stack) and the printing of the automaton (`toString`).
- ToPostFix: the empty text, on which `addConcats` reads before its start, and texts whose `)` finds no `(`.
- Check: the empty history, on which `checkParallel` waits for a first result; its goroutines, timeout and kill flag; histories of events (`checkEvents`, `renumber`).
- CheckSingle: the word layout of bitsets; records are told apart by content where the original compares addresses.
- HandleVoteReply: nextIndex and matchIndex matter only for their values on becoming leader.
- UpdateCommitIndex: that a committed entry is never lost (leader completeness) needs log matching, which the code does not establish.
- Install: what snapshots and AppendEntries do to a log is left open in the runs of a group (any log may result), so log matching, state machine safety and snapshot slicing are not stated; handlers that save on some paths only are covered by saving being a step of its own.
- Start: the agreement goroutine and heartbeats; they appear as AppendEntries steps with any contents.
- RequestVote: an RPC is delivered at most once, as in the simulated network; copies made by the network are not modelled.
- Visualize: the JSON document and the page around it.
- OwnTermVotesAreSafe: counting by term is a variant of the code, stated to show what the order of the two lines costs.
- Server.PutAppend: the Get handler's second read of the database; what happens between two polls is any change of outcomes and leadership (Await).
- ProcessReduce: a file is written or read as a whole; a write cut off in the middle is not modelled. JSON encoding, file names and the RPC transport are not modelled.
- SameAsSequential: the reduce function's result must not depend on the order of the values; SameInputs holds without that.
- AlphaBetaValue: the assignments to alpha and beta after the loop and the test against beta at the root, which change nothing.
- Evaluation beyond the bound 9949345345990, nodes without legal actions and agents other than these two (reflex, expectimax).
- Tensors: gradients are of scalar nodes; the array shapes, forward functions and parameter updates of nn.py are not modelled.
- Cluster: plotting, reading data, and rounding; the start centres are any, the original has three fixed ones.
- Viterbi: probabilities of zero (the original's logarithm fails) and the annotation statistics.
- SeqalignDP: letters outside A, G, C, T, on which the original fails, and file reading.
- ComputeDistances: mazes that are not enclosed by walls; Manhattan distances between grid points.
- The start-up gadget `markTheStarters`, `modifyMachine` and the printing in convert.cpp.
- shardkv, shardctrler, network simulation, encodings, user interfaces, the Android, iOS, NLP, cryptography, Nand2Tetris and database coursework.
