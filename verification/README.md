# Verified models of the Bray toolchain's hard core

This project models nine components of the Bray compiler and its build tooling and proves what each is
for. Each component has one or more modules of its own; `Options`, `Sequences`, `Canonical` and `Bits`
hold the shared vocabulary (optional values, duplicate-free lists, sort-and-deduplicate, bits of words).

* **Graph algorithms** (`Reachability`, `DepthFirst`, `SearchOrder`, `GraphAlgorithms`, `ComponentOrder`,
  `ComponentUniqueness`). The worklist closure and the iterative two-pass component search, as methods with the
  loops of the code. The proof of the second rests on one law of the finish order (`FinishLaw`): when a vertex
  finishes, every edge out of the finished vertices leads to a finished vertex or to one that reaches it. The
  recursion-free search needs no white paths. The explicit stack of pass one is proved against a recursive walk,
  and the stack of pass two against a last-in-first-out law of the lists; together they leave one answer.
* **Directory publication** (`Publication`, `PublicationRuns`, `DirectoryPublications`). A state machine in
  which any number of processes recover, begin, fill, publish or abandon, every rename may fail and every process may stop
  between any two steps, and a class that performs the same calls undisturbed, each of its file-system
  operations being one step of that machine and its answer an argument of the call. Directories have identities, so "complete" is what the caller
  had staged; `log` is the ghost history of commits.
* **Binder transactions** (`BinderTransactions`, `BinderGuarantees`). The binder as a class over its two undo
  logs, three truncated lists and snapshotted control stack; histories of mutators, checkpoints and
  rollbacks, with stack discipline and without.
* **Inline assembly** (`AssemblyConstraints`, `ConstraintRanges`, `AssemblyTemplate`, `DecimalOrdinals`,
  `DenseOrdinals`, `InlineAssembly`, `AssemblyConstants`). Each check against an independent description (a grammar, a
  join of parts, a permutation, a bijection), and `try_new` against their conjunction.
* **Allocation probe** (`AllocationLayout`, `AllocationList`, `AllocationSteps`, `AllocationRuns`,
  `AllocationProgress`, `AllocationCalls`, `AllocationRejection`). Word arithmetic, the intrusive list on the heap,
  all interleavings of threads whose callbacks call in again, freedom from deadlock, whole calls from any state, and
  the rejecting probe.
* **Wide hash** (`WideHash`, `HashValues`). The two-limb and the 128-bit program against one polynomial.
* **Storage invalidation** (`StorageInvalidations`, `InvalidationFolds`). The in-place merge against a
  semilattice of meanings, and folds over any number of control-flow paths.
* **Checked tables and dependency contracts** (`CheckedIndexes`, `CheckedAsyncTables`,
  `SuspensionPoints`, `DependencyContracts`, `DependencyTraces`).
* **Tool identity** (`ToolDigest`). The framed byte stream against a reader of it.

Conventions: machine words are naturals with the wrap written out; an exception or error return is a
`Result` or `Option`; orders of identities are parameters required to be total; a `ghost universe`
parameter is the finite vertex set that holds the roots and is closed under successors.

Where the code and its own text disagree, the code is followed:

* `strongly_connected_components` is documented to let components and members follow the supplied root and
  successor order. The code emits reverse finish order, and members in reverse search order. Two unconnected
  roots come out in reverse (`ComponentOrder.UnconnectedRoots`): the first root to reach a vertex decides, later
  roots going first, so where no other earlier root reaches the later of two roots, they keep their order if
  and only if the earlier reaches the later (`ComponentOrder.RootOrderExact`). Successors of a root come out in
  reverse too (`ComponentOrder.ForkRoots`, `GraphAlgorithms.LedBySuccessors`). A root that no earlier root
  reaches is the first member of its component; the others come last in, first out
  (`ComponentUniqueness.PetalMembers`) and are guaranteed to be in successor order if and
  only if the component has at most two members (`ComponentOrder.ForwardGuaranteed`); longer rings come out
  against it (`ComponentOrder.RingMembers`).
* `dense_ordinals` accepts a permutation of 0..n-1 exactly when n is at most 64. Longer permutations are
  refused (`DenseOrdinals.SixtyFiveRefused`); `try_new` never passes more than 32 operands, so there the
  condition always holds.
* The length checks of `Binder::rollback` do not identify a checkpoint of an abandoned branch
  (`BinderTransactions.AbandonedCheckpointAccepted`). A checkpoint is guaranteed to restore if and only if no
  rollback since has made a log shorter than it was at the checkpoint (`BinderGuarantees.GuaranteedExactly`),
  and every live checkpoint of a history with stack discipline is.
* A lossy path text can hide a path. Equal tool streams always determine path texts and contents; they
  determine the paths themselves if and only if no two usable tools have different paths of one text with the
  same content (`ToolDigest.PathsDeterminedExactly`).
* Whether a fold of invalidations panics depends on the order of the paths: it does exactly when a path list
  and a flow-resolved effect both come before the first opaque effect (`InvalidationFolds.FoldDefined`).

## Model

| member | source | states |
|---|---|---|
| GraphAlgorithms.TransitiveDependencies | crates/bray-base/src/graph.rs:5-23 | terminates on every finite graph and retains exactly the keys reachable from the roots |
| GraphAlgorithms.FrontierExpands | crates/bray-base/src/graph.rs:16-20 | taking a pending key and adding its dependencies keeps closure and reachability of retained and pending keys |
| GraphAlgorithms.StronglyConnectedComponents | crates/bray-base/src/graph.rs:30-89 | the lists hold exactly the reachable vertices, each once; two vertices share a list if and only if each reaches the other; every walk leads from earlier lists to later ones; what the first k roots reach comes after everything else, for every k, and so does, for every root, what its first k successors reach outside its own list; each list is led by its last finisher in the recursive depth-first walk, later leaders first, and a root no earlier root reaches leads its list; every other member has a successor listed before it, and members come last in, first out: of two, the one listed later was found after the other was listed, or by an earlier member, or by the same member through an edge that the walk read before the other's |
| GraphAlgorithms.FinishOrder | crates/bray-base/src/graph.rs:38-61 | pass one lists the reachable vertices once, in an order obeying the finish law, with the exact reverse of every edge; for every k a prefix of the order is exactly what the first k roots reach, closed by the last root that reached something new, and prefixes in between are exactly what each new root's first successors add; the finish order is that of the recursive depth-first walk and each reverse entry lists its sources in the order that walk reads their edges |
| GraphAlgorithms.Explore | crates/bray-base/src/graph.rs:43-60 | one depth-first walk with an explicit stack of child iterators terminates and visits, finishes and reads exactly what the recursive walk does, in the same order; it keeps the traversal invariant and finishes its root last; for every k a prefix of the order is what was visited before and what the first k children reach around the root |
| GraphAlgorithms.CourseKept | crates/bray-base/src/graph.rs:49-60 | every turn of the explicit stack leaves the recursive walk with the same result |
| DepthFirst.UnwindRead | crates/bray-base/src/graph.rs:50-55 | reading a child, and pushing it if it is new, is one unfolding of the recursion |
| DepthFirst.WalkSame | crates/bray-base/src/graph.rs:38-61 | the recursive walk depends on the graph and the roots only, not on the vertex set that bounds it |
| GraphAlgorithms.ExploreStep | crates/bray-base/src/graph.rs:49-60 | one turn reads a child, and visits it if it is new, or finishes the innermost vertex, keeps the traversal invariant and records the edge read behind the earlier ones |
| GraphAlgorithms.CutHolds | crates/bray-base/src/graph.rs:49-60 | whenever the walk is back at its root the finished vertices are exactly what the children read so far reach |
| GraphAlgorithms.Visit | crates/bray-base/src/graph.rs:42-61 | a visited root is passed over, any other adds exactly one batch to the order, as the recursive walk does |
| GraphAlgorithms.BatchedMore | crates/bray-base/src/graph.rs:42-61 | a longer order closed by the next root has the old batches and one more |
| GraphAlgorithms.FinishStep | crates/bray-base/src/graph.rs:56-59 | popping an exhausted iterator extends the finish order lawfully |
| GraphAlgorithms.AdvanceStep | crates/bray-base/src/graph.rs:50-51 | reading one child adds exactly that reverse edge and no other scanned edge |
| GraphAlgorithms.PushStep | crates/bray-base/src/graph.rs:53-55 | pushing a newly visited vertex keeps stack, coverage and edge laws |
| GraphAlgorithms.ComponentFinishesLate | crates/bray-base/src/graph.rs:42-61 | if an early finisher reaches a later one, some vertex of the early one's component finished at least as late |
| GraphAlgorithms.PushUnvisited | crates/bray-base/src/graph.rs:78-82 | marks all predecessors and appends exactly the new ones to the stack, each once, in the order of their first occurrence |
| GraphAlgorithms.CollectComponent | crates/bray-base/src/graph.rs:72-83 | collects, without repetition and from the root on, untaken vertices that reach the root, closed under untaken predecessors, each with a successor listed before it and last in, first out |
| SearchOrder.SearchingMore | crates/bray-base/src/graph.rs:75-82 | taking the top of the stack and stacking its new predecessors keeps the stack in stacking order and the last-in-first-out law |
| SearchOrder.ListingUnique | crates/bray-base/src/graph.rs:72-83 | two listings of the same members from the same first one that obey the law are equal |
| GraphAlgorithms.CollectedIsComponent | crates/bray-base/src/graph.rs:67-86 | what one reverse search from the last unassigned finisher collects is exactly its strongly connected component |
| GraphAlgorithms.AssignComponents | crates/bray-base/src/graph.rs:63-88 | pass two assigns every finisher to components that are led by their last finishers, in reverse finish order |
| GraphAlgorithms.PartialExtends | crates/bray-base/src/graph.rs:67-86 | adding a component keeps disjointness and that no edge enters a prefix of the components from outside |
| GraphAlgorithms.EarlierReachesLater | crates/bray-base/src/graph.rs:25-29 | whenever a vertex reaches another, its component is not the later one |
| GraphAlgorithms.LedBackward | crates/bray-base/src/graph.rs:63-88 | what the first k roots reach comes after everything else |
| GraphAlgorithms.LedByRoots | crates/bray-base/src/graph.rs:63-88 | a root that no earlier root reaches is the first member of its component |
| GraphAlgorithms.LedBySuccessors | crates/bray-base/src/graph.rs:63-88 | for every root that no earlier one reaches, what its first k successors reach, apart from its own component, comes after everything else |
| ComponentUniqueness.AnswerUnique | crates/bray-base/src/graph.rs:25-89 | the guarantees of the search leave one answer only: two sequences of lists that meet them are equal, lists, members and order |
| ComponentUniqueness.PetalMembers | crates/bray-base/src/graph.rs:25-89 | root 0 with edges to 1 and 2, which both lead back, gives the one list 0, 2, 1 |
| ComponentOrder.FirstRootDecides | crates/bray-base/src/graph.rs:25-29 | the first roots to reach two vertices decide which component comes first, the later root going first, and a root comes first in what it is the first to reach |
| ComponentOrder.RootOrderExact | crates/bray-base/src/graph.rs:25-29 | where no other earlier root reaches the later of two roots, they keep the documented order if and only if the earlier reaches the later |
| ComponentOrder.FollowingNeedsFirst | crates/bray-base/src/graph.rs:25-29 | if components follow the root order, the first root reaches every root |
| ComponentOrder.ChainFollows | crates/bray-base/src/graph.rs:25-29 | if each root reaches the next, components follow the root order |
| ComponentOrder.ForkRoots | crates/bray-base/src/graph.rs:25-29 | roots 0, 1, 2 with the edges from 0 to 1 and to 2 do not follow the root order, although the first reaches all |
| ComponentOrder.TwoRootsFollow | crates/bray-base/src/graph.rs:25-29 | for two roots components follow the root order if and only if the first reaches the second |
| ComponentOrder.UnconnectedRoots | crates/bray-base/src/graph.rs:25-29 | roots 0 and 1 without edges give the components [1] and [0] in this order, against the documented one |
| ComponentOrder.RingMembers | crates/bray-base/src/graph.rs:25-29 | a ring of any length n searched from 0 gives the members 0, n-1, ..., 1, for three or more against the documented successor order |
| ComponentOrder.ForwardGuaranteed | crates/bray-base/src/graph.rs:25-29 | a component of n members listed in reverse search order is guaranteed to be in successor order if and only if n is at most 2 |
| ComponentOrder.PairForward | crates/bray-base/src/graph.rs:25-29 | components of at most two members are listed in successor order |
| Publication.StepKeeps | xtask/src/bundle.rs:109-236 | the protocol invariant is kept by every step of every process, including failed renames and crashes |
| PublicationRuns.RunKeeps | xtask/src/bundle.rs:109-236 | the protocol invariant holds along every interleaving |
| PublicationRuns.CommittedSurvives | xtask/src/bundle.rs:109-236 | in every run the last committed bundle is at the destination, or the destination is absent and `.previous` holds it; nothing is ever overwritten; only superseded or uncommitted directories are staged for deletion, deleted or orphaned; every directory is in exactly one place |
| PublicationRuns.CommittedSafe | xtask/src/bundle.rs:149-210 | in every state that keeps the invariant the committed bundle is in no staging area and whatever was discarded after a commit had been superseded |
| PublicationRuns.LockExcludes | xtask/src/bundle.rs:323-351 | while one process holds the lock no step of another changes the slots, the commit log or the holder |
| Publication.AcquireKeeps | xtask/src/bundle.rs:345-349 | taking the lock, or finding it taken, keeps the invariant |
| Publication.CrashKeeps | xtask/src/bundle.rs:319-351 | stopping anywhere releases the lock, leaves the slots as they are and keeps the invariant |
| Publication.RestoreKeeps | xtask/src/bundle.rs:229-236 | renaming `.previous` back after an interruption settles the committed bundle at the destination |
| Publication.RetirePreviousKeeps | xtask/src/bundle.rs:149-154 | only a superseded directory moves from `.previous` into a staging area |
| Publication.RetireDestinationKeeps | xtask/src/bundle.rs:178-182 | moving the destination to `.previous` overwrites nothing and leaves the committed bundle there |
| Publication.InstallKeeps | xtask/src/bundle.rs:184-200 | the commit rename makes exactly the staged directory the committed one |
| PublicationRuns.ReadyIsClean | xtask/src/bundle.rs:149-182 | in every reachable state, from the end of `begin` until the first rename of `publish`, the committed bundle is in place and `.previous` is empty |
| PublicationRuns.RecoveredIsCommitted | xtask/src/bundle.rs:109-119 | in every reachable state a `recover` that answers success has the committed bundle at the destination |
| PublicationRuns.LogGrows | xtask/src/bundle.rs:184-200 | commits are only ever appended |
| PublicationRuns.AnswerFacts | xtask/src/bundle.rs:174-210 | the publication that answers is the one that was begun, against the log found at `begin` |
| PublicationRuns.PublishAnswers | xtask/src/bundle.rs:174-210 | whatever happens in between, an error leaves the commit log unchanged with the old bundle at the destination (or in `.previous` if the rollback failed too); success and a failed final cleanup commit exactly the staged bundle |
| PublicationRuns.PublishCommits | xtask/src/bundle.rs:174-210 | an undisturbed `publish` commits exactly the staged bundle, empties `.previous`, deletes the replaced bundle and frees the lock |
| PublicationRuns.SettlesInterrupted | xtask/src/bundle.rs:229-236 | the check under the lock puts the committed bundle back at the destination |
| PublicationRuns.RecoverRestores | xtask/src/bundle.rs:109-119 | from every reachable unlocked state an undisturbed `recover` leaves exactly the last committed bundle at the destination and frees the lock |
| PublicationRuns.StagesAndClears | xtask/src/bundle.rs:135-163 | staging and retiring a leftover empty `.previous` without touching the destination |
| PublicationRuns.BeginRestores | xtask/src/bundle.rs:121-164 | from every reachable unlocked state an undisturbed `begin` restores the committed bundle, empties `.previous` and holds the lock |
| DirectoryPublications.Disk.RecoverPrevious | xtask/src/bundle.rs:229-236 | succeeds if and only if no replacement was interrupted or the rename back succeeds; then the destination is the committed bundle, and otherwise both slots are as before; the steps taken are those of this process in the protocol |
| DirectoryPublications.Disk.Recover | xtask/src/bundle.rs:109-119 | succeeds if and only if there is no `.previous`, or the lock is free and can be opened and an interrupted replacement can be renamed back; then the committed bundle is at the destination, and otherwise both slots are as before; the lock is as before, only protocol steps of this process were taken and nothing was committed |
| DirectoryPublications.Disk.Begin | xtask/src/bundle.rs:121-164 | succeeds if and only if the lock is free and every operation that is reached succeeds; then the committed bundle is in place, `.previous` is empty, the lock is held, the contents are fresh and a leftover waits in the staging area; failure leaves no staging area and the lock as before; an interrupted replacement is undone exactly when the lock and the rename allow it; only protocol steps of this process were taken and nothing was committed |
| DirectoryPublications.Disk.Drop | xtask/src/bundle.rs:99-106 | dropping deletes exactly the staging area, or leaves it behind where that fails, and releases the lock |
| DirectoryPublications.Disk.Abandon | xtask/src/bundle.rs:99-106 | a publication that is dropped leaves the committed bundle in place and `.previous` empty, deletes or leaves behind exactly its staging area and frees the lock |
| DirectoryPublications.Disk.Publish | xtask/src/bundle.rs:174-210 | which of the five answers is given is decided, in both directions, by the answers of the file system and whether there was a destination; the answer determines destination, `.previous`, the commit log and what is deleted or left behind with the staging area, by protocol steps of this process only; the lock is free |
| DirectoryPublications.Disk.SinceIsRun | xtask/src/bundle.rs:109-236 | whatever a call did to the slots is a run of this process's steps in the protocol |
| DirectoryPublications.Disk.ValidConsistent | xtask/src/bundle.rs:109-236 | at every point of every call no directory is in two places, the committed bundle is where recovery finds it, and it is neither staged for deletion nor deleted nor left behind |
| DirectoryPublications.TraceMore | xtask/src/bundle.rs:109-236 | one more step of a process extends a trace that keeps the protocol invariant |
| BinderTransactions.MutateDescends | crates/bray-binder/src/binder.rs:166-266 | every mutator keeps the dependency log a duplicate-free listing of the set and can be undone from the logs |
| BinderTransactions.MutateRecords | crates/bray-binder/src/binder.rs:194-266 | a recorded type is what a lookup of its target gives and no other target changes; the dependency set gains exactly the dependency |
| BinderTransactions.PushPop | crates/bray-binder/src/binder.rs:166-172 | popping after a push gives the whole state back; an empty stack stays empty |
| BinderTransactions.AddedInOrder | crates/bray-binder/src/binder.rs:212-259 | diagnostics, contextual bindings and unit entries keep the order in which they were added |
| BinderTransactions.RollbackRestores | crates/bray-binder/src/binder.rs:279-318 | from any descendant, rolling back to a state's checkpoint is accepted and gives exactly that state |
| BinderTransactions.RestoredOnlyFromDescendant | crates/bray-binder/src/binder.rs:279-318 | a rollback that gives a state back only ever happens to a descendant of it |
| BinderTransactions.RollbackExact | crates/bray-binder/src/binder.rs:279-318 | rolling back to the checkpoint of a state is accepted and gives it back if and only if the current state descends from it |
| BinderGuarantees.GuaranteedExactly | crates/bray-binder/src/binder.rs:279-318 | over any history of mutators and rollbacks to any checkpoints, live or abandoned, the first checkpoint is guaranteed to restore throughout if and only if no rollback has made a log shorter than it was then |
| BinderGuarantees.AboveDescends | crates/bray-binder/src/binder.rs:279-318 | as long as no log gets shorter than at the checkpoint, every history of mutators and rollbacks stays undoable to it |
| BinderGuarantees.RollbackDescends | crates/bray-binder/src/binder.rs:279-318 | even a rollback to an abandoned checkpoint keeps what lies below the lengths it names |
| BinderGuarantees.BelowNotGuaranteed | crates/bray-binder/src/binder.rs:280-290 | once a log is shorter than at the checkpoint there are mutators after which it is accepted and restores something else |
| BinderTransactions.PerformKeeps | crates/bray-binder/src/binder.rs:268-318 | every call keeps the stack discipline of live checkpoints, and a rollback to one restores its state |
| BinderTransactions.HistoryRestores | crates/bray-binder/src/binder.rs:268-318 | over every history of mutators, nested checkpoints and inner rollbacks no rollback to a live checkpoint is refused, and each restores the whole state |
| BinderTransactions.AbandonedCheckpointAccepted | crates/bray-binder/src/binder.rs:280-286 | the length guards accept a checkpoint of an abandoned branch and then restore something else |
| BinderTransactions.AbandonedTypeAccepted | crates/bray-binder/src/binder.rs:279-318 | branches that record different types for one target have equal logs, so not even comparing logs would keep the checkpoint of one from giving back the type of the other |
| BinderTransactions.UndoSplit | crates/bray-binder/src/binder.rs:295-309 | replaying a type log backwards composes over concatenation |
| BinderTransactions.TransactionAtomic | crates/bray-binder/src/binding/transaction.rs:11-42 | a transaction commits if and only if its body succeeds with a balanced control context, and then keeps everything the body did; a failed body and an unbalanced one are told apart, and either leaves no trace; the rollback never fails |
| BinderTransactions.BodyAboveMark | crates/bray-binder/src/binding/transaction.rs:11-31 | whatever a body does with its own checkpoints it descends from where it began |
| BinderTransactions.Binder.RecordValueType | crates/bray-binder/src/binder.rs:194-206 | error types change nothing; otherwise the type is recorded and the replaced one logged unless equal |
| BinderTransactions.Binder.RecordDependency | crates/bray-binder/src/binder.rs:261-266 | the set gains the dependency and the log gains it only if new |
| BinderTransactions.Binder.RecordContextualPatternBinding | crates/bray-binder/src/binder.rs:212-221 | appends the binding and changes nothing else |
| BinderTransactions.Binder.AddDiagnostic | crates/bray-binder/src/binder.rs:257-259 | appends the diagnostic and changes nothing else |
| BinderTransactions.Binder.PushControlTarget | crates/bray-binder/src/binder.rs:166-168 | pushes and changes nothing else |
| BinderTransactions.Binder.PopControlTarget | crates/bray-binder/src/binder.rs:170-172 | returns and removes the last target, if any |
| BinderTransactions.Binder.TakeCheckpoint | crates/bray-binder/src/binder.rs:268-277 | the checkpoint of the current state |
| BinderTransactions.Binder.TransactionContextIsBalanced | crates/bray-binder/src/binder.rs:320-322 | true exactly when the control stack equals that of the checkpointed state |
| BinderTransactions.Binder.RollBack | crates/bray-binder/src/binder.rs:279-318 | false leaves the state untouched; true gives the truncated and undone state, which is the checkpointed state for every descendant of it |
| BinderTransactions.Binder.UndoTypes | crates/bray-binder/src/binder.rs:295-309 | draining the type log in reverse undoes exactly the drained entries |
| BinderTransactions.Binder.RemoveDependencies | crates/bray-binder/src/binder.rs:314-316 | draining the dependency log removes exactly the drained dependencies |
| AssemblyConstraints.ParseRenders | crates/bray-bound-tree/src/memory.rs:177-241 | an accepted constraint is well formed and renders back to exactly the accepted text |
| AssemblyConstraints.RenderParses | crates/bray-bound-tree/src/memory.rs:177-241 | every well-formed kind, class and explicitness parses back to itself, so no text has two roles |
| ConstraintRanges.PartsJoin | crates/bray-bound-tree/src/memory.rs:435-435 | the comma-free parts joined by commas are the text |
| ConstraintRanges.PartsUnique | crates/bray-bound-tree/src/memory.rs:435-435 | they are the only such parts |
| ConstraintRanges.TrimBlank | crates/bray-bound-tree/src/memory.rs:436-440 | a part trims to nothing exactly when it is blank |
| ConstraintRanges.TrimExact | crates/bray-bound-tree/src/memory.rs:436-440 | trimming takes away white space at both ends, all of it, and nothing else |
| ConstraintRanges.RangesOf | crates/bray-bound-tree/src/memory.rs:432-448 | succeeds exactly when every part is nonblank; the ranges are those of the trimmed parts, ordered, disjoint and in bounds |
| ConstraintRanges.Split | crates/bray-bound-tree/src/memory.rs:427-449 | the same for the whole text; the empty text has no ranges |
| ConstraintRanges.RangeNamesPart | crates/bray-bound-tree/src/memory.rs:436-445 | the text at range i is the trimmed i-th part |
| ConstraintRanges.PartSlice | crates/bray-bound-tree/src/memory.rs:588-601 | slicing the encoded text at range i is in bounds and gives exactly the encoded trimmed i-th part |
| AssemblyTemplate.TemplateValid | crates/bray-bound-tree/src/memory.rs:694-747 | accepts exactly the templates made of non-NUL ordinary bytes, `$$`, `$n` and `${n}` with greedy digits and every ordinal below the operand count |
| AssemblyTemplate.ScanTemplate | crates/bray-bound-tree/src/memory.rs:699-746 | the scanning loop accepts exactly the texts that are sequences of valid pieces |
| AssemblyTemplate.AcceptsMeansGrammatical | crates/bray-bound-tree/src/memory.rs:694-747 | scanning piece by piece succeeds exactly on grammatical texts, which have no NUL |
| AssemblyTemplate.ScanPiece | crates/bray-bound-tree/src/memory.rs:702-743 | one turn of the loop consumes exactly one valid piece or rejects |
| AssemblyTemplate.ScanOrdinal | crates/bray-bound-tree/src/memory.rs:715-743 | the ordinal after `$` or `${` is read greedily, bounded and closed as required |
| AssemblyTemplate.ParseExact | crates/bray-bound-tree/src/memory.rs:729-735 | stepwise overflow rejects exactly the numbers above the word size, so no in-range ordinal is rejected |
| DecimalOrdinals.DigitCharacters | crates/bray-bound-tree/src/memory.rs:719-728 | a character is read as a digit if and only if it is one of the ten that decimal texts are made of |
| DecimalOrdinals.DecimalValue | crates/bray-bound-tree/src/memory.rs:729-735 | the decimal text of every number, with any leading zeros, denotes that number |
| DecimalOrdinals.DecimalParsed | crates/bray-bound-tree/src/memory.rs:729-735 | parsing the decimal text of a number gives it back if and only if it fits the word size |
| DecimalOrdinals.OrdinalBelowCount | crates/bray-bound-tree/src/memory.rs:694-747 | the templates `$n` and `${n}` with the decimal text of n, leading zeros included, are valid for a number of operands if and only if n is below it |
| DenseOrdinals.DenseCheck | crates/bray-bound-tree/src/memory.rs:647-665 | accepts exactly the permutations of 0..n-1 with n up to 64, including the overflowing shift at 64 |
| DenseOrdinals.MaskMeansPermutation | crates/bray-bound-tree/src/memory.rs:664-664 | the mask equals 2^n - 1 exactly when distinct ordinals are dense |
| DenseOrdinals.SixtyFiveRefused | crates/bray-bound-tree/src/memory.rs:652-654 | a permutation of 65 ordinals has one without a bit |
| InlineAssembly.TryNew | crates/bray-bound-tree/src/memory.rs:400-424 | accepts exactly the sound contracts over exactly filled descriptor slots |
| InlineAssembly.StructurallyValid | crates/bray-bound-tree/src/memory.rs:569-613 | holds exactly when parts, descriptors, ordinals, output order and template are sound |
| InlineAssembly.Collect | crates/bray-bound-tree/src/memory.rs:570-577 | succeeds exactly when the first `count` slots are filled and the rest are empty |
| InlineAssembly.DescriptorsValid | crates/bray-bound-tree/src/memory.rs:589-602 | holds exactly when every descriptor has valid fields, the range of its part and the kind its part parses to |
| InlineAssembly.OrdinalsDense | crates/bray-bound-tree/src/memory.rs:604-611 | holds exactly when tuple inputs, runtime inputs and outputs are each permutations |
| InlineAssembly.OutputsPrecedeInputs | crates/bray-bound-tree/src/memory.rs:667-681 | holds exactly when no operand with an output follows one without |
| InlineAssembly.FieldsValid | crates/bray-bound-tree/src/memory.rs:616-640 | the table by kind says for each field exactly which kinds have it |
| InlineAssembly.SlotsCounted | crates/bray-bound-tree/src/memory.rs:683-692 | the template may name one slot for each output, each tuple input and each label |
| InlineAssembly.DescriptorNamesPart | crates/bray-bound-tree/src/memory.rs:579-602 | in an accepted contract each descriptor's range cuts out exactly the trimmed part whose kind it has |
| InlineAssembly.ValueTypesBijection | crates/bray-bound-tree/src/memory.rs:546-567 | with dense ordinals, validity is a type-preserving bijection of the runtime inputs and of the outputs with the given slices |
| InlineAssembly.AcceptedTypes | crates/bray-bound-tree/src/memory.rs:546-567 | so it is for every accepted contract |
| InlineAssembly.OperandTypesValid | crates/bray-bound-tree/src/memory.rs:518-543 | additionally the label types are exactly those of the label operands in order |
| AssemblyConstants.ConstantValues | crates/bray-bound-tree/src/memory.rs:494-515 | the fixed buffer never overflows; the result lists each mentioned constant once, in order of first mention |
| AssemblyConstants.KeepsFirstDistinct | crates/bray-bound-tree/src/memory.rs:494-515 | keeping first occurrences gives a duplicate-free listing of the same constants |
| AssemblyConstants.MentionedInOrder | crates/bray-bound-tree/src/memory.rs:498-507 | template, constraints, clobbers, features and options come first, and then the constants of the operands in operand order |
| AllocationLayout.GuardExact | xtask/fixtures/runtime-allocation-probe.c:130-139 | aborts exactly for alignments that are not powers of two, refuses exactly the sizes that do not fit, and never wraps an accepted size |
| AllocationLayout.PayloadPlaced | xtask/fixtures/runtime-allocation-probe.c:139-145 | the payload is a multiple of the alignment, behind the header and inside the block |
| AllocationLayout.PayloadsDiffer | xtask/fixtures/runtime-allocation-probe.c:139-145 | disjoint blocks have different payload addresses, even for empty payloads |
| AllocationLayout.RoundedUp | xtask/fixtures/runtime-allocation-probe.c:144-144 | masking rounds down to the multiple of the alignment within one alignment |
| AllocationList.Probe.Link | xtask/fixtures/runtime-allocation-probe.c:147-153 | the list gains the block at its head and the counters still equal length and sum |
| AllocationList.Probe.Find | xtask/fixtures/runtime-allocation-probe.c:167-172 | the cursor stops at the first block with the address, or at the end |
| AllocationList.Probe.Bypass | xtask/fixtures/runtime-allocation-probe.c:176-176 | redirecting the link removes exactly that block from the list |
| AllocationList.Probe.Unlink | xtask/fixtures/runtime-allocation-probe.c:166-181 | removes exactly the first block with the address and keeps the counters exact; an untracked address changes nothing |
| AllocationSteps.LockKept | xtask/fixtures/runtime-allocation-probe.c:36-45 | every step keeps: holding the lock is being innermost in a critical section, and no callback runs under it |
| AllocationSteps.OwnKept | xtask/fixtures/runtime-allocation-probe.c:120-194 | every step keeps: each block is listed, carried by one call, or freed after being unlinked once |
| AllocationSteps.StepKeeps | xtask/fixtures/runtime-allocation-probe.c:120-194 | every step of every thread keeps lock, ownership and counter invariants |
| AllocationRuns.RunKeeps | xtask/fixtures/runtime-allocation-probe.c:120-194 | so does every interleaving |
| AllocationRuns.CountersAgree | xtask/fixtures/runtime-allocation-probe.c:36-194 | in every interleaving with re-entrant callbacks: whenever the lock is free live count is list length, retained bytes are the list's sum and allocated bytes the sum of all blocks ever listed; each allocation is unlinked and freed at most once; listed addresses differ |
| AllocationRuns.ReleaseFindsOwner | xtask/fixtures/runtime-allocation-probe.c:164-172 | releasing a listed address finds exactly the block obtained there |
| AllocationRuns.UntrackedRelease | xtask/fixtures/runtime-allocation-probe.c:159-194 | no step of releasing an untracked pointer changes tracked state |
| AllocationProgress.HolderReleases | xtask/fixtures/runtime-allocation-probe.c:36-45 | in every reachable state with the lock held, five steps of its holder free it, whatever other threads and callbacks do meanwhile |
| AllocationProgress.LockComesFree | xtask/fixtures/runtime-allocation-probe.c:147-181 | in every interleaving the lock has been free once its holder has taken the steps its critical section has left |
| AllocationProgress.HolderUndisturbed | xtask/fixtures/runtime-allocation-probe.c:36-45 | no other thread and no call made meanwhile takes the lock from its holder or delays it |
| AllocationProgress.WaiterEnters | xtask/fixtures/runtime-allocation-probe.c:36-40 | a waiting call takes the lock as soon as it is free, however deeply it is nested in callbacks |
| AllocationProgress.OnlyWaitersWait | xtask/fixtures/runtime-allocation-probe.c:120-194 | a call that cannot move on waits for a lock that another thread holds, so no thread waits for itself |
| AllocationCalls.AllocateCompletes | xtask/fixtures/runtime-allocation-probe.c:120-157 | a call that the heap answers ends with exactly its block at the head of the list, each counter advanced once and the lock free |
| AllocationCalls.ReleaseCompletes | xtask/fixtures/runtime-allocation-probe.c:159-194 | releasing a listed address ends with exactly that block removed, uncounted and freed and the lock free |
| AllocationCalls.UntrackedCompletes | xtask/fixtures/runtime-allocation-probe.c:159-194 | releasing a null or untracked pointer ends with the whole shared state as it was and the lock free |
| AllocationCalls.AllocateReleaseRoundTrip | xtask/fixtures/runtime-allocation-probe.c:120-194 | allocating and releasing again restores the list, the live count and the retained bytes |
| AllocationRejection.ProbeCountsAttempts | xtask/fixtures/runtime-allocation-probe.c:59-71 | what the end returns for the value the begin loaded is the number of allocation calls that made their first step in between, modulo the counter width, in every interleaving |
| AllocationRejection.ProbedRun | xtask/fixtures/runtime-allocation-probe.c:59-71 | from the begin on, in every interleaving without an end, no call of any thread obtains a block and every attempt is counted |
| AllocationRejection.ProbedAllocation | xtask/fixtures/runtime-allocation-probe.c:120-128 | a probed allocation returns with its attempt counted and nothing else changed, whatever the heap would answer |
| AllocationRejection.AllocationAfterProbe | xtask/fixtures/runtime-allocation-probe.c:67-71 | after the end an undisturbed allocation has its block at the head of the list |
| AllocationRejection.AttemptsAddUp | xtask/fixtures/runtime-allocation-probe.c:120-122 | over every run the attempts counted are exactly the allocation calls begun |
| WideHash.HashesAgree | xtask/fixtures/performance-peer.cpp:287-295 | for every byte string both hashes are the residue of the polynomial |
| WideHash.StableHash | xtask/fixtures/performance-peer.cpp:287-295 | the two-limb hash is the polynomial modulo 2^127 - 1 |
| WideHash.StableHash128 | xtask/fixtures/performance-peer.rs:319-331 | the 128-bit hash is the polynomial modulo 2^127 - 1 |
| HashValues.EmptyText | xtask/fixtures/performance-peer.rs:319-331 | both programs hash the empty text to 16158402040730025834900042659807 |
| HashValues.LetterText | xtask/fixtures/performance-peer.rs:319-331 | both programs hash the text "a" to 38418965358199361446452679276451893198 |
| WideHash.HornerIsPolynomial | xtask/fixtures/performance-peer.rs:324-328 | absorbing byte by byte evaluates the polynomial with explicit powers |
| WideHash.MultiplyModulo | xtask/fixtures/performance-peer.cpp:270-285 | double-and-add gives the product's residue |
| WideHash.MultiplyModulo128 | xtask/fixtures/performance-peer.rs:348-366 | the same for unreduced 128-bit operands |
| WideHash.DoubleStep | xtask/fixtures/performance-peer.cpp:275-282 | one doubling step keeps product plus factor times multiplier, modulo the modulus |
| WideHash.DoubleAndAddMultiplies | xtask/fixtures/performance-peer.cpp:275-282 | the whole double-and-add recursion gives the residue of product plus factor times multiplier |
| WideHash.AddModulo | xtask/fixtures/performance-peer.cpp:260-268 | on reduced operands the sum's residue, with every intermediate below the modulus |
| WideHash.AddModulo128 | xtask/fixtures/performance-peer.rs:333-346 | the sum's residue for any 128-bit operands |
| WideHash.Add | xtask/fixtures/performance-peer.cpp:250-258 | exact whenever the sum fits two limbs: no carry is lost |
| WideHash.Subtract | xtask/fixtures/performance-peer.cpp:242-248 | exact whenever the difference is not negative: no borrow is lost |
| WideHash.Less | xtask/fixtures/performance-peer.cpp:232-235 | the limb comparison is the comparison of the numbers |
| StorageInvalidations.Cell.Merge | crates/bray-bound-tree/src/refinement.rs:71-125 | leaves the merged effect in the receiver, or reports the representations that never mix |
| StorageInvalidations.ExtendAccesses | crates/bray-bound-tree/src/refinement.rs:108-114 | the loop over incoming accesses computes the merged table entry by entry |
| StorageInvalidations.MergedMeaning | crates/bray-bound-tree/src/refinement.rs:71-125 | merging computes the join of what the effects mean |
| StorageInvalidations.JoinIdempotent | crates/bray-bound-tree/src/refinement.rs:71-125 | joining an effect with itself changes nothing |
| StorageInvalidations.JoinCommutes | crates/bray-bound-tree/src/refinement.rs:71-125 | the join commutes |
| StorageInvalidations.JoinAssociates | crates/bray-bound-tree/src/refinement.rs:71-125 | the join associates |
| StorageInvalidations.JoinAllLeast | crates/bray-bound-tree/src/refinement.rs:71-125 | the join of several effects is the least that covers them |
| InvalidationFolds.FoldMeaning | crates/bray-bound-tree/src/refinement.rs:71-125 | wherever it is defined, folding effects means the join of all |
| InvalidationFolds.FoldOrderIrrelevant | crates/bray-bound-tree/src/refinement.rs:71-125 | any order and any repetitions for which the folds are defined give the same effect up to list canonicalization; without mixed representations they are always defined |
| InvalidationFolds.FoldDefined | crates/bray-bound-tree/src/refinement.rs:116-118 | folding panics if and only if a path list and a flow-resolved effect both come before the first opaque effect |
| InvalidationFolds.PanicDependsOnOrder | crates/bray-bound-tree/src/refinement.rs:86-118 | the same three effects fold in one order and panic in another |
| InvalidationFolds.FoldExact | crates/bray-bound-tree/src/refinement.rs:127-150 | the fold invalidates a path or access if and only if some path's effect does |
| InvalidationFolds.FoldDescriptors | crates/bray-bound-tree/src/refinement.rs:82-104 | a stable descriptor survives if and only if every effect has it and opaque effects are not mixed with others |
| InvalidationFolds.FoldValues | crates/bray-bound-tree/src/refinement.rs:82-105 | a stable value or snapshot survives if and only if every effect has it |
| InvalidationFolds.FoldReferents | crates/bray-bound-tree/src/refinement.rs:106-106 | a referent may change after flow-resolved effects if and only if it may on some path |
| InvalidationFolds.FoldScope | crates/bray-bound-tree/src/refinement.rs:54-60 | the scope of the fold is the widest scope of any path |
| StorageInvalidations.MergeExact | crates/bray-bound-tree/src/refinement.rs:127-150 | the merged effect invalidates a path or access if and only if one of the two does |
| StorageInvalidations.MergePreserves | crates/bray-bound-tree/src/refinement.rs:82-105 | a stable descriptor, stable value or snapshot survives only if both had it, and always if both are opaque or both are not |
| StorageInvalidations.MergeReferents | crates/bray-bound-tree/src/refinement.rs:106-106 | a referent may change after the join exactly when it may on one of the paths |
| StorageInvalidations.MergeScope | crates/bray-bound-tree/src/refinement.rs:54-60 | the scope of the join is the wider scope |
| StorageInvalidations.MergeWidens | crates/bray-bound-tree/src/refinement.rs:54-60 | the join is unbounded if and only if one side is, and confined to the invocation if and only if both are |
| StorageInvalidations.MergeSorts | crates/bray-bound-tree/src/refinement.rs:108-123 | every list that a merge writes is sorted without repetitions and every entry it does not write stays |
| SuspensionPoints.SuspensionPoint.MergePath | crates/bray-bound-tree/src/asynchronous.rs:73-107 | leaves, under the shared key, a normalized point that carries a call, subject, broadcast or recovery exactly when one of the two did |
| SuspensionPoints.JoinFacts | crates/bray-bound-tree/src/asynchronous.rs:73-107 | a joined point carries a call, subject, broadcast or recovery exactly when some path does |
| SuspensionPoints.JoinOrderIrrelevant | crates/bray-bound-tree/src/asynchronous.rs:73-107 | the order and multiplicity in which paths arrive does not change the point |
| CheckedIndexes.BuildIndex | crates/bray-bound-tree/src/asynchronous.rs:552-566 | the index lists every position once, by key and then position |
| CheckedIndexes.HasDuplicate | crates/bray-bound-tree/src/asynchronous.rs:568-575 | comparing neighbours finds a duplicate exactly when there is one anywhere |
| CheckedIndexes.PartitionPoint | crates/bray-bound-tree/src/asynchronous.rs:675-677 | the binary search separates smaller keys from the others |
| CheckedIndexes.Lookup | crates/bray-bound-tree/src/asynchronous.rs:675-682 | the indexed query is the first match of a linear scan, duplicates included |
| CheckedAsyncTables.TryNew | crates/bray-bound-tree/src/asynchronous.rs:470-591 | refuses exactly mentioned units other than this one, then exactly duplicate scope exits; otherwise the table is of the unit and both indexes are valid |
| CheckedAsyncTables.WithReplacements | crates/bray-bound-tree/src/asynchronous.rs:594-622 | refuses exactly foreign units, then exactly duplicate expressions; otherwise the same plans in ascending order |
| CheckedAsyncTables.StorageRequirementOf | crates/bray-bound-tree/src/asynchronous.rs:671-683 | the first requirement in original order for the identity, or none exactly when there is none |
| CheckedAsyncTables.ScopeExitPlanOf | crates/bray-bound-tree/src/asynchronous.rs:696-711 | the unique plan for the scope exit if and only if there is one |
| CheckedAsyncTables.ReplacementOf | crates/bray-bound-tree/src/asynchronous.rs:630-638 | the unique plan for the expression if and only if there is one |
| DependencyContracts.InstantiationSound | crates/bray-bound-tree/src/dependency.rs:403-413 | for any resolver and nesting depth, a produced contract is valid for the context's unit and normalized at every level |
| DependencyContracts.InstantiatedOne | crates/bray-bound-tree/src/dependency.rs:446-490 | each produced requirement belongs to the unit and is normal, guards included |
| DependencyContracts.RequiredSubjects | crates/bray-bound-tree/src/dependency.rs:373-390 | the worklist collects exactly the subjects of all direct requirements and guards, at any depth |
| DependencyContracts.SubjectsNormalized | crates/bray-bound-tree/src/dependency.rs:393-397 | sorting and deduplicating changes no subject |
| DependencyContracts.RequiredSubjectsAreImage | crates/bray-bound-tree/src/dependency.rs:373-490 | with a functional resolver, instantiation succeeds exactly when every formal resolves into the unit, and the required subjects are the image of every formal subject and guard |
| DependencyContracts.NestingRetained | crates/bray-bound-tree/src/dependency.rs:399-413 | each state is required under exactly the guards the template puts it under |
| DependencyTraces.InstantiationAsks | crates/bray-bound-tree/src/dependency.rs:433-490 | with any resolver that keeps state, the formals are asked in template order, each guard before what it guards, each in the state the one before left; instantiation fails exactly where and how the first of them fails |
| DependencyTraces.ProducedWithin | crates/bray-bound-tree/src/dependency.rs:74-86 | every identity in a produced contract, at any depth and in guards too, is of the unit |
| DependencyTraces.ValidAll | crates/bray-bound-tree/src/dependency.rs:74-86 | a contract is valid for a unit if and only if every identity in it is of the unit |
| DependencyTraces.SubjectsExact | crates/bray-bound-tree/src/dependency.rs:232-244 | a contract requires exactly the subjects of its direct requirements and, for its guards, the tested storage accesses and capabilities |
| ToolDigest.DigestPaths | xtask/src/preparation_tools.rs:202-237 | both loops feed the hash exactly the framed stream of the ordered set of resolved paths, or report the first failure |
| ToolDigest.ResolveLoop | xtask/src/preparation_tools.rs:203-216 | the first loop yields the ascending duplicate-free resolved paths |
| ToolDigest.PathSetExact | xtask/src/preparation_tools.rs:203-216 | the resolved paths are exactly the canonical paths of the files located under the listed names |
| ToolDigest.FailureNamed | xtask/src/preparation_tools.rs:202-237 | a failure names the first listed tool that is absent, the located path that has no canonical form, or the first path in path order that cannot be read |
| ToolDigest.StreamDependsOnSet | xtask/src/preparation_tools.rs:202-237 | the stream depends only on the set of resolved paths, their texts and their content digests |
| ToolDigest.ListOrderIrrelevant | xtask/src/preparation_tools.rs:202-237 | reordering or repeating the list changes nothing |
| ToolDigest.LengthRoundTrip | xtask/src/preparation_tools.rs:223-223 | the little-endian length reads back to itself whenever it fits |
| ToolDigest.DecodeEncodes | xtask/src/preparation_tools.rs:220-234 | reading the stream recovers exactly the framed records |
| ToolDigest.EncodeDecodes | xtask/src/preparation_tools.rs:220-234 | whatever the reader accepts is the framing of what it read |
| ToolDigest.StreamDecodes | xtask/src/preparation_tools.rs:202-237 | a stream exists exactly when every tool resolves and is readable, and it reads back to their texts and digests |
| ToolDigest.EqualStreamsEqualTools | xtask/src/preparation_tools.rs:202-237 | equal streams come from equal sets of path text and 32-byte digest |
| ToolDigest.EqualStreamsEqualPaths | xtask/src/preparation_tools.rs:221-224 | equal streams of lists without confused tools come from equal path sets |
| ToolDigest.LossyTextCollides | xtask/src/preparation_tools.rs:221-224 | two usable tools with different paths of one text and the same content have equal streams and different path sets |
| ToolDigest.PathsDeterminedExactly | xtask/src/preparation_tools.rs:202-237 | equal streams imply equal path sets for all lists if and only if no two names resolve to different readable paths with equal text and equal content |

## Left out

- Parser, checker, code generation, runtime, package and command-line layers, and every other file of the repository.
- `BoundUnitLocalBuilder`: abstracted to an owner and an append-only journal whose checkpoint is a length; its real tables are not part of this model.
- `StoragePlan` and path relationships: the overlap relations are arbitrary parameters; `exists_in` of dependency contracts is not modelled because it only queries that plan.
- `contextual_pattern_binding` and `control_target_of_kinds`: read-only searches that do not affect rollback.
- `panic!` and failed assertions: cleanup templates, mixed invalidation representations and mutation scope of path lists become error values; merging suspension points with different keys is a precondition.
- Which error `recover` and `begin` report: failure is one answer, with the slots, staging area and lock it leaves.
- Real file-system detail of publication: permission retry, long paths, sync, unusual destination names and errors creating directories appear only as an operation that fails; rename is atomic and the lock exclusive.
- AllocationSteps: bad alignments (which abort the process) and oversized requests are not separate steps; a refused request is an allocation answered with no memory. Atomics are sequentially consistent, and one step reads the rejection flag and asks the heap.
- AllocationList.Probe.Link: the class covers the two critical sections; callbacks and interleaving are in AllocationSteps.
- CheckedAsyncTables.TryNew: the units that an entry mentions are abstracted to a set of owners, so the individual foreign-unit checks at asynchronous.rs:488-548 are one condition; of the frame dependencies, suspensions, task operations and cleanup types only the units they mention are modelled.
- CheckedIndexes.BuildIndex: `sort_unstable_by_key` is an insertion by the same key; only the unique sorted result matters. Binary searches are written as ordinary halving loops.
- DependencyContracts.InstantiationSound: the unit of a context is fixed during one instantiation.
- SHA-256 and the hexadecimal rendering: an arbitrary function of the stream in ToolDigest.DigestPaths.
- `resolve_program` and `canonicalize`: arbitrary partial functions of the host.
- Other performance-peer workloads, smoke fixtures, foreign-interop fixtures and the remaining memory-operation tables: constants, platform calls or one-branch facts that would only add easy members.
