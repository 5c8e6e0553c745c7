# NixOps: a verified model of its core logic

NixOps deploys networks of machines. This project models, in Dafny, the parts of it whose
correctness is not visible in any one function, and proves what they promise.

* **Worker pool** (`GatedPool`, `PoolOutcome`, `PoolProgress`, `RunTasks`, `Deployment`). Threads take tasks from a
  FIFO queue; a task's worker waits for the events of the tasks it depends on, gives up silently if
  one of them is errored, acts, and sets its own event in a `finally` block. The pool is a transition
  system: a state holds the queue, one program counter per thread, the set events, the errored flags
  and the result queue, and a step is "thread t moves", for any enabled t. `RunTasks` drains it under
  an arbitrary scheduler and classifies the exceptions; `Deployment` uses it for creation and
  destruction and models `evaluate_active`.
* **Nix expressions** (`PyStrings`, `NixStrings`, `NixLayout`, `NixTokens`, `NixPrint`,
  `NixEncoders`, `NixEncoding`, `NixWidths`, `NixShift`, `NixParse`, `NixRoundTrip`, `NixMerge`,
  `PathMeaning`, `ExpandDict`, `Py2Nix`).
  String escaping, the width-driven layout, the encoders with list collapsing and path compression,
  a lexer and reader for the printed part of the Nix language, `nixmerge`, and `expand_dict`.
* **Diff engine** (`Handlers`, `CoverSearch`, `DiffEngine`). The differences between state and
  definition, the search for the smallest covering set of handlers, their depth-first order, and
  what running them does.
* **Network state** (`NetworkState`). Many clients fetch, edit and upload one state file under a
  shared/exclusive lock; every step may raise.
* **State file transactions** (`Statefile`). The nested bracket of the connection, shared by threads.
* **Log output** (`Logging`). The read loop of `logged_exec` over the logger.
* **known_hosts** (`KnownHosts`). The line-wise rewriting of the file.

Python's unordered iteration (over a `set`, or over a dictionary built from one), the scheduler, the
lock driver, the database and the handlers are nondeterministic or parameters; what is proved holds
for all of them. Exceptions are values (`None`, a verdict, a `raised` flag). Python integers are
`int`; the range of Nix integers is explicit (`NixParse.MAX_INT`).

## Where code and intention part

Each of these is stated exactly by the member named.

* With one worker per task the pool can finish exactly when every worker can come to an end
  (`PoolProgress.CompletesIffAllFinish`). Acyclic dependencies *among included* resources are enough;
  without failures they are also needed (`PoolProgress.CompletesIffAcyclic`), but a failure can break
  a cycle (`PoolProgress.FailureBreaksCycle`), and cycles through excluded resources are harmless.
* A printed value reads back as itself exactly when it is `Readable`: negative integers in lists,
  integers beyond 63 bits, carriage returns and reserved words as attribute names do not survive
  (`NixRoundTrip.RoundTrip`).
* A list that holds nothing but one empty list is taken for one character shorter than it is, so it
  can be printed on a line that is one too long (`NixWidths.BrokenIffTooWide`,
  `NixWidths.EmptyNestOffByOne`).
* `nixmerge` treats `True` and `1` as one list element, and keeps the first. It commutes up to the
  order of lists exactly when no two lists it merges are mixed in that way
  (`NixMerge.MergeCommutesIff`).
* With no handlers and a difference to realise, `get_handlers_sequence` never ends
  (`CoverSearch.PlanOutcome`).
* Planning twice with one `Diff` repeats everything that was planned before
  (`DiffEngine.StaleDiff`); `create` always uses a fresh one.
* Updates of the stored state can be lost exactly when two clients write and one of them does not
  keep the lock throughout (`NetworkState.LosesIff`); `op_ssh`, which releases early, is a reader.
* If commit raises, or rollback raises anything but a `ProgrammingError`, the thread keeps the
  connection's lock for good (`Statefile.FaultKeepsLock`); the lock is free at the end exactly if that
  never happened (`Statefile.OneCallPerBlock`).
* The log can depend on how a process's output is cut into reads exactly when the log already ends in
  an unfinished line with the same prefix and the output has a line break, but not as its first
  character (`Logging.CutsAgreeIff`).
* `add` is idempotent exactly when the address has no space and no comma
  (`KnownHosts.AddTwiceIff`).

## Model

| member | source | states |
|---|---|---|
| GatedPool.StepInv | nixops/deployment.py:1198-1272 | every step of every thread keeps: no task is lost or in two places, events are set exactly from `finally` on, and each finished task is accounted for by its own failure, an errored dependency, or success behind an open gate |
| GatedPool.FlagsFinal | nixops/deployment.py:1264-1269 | once a resource's event is set, no later step changes its errored flag or whether it acted |
| PoolOutcome.GateSafety | nixops/deployment.py:1205-1225 | in every interleaving, a worker that has started its action found every dependency's event set and its errored flag False, for good; an included dependency has acted |
| PoolOutcome.NoFailureLost | nixops/deployment.py:1213-1215 | at any moment, every errored flag goes back along dependencies to an exception already thrown, though propagated failures return silently |
| PoolOutcome.CompleteOutcome | nixops/parallel.py:60-103 | every complete run leaves exactly one result per task, errored exactly the least set closed under own failure and errored dependencies, acted exactly the other included tasks, and an exception exactly for each root cause |
| PoolOutcome.ScheduleIndependence | nixops/parallel.py:60-103 | two complete runs agree on errored, acted and the results, whatever the schedules and the numbers of workers |
| PoolOutcome.StepDecreases | nixops/parallel.py:62-74 | each step decreases a measure |
| PoolOutcome.RunsAreBounded | nixops/parallel.py:62-74 | so no schedule is longer than the measure of its start |
| PoolProgress.NoDeadlockIfAllFinish | nixops/parallel.py:55-58 | with a worker for every task, each of which can come to an end, some thread can move until all have exited |
| PoolProgress.NoDeadlockOneWorkerPerTask | nixops/parallel.py:55-58 | in particular with acyclic included dependencies |
| PoolProgress.NoDeadlockDepsFirst | nixops/parallel.py:62-74 | with any number of workers, if the queue lists dependencies first |
| PoolProgress.CompletesIffAllFinish | nixops/deployment.py:1198-1215 | whatever fails, the pool can finish if and only if every worker can come to an end: by being excluded, by failing to compute its dependencies, or because the dependencies it waits for, up to the first errored one, do |
| PoolProgress.NeverStuck | nixops/deployment.py:1198-1215 | and then no run can get stuck |
| PoolProgress.CompletesIffAcyclic | nixops/deployment.py:1209-1211 | when nothing fails by itself, that means acyclic included dependencies |
| PoolProgress.FailureBreaksCycle | nixops/deployment.py:1213-1215 | a cycle that an errored dependency breaks |
| RunTasks.CollectResults | nixops/parallel.py:84-111 | returns exactly when no result is an exception, with the truthy values in order; a single failing name is re-raised with its last exception, several give all of them |
| RunTasks.TruthyPermutes | nixops/parallel.py:99-100 | reordering the results only reorders the returned values |
| RunTasks.TruthyMembers | nixops/parallel.py:99-100 | the values kept are exactly the truthy ones, one for each task that returns one |
| RunTasks.Drain | nixops/parallel.py:60-82 | any scheduler ends, with that outcome |
| RunTasks.RunTasks | nixops/parallel.py:41-111 | the whole call: nothing for no tasks, an error below one worker, otherwise it returns a permutation of the truthy results exactly if no task is bad and else raises exactly the root causes; exactly the good included tasks acted |
| Deployment.CreateGate | nixops/deployment.py:1205-1225 | `create(r)` has started only if everything in `create_after(r)` is finished un-errored for good, and created unless excluded |
| Deployment.CreateResources | nixops/deployment.py:1198-1272 | returns normally exactly if nothing to be created is bad, that is fails in its create or create_after or has to be created after something bad; then exactly the included and not excluded resources are created, otherwise exactly the roots are raised; a resource whose create raises is not created and the call does not return |
| Deployment.CreateBadIsBad | nixops/deployment.py:1205-1215 | failure along `create_after` is failure in the pool |
| Deployment.BuildWaitFor | nixops/deployment.py:1452-1459 | `_wait_for` is the exact transpose of `destroy_before` |
| Deployment.DestroyGate | nixops/deployment.py:1461-1482 | `destroy(x)` has started only if every resource naming x in `destroy_before` has finished un-errored for good, destroyed unless excluded |
| Deployment.DestroyBadIsBad | nixops/deployment.py:1467-1478 | failure along `destroy_before` is failure along `_wait_for` |
| Deployment.RunDestroy | nixops/deployment.py:1448-1486 | exactly the included and not excluded resources that are not bad and whose destroy is truthy are deleted; the verdict names exactly the root causes |
| Deployment.Resources.DestroyResources | nixops/deployment.py:1448-1486 | on the `resources` dictionary: what is excluded, or not in a nonempty include list, stays, as does what fails; on a normal return nothing else stays but what destroy returned False for; the rest keeps its order |
| Deployment.Resources.EvaluateActive | nixops/deployment.py:1085-1123 | resources without a definition, and no others, become obsolete; only with `kill_obsolete` is anything destroyed, and then only obsolete resources that are included and not excluded, on a normal return all of them whose destroy is truthy |
| NixStrings.FivePassesAreOne | nixops/nix_expr.py:183-193 | the five sequential replacements equal one single-pass escaper |
| NixStrings.ReadEscaped | nixops/nix_expr.py:183-193 | the Nix string reader gives back any escaped string up to normalised line ends, whatever follows |
| NixStrings.StringRoundTrip | nixops/nix_expr.py:183-198 | a string survives encoding and reading if and only if it has no carriage return |
| NixWidths.EncFlat | nixops/nix_expr.py:177-295 | no piece of an encoded value contains a line break: only the layout breaks lines |
| NixWidths.OneLineIff | nixops/nix_expr.py:108-133 | any value that can be broken into lines is printed on one line exactly when indentation plus minimum length is below the width |
| NixWidths.MinLengthOf | nixops/nix_expr.py:93-103 | the minimum length of a value is its inline length, less one for each list holding nothing but an empty list |
| NixWidths.BrokenIffTooWide | nixops/nix_expr.py:93-133 | so a value is printed on one line exactly when indentation plus inline length, less that correction, is below the width |
| NixWidths.EmptyNestOffByOne | nixops/nix_expr.py:93-133 | `[[]]` is printed on a line one wider than the width test allows |
| NixShift.ShiftedLayout | nixops/nix_expr.py:108-133 | a document printed one level deeper, in a page two columns wider, is the same text moved two columns to the right |
| NixShift.BrokenLayout | nixops/nix_expr.py:124-133 | a broken document is its prefix, its children moved two columns to the right, and its suffix, on lines of their own |
| NixShift.ValueShifted | nixops/nix_expr.py:164-297 | the same for values |
| NixTokens.LexConcat | nixops/nix_expr.py:136-154 | texts that meet at a token boundary lex to the concatenation of their tokens |
| NixTokens.LayoutKeepsTokens | nixops/nix_expr.py:108-133 | level, width and inline flag never change the tokens of a document, unless a container with an inline variant has to be laid out over several lines |
| NixEncoders.CollapseNested | nixops/nix_expr.py:210-217 | the loop of `_enc_list` finds the innermost nodes that are no single list, and writes as many brackets before and after them as there are lists around them |
| NixEncoders.CompressSingles | nixops/nix_expr.py:240-245 | the loop of `_enc_attrset` finds the child that is no single attribute, and writes all the keys that lead to it with dots between them |
| NixEncoders.Encode | nixops/nix_expr.py:261-282 | the encoders with these loops compute the document the round trip is about |
| NixPrint.LexLeIff | nixops/nix_expr.py:237 | attributes are sorted by the first character in which their keys differ |
| NixPrint.KeyForms | nixops/nix_expr.py:219-231 | a key is unquoted exactly if it is made of ASCII letters, digits and underscores and does not start with a digit |
| NixEncoding.EncodableIff | nixops/nix_expr.py:219-223 | a value cannot be encoded exactly if some attribute set in it has an empty key |
| NixEncoding.EncTokens | nixops/nix_expr.py:177-295 | the document of a value has the value's tokens: collapsing lists keeps the brackets, compressing attributes gives a dotted path |
| NixEncoding.PrintTokens | nixops/nix_expr.py:164-297 | so does its text at any level, width and inline flag, unless a string is printed in its indented form |
| NixRoundTrip.ParseExprTokens | nixops/nix_expr.py:164-297 | the reader, given a value's tokens and more, reads the value and leaves the rest |
| NixRoundTrip.SurvivesIffReadable | nixops/nix_expr.py:177-252 | reading gives the value itself if and only if it is readable |
| NixRoundTrip.PrintThenParse | nixops/nix_expr.py:164-297 | reading any printed text of a value gives one and the same result |
| NixRoundTrip.RoundTrip | nixops/nix_expr.py:164-297 | a printed value reads back as itself if and only if it is readable |
| NixMerge.MergeLists | nixops/nix_expr.py:353-361 | fails exactly if an element is a list or a dictionary; otherwise the result has only elements of the two lists, one for each class of elements equal in Python, and is the first-occurrence dedupe of their concatenation |
| NixMerge.MergeValues | nixops/nix_expr.py:339-365 | the dictionary loop in any key order computes Merge, and fails exactly on a conflict |
| NixMerge.MergeFailsIff | nixops/nix_expr.py:350-363 | a conflict is a shared key whose values are in conflict, a list or dictionary as an element of a list, or two values that are neither both dictionaries nor both lists |
| NixMerge.DedupeKeepsFirsts | nixops/nix_expr.py:354-360 | a merged list holds exactly the first occurrences, in order |
| NixMerge.MergeIdentity | nixops/nix_expr.py:339-348 | `{}` is an exact identity on both sides |
| NixMerge.MergeAssociative | nixops/nix_expr.py:333-365 | merging is associative, defined one way exactly when the other way |
| NixMerge.MergeCommutes | nixops/nix_expr.py:333-365 | the two orders of merging are defined alike and differ at most in the order in which shared lists were merged |
| NixMerge.MergeCommutesIff | nixops/nix_expr.py:350-361 | they give the same up to the order of list elements if and only if no two shared lists are mixed: an element that first occurs as `True`, or `False`, in one first occurs as `1`, or `0`, in the other |
| NixMerge.MergedElements | nixops/nix_expr.py:353-361 | the merge of several lists has only elements of those lists, and loses none but equal ones |
| PathMeaning.MergeAdds | nixops/nix_expr.py:333-365 | at every path the merged value says what the two values say together, two lists being replaced by the dedupe of their concatenation |
| PathMeaning.RefinesIffHolds | nixops/nix_expr.py:329 | merging lists two at a time until one is left is the dedupe of the concatenation of them all, in some order |
| PathMeaning.MergeFailureClashes | nixops/nix_expr.py:362-363 | merging fails only if the two values contradict each other at some path |
| PathMeaning.OnlyListsAgree | nixops/nix_expr.py:353-361 | where only lists of atoms stand at a path there is no contradiction |
| PathMeaning.StandsSaid | nixops/nix_expr.py:350-363 | unless a path is contradictory it says whatever stands there, so values of different kinds, or two atoms, cannot stand there together |
| ExpandDict.MergeDepth | nixops/nix_expr.py:339-365 | merging never makes a dictionary deeper, tuples counted by length: the measure of the recursion |
| ExpandDict.Collect | nixops/nix_expr.py:312-326 | the collected parts together say at every path what the dictionary says; it fails exactly on an empty tuple |
| ExpandDict.MergeAll | nixops/nix_expr.py:329 | the reduction says what the parts say together, lists merged whole, and fails only if they contradict each other |
| ExpandDict.ExpandDict | nixops/nix_expr.py:300-330 | fails exactly if something is contradictory at some path; otherwise no tuple key remains and each path holds what is said there, several lists as the dedupe of their concatenation in some order |
| ExpandDict.ExpandedElements | nixops/nix_expr.py:300-330 | a list in the result has only elements of lists stated at its path, and loses none but equal ones |
| ExpandDict.ExpandedAtom | nixops/nix_expr.py:300-330 | a string, number, truth value or None at a path of the dictionary is at that path of the result, and alone there |
| ExpandDict.ExpansionsAgree | nixops/nix_expr.py:300-330 | all expansions of a dictionary are the same but for the order in which the same lists were merged |
| ExpandDict.ExpandingTwice | nixops/nix_expr.py:300-330 | an expanded dictionary expands to exactly itself |
| Py2Nix.Elaborate | nixops/nix_expr.py:277-280 | expands wherever a dictionary is met, failing exactly when nothing shows the value |
| Py2Nix.EncodableAgrees | nixops/nix_expr.py:219-223 | whether an empty key is met does not depend on how lists were merged |
| Py2Nix.ShowsItself | nixops/nix_expr.py:233-252 | a value without tuple keys is shown as itself and in no other way |
| Py2Nix.Py2nix | nixops/nix_expr.py:164-297 | the text is a layout of the expanded value, and reads back as it exactly when that is readable |
| Handlers.Sorter.Visit | nixops/diff.py:152-157 | the visit ends whatever cycles there are, appending the handler it was called for last, after everything newly found, all of which it leads to |
| Handlers.OrderedWalk | nixops/diff.py:141-164 | on an acyclic graph everything a finished handler depends on, however indirectly, comes before it |
| Handlers.TopologicalSort | nixops/diff.py:141-164 | the selected handlers, each once; a dependency comes first unless it depends back; without cycles also through unselected handlers |
| CoverSearch.CombinationsAreChoices | nixops/diff.py:170 | the combinations of a size are exactly the choices of that many handlers in list order |
| CoverSearch.CombinationsSorted | nixops/diff.py:170 | they are enumerated in lexicographic order of positions |
| CoverSearch.GetHandlersSequence | nixops/diff.py:166-186 | the first covering combination of the least covering size, sorted; or the keys no handler has; or no end |
| CoverSearch.PlanOutcome | nixops/diff.py:174-186 | handlers are found exactly when all together cover the keys; the exception is raised exactly when they do not, except that without handlers the search never ends |
| CoverSearch.NoSmallerCover | nixops/diff.py:166-186 | no choice of fewer handlers covers the keys |
| DiffEngine.Diff.EvalResourceAttrDiff | nixops/diff.py:188-197 | no change where state and definition agree, otherwise SET if only the definition has the attribute, UNSET if only the state has it, UPDATE if both do |
| DiffEngine.Diff.Plan | nixops/diff.py:108-136 | the keys planned for are those outside the reserved ones that differ or had an entry before, and each has a handler in the plan |
| DiffEngine.StaleDiff | nixops/diff.py:108-136 | when the state agrees with the definition, planning again with the same Diff is planning for every key of the first plan again, and is empty only if that was |
| DiffEngine.PlanConverges | nixops/resources/__init__.py:372-390 | after the planned handlers everything outside the reserved keys agrees with the definition, and a fresh plan is empty |
| DiffEngine.Resource.Create | nixops/resources/__init__.py:372-410 | on success everything outside the reserved keys agrees with the definition and only the keys of the plan changed; nothing runs exactly if that held before; if a handler raises, the keys done so far are realised and nothing new differs |
| NetworkState.StepInv | nixops/script_defs.py:125-152 | every step keeps: exclusion, who holds the lock, and the account of uploads |
| NetworkState.LockIff | nixops/script_defs.py:127-128 | a reader gets the lock beside readers, a writer only when nobody has it, and nobody beside a writer |
| NetworkState.ReadersShare | nixops/script_defs.py:125-152 | any number of readers can hold the lock at once |
| NetworkState.NoLostUpdate | nixops/script_defs.py:125-152 | whenever a writer uploads, what is stored is what it fetched; what is stored is always the edits of all uploads in turn; a holder of the lock sees the stored version |
| NetworkState.RunKeeps | nixops/script_defs.py:125-152 | over any run the stored file only grows |
| NetworkState.UploadsAccounted | nixops/script_defs.py:125-152 | only writers that fetched, opened and closed the state upload, each once and with all its edits; a writer that ends without an exception has uploaded; a client that is done holds nothing |
| NetworkState.UploadsEdits | nixops/script_defs.py:142-149 | what a client uploads is exactly what it has edited in the run, in order |
| NetworkState.UploadDespiteException | nixops/script_defs.py:141-149 | an exception in onOpen or in the body does not keep a writer from uploading |
| NetworkState.LosesIff | nixops/script_defs.py:937-951 | an update can be lost if and only if two clients write and one does not keep the lock |
| NetworkState.NoDeadlock | nixops/script_defs.py:127-152 | while a client is not done, some client can go on |
| NetworkState.MovesBounded | nixops/script_defs.py:127-152 | in any run each client moves on at most eight times |
| NetworkState.Completes | nixops/script_defs.py:150-152 | every reachable world can be finished, and then no lock is held |
| Statefile.Connection.Enter | nixops/statefile.py:40-51 | enters unless another thread owns the lock; the rollback flag is cleared only by an outermost entry |
| Statefile.Connection.Exit | nixops/statefile.py:53-69 | only an outermost exit calls the database, to roll back if any exit saw an exception; it raises, keeping the lock, exactly if that fails with anything but a ProgrammingError on rollback; otherwise one hold is released |
| Statefile.NestingIsDepth | nixops/statefile.py:40-69 | at any moment `nesting` is the lock owner's depth, and no other thread is inside |
| Statefile.OneCallPerBlock | nixops/statefile.py:53-69 | each outermost block ends in exactly one call, a rollback exactly if some exit in it saw an exception, whatever other threads do; at the end the lock is free exactly if no commit failed and no rollback but with a ProgrammingError |
| Statefile.NotInterrupted | nixops/statefile.py:44-47 | until an outermost block ends all events are its owner's |
| Statefile.RaiseKeepsLock | nixops/statefile.py:60-69 | once a call has raised in a run, its thread keeps the lock and no other thread ever gets in |
| Statefile.FaultKeepsLock | nixops/statefile.py:60-69 | an outermost exit whose commit fails, or whose rollback fails but with a ProgrammingError, shuts out all other threads for good |
| Logging.Logger.Log | nixops/logger.py:28-34 | finishes an unfinished line first |
| Logging.Logger.LogStart | nixops/logger.py:36-44 | goes on with an unfinished line of the same prefix |
| Logging.Logger.LogEnd | nixops/logger.py:46-57 | finishes the line of the same prefix; nothing but a line end for an empty message otherwise |
| Logging.WritersKeepLines | nixops/logger.py:28-57 | whoever writes with whatever prefix, a message goes on with the unfinished line of its own prefix or begins a new line, so no line mixes prefixes |
| Logging.FeedLogger | nixops/util.py:351-367 | the scan of one read by `find` computes Fed |
| Logging.ReadOutput | nixops/util.py:327-371 | interleaved reads of two descriptors: all captured output is returned, and the log depends on the log reads only |
| Logging.FedAfter | nixops/util.py:351-367 | a read carries the log from what was read before to what has been read now |
| Logging.ChunkInvariance | nixops/util.py:327-367 | the log is prefix, line and newline for each line of the whole output if and only if the log did not end in an unfinished line of that prefix which the first read goes on with |
| Logging.SameOutputSameLog | nixops/util.py:327-367 | two ways of cutting the same output give the same log, if the first reads start afresh |
| Logging.CutsAgreeIff | nixops/util.py:327-367 | all ways of cutting an output give the same log if and only if the log does not end in an unfinished line of that prefix, or the output has no line break or starts with one |
| KnownHosts.KnownHosts.Rewrite | nixops/known_hosts.py:11-54 | the file becomes the text of the rewritten lines |
| KnownHosts.KnownHosts.Remove | nixops/known_hosts.py:57-59 | exactly the pairs of this address and key go, and the file reads back as its lines |
| KnownHosts.KnownHosts.Add | nixops/known_hosts.py:62-64 | the address has this key only, every other pair is as it was in its place |
| KnownHosts.KnownHosts.Update | nixops/known_hosts.py:67-71 | afterwards the pairs are the new one and all others but those of the new address and the old pair |
| KnownHosts.RereadsIff | nixops/known_hosts.py:42-52 | a written file reads back as the written lines if and only if no line holds a line break |
| KnownHosts.LineRemade | nixops/known_hosts.py:30-33 | a line with a space is its names, which hold no comma and no space, joined by commas, a space and its key |
| KnownHosts.RewrittenPairs | nixops/known_hosts.py:29-44 | a rewrite leaves exactly the pairs that stay, in order |
| KnownHosts.LineKeptIff | nixops/known_hosts.py:29-39 | a line is left as it is if and only if none of its pairs goes |
| KnownHosts.AddedOnce | nixops/known_hosts.py:29-47 | after `add` the address is in exactly one line, the last, alone and with the given key |
| KnownHosts.AddPairs | nixops/known_hosts.py:29-47 | after `add` the pairs are the others, in order, and the new one |
| KnownHosts.AddTwiceIff | nixops/known_hosts.py:29-47 | adding twice is adding once if and only if the address has no space and no comma |
| KnownHosts.UpdatePairs | nixops/known_hosts.py:67-71 | moving a key drops the old pair, gives the address the key and keeps the rest in order |

## Left out

- Worker exceptions are truthy and derive from `Exception`: `if exc` in `run_tasks` would drop a falsy one, and one that is no `Exception` would end the thread without a result.
- `_wait_for` is never cleared by the original; one call of `_destroy_resources` on fresh lists is modelled.
- The events of `create_after` and `destroy_before` targets exist and the targets are tasks of the same run; others have no event to wait for.
- What follows creation in `_deploy` (building, copying, activating, backups) and the machine-specific steps inside the create worker, which can only raise.
- Py2Nix.Py2nix: expands the whole value before encoding it, where the original expands each dictionary as it is reached; expansion of an expanded dictionary is exactly itself.
- Py2Nix.Py2nix: the indented form of strings that end in a newline is printed but not read back, so reading is stated for output in which no string falls back to that form, as inline output or values without such strings.
- `Function`, `Call`, `RawValue` and `nix2py` values, dictionary keys that are neither strings nor tuples of strings, floats, and circular values.
- ExpandDict.ExpandDict: dictionaries are maps without insertion order, so the order in which the lists at a path are merged is not determined; in the original it depends on the order of a set.
- NUL characters in strings, which Nix cannot represent, and surrogate code points.
- `retrieve_def` in the diff engine (values of the form `res-…`): definitions are taken as already resolved.
- The values and typing of `StateDict`: a state is a map from keys to values, and a stored None is an absent key.
- DiffEngine.Resource.Create: a handler that raises is assumed to have changed only its own keys, each to what the definition says.
- Planning with `show=True` and the log messages of the diff engine.
- NetworkState.NoLostUpdate: a state file stands for the sequence of edits that made it, and the lock driver is assumed to exclude writers from everyone else, to release only the caller's own hold and not to raise on release.
- The no-op lock and the legacy storage, which give neither exclusion nor a separate upload, and `op_unlock`, a deliberate override.
- What SQLite does on commit and rollback (the connection runs with `isolation_level=None`), and the internals of `RLock`.
- Logging.ChunkInvariance: one process at a time writes to the log, and the machine's prefix does not change meanwhile.
- Decoding of process output, `select`, timeouts, writing standard input and the exit status of commands.
- File locking, the temporary file and the atomic rename in known_hosts rewriting; universal newlines are taken as already translated on reading.
- Backup status aggregation and cleaning, `rename`, `index_to_private_ip`, argument parsing, tables, prompts, colours, plugins, and the Nix modules.
