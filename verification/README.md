# Analysis tools, modelled and proved

The repository is a set of Python analysis tools: a document validator with an auto-repair, a
refactorer of Python syntax trees, a code-graph index, a fuzzer with a delta debugger, and a
counterexample-guided synthesis loop. This project models their stateful and branching core and
proves what that core promises.

| files | component |
|---|---|
| `PathOracle` | the directory-listing cache shared by many threads, as a step machine over its lock operations, reads, scans and stores |
| `PySyntax`, `PySemantics`, `PyNames` | a fragment of Python: syntax, the two metrics, big-step semantics with exceptions, identity and hashing, and what a run depends on |
| `TableDispatch`, `GuardClause`, `PredicateExtraction`, `AssertionMerge` | the four rewrites: what they do and when they preserve meaning |
| `RefactorMetrics`, `ControlFlow` | what the rewrites do to the metrics, when the metric check rejects them, and the control-flow graph complexity is read off |
| `CodeGraph`, `Reindexing`, `DependencyCycles` | the mutable code graph, its upstream closure, re-indexing against a fresh build, and the three-colour search with its early cutoff |
| `DeltaDebug`, `TextLines` | the line and tail phases of the shrinker |
| `Fences`, `AutoRepair`, `RepairedFences` | fenced code blocks (CommonMark Spec, section 4.5), the document repair, and what the fence scan sees afterwards |
| `Nesting`, `Brackets`, `HtmlTags` | the grammar of nested pairs, and the two scanners measured against it |
| `Cegis` | the constraint store, the trajectory audit and the synthesis loop |
| `DirectoryMap`, `DirectoryMapNames`, `DirectoryMapCheck`, `NameOrder` | reading a box-drawing directory map back into paths, and comparing it with the disk |

Code that updates fields or loops in the source is a class method or a loop proved against a
specification function; the properties are lemmas about those functions. `dafny verify
dfyconfig.toml` checks the whole project.

## Where the code does less than its documentation says

For each promise the lemmas named here give the condition under which the code keeps it, exact
unless "Left out" says otherwise, and inputs on which the code does not keep it.

- "Behavioral equivalence" of the rewrites (`tools/ast_refactorer.py:11-12`).
  - Table dispatch drops the statements behind an open ladder, evaluates its default eagerly, keeps
    the last of equal keys and needs a hashable argument: `TableDispatch.DispatchExact`,
    `TableDispatch.DispatchPreservesMeaning`; on inputs `TrailingReturnIsDropped`,
    `InnerReturnIsDropped`, `RaisingDefaultOnHit`, `EqualKeysDiffer`, `ListArgumentRaises`.
  - Guard flattening rewrites every qualifying `if`, and any but the last may change the result:
    `GuardClause.FlattenExact`, `EarlierIfChangesMeaning`. Inverting an ordering is no negation for
    incomparable operands, such as a not-a-number object or two sets: `InvertNegates`,
    `LastIfExact`, `IncomparableFailsBothWays`, `IncomparablePassTheGuard`.
  - Extraction passes positional parameters only: `PredicateExtraction.HelperCallExact`,
    `ExtractionExact`, `UnpassedLocalBreaks`, `ShadowedGlobalIsRead`.
  - A tuple assert lets one not-a-number object equal itself and evaluates everything before it
    compares: `AssertionMerge.MergedRunVerdict`, `MergeExact`, `NanAssertsPass`,
    `MergeChangesException`.
- Several ladders in one function do no harm to meaning, but the copied default can raise M, and
  the metric check then rejects the rewrite: `RefactorMetrics.DispatchAcceptedIff`,
  `TwoLaddersCanRegress`.
- A zero repair count means unchanged text only where line feeds are the only line breaks:
  `AutoRepair.ZeroRepairsUnchangedIff`, `CarriageReturnIsDropped`.
- A repaired document may still have a block open under the fence scan, and the repair may open
  one: `RepairedFences.RepairedClosedIff`, `ShorterRunFoolsTracker`, `IndentedRunOpensBlock`.
- `max_rounds` does not bound the number of candidate evaluations (`tools/fuzz_core.py:549-552`),
  only that of the line phase: `DeltaDebug.Shrink` says when the promise holds for a budget that
  the line phase uses up, and that a budget of zero is exceeded on every text but the empty one.
- Re-indexing a file is not a fresh build: `Reindexing.ReindexIsFreshIff`, `BrokenIsNeverFresh`,
  `RestoredIff`; on inputs `ImportOutlives`, `IncomingCallIsLost`.

## Model

| member | source | states |
|---|---|---|
| `TableDispatch.CollectBranches` | tools/ast_refactorer.py:239-256 | The walk down the `orelse` chain, looking at the first statement of each suite only, returns what the recursive reading of the chain collects, or nothing if any rung has another shape. |
| `TableDispatch.ExtractLadder` | tools/ast_refactorer.py:259-269 | The recogniser returns what the recursive reading of the chain extracts; `NestedIsLadder` and `LadderIsNested` say which statements that is. |
| `TableDispatch.NestedIsLadder` | tools/ast_refactorer.py:186-269 | For any variable, keys, values, statements behind inner rungs, and an end that is nothing or a return: the nested if/elif built from them is a ladder if and only if it has at least three rungs, and then with exactly these rungs and this default. |
| `TableDispatch.LadderIsNested` | tools/ast_refactorer.py:186-269 | Every statement taken for a ladder is built in that way from three or more rungs. |
| `TableDispatch.FindLadder` | tools/ast_refactorer.py:372-379 | Returns the first ladder among the top-level statements; none exactly if no statement is one. |
| `TableDispatch.ReplaceLadderStmts` | tools/ast_refactorer.py:428-452 | Every ladder of the body, not only the extracted one, becomes the same lookup; all other statements stay in place. |
| `TableDispatch.Apply` | tools/ast_refactorer.py:396-460 | The function body is the replaced one and the table definition stands directly in front of the function in the module, or at the front if the function is not a module item. |
| `TableDispatch.BuiltIsLastMatch` | tools/ast_refactorer.py:418-425 | Looking a value up in the dictionary built from the pairs finds the last pair with an equal key, booleans and integers being equal where Python says so. |
| `TableDispatch.DistinctKeysAgree` | tools/ast_refactorer.py:418-425 | With pairwise unequal keys the first match of the ladder is the last match of the dictionary. |
| `TableDispatch.ChainMeaning` | tools/ast_refactorer.py:239-256 | Running a chain on a bound target, whatever its rungs compute: the first hit returns its value or raises, then the closing return, and in an open chain everything behind the rungs runs from the inside outwards. |
| `TableDispatch.LookupMeaning` | tools/ast_refactorer.py:428-452 | Running the synthesized lookup: the default is evaluated eagerly, an unhashable key raises, otherwise the last match or the default is returned. |
| `TableDispatch.ReachedLadder` | tools/ast_refactorer.py:428-452 | From the ladder on, the lookup and the original give the same outcome exactly when the target is unbound or the lookup gives what the ladder and the statements behind it give. |
| `TableDispatch.DispatchExact` | tools/ast_refactorer.py:396-460 | For every ladder and every table: the rewritten function has the value, bindings and exceptions of the original if and only if the ladder is not reached, its target is unbound there, or the lookup gives what the ladder and everything it drops give. |
| `TableDispatch.DispatchPreservesMeaning` | tools/ast_refactorer.py:396-460 | For rungs that evaluate at run time to what the table stores, the same as conditions on the state: on a hit the default does not raise and no later equal key carries another value; on a miss of a closed ladder the target is hashable or the default raises; on a miss of an open ladder the dropped statements return None and bind nothing, or fail as an unhashable target does. |
| `TableDispatch.GlobalRungsSettled` | tools/ast_refactorer.py:418-425 | Rungs whose names and callees mean in the call what they meant when the module was loaded evaluate to what the table definition stored, whatever else has changed in between. |
| `TableDispatch.DefineFailsIff` | tools/ast_refactorer.py:418-425 | The table definition, and the module with it, fails exactly if some rung has a key or value that raises at load time, or an unhashable key. |
| `TableDispatch.LocalRungBreaksLoading` | tools/ast_refactorer.py:418-425 | Failing family: a rung whose key or value is a name the module does not define. |
| `TableDispatch.DispatchSound` | tools/ast_refactorer.py:396-460 | Premises checkable before rewriting that make the rewrite preserve every call: constant, pairwise different keys, constant values, a constant default, a hashable argument, and an else-return or no statement left over. |
| `TableDispatch.TrailingReturnIsDropped` | tools/ast_refactorer.py:428-452 | Failing input: a ladder without else in front of a trailing return; the rewritten function returns None. |
| `TableDispatch.InnerReturnIsDropped` | tools/ast_refactorer.py:244-252 | Failing input: a return behind an inner rung, which the walk never looks at. |
| `TableDispatch.RaisingDefaultOnHit` | tools/ast_refactorer.py:437-446 | Failing input: a hit with an undefined name in the default. |
| `TableDispatch.EqualKeysDiffer` | tools/ast_refactorer.py:418-425 | Failing input: the keys 1 and True with different values. |
| `TableDispatch.ListArgumentRaises` | tools/ast_refactorer.py:437-446 | Failing input: a list argument. |
| `GuardClause.RelateInverted` | tools/ast_refactorer.py:156-161 | Swapping a comparison operator negates the comparison for every pair of values, unless it is an ordering of incomparable ones: a number and a not-a-number object, or two sets neither of which includes the other. |
| `GuardClause.InvertNegates` | tools/ast_refactorer.py:164-170 | The inverted test has the opposite truth value, and raises whatever the test raises, if and only if the test is no ordering of incomparable operands. |
| `GuardClause.Apply` | tools/ast_refactorer.py:466-488 | Every top-level `if` with two or more statements and no else becomes a guard followed by its former body; everything else stays. |
| `GuardClause.GuardMeaning` | tools/ast_refactorer.py:476-481 | An inserted guard returns None where its inverted test is true and otherwise lets control through. |
| `GuardClause.IncomparablePairs` | tools/ast_refactorer.py:156-161 | A not-a-number object and a number are incomparable, and so are two different singleton sets. |
| `GuardClause.IncomparableFailsBothWays` | tools/ast_refactorer.py:156-161 | Failing input: for any incomparable arguments the ordering is false, and so is its inversion. |
| `GuardClause.FlattenExact` | tools/ast_refactorer.py:466-488 | Where no flattened test reached in the run orders incomparable operands, the flattened function has the outcome of the original if and only if every flattened `if` that the original skips is followed by a tail that returns None and binds nothing. |
| `GuardClause.LastIfExact` | tools/ast_refactorer.py:466-488 | With every value allowed, when only the last statement is flattened: the outcome is preserved if and only if its test, where it is reached, orders no incomparable operands, or the guarded body returns None at once. |
| `GuardClause.FlattenSound` | tools/ast_refactorer.py:466-488 | If only the last statement is flattened and its test never orders incomparable operands, every call has the same outcome. |
| `GuardClause.NoOrderingTests` | tools/ast_refactorer.py:466-488 | Tests that are no single ordering comparison meet that premise in every run. |
| `GuardClause.EarlierIfChangesMeaning` | tools/ast_refactorer.py:473-484 | Whatever stands in front of the first flattened `if`: where its test is false, of comparable operands, and the statements behind it do more than return None, the rewritten function returns None instead of what they do. |
| `GuardClause.IncomparablePassTheGuard` | tools/ast_refactorer.py:476-481 | Failing input: incomparable arguments enter the body that the original skips. |
| `PredicateExtraction.FindCompoundIf` | tools/ast_refactorer.py:517-522 | The walk returns the first `if` on a compound test in breadth-first order at any depth, and nothing exactly if there is none. |
| `PredicateExtraction.CompoundAtIs` | tools/ast_refactorer.py:517-522 | What the walk looks for at any depth is an `if` whose test joins two or more operands, by `and` or by `or`. |
| `PredicateExtraction.PassedInPlace` | tools/ast_refactorer.py:508-510 | Every positional parameter is passed in its place, as often as it occurs, except `self` and `cls`. |
| `PredicateExtraction.Apply` | tools/ast_refactorer.py:494-515 | That one test is replaced by the call, the helper is inserted in front of the function with the passed parameters and the moved test; without a compound test nothing changes. |
| `PyNames.EvalSame` | tools/ast_refactorer.py:524-548 | An expression has the same value in any two frames and worlds that agree on its free variables and on the callees and tables it mentions. |
| `PyNames.RunAgrees` | tools/ast_refactorer.py:524-548 | Statements run alike in two worlds that differ only in names they do not mention. |
| `PredicateExtraction.EvalHidden` | tools/ast_refactorer.py:524-548 | Seen from a frame that differs in some names only, an expression evaluates as before unless evaluation gets as far as reading one of them; if those are undefined there, it is a NameError then. |
| `PredicateExtraction.HelperCallInside` | tools/ast_refactorer.py:524-548 | The helper evaluates the test in a frame that holds the passed parameters and nothing else. |
| `PredicateExtraction.HelperCallMeaning` | tools/ast_refactorer.py:524-548 | The helper call equals the test in place whenever every local that evaluating the test reads is passed or has the value of the module global of its name. |
| `PredicateExtraction.HelperCallExact` | tools/ast_refactorer.py:524-548 | Where no global stands in for an unpassed local, the helper call equals the test in place if and only if evaluating the test reads no such bound local, or is itself a NameError. |
| `PredicateExtraction.RunReplaced` | tools/ast_refactorer.py:494-515 | For a test at any depth, in branches and loops, and any module globals: the rewritten run is the original one if the test never breaks, that is, never sends its `if` another way; where it first breaks and the helper raises, the run ends with that exception. |
| `PredicateExtraction.BreakingReads` | tools/ast_refactorer.py:524-548 | A state breaks only if evaluating the test there reads an unpassed local that means something else at module level. |
| `PredicateExtraction.ExtractionExact` | tools/ast_refactorer.py:494-515 | A run in which the test never breaks is preserved, whatever the module globals; where no unpassed local is shadowed by one, a run is preserved if and only if the test never breaks in it, or the original ends in a NameError with the bindings of the first breaking state. |
| `PredicateExtraction.ExtractionPreservesMeaning` | tools/ast_refactorer.py:494-515 | Derived premise: the local variables of the test are passed parameters. |
| `PredicateExtraction.UnpassedLocalBreaks` | tools/ast_refactorer.py:508-510 | Failing family: any operand that is reached and names an unpassed, bound local; in place the local decides, in the helper its name is undefined. |
| `PredicateExtraction.ShadowedGlobalIsRead` | tools/ast_refactorer.py:508-510 | Failing family: where a module global has the name of an unpassed local, the helper reads the global. |
| `AssertionMerge.Flush` | tools/ast_refactorer.py:595-620 | Fewer than three accumulated pairs are written back one by one, more become one assert over two tuples. |
| `AssertionMerge.Apply` | tools/ast_refactorer.py:563-586 | Runs of simple equality asserts are merged in place and never across another statement. |
| `AssertionMerge.RunIsMerged` | tools/ast_refactorer.py:563-620 | Adjacent equality asserts between other statements, with or without messages: three or more become exactly one assert over the tuples of their sides, fewer are written back singly, and both lose their messages. |
| `AssertionMerge.OthersAreKept` | tools/ast_refactorer.py:563-586 | A body without equality asserts is left as it is. |
| `AssertionMerge.TupleAssertMeaning` | tools/ast_refactorer.py:606-618 | The tuple assert passes exactly if all expressions evaluate and every pair is identical or equal. |
| `AssertionMerge.MergedRunVerdict` | tools/ast_refactorer.py:595-620 | Merged and separate asserts give the same verdict and state if and only if not every pair matches with one of them comparing a not-a-number object to itself; if all expressions evaluate, even the exception is the same. |
| `AssertionMerge.EachFaultMeaning` | tools/ast_refactorer.py:563-586 | Asserted one by one, a run fails with the exception of its first failing assert, messages included. |
| `AssertionMerge.FlushFaultMeaning` | tools/ast_refactorer.py:595-620 | Merged, it fails with the first left side that raises, then the first right side that raises, then a differing pair. |
| `AssertionMerge.MergeExact` | tools/ast_refactorer.py:563-586 | For any mix of asserts and other statements and with every value allowed: same outcome, respectively same verdict and bindings, if and only if at the end of every run the original reaches both forms pass or fail the same way, or, where merging lets a failing run pass, the rest fails that way itself. |
| `AssertionMerge.MergeSound` | tools/ast_refactorer.py:563-586 | With no not-a-number object around, every call of the rewritten function passes or fails as before and with the same bindings. |
| `AssertionMerge.NanAssertsPass` | tools/ast_refactorer.py:610-618 | Failing input: three asserts that a not-a-number argument equals itself fail, merged they pass. |
| `AssertionMerge.MergeChangesException` | tools/ast_refactorer.py:610-618 | Failing input: a differing pair in front of an undefined name; the failed test becomes a NameError. |
| `PySyntax.ModuleNode.InsertBefore` | tools/ast_refactorer.py:453-460 | The definition goes directly in front of the first module item that is the function, else to the front; all items keep their order. |
| `RefactorMetrics.VerifySafety` | tools/ast_refactorer.py:727-751 | The verdict and the reported metrics for code that does not parse, lacks the function, or holds it, and which of the four errors is reported exactly when. |
| `PySyntax.DepthMonotone` | tools/ast_refactorer.py:137-145 | A block moved outwards never measures deeper. |
| `RefactorMetrics.NestingDepthIs` | tools/ast_refactorer.py:137-153 | The depth of a body is the deepest level any statement at any path in it stands at, or opens if it is compound, and one for an empty body. |
| `ControlFlow.ComplexityIsMcCabe` | tools/ast_refactorer.py:112-134 | M is the number of edges less the number of nodes plus two of the control-flow graph in which an `if`, a loop, an assert and a conditional expression part two ways, and a boolean operator may leave after each operand but the last; every edge of it joins two of its nodes. |
| `RefactorMetrics.FlattenAccepted` | tools/ast_refactorer.py:463-488 | Guard flattening keeps M exactly, never deepens, and is never rejected. |
| `RefactorMetrics.ReplaceTestMetrics` | tools/ast_refactorer.py:123-153 | Replacing a test at any depth changes M by exactly the difference of the two tests and keeps the depth. |
| `RefactorMetrics.ExtractionAccepted` | tools/ast_refactorer.py:491-522 | Extraction lowers M by exactly the weight of the extracted test, at least one, keeps the depth, and is never rejected. |
| `RefactorMetrics.MergeAccepted` | tools/ast_refactorer.py:560-620 | Merging lowers M by k-1 for each run of k >= 3 plus the weight of the dropped messages, keeps the depth, and is never rejected. |
| `RefactorMetrics.ReplaceMetrics` | tools/ast_refactorer.py:428-452 | Conservation: M after dispatch plus the weight of all ladders is M before plus one copy of the first default per ladder. |
| `RefactorMetrics.DispatchAcceptedIff` | tools/ast_refactorer.py:727-751 | The safety check accepts a dispatch rewrite if and only if the copies of the default do not outweigh the replaced ladders. |
| `RefactorMetrics.SingleLadderAccepted` | tools/ast_refactorer.py:727-751 | With one ladder of k branches M drops by at least k and the rewrite is accepted. |
| `RefactorMetrics.TwoLaddersCanRegress` | tools/ast_refactorer.py:428-452 | With two ladders and a default heavier than six the rewrite raises M and is rejected. |
| `CodeGraph.CodeMemoryIndex.RebuildAdjacency` | tools/code_memory.py:342-348 | Both tables become the grouping of the edge list by source and by target, in list order, without empty entries. |
| `CodeGraph.CodeMemoryIndex.RemoveFileSymbols` | tools/code_memory.py:312-325 | The graph becomes the old one without the file's recorded symbols and without the edges touching them or sourced below the file; tables stay consistent. |
| `CodeGraph.CodeMemoryIndex.AddFileArtifacts` | tools/code_memory.py:327-340 | Hash, symbol list, registry order and edges after adding a file's artifacts; tables stay consistent. |
| `CodeGraph.RegisteredSymbol` | tools/code_memory.py:336-338 | An identifier is mapped to the last of the new symbols that carry it. |
| `CodeGraph.RegisterLeaves` | tools/code_memory.py:336-338 | An identifier that no new symbol carries keeps what it was mapped to. |
| `CodeGraph.RegisterAppends` | tools/code_memory.py:336-338 | The known identifiers keep their order in front of the new ones. |
| `CodeGraph.CodeMemoryIndex.IndexFile` | tools/code_memory.py:294-310 | The whole new graph for an unchanged, an unparsable and a parsed file; after any sequence of calls the tables are the ordered grouping of the edges. |
| `CodeGraph.IndexedKeepsRegistered` | tools/code_memory.py:294-340 | Every update keeps the registry keys distinct and complete. |
| `CodeGraph.ModuleEdgesSurvive` | tools/code_memory.py:312-325 | An edge whose source is the bare file path outlives re-indexing exactly if the file is unchanged, its target was not a symbol of the file, or the new version has it again: re-indexing is not a fresh build. |
| `Reindexing.ReindexIsFreshIff` | tools/code_memory.py:294-340 | Indexing a new version of a file over its old one gives the graph a fresh build gives if and only if the old version had no module-level edge to anything but its own symbols and no other file has an edge to those. |
| `Reindexing.ReindexedEdges` | tools/code_memory.py:312-340 | The edge lists after both: the old edges that survive and the new ones, against all other edges and the new ones. |
| `Reindexing.BrokenIsNeverFresh` | tools/code_memory.py:300-304 | A version that does not parse never gives the graph of a fresh build, because the old hash stays. |
| `Reindexing.RestoredIff` | tools/code_memory.py:296-304 | Putting the old text back after such a version restores the graph if and only if the file defines no symbol and has module-level edges only. |
| `Reindexing.ImportOutlives` | tools/code_memory.py:312-325 | Failing input: an import of the old version is still there after re-indexing a version without it. |
| `Reindexing.IncomingCallIsLost` | tools/code_memory.py:318-324 | Failing input: another file's call of a function is gone after re-indexing the function's file, although the function is still there. |
| `CodeGraph.CodeMemoryIndex.StepBlastRadius` | tools/code_memory.py:350-358 | One step adds exactly the sources of the non-containment edges into a symbol, queueing each newly added one. |
| `CodeGraph.CodeMemoryIndex.BlastRadius` | tools/code_memory.py:360-369 | The result is exactly the set of other symbols from which a path of one or more non-containment edges leads to the target, also when the target lies on a cycle. |
| `DependencyCycles.CycleSearch.StepEdge` | tools/code_memory.py:384-398 | A grey target appends exactly the path from its first occurrence, closed by it; a finished one, or a white one once ten are reported, changes nothing; otherwise the target is searched, and while fewer than ten are reported it ends up finished. |
| `DependencyCycles.CycleSearch.Dfs` | tools/code_memory.py:400-415 | The colouring, path and report invariant over the recursion, which terminates on the set of white nodes; the path is restored and the node finished. |
| `DependencyCycles.BackEdgeIsCycle` | tools/code_memory.py:393-396 | The reported slice of the path is a closed walk of the edge graph reachable from an indexed symbol. |
| `DependencyCycles.EveryCycleRunsOver` | tools/code_memory.py:371-415 | When every finished node has only earlier finished successors, except over the closing arcs of reported cycles, every reachable closed walk takes such an arc. |
| `DependencyCycles.SearchComplete` | tools/code_memory.py:371-382 | Once every root is finished and nothing is on the path, every closed walk reachable from an indexed symbol takes a reported closing arc. |
| `DependencyCycles.DetectDependencyCycles` | tools/code_memory.py:371-398 | Every reported list is a closed path of the edge graph reachable from an indexed symbol; if fewer than ten are reported, every closed walk reachable from an indexed symbol takes the closing arc of a reported one; the report is empty if and only if there is none, despite the cutoff. |
| `PathOracle.StepInv` | tools/doc_core.py:48-80 | Every single step of any thread keeps the invariant: lock ownership, lock identity, cache against scan history, results against cache, and no lost call. |
| `PathOracle.RunInv` | tools/doc_core.py:48-80 | The invariant holds in every state of every interleaving of any number of threads. |
| `PathOracle.ScannedOnceAndAgreed` | tools/doc_core.py:63-80 | For whatever the filesystem shows at each step of any interleaving: no directory is scanned in two steps, and every completed call returned what was shown of its directory at a step at which some thread stood at its scan. |
| `PathOracle.ScannedOnce` | tools/doc_core.py:71-80 | Two scan steps of a run are never of one directory, by any threads. |
| `PathOracle.CallsAgree` | tools/doc_core.py:63-80 | Two completed calls for one directory, by any threads at any moments, returned the same listing. |
| `PathOracle.NoDeadlock` | tools/doc_core.py:48-80 | As long as some thread is unfinished some thread can step. |
| `PathOracle.RunIsShort` | tools/doc_core.py:63-80 | Every run is finite: it makes at most sixteen steps per requested call. |
| `PathOracle.StuckMeansDone` | tools/doc_core.py:63-80 | A run that cannot be continued has answered every call of every thread, in order. |
| `PathOracle.ScansOverlap` | tools/doc_core.py:66-69 | For any two different directories, and whatever the filesystem shows, there is a run in which two threads are scanning them at the same moment. |
| `DeltaDebug.ShrinkPass` | tools/fuzz_core.py:570-590 | Each window of the document is tried once, in order and as far as the budget goes, and dropped exactly if the document fails without it and without those dropped before; the cost is the number of windows or the budget. What is kept is a subsequence that fails if the document did. |
| `DeltaDebug.ShrinkLines` | tools/fuzz_core.py:557-567 | The result is made of lines of the input in order, fails if the input does, and costs at most `max_rounds` evaluations. If it cost fewer, every width from half the lines down to one left a document that can lose no window of that width, no single line of the result can be removed, and a document that comes out unchanged stops failing without any one window of any of these widths, each tried once. |
| `DeltaDebug.OneMinimalIsMinimal` | tools/fuzz_core.py:557-567 | For an upward-closed failure no proper subsequence of a one-minimal result fails at all. |
| `DeltaDebug.ShrinkLevel` | tools/fuzz_core.py:596-598 | One halving level keeps a failing prefix that cannot lose another step; for a failure monotone in the prefix at most three evaluations. |
| `DeltaDebug.ShrinkTail` | tools/fuzz_core.py:593-600 | The result is a prefix, failing if the input fails, that is empty or cannot lose its last character; every step from half the text down to one left a prefix that cannot lose that step, and a text that comes out unchanged can lose none of them. For a monotone failure it is the shortest failing prefix, at three evaluations per level; for any failure the evaluations are at most the characters cut plus one per level, and none exactly on the empty text. |
| `DeltaDebug.Shrink` | tools/fuzz_core.py:546-554 | Both phases together: still failing, last character needed, a prefix of a line subsequence. The promised bound on all evaluations holds for a line phase that uses up the budget if and only if that phase leaves nothing, and for a budget of zero if and only if the text is empty. |
| `TextLines.KeepLinesRoundTrip` | tools/fuzz_core.py:432-434 | Splitting with terminators loses nothing. |
| `Fences.FencedLineFlags` | tools/doc_core.py:190-212 | The loop computes the flags of the recursive scan. |
| `Fences.ParseFenceIff` | tools/doc_core.py:173-212 | A line is a fence exactly if it is at most three spaces, a run of three or more of one of the two characters, and a rest that does not go on with it. |
| `Fences.ClosesIff` | tools/doc_core.py:176-178 | A block is closed exactly by a fence of its character, at least as long, with nothing but white space behind. |
| `Fences.FlagsAreBlocks` | tools/doc_core.py:190-212 | The flags are exactly the lines of the blocks of any decomposition into opener, content without a valid closer, and closer or end of input. |
| `Fences.Decompose` | tools/doc_core.py:176-212 | Every document has such a decomposition. |
| `Fences.DecompositionUnique` | tools/doc_core.py:176-212 | And only one. |
| `Fences.FlagsSplit` | tools/doc_core.py:181-187 | Wherever the first part ends closed the two parts of a document are judged independently. |
| `AutoRepair.FixUnclosedFences` | tools/docs_validator.py:1355-1362 | Appends the tracked marker exactly if one is open at the end, and counts one. |
| `AutoRepair.MarkerOfIff` | tools/docs_validator.py:1342-1352 | What the tracker reads as a marker, whatever the indentation: three or more of one fence character in front of the stripped line, all there are. |
| `AutoRepair.FixLinebreakHygiene` | tools/docs_validator.py:1385-1396 | Removes exactly the single trailing spaces outside fences and counts them. |
| `AutoRepair.AccidentalIff` | tools/docs_validator.py:1385-1396 | A trailing space is trimmed exactly behind nothing or a character that is no space. |
| `AutoRepair.TrimCount` | tools/docs_validator.py:1385-1396 | The count is zero if and only if no line changes. |
| `AutoRepair.AutoFixContent` | tools/docs_validator.py:1399-1416 | The fence, trailing-space and rejoining steps of the pipeline compute the repaired text and the number of repairs. |
| `AutoRepair.TrimKeepsFlags` | tools/docs_validator.py:1385-1396 | Trimming never changes which lines count as fenced. |
| `AutoRepair.CloseFenceCloses` | tools/docs_validator.py:1342-1362 | After closing, the tracker finds nothing open. |
| `AutoRepair.RepairIdempotent` | tools/docs_validator.py:1399-1416 | A second application of these steps changes nothing and counts nothing, for every text, terminated or not. |
| `AutoRepair.ZeroRepairsUnchangedIff` | tools/docs_validator.py:1399-1416 | With a zero count of these steps the text is unchanged if and only if its only line breaks are line feeds; any other break is rewritten uncounted. |
| `AutoRepair.CarriageReturnIsDropped` | tools/docs_validator.py:1411-1413 | Failing input: a carriage return is lost with a count of zero. |
| `RepairedFences.RepairedClosedIff` | tools/docs_validator.py:1342-1362 | The fence scan finds a repaired document closed if and only if, before the repair, tracker and scan both found nothing open, or the tracker held a marker of the character and at least the length of the open block. |
| `RepairedFences.TrackerSeesFence` | tools/docs_validator.py:1342-1352 | What the scan reads as a fence the tracker reads as the same run; the converse needs an indentation of at most three spaces. |
| `RepairedFences.AlikeIsClosed` | tools/docs_validator.py:1342-1362 | If every line is read alike, no run being indented too far and none inside a block being too short or carrying an info string, the repaired document is closed. |
| `RepairedFences.ShorterRunFoolsTracker` | tools/docs_validator.py:1342-1352 | Failing family: a shorter run of the same character closes for the tracker only, and the block stays open. |
| `RepairedFences.IndentedRunOpensBlock` | tools/docs_validator.py:1342-1352 | Failing family: a run indented by four spaces or more is no fence, and the repair opens a block where none was. |
| `Nesting.RecognisesGrammar` | tools/doc_rules_polyglot.py:404-424 | The stack empties exactly on the sequences derivable in the grammar of nested pairs. |
| `Nesting.SurvivesIffViable` | tools/doc_rules_polyglot.py:404-424 | The stack meets no mismatch exactly as long as some continuation is well nested. |
| `Brackets.DelimiterStack.CheckBracketChar` | tools/doc_rules_polyglot.py:404-414 | One character pushes, pops or leaves the stack, or names the mismatch and leaves it unchanged. |
| `Brackets.CheckBracketPairs` | tools/doc_rules_polyglot.py:417-424 | Accepts exactly the well-nested texts; says unclosed exactly if only a continuation is missing; otherwise names the first character that no continuation can make good. |
| `Brackets.FaultIsFinal` | tools/doc_rules_polyglot.py:417-424 | There is at most one such first faulty position, and no text containing it is well nested. |
| `HtmlTags.TagStack.ProcessHtmlTag` | tools/docs_validator.py:1218-1237 | An opening tag is pushed, a matching closing tag pops, any other closing tag is reported and the stack stays. |
| `HtmlTags.TagStack.ExtractLineHtmlFindings` | tools/docs_validator.py:1240-1266 | A line processes its paired tags in order, in lower case, and ignores void and unknown ones. |
| `HtmlTags.CheckHtmlTags` | tools/docs_validator.py:1269-1288 | The report is that of one scan over the paired tags of all unfenced lines, followed by the tags left open. |
| `HtmlTags.EveryTagOnce` | tools/docs_validator.py:1269-1288 | Every tag is reported once or is paired, never both and never neither; the reported groups are in document order, and deleting the reported tags leaves a well-nested sequence. |
| `HtmlTags.SilentIffWellNested` | tools/docs_validator.py:1269-1288 | Nothing is reported exactly on well-nested tags. |
| `Cegis.NegativeConstraintAccumulator.RegisterCounterexample` | tools/cegis_engine.py:457-472 | A known hash returns its constraint unchanged, a new one appends the next numbered constraint; the dictionary stays consistent. |
| `Cegis.NegativeConstraintAccumulator.CheckForRepeatViolation` | tools/cegis_engine.py:474-484 | One repeat finding per violation whose hash is stored, in order. |
| `Cegis.RegisteredAllGrows` | tools/cegis_engine.py:457-472 | Registration only appends, once per new hash, numbered consecutively and stamped with the step. |
| `Cegis.StoreFaithful` | tools/cegis_engine.py:603-635 | After any trajectory the store holds exactly the hashes shown, once each, each stamped with the first step showing it. |
| `Cegis.StoreGrows` | tools/cegis_engine.py:603-635 | Constraints are never dropped or changed by later steps. |
| `Cegis.AuditRaisesRepeats` | tools/cegis_engine.py:614-625 | CEGIS008 is raised at a step exactly for the violations whose hash an earlier step showed, and a step passes exactly if the verifier finds nothing. |
| `Cegis.AuditCounts` | tools/cegis_engine.py:627-636 | The recorded count is the size of the store after the step. |
| `Cegis.DetectCycles` | tools/cegis_engine.py:490-501 | Reports for every step that returns to a syntax tree the recorded indices of the first step with that tree and of this one. |
| `Cegis.DetectLatentRegressions` | tools/cegis_engine.py:513-521 | The new rules of every step against the one before, each step's in ascending order. |
| `Cegis.RegressionsAre` | tools/cegis_engine.py:503-521 | A rule is reported exactly if some step has a violation of it, and the step before has violations but none of it. |
| `Cegis.CyclesIffRepeat` | tools/cegis_engine.py:490-501 | The report is non-empty exactly if two steps share a syntax tree. |
| `Cegis.AuditTrajectory` | tools/cegis_engine.py:603-651 | Trajectory, constraints, cycles, regressions, findings, final candidate and status of an audit; the status is the one `StatusExact` reads off the trajectory. |
| `Cegis.StatusExact` | tools/cegis_engine.py:523-560 | Each status if and only if: converged on a clean last step; oscillating when two steps share a tree; otherwise degraded when some rule regresses and the last step has no fewer violations than the first; otherwise out of budget on no steps or at the maximum; otherwise diverging when three strictly rising counts end the trajectory, else converging. |
| `Cegis.LoopVerdict` | tools/cegis_engine.py:531-560 | A run that stopped at its budget or on a clean candidate has converged exactly if its last candidate is clean, and is otherwise oscillating, degraded or out of budget, never diverging or converging. |
| `Cegis.VisitCandidates` | tools/cegis_engine.py:660-673 | Each visited candidate violates an invariant and is followed by what the synthesizer answers to it and to everything learned so far; the run stops early only on a clean candidate. |
| `Cegis.RunSynthesisLoop` | tools/cegis_engine.py:653-675 | At most `max_iterations` + 1 candidates, all but the last unclean; CONVERGED exactly if the last is clean; the result is the audit of the visited candidates. |
| `DirectoryMap.LineRoundTrip` | tools/doc_rules_structure.py:82-88 | A drawn line reads back its depth, name and kind if and only if the name holds no white space and does not end in a slash, an empty name needing the slash of a directory. |
| `DirectoryMap.TreeEntries` | tools/doc_rules_structure.py:91-105 | The loop computes the recursive reading of the block, or nothing once an ellipsis is met. |
| `DirectoryMap.AfterKeeps` | tools/doc_rules_structure.py:101-103 | Reading a subtree never changes the ancestor rows above its depth, so stale deeper rows are harmless. |
| `DirectoryMap.GatherForest` | tools/doc_rules_structure.py:91-105 | A printed forest of such names at any depth, in front of any further lines, reads as its own paths and kinds. |
| `DirectoryMap.ListingRoundTrip` | tools/doc_rules_structure.py:82-105 | A block whose tree lines are the pre-order listing of an ordered forest of file names without white space yields every node's full path, kind and line number; one with an ellipsis anywhere yields nothing. |
| `DirectoryMapNames.ListingReadsBackIff` | tools/doc_rules_structure.py:82-105 | For a forest with any names: the whole listing reads back as its paths and kinds if and only if every name is a file name without white space and none is an ellipsis. |
| `DirectoryMapCheck.UndeclaredChildren` | tools/doc_rules_structure.py:150-157 | Exactly the candidate children of an enumerated kind that are not declared, in ascending order. |
| `DirectoryMapCheck.GroupEntriesByParent` | tools/doc_rules_structure.py:160-165 | The entries under each parent in order, the parents in order of first appearance. |
| `DirectoryMapCheck.ParentsInOrder` | tools/doc_rules_structure.py:160-165 | The parents are those of the entries that come first under theirs, in the order of these entries. |
| `DirectoryMapCheck.ParentMissingChildren` | tools/doc_rules_structure.py:168-173 | The undeclared children of a parent, none for an empty listing. |
| `DirectoryMapCheck.CheckTreeCompleteness` | tools/doc_rules_structure.py:176-188 | One finding per missing child, grouped by parent in order; raises exactly if some parent lies outside the root. |
| `DirectoryMapCheck.CheckEntriesExist` | tools/doc_rules_structure.py:122-138 | One finding per entry that is absent or of another kind, in order, unless such an entry lies outside the root. |
| `DirectoryMapCheck.VanishedAre` | tools/doc_rules_structure.py:122-138 | The findings are the image, in order, of exactly the entries that do not stand as drawn, with their lines, kinds and paths. |
| `DirectoryMapCheck.OmittedAre` | tools/doc_rules_structure.py:141-188 | A missing child is reported exactly if the map omits it, at the line of the first entry beside it and with the directory's path. |
| `DirectoryMapCheck.DirectoryMapIff` | tools/doc_rules_structure.py:108-119 | A block is audited as a map if and only if some entry is a directory and the existing entries are at least half of all. |
| `TextLines.StrLessIff` | tools/doc_rules_structure.py:150-157 | Names are ordered by the first character in which they differ, a proper prefix coming first. |
| `DirectoryMapCheck.MissingIs` | tools/doc_rules_structure.py:141-173 | A name is missing under a parent exactly if the disk holds it there, it is navigable, a listed sibling has its kind, and no listed sibling has its name. |
| `DirectoryMapCheck.SilentIffAccurate` | tools/doc_rules_structure.py:122-188 | The two checks report nothing exactly if every entry exists with its kind and no child of an enumerated kind is omitted. |
| `DirectoryMapCheck.AuditDirectoryBlock` | tools/doc_rules_structure.py:204-217 | Silent on blocks that are no map; on a map it raises exactly if a parent lies outside the root and is otherwise silent exactly if the map is accurate. |
| `DirectoryMapCheck.AccurateIffMatches` | tools/doc_rules_structure.py:122-188 | The paths of a forest with distinct sibling names are accurate exactly if, recursively, every node stands on disk and every directory shows its navigable children of the kinds drawn there. |
| `DirectoryMapCheck.DrawnForestVerdict` | tools/doc_rules_structure.py:82-188 | End to end from the drawn text of a forest that reads back: it never raises, and its map is accurate exactly if the forest matches the disk. |

## Left out

- PredicateExtraction.HelperCallExact: where a module global with another value stands in for an unpassed local, the helper evaluates the test with that value; `HelperCallInside` says so, `HelperCallMeaning` gives the sufficient condition, `ShadowedGlobalIsRead` a failing family.
- PredicateExtraction.RunReplaced: where the helper first sends the `if` the other way without raising, the rest of the rewritten run is not described.
- PredicateExtraction.ExtractionPreservesMeaning: a sufficient premise, derived from `ExtractionExact`.
- GuardClause.FlattenSound: a sufficient premise; `LastIfExact` is the exact statement.
- GuardClause.FlattenPreservesMeaning: where an ordering of incomparable operands lets an earlier guard through, its condition still compares the two remaining runs; `FlattenExact` and `LastIfExact` are the statements whose conditions speak of the original function alone.
- AssertionMerge.MergeSound: assumes that no not-a-number object is around; `MergeExact` is the statement without that premise.
- DeltaDebug.Shrink: for a line phase that leaves part of the budget, the total is bounded from above but whether it stays within the budget depends on the failure.
- Reindexing.ReindexIsFreshIff: compares the first re-indexing of a file with a fresh build; what several versions leave behind follows from the state functions but has no theorem of its own.
- DirectoryMapCheck.DrawnForestVerdict: for forests whose names read back; by `DirectoryMapNames.ListingReadsBackIff` the map of any other forest is about other paths than its own.
- PySemantics: callees are deterministic functions of their arguments and have no effects, so the order and number of calls matter only through exceptions. Rewrites also change behaviour where an operand has an effect: asserts such as `assert next(it) == 1`, of which a merged run evaluates all, a default that is evaluated on a hit, or a value that is computed once at module level.
- CodeGraph.CodeMemoryIndex.IndexFile: hashes are represented by the hashed text, and the symbol visitor by the artifacts it yields.
- DependencyCycles.DetectDependencyCycles: below ten reported cycles every reachable one takes a reported closing arc; which ones are listed from ten on is not specified, and the cutoff does not bound their number.
- HtmlTags.CheckHtmlTags: the tag pattern and the removal of comments and code spans are a parameter, an arbitrary function from a line to its tags.
- Brackets.CheckBracketPairs: strings and comments have been blanked out before; the pattern that does so is not modelled.
- AutoRepair.AutoFixContent: the Mermaid and file-link repairs between and after the modelled steps are not part of this model; their claims would be about regular expressions.
- AutoRepair.RepairIdempotent: convergence of the modelled steps, not of those two.
- AutoRepair.ZeroRepairsUnchangedIff: counts the modelled steps, not those two.
- RepairedFences.RepairedClosedIff: of the document the modelled steps produce.
- DirectoryMapCheck.AuditDirectoryBlock: the disk is a fixed answer to every listing question, as one cache gives it; message texts are represented by their variable parts.
- Cegis.RunSynthesisLoop: the verifier's rules and the syntax-tree hash are arbitrary deterministic functions, SHA-256 is taken to be injective, and candidate identifiers are not kept.
- Python statements `for`, `try`, `with`, `break`, `continue`, nested definitions and keyword arguments, attribute and item access, floating-point numbers other than not-a-number, sets of anything but integers, objects with comparison methods of their own, and the ordering of tuples and lists (a TypeError in the model).
- Looking a function up by name in a module, parsing and printing Python, and the unified diff: the rewrites start from the function node.
- Loading and saving of the code graph, its audits, and signature checks.
- The Markdown token pipeline, the regular-expression rules on prose, links and snippets, exporters, command lines, and subprocess runs.
- Scores, presets, rule tables and milestone lookups, which would add only easy members.
