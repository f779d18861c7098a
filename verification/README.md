# Duckle: what the pipeline editor promises

A Dafny model of four parts of Duckle, each proved against what it is for.

1. **Pipelines as graphs.** The cycle check, the order in which documentation
   lists the steps, the walk that works out column schemas, and the search for
   sample rows all run on the same nodes and edges. `Graph` and `Peeling` hold
   the shared theory (walks, cycles, ancestors, and the confluence of peeling
   off ready nodes); `Validation`, `PipelineDoc` with `Layout`, `SchemaWalk`
   with `SchemaResolve`, `SchemaRules`, `SchemaColumns` and `SchemaBranches` (what
   each component makes of its inputs), and `SampleRows` are
   the four algorithms. Ids are arbitrary values, edges may be parallel, may be
   loops, and may end at ids that name no node.
2. **Undo.** `UndoModel` is the history as a state machine over values,
   `UndoHistory` the class with the fields and methods of the original, each
   method equal to one step of the machine. `UndoTheorems` holds over every run
   of any events. `UndoTimeline` proves that, when each restore is applied
   before the next action, the history is a simple timeline with a cursor;
   `UndoPromises` draws the consequences; `UndoSwitch` is about leaving a pipeline
   and coming back.
3. **Placeholders.** `Placeholders` splits a text into the matches of `${...}`
   and what stands between, `TimeBuiltins` reads the date and time names with
   offsets, `RunValues` substitutes in nested values, `Contexts` layers context
   variables, `RunResolve` finds what a run has to ask for, `RunTheorems`
   connects the prompt, the two passes and what reaches the run, and `Substitution`
   and `RunLaws` say, by the fields of the inputs, what is put where.
4. **Trees.** `RepoTree` is the project tree with its create, copy, move and
   delete commands. `Locale`, `LocaleTheorems` and `LocaleRoundTrip` relate the
   nested and the dotted form of a locale file; `LocaleInPlace` has the
   dictionaries as objects that are walked to and assigned into.

Code that works step by step (loops, shared sets, the history object, nested
dictionaries) is a method or a class here, and its contract equates the result
with a specification function whose properties are proved as lemmas. Code that
is an expression is a function.

## What came out

Where a promise fails for some inputs, the code is modelled as it is and the
exact condition is proved.

- `HasCycle` needs no distinct ids to be understood: it answers true exactly when
  the known edges have a cycle or an id is listed twice.
- `canRedo()` can be true where `redo()` returns nothing: `redo()` returns a
  snapshot exactly when redo is offered and no edit is pending.
- Two undos that both return a snapshot, the second before the first is applied,
  keep the timeline exactly when the first would not have changed the key. So
  without noted edits they always lose the step in between. The timeline theorems
  are about restores applied one by one, as `useUndoRedo` means to do; the bound of
  fifty entries and the isolation of pipelines and workspaces hold for every
  sequence of calls.
- A restore that is not applied before the user switches pipelines is mistaken for
  the first change on the other one: that change is recorded exactly when no
  restore was waiting. Stacks and timelines are not touched by this.
- A placeholder that is left for the run survives both passes verbatim, with one
  exception: a pipeline reference that is nothing but the id or name of a pipeline
  is replaced by a path afterwards. The name may hold `$`, `{` or spaces.
- Every context key, bare or behind the name of a context, means the same in every
  order of the repository exactly when the contexts on its top layer agree. A key
  that is not reported as a collision is ambiguous all the same exactly when one
  of them writes it behind its own name and another gives it another value; this
  takes a key with a dot. With distinct names and no dots in names and keys, it
  cannot happen.
- Flattening and unflattening a locale undo each other exactly when no key holds
  a dot, no inner dictionary is empty, and the empty key of the top dictionary
  holds no dictionary; other empty keys do no harm. In the other direction the
  condition is that no path leads through another and no key starts with a dot.
- A new pipeline is put under the "pipelines" folder without looking whether it
  still exists. Of all commands, making a pipeline when that folder and the
  container asked for are gone is the only one that leaves an item without its
  parent: the root project, under which folders go, can be neither moved nor deleted.
- Reordering columns doubles a column exactly when the list names it twice.

## Model

| member | source | states |
|---|---|---|
| Graph.BackIntoCycle | frontend/src/validation.ts:354-366 | nodes that all wait for one another contain or follow a cycle: from any of them, following predecessors runs into a cycle that leads back to it |
| Graph.AncestorsShrink | frontend/src/schema-resolve.ts:165-180 | along an edge from a node on no cycle the ancestors strictly grow; the measure on which walks towards the sources end |
| Peeling.PeelingPlaces | frontend/src/validation.ts:354-366 | confluence: whichever ready node is taken at each turn, a peeling that cannot go on has placed exactly the nodes no cycle leads to |
| Peeling.CountDecides | frontend/src/validation.ts:366 | the count of nodes a complete peeling places equals the count of nodes listed exactly when ids are distinct and the known edges acyclic |
| Validation.HasCycle | frontend/src/validation.ts:336-367 | true exactly when the edges between known nodes have a cycle, self-loops included, or an id is listed twice; both loops end |
| Validation.FirstReady | frontend/src/validation.ts:349-352 | the first queue holds the nodes with nothing to wait for, each once |
| Validation.ProcessAll | frontend/src/validation.ts:354-365 | the queue loop processes exactly the nodes no cycle leads to, and counts them, whatever the order of nodes and edges |
| Validation.CountDown | frontend/src/validation.ts:358-364 | counting down the children keeps every count equal to the edges still awaited and queues exactly the nodes that become ready |
| Sorting.SortCorrect | frontend/src/run-resolve.ts:42-48 | the sort the code relies on keeps the elements and puts them in order |
| Sorting.SortStable | frontend/src/run-resolve.ts:33-48 | a check on the model of the sort: ties keep their first order |
| PipelineDoc.RunOrder | frontend/src/pipeline-doc.ts:151-177 | the order is a permutation of the steps; first those no cycle leads to, each after all its known predecessors and always the least by place among those ready; then the rest sorted by place |
| PipelineDoc.CountEdges | frontend/src/pipeline-doc.ts:152-160 | the two maps hold, for every step, its known incoming edges counted with repetition and its targets in order |
| PipelineDoc.ListReady | frontend/src/pipeline-doc.ts:161-173 | the loop over the sorted ready list places exactly what no cycle leads to, greedily by place |
| PipelineDoc.CountDown | frontend/src/pipeline-doc.ts:167-172 | counting down and re-sorting keeps the ready list complete and sorted |
| PipelineDoc.FallbackIffCyclic | frontend/src/pipeline-doc.ts:174-176 | the fallback is empty exactly when the known edges are acyclic, that is when the cycle check is false |
| PipelineDoc.LinksPointForward | frontend/src/pipeline-doc.ts:161-173 | every link into a placed step points forward, and on an acyclic pipeline every known link does |
| PipelineDoc.OrderIsByPosition | frontend/src/pipeline-doc.ts:152-165 | of the steps whose known predecessors are all listed, the one with the least x comes next, and of those the one with the least y |
| PipelineDoc.RestIsByPosition | frontend/src/pipeline-doc.ts:174-176 | the steps behind cycles follow by x, then by y |
| Layout.GreedyUnique | frontend/src/pipeline-doc.ts:162-165 | with no two steps in one place, the greedy peel is unique |
| Layout.ListingFollowsLayout | frontend/src/pipeline-doc.ts:151-177 | where no two steps share a place, the listing depends on steps, places and links only, not on the order in which they are stored |
| SchemaResolve.GuardedIsPlain | frontend/src/schema-resolve.ts:165-180 | on any graph, from a node that no cycle leads to, the guarded walk equals the plain recursion over incoming edges whenever the guard holds neither the node nor an ancestor |
| SchemaResolve.PlacedIsPlain | frontend/src/schema-resolve.ts:165-180 | so every node that a complete peeling places, all of them on an acyclic pipeline, gets its plain schema |
| SchemaResolve.FollowedCycleFree | frontend/src/schema-resolve.ts:477-497 | a cycle of the walk leads to a node exactly when a cycle of edges between known nodes does: edges from ids that name no node make no difference |
| SchemaResolve.SchemaIsLocal | frontend/src/schema-resolve.ts:165-180 | on any graph, cyclic ones too, a schema depends on nothing but the node, what is upstream of it, and the guard there |
| SchemaWalk.ResolveOutputSchema | frontend/src/schema-resolve.ts:165-180 | ends on every graph, returns what the guarded recursion defines, leaves the shared set exactly as it found it |
| SchemaWalk.ComputeNodeSchema | frontend/src/schema-resolve.ts:182-449 | the node's schema from the schemas of its inputs, each walked with the same guard, guard unchanged |
| SchemaWalk.EdgeSchema | frontend/src/schema-resolve.ts:465-475 | what an edge carries, with the reject columns on a reject port of a source or quality check |
| SchemaWalk.MergedUpstream | frontend/src/schema-resolve.ts:477-497 | merges the schemas of all incoming edges in order |
| SchemaWalk.MainUpstream | frontend/src/schema-resolve.ts:500-508 | the schema on the first main input |
| SchemaWalk.TakeUnseen | frontend/src/schema-resolve.ts:486-494 | one turn of the merge takes the columns whose names have not been seen |
| SchemaWalk.ResolveFresh | frontend/src/schema-resolve.ts:165-180 | called with an empty guard on a node that no cycle leads to, the walk returns the plain recursion |
| SchemaWalk.ResolveInputPortSchemas | frontend/src/schema-resolve.ts:526-543 | each port gets the columns of its edges, the first of a name winning, ports in order of first use |
| SchemaWalk.PortsCoverUpstream | frontend/src/schema-resolve.ts:477-543 | the ports together offer exactly the names of the merged upstream schema |
| SchemaWalk.EdgesOfPort | frontend/src/schema-resolve.ts:533-534 | the edges of a port are exactly those that name it, or name none where it is "main", in order |
| Pipeline.IncomingOrder | frontend/src/schema-resolve.ts:483 | the incoming edges are those with the target, each as often and in the order listed |
| Pipeline.FindIsFirst | frontend/src/schema-resolve.ts:174 | the first node with an id is the one found |
| SchemaRules.MergeKeepsFirst | frontend/src/schema-resolve.ts:477-497 | merging keeps, of each name that arrives, the column that arrives first, and no name twice |
| SchemaRules.MergeIntoNames | frontend/src/schema-resolve.ts:477-497 | merging loses no name and invents none |
| SchemaBranches.MergeKeepsOrder | frontend/src/schema-resolve.ts:477-497 | merging lists exactly the columns with no column of their name before them, in the order of arrival |
| SchemaBranches.EdgeCarries | frontend/src/schema-resolve.ts:451-475 | an edge carries the schema of its source; only from the reject port of a source or quality check, the three columns of an error follow |
| SchemaBranches.MainIsFirst | frontend/src/schema-resolve.ts:506-507 | the main schema is that of the first edge into "main" or into no port, none without such an edge |
| SchemaBranches.OwnSchemaWins | frontend/src/schema-resolve.ts:199-204 | declared and autodetected schemas are returned as they are |
| SchemaBranches.GenerateLaw | frontend/src/schema-resolve.ts:12-24 | generated columns are those with a name, in order, each typed by its generator |
| SchemaBranches.DropLaw | frontend/src/schema-resolve.ts:223-229 | dropping keeps exactly the columns not listed, in order |
| SchemaBranches.PlaceIsLast | frontend/src/schema-resolve.ts:218-220 | a selected name is placed where it is listed last |
| SchemaBranches.ReorderLaw | frontend/src/schema-resolve.ts:303-313 | first the columns asked for, in the order of asking, then exactly the others in theirs |
| SchemaBranches.RenameLaw | frontend/src/schema-resolve.ts:231-237 | every column stays in its place with its type; its name is that of the last pair with a key and a value that renames it |
| SchemaBranches.CastLaw | frontend/src/schema-resolve.ts:239-262 | names stay; exactly the columns listed get the type of their last entry |
| SchemaBranches.AddedColumn | frontend/src/schema-resolve.ts:264-274 | adding, window, function and AI components leave the input as a prefix and add their column unless the name is taken; it is there afterwards |
| SchemaBranches.TextSplitLaw | frontend/src/schema-resolve.ts:283-301 | the columns kept, then a text column for every listed name none of them has, in order |
| SchemaBranches.MapLaw | frontend/src/schema-resolve.ts:315-329 | the mapper's outputs in order, unnamed ones called "col"; without outputs the node's schema or the input |
| SchemaBranches.GroupByLaw | frontend/src/schema-resolve.ts:331-347 | the key columns in input order and one column per aggregation in turn, each with its name and the type its function has for the first column of the source name; the input where there is neither |
| SchemaBranches.AggregateLaw | frontend/src/schema-resolve.ts:26-36 | counts are int64, averages float64, collected values JSON, sums keep a numeric type and are float64 otherwise, and the rest keep the type of their source |
| SchemaBranches.GeometryLaw | frontend/src/schema-resolve.ts:376-392 | the source columns go if asked, and a geometry column is added unless its name is taken |
| SchemaBranches.ChunkLaw | frontend/src/schema-resolve.ts:418-427 | the chunk text, its index and its count are added in turn, each unless its name is taken |
| SchemaBranches.CodeAndPassing | frontend/src/schema-resolve.ts:354-374 | code has its declared schema or the input, semi and anti joins the main input, passing components the input |
| SchemaColumns.SelectionSharesOut | frontend/src/schema-resolve.ts:214-229 | selecting columns and dropping the same columns share out all that arrives, and the selection stands in the order asked for |
| SchemaColumns.ReorderPermutesIff | frontend/src/schema-resolve.ts:303-313 | reordering is a permutation of what arrives exactly when no column is asked for twice |
| SchemaColumns.TextSplitDiffersIff | frontend/src/schema-resolve.ts:283-301 | splitting a text leaves distinct names exactly when no new name is listed twice |
| SchemaColumns.NamesStayDistinct | frontend/src/schema-resolve.ts:182-449 | the selecting, dropping, casting, adding, window, semi join, geometry, AI and passing components turn distinct names into distinct names |
| SampleRows.ResolveUpstreamSampleRows | frontend/src/schema-resolve.ts:548-567 | the rows of an ancestor with a sample at the least distance, at least one; none exactly when no ancestor has one; ends on cyclic graphs |
| SampleRows.SampleIsOfFirst | frontend/src/schema-resolve.ts:560-562 | the sample of an id is that of the first node with it; an id without a node has none |
| SampleRows.NextDepth | frontend/src/schema-resolve.ts:556-565 | when a level of the queue is used up, what remains is the next level |
| SampleRows.AllVisited | frontend/src/schema-resolve.ts:556-566 | an empty queue means every ancestor has been visited |
| UndoHistory.UndoHistory.constructor | frontend/src/undo-history.ts:82-90 | the initial state, with no workspace yet |
| UndoHistory.UndoHistory.FindStack | frontend/src/undo-history.ts:92-95 | finds or makes the stack of a pipeline |
| UndoHistory.UndoHistory.Observe | frontend/src/undo-history.ts:106-163 | a step of the machine: new workspace, switch, own restore, first sight, unremarkable change, or edit |
| UndoHistory.UndoHistory.NoteEdit | frontend/src/undo-history.ts:172-174 | the next observation counts as an edit |
| UndoHistory.UndoHistory.Flush | frontend/src/undo-history.ts:177-181 | records the pending edit now and cancels its timer |
| UndoHistory.UndoHistory.Commit | frontend/src/undo-history.ts:183-193 | pushes the base, drops the oldest beyond fifty, clears what could be redone |
| UndoHistory.UndoHistory.TimerFires | frontend/src/undo-history.ts:156-162 | an armed timer records the pending edit, a cancelled one does nothing |
| UndoHistory.UndoHistory.Undo | frontend/src/undo-history.ts:196-209 | records, then moves one step from past to future, and returns it |
| UndoHistory.UndoHistory.Redo | frontend/src/undo-history.ts:212-223 | records, then moves one step from future to past, and returns it |
| UndoHistory.UndoHistory.CanUndo | frontend/src/undo-history.ts:225-227 | what the button shows, as the machine says |
| UndoHistory.UndoHistory.CanRedo | frontend/src/undo-history.ts:229-231 | what the button shows, as the machine says |
| UndoHistory.UndoHistory.Dispose | frontend/src/undo-history.ts:234-237 | the pending edit and its timer are gone |
| UndoModel.RunConsistent | frontend/src/undo-history.ts:70-238 | in every reachable state: at most fifty entries per pipeline; a pending edit is the current pipeline's, based on its baseline, settled at what is on the canvas, with the one armed timer, and excludes a restore under way |
| UndoTheorems.CanUndoIsExact | frontend/src/undo-history.ts:196-227 | canUndo holds exactly when undo would return a snapshot |
| UndoTheorems.RedoNeedsNoPendingEdit | frontend/src/undo-history.ts:212-231 | redo returns a snapshot exactly when redo is offered and no edit is pending |
| UndoTheorems.RedoOfferedInVain | frontend/src/undo-history.ts:212-231 | a run after which redo is offered and returns nothing |
| UndoTheorems.UndoInsideDebounce | frontend/src/undo-history.ts:196-223 | an undo inside the debounce goes back exactly the pending edit, and redo then brings it back |
| UndoTheorems.RestoredWasSeen | frontend/src/undo-history.ts:106-223 | isolation over all runs: whatever is restored was observed for the current pipeline in the current workspace since it was opened |
| UndoTheorems.SwitchRecordsPending | frontend/src/undo-history.ts:127-134 | switching records the pending edit in the pipeline it was made in, and touches no other stack |
| UndoTheorems.NewScopeForgets | frontend/src/undo-history.ts:111-122 | after a change of workspace the state does not depend on anything before |
| UndoTimeline.PerformRefines | frontend/src/undo-history.ts:106-223 | each action on a pipeline at rest is the action of the simple timeline, which has no stacks, timers or flags |
| UndoTimeline.HistoryRefinesTimeline | frontend/src/undo-history.ts:106-223 | so are all sequences of actions: edits, pauses, applied undos and redos |
| UndoTimeline.ActionIsRun | frontend/src/useUndoRedo.ts:33-46 | an action is a short run of real events, the restored snapshot being observed next |
| UndoPromises.OpenedAtRest | frontend/src/undo-history.ts:111-122 | opening a workspace starts a timeline of one entry |
| UndoPromises.TimelineConserved | frontend/src/undo-history.ts:196-223 | with nothing pending, any mix of undos, redos and observations with the key on the canvas leaves the key sequence unchanged but for the cursor |
| UndoPromises.RedosRevertUndos | frontend/src/undo-history.ts:196-223 | k undos go back k entries, and k redos return to the start |
| UndoPromises.NoPressIsWasted | frontend/src/undo-history.ts:151-223 | without noted edits, every undo or redo that returns something changes the key on the canvas |
| UndoPromises.BurstIsOneEdit | frontend/src/undo-history.ts:135-193 | a burst and the timer leave the same state as one observation of its last snapshot, noted if any was; a burst back to its base records nothing |
| UndoPromises.TwoUndosUnapplied | frontend/src/useUndoRedo.ts:33-46 | two undos, the second before the first is applied: with two entries or more behind the cursor the one before it is overwritten with the one on the canvas |
| UndoPromises.TwoUndosOfFew | frontend/src/useUndoRedo.ts:33-46 | with fewer, the second returns nothing and changes nothing |
| UndoPromises.TwoUndosKeepIff | frontend/src/useUndoRedo.ts:33-46 | such undos, both restoring, keep the timeline exactly when the first would not have changed the key |
| UndoPromises.UnappliedUndosLose | frontend/src/undo-history.ts:196-209 | so without noted edits they always lose the step in between, after any actions |
| UndoPromises.SecondUndoLosesAStep | frontend/src/undo-history.ts:196-209 | a run from the first observation on, with keys that differ, after which nothing leads back to the middle one |
| UndoSwitch.RecordDropsOldest | frontend/src/undo-history.ts:183-193 | recording pushes the base and drops the oldest entry exactly where there are fifty |
| UndoSwitch.SwitchKeeps | frontend/src/undo-history.ts:127-134 | a switch changes the pipeline that is left only by recording its pending edit, re-baselines the one arrived at and keeps its stack, and touches no other stack or baseline |
| UndoSwitch.EditAfterSwitchIff | frontend/src/undo-history.ts:127-145 | the first change after a switch is recorded exactly when no restore was waiting to be applied |
| UndoSwitch.RunElsewhere | frontend/src/undo-history.ts:106-223 | whatever happens on other pipelines of the workspace, the stack and the baseline of this one stay |
| UndoSwitch.RoundTrip | frontend/src/undo-history.ts:106-223 | leaving a pipeline, anything elsewhere, and coming back to what was on the canvas keep its timeline as recorded, and undo and redo restore what they would have |
| UndoSwitch.RoundTripAfterActions | frontend/src/undo-history.ts:106-223 | the same after any actions on the pipeline, with the timeline of the simple model |
| UndoSwitch.DisposedRecordsNothing | frontend/src/undo-history.ts:234-237 | disposing drops the pending edit only, and no timer changes anything afterwards |
| TimeBuiltins.ParseOffset | frontend/src/run-resolve.ts:139-174 | reads an offset, or rejects it |
| TimeBuiltins.OffsetLanguage | frontend/src/run-resolve.ts:139-174 | the offsets accepted are an optional sign and one or more terms of digits and a unit, and the value is their signed sum |
| TimeBuiltins.SignsTurn | frontend/src/run-resolve.ts:140-141 | a plus sign changes nothing, a minus sign turns the offset round |
| TimeBuiltins.NumberIsDecimal | frontend/src/run-resolve.ts:154 | digits are read as a decimal number |
| TimeBuiltins.OneDigit | frontend/src/run-resolve.ts:154 | and each digit has its value |
| TimeBuiltins.BuiltinMeans | frontend/src/run-resolve.ts:180-201 | each base names its own instant, with an offset the shifted one; a malformed offset names nothing |
| TimeBuiltins.BuiltinHasNoDollar | frontend/src/run-resolve.ts:180-201 | a name with a dollar sign is no builtin |
| Placeholders.PiecesSpell | frontend/src/run-resolve.ts:244 | the matches and the text between them spell the text they were cut from |
| Placeholders.Barrier | frontend/src/run-resolve.ts:242-254 | whatever text stands around a placeholder that no builtin replaces, the second pass treats both sides apart and copies the placeholder |
| Placeholders.LeftInPlaceSurvives | frontend/src/run-resolve.ts:242-254 | a placeholder the first pass leaves stands verbatim after both passes, whatever the values around it bring in |
| Placeholders.SecondPassIsFinal | frontend/src/run-resolve.ts:449-453 | a third pass would change nothing |
| Substitution.PlaceholderBecomes | frontend/src/run-resolve.ts:242-254 | every placeholder becomes the variable its trimmed name names, else what the builtin renders, else stays; the texts around it are substituted on their own |
| Substitution.LiteralIsCopied | frontend/src/run-resolve.ts:242-254 | every other character is copied |
| Substitution.PlaceholderBecomesAt | frontend/src/run-resolve.ts:256-265 | the same for the text at any path of a nested value |
| Substitution.OthersAreCopied | frontend/src/run-resolve.ts:256-265 | what is no text, list or object stays as it is at any path |
| Substitution.TrimCuts | frontend/src/run-resolve.ts:244 | trimming takes the blanks off both ends, all of them and nothing else |
| RunValues.SubstituteDeepAt | frontend/src/run-resolve.ts:256-265 | substitution keeps every path of a nested value and acts on the text at each |
| RunValues.MentionsComplete | frontend/src/run-resolve.ts:321-343 | no placeholder at any depth is missed |
| RunValues.MentionedSomewhere | frontend/src/run-resolve.ts:321-343 | and none is invented |
| Contexts.BuildContextVars | frontend/src/run-resolve.ts:50-61 | writes the layers in order, bare and qualified names |
| Contexts.LayersKeepOrder | frontend/src/run-resolve.ts:33-48 | contexts on one layer keep the order of the repository |
| Contexts.HighestLayerWins | frontend/src/run-resolve.ts:42-61 | every key, bare or behind the name of a context, has the value that its last writer on the highest layer writes last, found by one unsorted scan |
| Contexts.HigherPriorityWins | frontend/src/run-resolve.ts:42-61 | a context whose priority, 0 where it has none, is above that of every other writer of a key settles it with its last variable for the key |
| Contexts.WritersAreContexts | frontend/src/run-resolve.ts:44-46 | only items of type context with variables write anything |
| Contexts.BareKeyIsDefined | frontend/src/run-resolve.ts:56 | a bare key is written by its definitions only, and has the value of the last one on the highest layer |
| Contexts.QualifiedKeyIsItsOwn | frontend/src/run-resolve.ts:57 | with distinct names and no dots in names and keys, a key behind the name of a context has that context's own value, whatever the layers and the order |
| Contexts.OrderMattersIff | frontend/src/run-resolve.ts:42-61 | every order of the repository gives a key, with or without dots, the same value exactly when the contexts on its top layer agree |
| Contexts.ContextKeyCollisions | frontend/src/run-resolve.ts:77-107 | the list of entries, keys and then layers in the order of their first definition |
| Contexts.ReportIsExact | frontend/src/run-resolve.ts:77-107 | the entries are exactly the keys that several contexts of one layer define, with the names of all that do, once for each key and layer |
| Contexts.UnreportedAmbiguousIff | frontend/src/run-resolve.ts:63-107 | an unreported key depends on the order exactly when two contexts on its top layer give it different values and one of them writes it only behind its own name |
| Contexts.UnreportedIsUnambiguous | frontend/src/run-resolve.ts:63-107 | so an unreported bare key means the same in every order |
| Contexts.DottedKeyIsNotCovered | frontend/src/run-resolve.ts:63-107 | two contexts for which a key with a dot is ambiguous and not reported |
| RunResolve.RunVarNames | frontend/src/run-resolve.ts:291-299 | a name is in the result exactly when some setvar node carries it, trimmed and not blank |
| RunResolve.Scan | frontend/src/run-resolve.ts:321-343 | the scan adds exactly the names to ask for that stand in a value, each once |
| RunResolve.DiscoverParams | frontend/src/run-resolve.ts:308-346 | lists, each once, exactly the names mentioned at any depth that nothing provides |
| RunResolve.BeforeParts | frontend/src/run-resolve.ts:345 | the names are sorted as in a dictionary: a prefix first, else by the first character that differs |
| RunTheorems.ResolveForRun | frontend/src/run-resolve.ts:386-469 | every node with routines inlined, both passes made and pipeline references located; the variables used hold exactly what is given: nothing for names the run or the engine fills in, else the typed value, else the extra value, else what the contexts say, else the workspace root or builtin |
| RunResolve.RunVarsAreGiven | frontend/src/run-resolve.ts:397-414 | that order of precedence, key by key |
| RunLaws.GivenValueReachesRun | frontend/src/run-resolve.ts:401-450 | a text that is one placeholder becomes, at any path, the value given for its name, if that holds no dollar sign |
| RunLaws.ValueReachesPasses | frontend/src/run-resolve.ts:443-453 | in any text, the two passes put the value in the placeholder's place, and the second fills builtins in it and around it |
| RunLaws.RoutineIsInlined | frontend/src/run-resolve.ts:415-446 | a node for SQL code without SQL gets the code of the last SQL routine with that id or name; no other property changes |
| RunLaws.ReferenceIsLocated | frontend/src/run-resolve.ts:416-467 | a pipeline reference becomes the file of the last pipeline with that id or name, if there is a workspace; every other property holds what the passes made |
| RunLaws.PipelineFileIs | frontend/src/run-resolve.ts:28-31 | the file lies under the workspace without its trailing slashes, in "pipelines", with backslashes only where the workspace has no others |
| RunLaws.AskedExactly | frontend/src/run-resolve.ts:331-336 | a name is asked for exactly when it is mentioned, is no secret, builtin, workspace name, known, run-set or declared name, and not blank |
| RunTheorems.PlaceholderReachesRun | frontend/src/run-resolve.ts:401-469 | a placeholder at any depth that nothing fills reaches the run verbatim, but for a pipeline reference whose text is a known pipeline |
| RunTheorems.LeftForRun | frontend/src/run-resolve.ts:401-414 | names set by the run or left for the engine are not replaced, unless they are builtins |
| RunTheorems.LeftNameReachesRun | frontend/src/run-resolve.ts:401-469 | so a placeholder for such a name, no builtin and outside pipeline references, is in the resolved node at the same path, whatever is substituted around it |
| RunTheorems.PromptIsComplete | frontend/src/run-resolve.ts:308-346 | with a workspace and a value for every name asked, the first pass leaves only blank keys, secrets, run-set and declared names |
| RunTheorems.PromptIsNeeded | frontend/src/App.tsx:1514-1518 | every name asked for stands in a placeholder that would otherwise stay |
| RepoTree.HandleMoveRepoItem | frontend/src/App.tsx:2209-2226 | the walk to the root ends; the item moves exactly when the target is a container outside its subtree and it is no project, and then only its parent changes, to the target |
| RepoTree.MoveTakesSubtree | frontend/src/App.tsx:2223 | after a move the item is inside its new parent and nothing else, no other link changes, and its descendants are the same |
| RepoTree.MoveKeepsForest | frontend/src/App.tsx:2209-2226 | a move cannot close a cycle |
| RepoTree.AddDescendants | frontend/src/App.tsx:2241-2268 | the recursion ends and adds exactly the descendants to the shared set |
| RepoTree.HandleDeleteRepoItem | frontend/src/App.tsx:2241-2268 | removes the item and its descendants, nothing for projects and unknown ids |
| RepoTree.DeleteTakesSubtree | frontend/src/App.tsx:2241-2268 | exactly the item and its descendants go, no survivor's parent among them |
| RepoTree.DeleteKeepsOrder | frontend/src/App.tsx:2256 | those who stay keep their order |
| RepoTree.NewItems | frontend/src/App.tsx:2189-2202 | new folders and pipelines field by field: under the container asked for if it is a folder or project, else under the root or "pipelines"; nothing else changes |
| RepoTree.CopyStandsBeside | frontend/src/App.tsx:2228-2235 | a copy has the kind and parent of its original and its name with "_copy" |
| RepoTree.CommandKeepsForest | frontend/src/App.tsx:2189-2323 | create, new folder, copy, move and delete keep ids unique and parent links acyclic |
| RepoTree.RunKeepsForest | frontend/src/App.tsx:2189-2323 | so does every run of them |
| RepoTree.ParentsStay | frontend/src/App.tsx:2209-2268 | moving, copying and deleting leave no item without its parent |
| RepoTree.NewPipelineHasParentIff | frontend/src/App.tsx:2306-2323 | a new pipeline has a parent exactly when the container asked for or the "pipelines" folder exists |
| RepoTree.RootStays | frontend/src/App.tsx:2189-2323 | no command moves or deletes the root project |
| RepoTree.CommandKeepsParentsIff | frontend/src/App.tsx:2189-2323 | a command leaves some item without its parent exactly when it makes a pipeline with no place for it; new folders always have a parent |
| RepoTree.RunKeepsRootAndParents | frontend/src/App.tsx:2189-2323 | over every run the root stays, and parents stay where every pipeline made has a place |
| Locale.JoinSplit | scripts/i18n-fill.py:51 | splitting a key at its dots loses nothing |
| Locale.SplitJoin | scripts/i18n-fill.py:51 | joining parts without dots can be undone |
| LocaleTheorems.WithPathLaw | scripts/i18n-fill.py:51-55 | an assignment along a path changes the text there, removes what lay below, and nothing else |
| LocaleTheorems.WithPathFails | scripts/i18n-fill.py:51-55 | the walk raises exactly when it leads through a text |
| LocaleTheorems.FlattenedIsDotted | scripts/i18n-fill.py:37-45 | flattening lists the paths of a dictionary, joined with dots |
| LocaleTheorems.FlatPutLaw | scripts/i18n-fill.py:40-44 | assigning a key of the flat form changes its text only, and a key that is there keeps its place |
| LocaleRoundTrip.UnflattenedShape | scripts/i18n-fill.py:48-56 | unflattening anything gives distinct keys without dots and no empty dictionary |
| LocaleRoundTrip.FlatReads | scripts/i18n-fill.py:37-45 | the flat form holds under each dotted key the text at that path |
| LocaleRoundTrip.BuiltLeaves | scripts/i18n-fill.py:48-56 | when no path leads through another, unflattening succeeds and puts each text at its path |
| LocaleRoundTrip.NestedRoundTripIff | scripts/i18n-fill.py:37-56 | unflatten after flatten restores the dictionary, entries in order, exactly under the condition above |
| LocaleRoundTrip.FlatRoundTripIff | scripts/i18n-fill.py:37-56 | flatten after unflatten restores the flat form exactly when no path leads through another and no key starts with a dot |
| LocaleRoundTrip.SetByPathLaw | scripts/i18n-overrides.py:251-256 | setting a path sets its key in the flat form, removes the keys below it, and nothing else |
| LocaleRoundTrip.SetByPathIff | scripts/i18n-overrides.py:251-256 | it is an update at one key exactly when the key stands apart from the keys there and does not start with a dot |
| LocaleInPlace.LocaleFile.AddInner | scripts/i18n-overrides.py:253-255 | setdefault on a missing key: a new empty dictionary at that path and nothing else changes |
| LocaleInPlace.LocaleFile.SetWords | scripts/i18n-overrides.py:256 | the assignment at the end of the walk changes that dictionary and no other |
| LocaleInPlace.LocaleFile.SetByPath | scripts/i18n-overrides.py:251-256 | the walk over the objects in place has the value of the path assignment, and changes nothing where it raises |
| LocaleInPlace.LocaleFile.Flatten | scripts/i18n-fill.py:37-45 | the recursive loop returns the flat form of the dictionary |
| LocaleInPlace.Unflatten | scripts/i18n-fill.py:48-56 | filling a new file key by key has the value of unflattening, or raises |
| LocaleInPlace.MadeOnTheWay | scripts/i18n-fill.py:52-54 | making a dictionary that the walk misses changes nothing for the rest of the walk |

## Left out

- UI, rendering, hooks, clipboard, schedules, test cases, tours, themes and errors: no deep property.
- HTML, SVG and CSS generation, redaction: string templates.
- Tauri, web, file system, storage, git and network calls; the execution engine.
- The other checks of `validatePipeline`: single conditions on manifests that are not part of this model.
- PipelineDoc.RunOrder: requires distinct step ids; the maps of the original are keyed by id, and positions are reals without NaN.
- SchemaRules.Compute: join, union, filter, sort, CDC and unknown components are one passing component, and manifests are an input of the node.
- SchemaWalk.ComputeNodeSchema: properties are read already parsed, with their defaults filled in; the cache of engine-derived schemas is an input map from upstream columns to columns.
- SampleRows.ResolveUpstreamSampleRows: rows are numbers, since they are only passed on; an absent and an empty node id are both None.
- UndoHistory.UndoHistory.Observe: `meaningfulKey` is a snapshot's `key` field, equal keys being equal strings; the `changed` callback, which only renders, is not modelled, and timers are numbers.
- UndoPromises.TimelineConserved: needs restores applied one by one; TwoUndosKeepIff says what else happens.
- TimeBuiltins.ParseOffset: offsets are unbounded integers, without the loss of precision of large numbers.
- TimeBuiltins.BuiltinMeans: formatting a date is a parameter; where it matters the five builtins are assumed to yield some text without dollar signs and braces, as numbers with separators do.
- Placeholders.LeftInPlaceSurvives: strings are sequences of characters, not of UTF-16 units, so names outside the basic plane sort by character.
- Contexts.ContextKeyCollisions: the map of maps is two maps, one of the layers of a key and one of the names under a key and a layer.
- RunTheorems.PromptIsComplete: speaks of the properties before SQL routines are inlined, as the scan does, so for a node with an inlined routine it does not cover the routine's text.
- RunTheorems.ResolveForRun: property names of one object differ; names like `__proto__` are ordinary.
- RepoTree.RunKeepsForest: ids made are fresh, as the id generators intend; names, icons and payloads of items, the numbering of new folders, and a repository that is stale in a closure are not modelled.
- Locale.Unflattened: dictionaries are lists of entries and values are texts or dictionaries; LocaleInPlace has them as objects, but the loading and saving of JSON is left out.
- LocaleRoundTrip.SetByPathIff: is about dictionaries with distinct keys that have no dots and no dictionary under the empty top key.
