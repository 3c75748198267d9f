# unitrace in Dafny

This project models the parts of the unitrace profiler whose correctness is not
visible in any single function, and proves what they guarantee together:

- the kernel-name schema compiler and matcher (`SchemaRules`, `SearchTree`,
  `Categorizer`, `Summary`): a list of "equals to", "starts with" and "ends
  with" rules is compiled into two variable-stride tries; looking a name up in
  them is compared with a flat longest-match evaluator over the rules;
- the per-thread trace buffers and the shared trace file (`TraceQueue`,
  `TraceBuffer`, `TraceRun`, `TraceThreads`): slices of slots filled in place
  refine a queue, runs over many threads, exits and the final teardown are a step
  system over those queues, and the objects take the steps of that system;
- the ITT collector (`IttTasks`, `IttMetadata`, `CclStats`): the thread's task
  stack and event map behind the collection gate, the insert-behind-head
  metadata list and its single release, and the per-function statistics with
  their sorted report;
- the GPU stall analysis (`Cfg`, `Stalls`, `StallProofs`, `StallEnds`,
  `StallExact`, `StallTokens`, `StallScans`, `Hexadecimal`, `Addresses`,
  `ReportPages`): basic blocks, the backward worklist for scoreboard tokens,
  instruction addresses and the paginated report;
- the text of trace files (`TraceFile`, `MergedTraces`): framing, repair, rollback
  and merging.

Code that updates state is modelled by classes and methods with loops, each
proved against a specification function or a stated property; the laws of the
system are lemmas about those functions, stated over the inputs themselves wherever
a function would otherwise only be compared with itself. Python exceptions and the process-fatal
cases are ordinary results (`KeyError`, `ValueError`, `Raised`, `None`).
`Prelude` holds what all modules share.

## What the proofs say about the code

Some promises hold only under a condition. Each is stated with its condition, and
most with an input on the failing side.

- A name that is itself a "starts with" tag makes the lookup raise `KeyError`
  exactly when some longer tag starts with it (`SearchTree.TagLookupFailsIff`,
  with the schema of `SearchTree.PrefixOfPrefixRaises` as an instance); the
  documentation in `tools/unitrace/README.md:632-649` promises a match. For any
  name, `SearchTree.LookupFails` says exactly when the lookup raises.
- A schema compiles only if it has at least one rule of each search direction
  (`Categorizer.CompileSchema`): `min` raises on an empty list.
- The blocks recovered from a listing cover every line from the first header on
  exactly when no two headers share a label (`Cfg.TilesIffDistinct`); the comment
  at `analyzeperfmetrics.py:176` says the uncovered case is never reached, but
  `Cfg.RepeatedLabelIsLost` is a listing that reaches it.
- The backward search keeps no set of visited blocks, and the loop over the tokens
  shrinks the list it iterates over. For every problem the search fails to end if
  and only if after some round it is stuck: a cycle is still to be visited, and no
  block that can still be visited sets a waited token or is unknown
  (`StallExact.EndlessIffStuck`). Seen from the listing alone: if every token is set
  by some stretch that can be reached, the search ends, as long as lines that set two
  of the tokens only occur behind a cycle; if some token is set by no such stretch, it
  ends if and only if no cycle or an unknown label can be reached, as long as no line
  sets a token twice (`StallTokens.SearchEndsIff`). For a single token there is no such
  proviso (`StallTokens.SingleTokenEndsIff`).
  On the listing of `StallEnds.LoopNeverEnds` the search never ends although a later
  block sets the token, and on the one of `StallTokens.SkippedNeverEnds` although the
  line right above the stall sets both tokens: the second is skipped.
- A search that finishes has resolved exactly the tokens that some reached stretch
  sets, under the same proviso on lines that set two tokens
  (`StallTokens.FinishedResolvesIff`).
- Merging inputs without a single event writes a text that is not a document
  (`TraceFile.MergedIsDocumentIff`): the last two characters are overwritten even
  when they are not a separator.
- Metadata of kind double has an element size and a printer, but is turned away
  before it is stored (`IttMetadata.MetadataList.MetadataAdd`).
- Every begin/end pair keeps its own record if and only if collection is on at
  every begin and every end (`IttTasks.BracketsLogIff`); a pause strictly between
  them does no harm. When collection merely agrees at begin and end of every pair,
  exactly the pairs that find it on are logged (`IttTasks.MatchedKeeps`).
  `IttTasks.PausedBeginMispairs` is a run in which a begin falls into a pause and its
  end closes the enclosing task.
- A domain that does not fit the descriptor is matched by its own end if and only
  if what is read behind the cut happens to be the rest (`IttTasks.OwnEndMatchesIff`,
  with `IttTasks.LongDomainStaysOpen` as an instance).
- The percentages of the oneCCL report add up to 100 if and only if the total of
  all functions fits 64 bits (`CclStats.PercentagesAddUpIff`, with
  `CclStats.WrappedPercentages` as an instance).

## Model

| member | source | states |
|---|---|---|
| SchemaRules.EffectiveIsLastEntry | tools/unitrace/scripts/summary/categorize.py:43-47 | the rule in force for a tag is its last entry in the list |
| SchemaRules.PrefixCategoryIsLongest | tools/unitrace/README.md:632-649 | the reference evaluator picks the longest "starts with" tag of a name, and nothing only when there is none |
| SearchTree.MinLength | tools/unitrace/scripts/summary/categorize.py:39 | the stride of a level is a lower bound of the tag lengths and one of them |
| SearchTree.EffectiveTails | tools/unitrace/scripts/summary/categorize.py:44-45 | cutting a key off the tags that extend it keeps what the rules say about every longer text |
| SearchTree.TailsSmaller | tools/unitrace/scripts/summary/categorize.py:48-49 | every recursive build has strictly smaller total tag length |
| SearchTree.GraftIsChild | tools/unitrace/scripts/summary/categorize.py:50-53 | merging a subtree into a key's own node gives the node that serves both the key's rule and the longer tags |
| SearchTree.FileRules | tools/unitrace/scripts/summary/categorize.py:43-47 | after the first loop every key holds exactly its rule in force and exactly its longer rules, in order |
| SearchTree.BuildSearchTree | tools/unitrace/scripts/summary/categorize.py:38-54 | building terminates, fails exactly on an empty list, and yields the specified tree whatever the order of the groups |
| SearchTree.SearchTree | tools/unitrace/scripts/summary/summary.py:75-88 | the loop computes the lookup function, exceptions included |
| SearchTree.PrefixCategorySplits | tools/unitrace/scripts/summary/summary.py:75-88 | the longest match lies behind the first stride if there is one there, else at the stride |
| SearchTree.LookupAgrees | tools/unitrace/scripts/summary/summary.py:75-88 | looking any name up in the tree of any rules, with any category carried, gives the flat answer or the carried category, or raises exactly under LookupFails |
| SearchTree.LookupIsAnswer | tools/unitrace/scripts/summary/summary.py:75-88 | the compiled lookup equals exact match first, else longest prefix, else nothing, whenever it returns |
| SearchTree.EndsInsideHasLongerTag | tools/unitrace/scripts/summary/summary.py:86-88 | a lookup can only raise below a tag that strictly extends the name |
| SearchTree.TagsEndStrides | tools/unitrace/scripts/summary/categorize.py:39-49 | a tag with a longer tag below it always ends on a node with children |
| SearchTree.TagLookupFailsIff | tools/unitrace/scripts/summary/summary.py:86-88 | for a name that is a tag: the lookup raises iff the tag is a prefix rule and another tag strictly extends it |
| SearchTree.LookupReturnsWhen | tools/unitrace/scripts/summary/summary.py:86-88 | the lookup returns for exact tags and for names no tag strictly extends |
| SearchTree.PrefixOfPrefixRaises | tools/unitrace/scripts/summary/summary.py:86-88 | a two-rule schema on which the rules have an answer and the compiled lookup raises |
| Categorizer.CollectRules | tools/unitrace/scripts/summary/categorize.py:63-80 | the two rule lists are the rules of the sections of either kind, in file order, reversed for "ends with" |
| Categorizer.RuleInForce | tools/unitrace/scripts/summary/categorize.py:63-80 | what the collected rules say about a tag is what its last entry says, over all entries of all sections of the kind but the default one: the category of its section, exact in an "equals to" section |
| Categorizer.ExactTagIff | tools/unitrace/scripts/summary/categorize.py:76 | a tag is exact iff its last entry outside the "ends with" sections is in an "equals to" section |
| Categorizer.RemoveSpacesConcat | tools/unitrace/scripts/summary/categorize.py:57-73 | removing spaces works character by character |
| Categorizer.RemoveSpacesOne | tools/unitrace/scripts/summary/categorize.py:57-73 | of single characters exactly blanks and tabs are removed |
| Categorizer.CompileSchema | tools/unitrace/scripts/summary/categorize.py:57-86 | compiling succeeds exactly when there is an entry in an "ends with" section and one in another section, and yields the two trees of the sections |
| Categorizer.EffectiveReversed | tools/unitrace/scripts/summary/categorize.py:70-74 | reversing all tags keeps the rule in force of every reversed tag |
| Categorizer.ReversedPrefixIsSuffix | tools/unitrace/scripts/summary/summary.py:93 | a longest-prefix search among reversed tags for the reversed name is a longest-suffix search |
| Categorizer.CategorizeIsFlat | tools/unitrace/scripts/summary/summary.py:91-96 | the compiled schema gives exact, else longest prefix, else longest suffix, else the default, or raises exactly under CategorizeFails |
| Categorizer.SectionsDecide | tools/unitrace/scripts/summary/summary.py:91-96 | read off the sections: an answer is the category of the name's "equals to" entry, else of its longest "starts with" entry, else of its longest "ends with" entry, else the default |
| Categorizer.CategorizeFailsOnlyBelowTags | tools/unitrace/scripts/summary/summary.py:91-96 | a raise needs a longer tag that starts or ends with the whole name |
| Summary.AccumulateSection | tools/unitrace/scripts/summary/summary.py:163-173 | one section adds, under every key, exactly the values of the names of that category; it fails iff some lookup raises |
| Summary.AddItem | tools/unitrace/scripts/summary/summary.py:166-173 | one name adds the aggregate of its first components under "<category>_time" and of its second components under "<category>_calls", and nothing under the empty category |
| Summary.Summarize | tools/unitrace/scripts/summary/summary.py:160-173 | after both sections the output holds exactly the keys and totals of all categorized rows |
| Summary.Report | tools/unitrace/scripts/summary/summary.py:160-173 | read off the items: the run fails iff some lookup raises; else every category holds exactly the aggregated times and calls of its items of both sections, under those two keys and no others |
| Summary.OutputDescribes | tools/unitrace/scripts/summary/summary.py:160-173 | the output of the totals is that reading of the items |
| Summary.SumsAddUp | tools/unitrace/scripts/summary/summary.py:160-173 | with the sum as aggregator the entries of "time" and of "calls" add up to all first and all second components of all items with a category |
| Summary.KeyInjective | tools/unitrace/scripts/summary/summary.py:171 | category and label can be read back from the output key |
| Summary.NothingLost | tools/unitrace/scripts/summary/summary.py:167-173 | in the output, the entries of each label add up to everything recorded under it |
| TraceQueue.PushConserves | tools/unitrace/src/chromelogger.h:248-275 | written plus pending grows by exactly the accepted record in all three modes |
| TraceQueue.PushAllHolds | tools/unitrace/src/chromelogger.h:248-275 | a new queue holds back all records without a limit, none when it writes at once, and else what has come since a number of full buffers was written |
| TraceBuffer.TraceBuffer.constructor | tools/unitrace/src/chromelogger.h:179-219 | a new buffer is an empty queue of the configured mode and is registered |
| TraceBuffer.TraceBuffer.FlushSlice | tools/unitrace/src/chromelogger.h:383-389 | the first n slots of a slice are written in order, each before its name is released |
| TraceBuffer.TraceBuffer.FlushPending | tools/unitrace/src/chromelogger.h:382-389 | the full slices below the current one and the filled slots of the current one are written in order |
| TraceBuffer.TraceBuffer.FlushHostBuffer | tools/unitrace/src/chromelogger.h:376-393 | everything pending is written once and the buffer starts over |
| TraceBuffer.TraceBuffer.GetHostEvent | tools/unitrace/src/chromelogger.h:248-262 | the returned slot exists, also when old slices are reused, and a bounded buffer is written exactly when full |
| TraceBuffer.TraceBuffer.BufferHostEvent | tools/unitrace/src/chromelogger.h:264-275 | the filled slot is written at once or becomes the last pending record |
| TraceBuffer.TraceBuffer.LogEvent | tools/unitrace/src/chromelogger.h:568-596 | a callback is a push on the queue; after finalization it does nothing |
| TraceBuffer.TraceBuffer.Finalize | tools/unitrace/src/chromelogger.h:395-410 | the pending records are written once, however often it is called |
| TraceBuffer.TraceBuffer.Destroy | tools/unitrace/src/chromelogger.h:221-243 | as Finalize, and the buffer leaves the registry unless it was finalized before |
| TraceBuffer.ChromeLogger.Drain | tools/unitrace/src/chromelogger.h:508-516 | every registered buffer is finalized once, in iteration order, and the registry ends empty |
| TraceBuffer.StartThread | tools/unitrace/src/chromelogger.h:179-219 | a new buffer keeps the registry a set of live buffers without a common slice, and leaves the others alone |
| TraceBuffer.LogInThread | tools/unitrace/src/chromelogger.h:568-596 | a callback of one thread, before or after the teardown, writes its own emitted records and changes no other buffer |
| TraceBuffer.ExitThread | tools/unitrace/src/chromelogger.h:221-243 | an exit, before or after the teardown, writes the pending records of its own buffer, unregisters it and changes no other buffer |
| TraceRun.OwnPending | tools/unitrace/src/chromelogger.h:508-516 | draining distinct buffers gives each thread its own pending records once |
| TraceRun.RunAccounts | tools/unitrace/src/chromelogger.h:212-275 | in every reachable state a thread's lines plus its pending records are the events it issued while live |
| TraceRun.RegistryIsLive | tools/unitrace/src/chromelogger.h:212-243 | the registry holds exactly the live, unfinalized buffers |
| TraceRun.FinishedThreadIsComplete | tools/unitrace/src/chromelogger.h:221-243 | after its exit or the teardown a thread's lines are exactly its events, in order, once each |
| TraceRun.LiveThreadLag | tools/unitrace/src/chromelogger.h:180-192 | a live thread's lines are a prefix of its events, at most the capacity behind, none behind when flushing at once |
| TraceRun.NothingAfterShutdown | tools/unitrace/src/chromelogger.h:506-516 | after the teardown no step writes anything |
| TraceThreads.Startup | tools/unitrace/src/chromelogger.h:475-499 | a new logger is in the initial state of the step system |
| TraceThreads.Create | tools/unitrace/src/chromelogger.h:179-219 | from objects in a state of the step system, a new buffer leads to the state after the step, also when the thread id is used again |
| TraceThreads.Event | tools/unitrace/src/chromelogger.h:568-596 | a callback on the objects is the event step, also of a thread that outlives the teardown |
| TraceThreads.Exit | tools/unitrace/src/chromelogger.h:221-243 | the destructor of a thread's buffer is the exit step, also after the teardown |
| TraceThreads.Shutdown | tools/unitrace/src/chromelogger.h:506-516 | the destructor of the logger is an enabled teardown step, in the order of its loop |
| TraceThreads.FileIsComplete | tools/unitrace/src/chromelogger.h:212-243 | when the objects are in the state of a run, the file holds exactly the events of every finished thread id, in order, once each |
| IttTasks.Collector.IsCollectionEnabled | tools/unitrace/src/unicontrol.h:18-46 | unconditional, or neither paused nor switched off by the environment variable |
| IttTasks.EnabledIff | tools/unitrace/src/unicontrol.h:18-46 | collection is on iff it is unconditional, or not paused and the variable, where there is an environment, is set and does not begin with 0 |
| IttTasks.GateCalls | tools/unitrace/src/unicontrol.h:47-54 | only a pause, a resume and a change of the environment move the gate, and how |
| IttTasks.Collector.IttPause | tools/unitrace/src/unicontrol.h:47-50 | after a pause conditional collection is off, whatever it was before, and nothing but the gate changes |
| IttTasks.Collector.IttResume | tools/unitrace/src/unicontrol.h:51-54 | after a resume collection is on, whatever the flag and the environment were before, and nothing but the gate changes |
| IttTasks.PausedIsSilent | tools/unitrace/src/unicontrol.h:19-50 | between a pause and the next resume no call opens, closes, times or logs anything, even when the environment is switched on meanwhile |
| IttTasks.Collector.TaskBegin | tools/unitrace/src/itt/itt_collector.h:317-357 | pushes a descriptor with the names as copied exactly when collection and some output are on |
| IttTasks.Collector.CopyField | tools/unitrace/src/itt/itt_collector.h:341-353 | a short name is copied whole, a long one is cut at 510 characters and runs into what is read behind it |
| IttTasks.OwnEndMatchesIff | tools/unitrace/src/itt/itt_collector.h:341-369 | an end with the domain of its begin pops that task iff the domain was copied whole or what is read behind the cut completes it |
| IttTasks.LongDomainStaysOpen | tools/unitrace/src/itt/itt_collector.h:341-369 | a domain of 511 characters, terminated behind the cut, is not matched by its own end |
| IttTasks.Collector.TaskEnd | tools/unitrace/src/itt/itt_collector.h:359-388 | pops exactly on a matching domain, feeding the statistics and the log that are on |
| IttTasks.Collector.TaskEndInternal | tools/unitrace/src/itt/itt_collector.h:390-436 | pops and logs exactly on a matching domain with Chrome logging on |
| IttTasks.Collector.MetadataAdd | tools/unitrace/src/itt/itt_collector.h:841-868 | an argument reaches exactly the innermost open task, and only when collection and some output are on |
| IttTasks.Collector.EventCreateCall | tools/unitrace/src/itt/itt_collector.h:438-451 | the returned number names the new event |
| IttTasks.Collector.EventStartCall | tools/unitrace/src/itt/itt_collector.h:453-470 | the first start of an event is kept; unknown events are refused |
| IttTasks.Collector.EventEndCall | tools/unitrace/src/itt/itt_collector.h:472-503 | an open event is removed, timed and logged; otherwise an error is returned |
| IttTasks.StepNested | tools/unitrace/src/itt/itt_collector.h:317-503 | every call keeps the nesting invariant of stack, closed tasks and clock |
| IttTasks.RunsAreLaminar | tools/unitrace/src/itt/itt_collector.h:317-436 | in any run with a monotone clock the intervals of ended tasks are nested or disjoint and end no earlier than they start; with Chrome logging on they are exactly the intervals of the logged task records |
| IttTasks.NoDurationWraps | tools/unitrace/src/itt/itt_collector.h:380-382 | with a 64-bit clock every unsigned duration added to the statistics is the true one |
| IttTasks.MetadataOrder | tools/unitrace/src/itt/itt_collector.h:847-868 | of n arguments a1 to an the list has a1 first and then an down to a2, position by position |
| IttTasks.MatchedKeeps | tools/unitrace/src/itt/itt_collector.h:317-436 | when collection agrees at begin and end of every pair, exactly the pairs that find it on are logged, each with its own name, times and accepted arguments, and the open tasks stay open |
| IttTasks.MatchedTimes | tools/unitrace/src/itt/itt_collector.h:359-388 | when collection agrees at begin and end of every pair, exactly the pairs that find it on and end ordinarily are handed to the statistics, in end order, each with domain::name and its own times, the duration modulo 64 bits |
| IttTasks.BracketsLog | tools/unitrace/src/itt/itt_collector.h:355-436 | a well-bracketed piece, with gate changes and event calls anywhere in it, whose begins and ends find collection on logs one record per task, in end order, with its own name, times and accepted arguments, and leaves the open tasks open |
| IttTasks.RunCounts | tools/unitrace/src/itt/itt_collector.h:317-436 | whatever the gate does, tasks opened minus tasks logged is the change of the stack's height, and no more are logged than ends find collection on |
| IttTasks.BracketsLogIff | tools/unitrace/src/itt/itt_collector.h:317-436 | every begin/end pair keeps its own record and the stack is as before iff collection is on at every begin and every end |
| IttTasks.PausedBeginMispairs | tools/unitrace/src/itt/itt_collector.h:317-388 | a run in which a begin falls into a pause and its end closes the enclosing task |
| IttTasks.EventMapIsOpenSince | tools/unitrace/src/itt/itt_collector.h:453-503 | after any run, pauses included, the event map holds exactly the open events with their first effective start since the last effective end |
| IttTasks.EventEndLogs | tools/unitrace/src/itt/itt_collector.h:472-503 | after any run an event's end is timed and logged once, from that start, iff collection is on, the event exists and is open; otherwise it changes nothing |
| IttMetadata.MetadataNode.Fill | tools/unitrace/src/itt/itt_collector.h:858-867 | the payload is copied within bounds, inline or into a separate block |
| IttMetadata.MetadataNode.ReadBack | tools/unitrace/src/chromelogger.h:70-165 | what is printed is the stored payload, inline or not |
| IttMetadata.MetadataList.AddBehindHead | tools/unitrace/src/itt/itt_collector.h:852-868 | a further argument gets a node of its own, linked in behind the head without touching the others |
| IttMetadata.MetadataList.Add | tools/unitrace/src/itt/itt_collector.h:848-868 | a further argument goes right behind the head; the first one fills the head |
| IttMetadata.MetadataList.MetadataAdd | tools/unitrace/src/itt/itt_collector.h:839-870 | exactly non-empty data of a kind from u64 to float is accepted |
| IttMetadata.MetadataList.MetadataStrAdd | tools/unitrace/src/itt/itt_collector.h:872-902 | exactly non-empty strings are accepted |
| IttMetadata.ElementSizes | tools/unitrace/src/itt/itt_collector.h:58-68 | the element sizes in bytes by kind |
| IttMetadata.MetadataList.PrintAndFreeRest | tools/unitrace/src/chromelogger.h:345-354 | the walk prints every node in order and frees each once, never touching a freed one |
| IttMetadata.MetadataList.PrintAndFree | tools/unitrace/src/chromelogger.h:338-358 | all arguments are printed in order and every heap block of the list is freed exactly once |
| CclStats.FunctionInfo.AddFunctionTime | tools/unitrace/src/itt/itt_collector.h:70-87 | the table always holds sum, minimum, maximum and count of all times of every oneCCL function, modulo 64 bits |
| CclStats.AverageBetween | tools/unitrace/src/itt/itt_collector.h:184-188 | while the counters fit, minimum, average and maximum are ordered |
| CclStats.BeforeIsStrictTotalOrder | utils/utils.h:57-65 | the comparator is a strict total order on entries of different functions |
| CclStats.GreaterIff | utils/utils.h:57-65 | the order of names: the greater one extends the other or has the larger character where they first differ |
| CclStats.InsertKeepsAll | tools/unitrace/src/itt/itt_collector.h:152-154 | inserting a function into the sorted set drops nothing |
| CclStats.OrderedSetKeepsAll | tools/unitrace/src/itt/itt_collector.h:152-154 | the sorted set is a sorted permutation of the map's entries with the same total |
| CclStats.SortEntries | tools/unitrace/src/itt/itt_collector.h:152-154 | constructing the set from the map inserts the entries one by one |
| CclStats.TotalDuration | tools/unitrace/src/itt/itt_collector.h:156-163 | the report total is the sum over the set, modulo 64 bits |
| CclStats.CclSummaryReport | tools/unitrace/src/itt/itt_collector.h:142-201 | one row per function in the comparator's order, percentages included, or none when the 64-bit total is zero |
| CclStats.PercentagesAddUpIff | tools/unitrace/src/itt/itt_collector.h:156-190 | the exact percentages of a report with rows add up to 100 iff the total has not wrapped around |
| CclStats.WrappedPercentages | tools/unitrace/src/itt/itt_collector.h:156-190 | two functions whose report does not add up to 100 percent |
| CclStats.ReportsSamples | tools/unitrace/src/itt/itt_collector.h:70-201 | a report over a table that tracks the samples is the report of the samples |
| CclStats.Summarize | tools/unitrace/src/itt/itt_collector.h:70-201 | for any samples: exactly one row per oneCCL function sampled, with its own count, sum, minimum, maximum, average and share, in the order of totals, calls and names; none iff their times add up to zero modulo 64 bits |
| Cfg.NextHead | tools/unitrace/scripts/metrics/analyzeperfmetrics.py:142-149 | a block ends where the next header starts and has no header inside |
| Cfg.ConstructCFG | tools/unitrace/scripts/metrics/analyzeperfmetrics.py:135-169 | on a listing with a header the dictionary holds exactly the blocks of the last header of each label, each with that header's label and predecessors and up to the next header; else one dummy block |
| Cfg.BlocksAreOfHeaders | tools/unitrace/scripts/metrics/analyzeperfmetrics.py:135-169 | the same of the specified blocks, said about header lines only |
| Cfg.StoredMember | tools/unitrace/scripts/metrics/analyzeperfmetrics.py:145-146 | the dictionary keeps exactly the block of the last header of each label |
| Cfg.FindBBIsOwnBlock | tools/unitrace/scripts/metrics/analyzeperfmetrics.py:171-176 | FindBB returns the one block that contains the line, and nothing exactly before the first header or under an overwritten one |
| Cfg.FindBlock | tools/unitrace/scripts/metrics/analyzeperfmetrics.py:171-176 | the loop returns the first block in dictionary order that contains the line |
| Cfg.TilesIffDistinct | tools/unitrace/scripts/metrics/analyzeperfmetrics.py:135-176 | all lines from the first header on are covered iff labels are distinct |
| Cfg.RepeatedLabelIsLost | tools/unitrace/scripts/metrics/analyzeperfmetrics.py:145-176 | two headers with one label leave the first one's line in no block |
| Cfg.NoHeadersOneBlock | tools/unitrace/scripts/metrics/analyzeperfmetrics.py:165-167 | a listing without headers is one block |
| Stalls.HitsSameScoreboard | tools/unitrace/scripts/metrics/analyzeperfmetrics.py:341-348 | a token is only resolved by an instruction that sets the same scoreboard identifier |
| StallScans.HitsIff | tools/unitrace/scripts/metrics/analyzeperfmetrics.py:341-348 | a token of a line resolves a waited one iff it has no suffix and the waited one is it with a suffix, or both are equal and the line is no sync |
| Stalls.PredsAreOfHeaders | tools/unitrace/scripts/metrics/analyzeperfmetrics.py:145-169 | in a listing's blocks the predecessors of a label are those named in its last header line |
| StallProofs.WalkFollowsHeaders | tools/unitrace/scripts/metrics/analyzeperfmetrics.py:321-409 | a walk starts at the header above the stalled line and every step is named in a last header line |
| Stalls.MatchInstruction | tools/unitrace/scripts/metrics/analyzeperfmetrics.py:339-351 | the nested loops over a list that shrinks meanwhile, ValueError included |
| StallScans.MatchTokenCounts | tools/unitrace/scripts/metrics/analyzeperfmetrics.py:340-351 | the inner loop raises iff the line sets the token more often than it is waited for; else every hit resolves one occurrence and blames the line once |
| StallScans.LineSkips | tools/unitrace/scripts/metrics/analyzeperfmetrics.py:339-351 | against distinct tokens, none set twice, a line resolves each token it sets except the right neighbour of one just resolved |
| Stalls.ScanBlock | tools/unitrace/scripts/metrics/analyzeperfmetrics.py:328-351 | a stretch of lines is scanned backwards until nothing is waited for |
| StallScans.FirstRound | tools/unitrace/scripts/metrics/analyzeperfmetrics.py:321-351 | for one token the first round blames the nearest line above the stalled one in its block that sets it, and nothing when there is none there |
| StallProofs.ScanBackFollows | tools/unitrace/scripts/metrics/analyzeperfmetrics.py:330-351 | a scan loses no token and blames only addressed instructions of the stretch that carry a matching token |
| StallProofs.SearchIsCorrect | tools/unitrace/scripts/metrics/analyzeperfmetrics.py:321-413 | after any number of rounds resolved plus unresolved tokens are the initial ones and every blame lies in a stretch reached along predecessor edges |
| StallProofs.RoundGetsLighter | tools/unitrace/scripts/metrics/analyzeperfmetrics.py:406-413 | without a cycle the weight of the queue that is left strictly falls |
| StallProofs.AcyclicEnds | tools/unitrace/scripts/metrics/analyzeperfmetrics.py:321-413 | without a reachable cycle the search ends within weight(stalled block) + 1 rounds |
| StallProofs.EnqueueAll | tools/unitrace/scripts/metrics/analyzeperfmetrics.py:407-409 | the blocks of all predecessors are appended in order, an unknown label raises |
| StallProofs.SearchBackward | tools/unitrace/scripts/metrics/analyzeperfmetrics.py:321-413 | the worklist loop computes the rounds, ends, and its result is sound and conserves the tokens |
| StallEnds.ScanBackKeeps | tools/unitrace/scripts/metrics/analyzeperfmetrics.py:328-351 | a stretch that sets one waited token nowhere, and no token twice on a line, raises nothing and leaves that token waited for |
| StallEnds.DistinctIsTidy | tools/unitrace/scripts/metrics/analyzeperfmetrics.py:336-351 | distinct tokens on every reached line are enough for no line to set a token twice |
| StallEnds.CyclicNeverEnds | tools/unitrace/scripts/metrics/analyzeperfmetrics.py:321-413 | with a reachable cycle and a token that no reached stretch sets, the search is still running after any number of rounds |
| StallEnds.RanksOrCycle | tools/unitrace/scripts/metrics/analyzeperfmetrics.py:406-409 | a finite set of blocks has decreasing ranks or contains a cycle |
| StallEnds.InRegionIff | tools/unitrace/scripts/metrics/analyzeperfmetrics.py:406-409 | the region is exactly the set of labels at the end of a walk along predecessor edges |
| StallEnds.WalkIsVisited | tools/unitrace/scripts/metrics/analyzeperfmetrics.py:321-413 | a search that passes everything in its queue visits the stretch at the end of every walk, the later the longer the walk |
| StallEnds.LoopNeverEnds | tools/unitrace/scripts/metrics/analyzeperfmetrics.py:321-413 | a listing on which the search never ends although a later block sets the token |
| StallExact.IdleVisit | tools/unitrace/scripts/metrics/analyzeperfmetrics.py:321-413 | an endless search comes to a round from which on it only visits stretches that set nothing it waits for |
| StallExact.StuckRound | tools/unitrace/scripts/metrics/analyzeperfmetrics.py:321-413 | a round of a stuck search leaves it stuck |
| StallExact.EndlessIffStuck | tools/unitrace/scripts/metrics/analyzeperfmetrics.py:321-413 | for every problem: the search does not end iff after some round it is stuck |
| StallTokens.ScanRemoves | tools/unitrace/scripts/metrics/analyzeperfmetrics.py:328-351 | a line that sets one of the tokens and no other removes it, whatever the shrinking iteration skips, or the scan raises |
| StallTokens.LoopIsVisited | tools/unitrace/scripts/metrics/analyzeperfmetrics.py:321-413 | a thorough search visits a block behind a cycle later than any given round |
| StallTokens.SearchEndsIff | tools/unitrace/scripts/metrics/analyzeperfmetrics.py:321-413 | for any number of tokens: the search ends iff no cycle can be reached, an unknown label can be reached, or every token is set in a reached stretch; lines that set two tokens may only occur behind a cycle when all are set, and no line may set a token twice when one is not |
| StallTokens.SingleTokenEndsIff | tools/unitrace/scripts/metrics/analyzeperfmetrics.py:321-413 | its instance for one token, where any listing will do |
| StallTokens.SkippedNeverEnds | tools/unitrace/scripts/metrics/analyzeperfmetrics.py:339-351 | a listing on which one line sets both tokens, the second is skipped, and the search never ends |
| StallTokens.FinishedResolvesIff | tools/unitrace/scripts/metrics/analyzeperfmetrics.py:321-413 | a search that finishes still waits for a token iff no reached stretch sets it, when lines that set two tokens only occur behind a cycle |
| StallTokens.SingleTokenBlamedIff | tools/unitrace/scripts/metrics/analyzeperfmetrics.py:321-413 | with one token, a search that finishes blames an instruction iff a reached stretch sets the token |
| StallScans.UnsetRaisesIff | tools/unitrace/scripts/metrics/analyzeperfmetrics.py:406-409 | a search for a token set nowhere, when it ends, has raised KeyError iff it can reach an unknown label |
| Hexadecimal.FormatParses | tools/unitrace/scripts/metrics/analyzeperfmetrics.py:280-283 | int(text, 16) reads back every address formatted with 08X, with or without 0x or a sign in front |
| Hexadecimal.LowerParses | tools/unitrace/scripts/metrics/analyzeperfmetrics.py:280-283 | int(text, 16) reads small digits like capital ones |
| Hexadecimal.DigitsMean | tools/unitrace/scripts/metrics/analyzeperfmetrics.py:280-283 | the sixteen digits in order stand for 0 to 15, in either case |
| Hexadecimal.FurtherDigit | tools/unitrace/scripts/metrics/analyzeperfmetrics.py:280-283 | a further digit counts units and everything before it sixteen times as much |
| Hexadecimal.Underscores | tools/unitrace/scripts/metrics/analyzeperfmetrics.py:280-283 | a single underscore between digits is skipped; two, or one at an end, are an error |
| Hexadecimal.BlanksAround | tools/unitrace/scripts/metrics/analyzeperfmetrics.py:280-283 | blanks around the text change nothing |
| Addresses.Annotate | tools/unitrace/scripts/metrics/addrasm.py:28-39 | every instruction row gets the sum of the sizes above it in front, other rows stay |
| Addresses.IpCounts | tools/unitrace/scripts/metrics/addrasm.py:32-37 | an address is sixteen bytes for every instruction above, less eight for every compacted one |
| Addresses.AnnotatedText | tools/unitrace/scripts/metrics/addrasm.py:28-39 | row by row: an instruction, a row with a comment not at its start, gets its address in at least eight capital hexadecimal digits, in brackets and a comment, in front; any other row stays |
| Addresses.CheckAddressed | tools/unitrace/scripts/metrics/analyzeperfmetrics.py:218-228 | the check accepts exactly the listings in which every instruction starts with its own address |
| Addresses.PrefixKeepsRow | tools/unitrace/scripts/metrics/addrasm.py:32-37 | an address in front changes neither that a row is an instruction nor its size |
| Addresses.AnnotatedIsAddressed | tools/unitrace/scripts/metrics/analyzeperfmetrics.py:218-244 | the annotated listing passes the check with the same instructions and addresses |
| Addresses.IpIncreases | tools/unitrace/scripts/metrics/addrasm.py:34-37 | addresses strictly increase over the instructions |
| Addresses.LookupIsExact | tools/unitrace/scripts/metrics/analyzeperfmetrics.py:279-283 | the row found under an address is the only instruction at that address |
| Addresses.FindInstruction | tools/unitrace/scripts/metrics/analyzeperfmetrics.py:279-283 | in an addressed listing the search finds the instruction at the parsed address, or there is none, or the text is no hexadecimal number and raises ValueError |
| ReportPages.WriteOutStallReport | tools/unitrace/scripts/metrics/analyzeperfmetrics.py:504-549 | the loops cut the printed lines of the report into pages of 48 |
| ReportPages.AddLine | tools/unitrace/scripts/metrics/analyzeperfmetrics.py:511-540 | one line adds exactly its pieces to the full pages and the page being filled |
| ReportPages.PagesCoverAll | tools/unitrace/scripts/metrics/analyzeperfmetrics.py:504-549 | pages put together are all printed lines, all but the last are full, none is empty |
| ReportPages.PagesShowReport | tools/unitrace/scripts/metrics/analyzeperfmetrics.py:504-549 | the pages of a report hold at most 48 printed lines, all but the last exactly 48, and show every line of the report in order, cut after every 160 characters, an empty one as a line break |
| ReportPages.ChunksRejoin | tools/unitrace/scripts/metrics/analyzeperfmetrics.py:510-531 | the printed lines of a line put together are the line, each at most 160 characters |
| TraceFile.DocumentParses | tools/unitrace/src/chromelogger.h:478-530 | a trace document parses to exactly its items |
| TraceFile.LogIsUnclosedDocument | tools/unitrace/src/chromelogger.h:281 | at every event boundary the log plus the closing tag is the document of a clean shutdown |
| TraceFile.WriteTrace | tools/unitrace/src/chromelogger.h:475-534 | the logger leaves the document of the process record and the events, or no file when there are no events |
| TraceFile.LoadInput | tools/unitrace/scripts/tracemerge/mergetrace.py:32-68 | an input is closed exactly when that makes it load, and otherwise left as it was |
| TraceFile.CloseMerged | tools/unitrace/scripts/tracemerge/mergetrace.py:76-79 | moving the cursor back two characters and overwriting closes the document, or spoils the opening when nothing was merged |
| TraceFile.Merge | tools/unitrace/scripts/tracemerge/mergetrace.py:27-79 | the output joins the events of all inputs in order; every input ends repaired or unchanged |
| TraceFile.MergedIsDocumentIff | tools/unitrace/scripts/tracemerge/mergetrace.py:76-79 | the output parses to the merged events iff there is at least one |
| TraceFile.KilledLogIsRecovered | tools/unitrace/scripts/tracemerge/mergetrace.py:40-59 | a log cut at an event boundary is repaired to the clean document and all its events are merged |
| TraceFile.ClosedTraceIsKept | tools/unitrace/scripts/tracemerge/mergetrace.py:32-38 | a closed trace is merged unchanged |
| MergedTraces.TracesAreMerged | tools/unitrace/scripts/tracemerge/mergetrace.py:27-79 | of files left by killed or closed loggers, or empty, the merge takes every process record and event, file after file |
| MergedTraces.MergeTraces | tools/unitrace/scripts/tracemerge/mergetrace.py:27-79 | the output of such a merge parses to exactly these, if there are any |

## Left out

- Launcher, preloading, signals, dynamic loading and argument parsing of the tools: process plumbing.
- Real threads and memory ordering: a callback and a lock-held section are single steps, so the unlocked window between the finalized check and the buffering of a callback is not covered; no buffer is created after the teardown. A thread id may be used again once its thread has exited.
- Parsing of section headers, of CSV files and tar archives: sections arrive split into category and verb, names with their (time, calls) pairs, and an aggregator is any function to exact reals; rounding of floating point is not modelled, here and in the percentages of the oneCCL report.
- Empty tags: the configuration parser rejects empty option names, so every tag has at least one character.
- JSON string escaping, number formatting and the fields of an event line: an event is an opaque text, without line breaks where it is parsed back.
- Event records are reduced to name, function, start and end times; flow, mark and MPI payload fields are carried the same way and printed field by field.
- Text extraction from assembly lines (header labels, brace groups, "sync.", which tokens of a load or store count): a line arrives with these as fields; successors, source lines and source files are not part of the search.
- Which instruction is blamed when several set the same token, beyond that it is in a reached stretch; and which tokens are resolved when lines outside of cycles set several of them.
- The sorting and top-N selection of stalls, the other stall types, plotting, web serving and demangling.
- The escaping of dollar signs when a page is drawn.
- What stands behind a domain or task name of 510 characters and more, which is copied without a terminator, is a parameter of the begin and taken to stay the same until the end.
- Creating an event before the ITT interface is set up, which returns -1 and stores nothing.
- FindInstruction: the digits and blanks beyond ASCII that Python's int also accepts are read as ValueError; texts are sequences of characters without Unicode classes.
- PercentagesAddUpIff: percentages are exact reals, where the source rounds to single precision.
- `isIndirectData` of heap-allocated metadata nodes: it is never assigned in the source; the model gives it its intended value, false.
- Markers and the empty ITT entry points.
- Metadata of tasks that end without being logged is never released by the source; releases are modelled only for records that are written.
- Roofline arithmetic, generators, build files, test programs and `LowerBound`/`UpperBound` of `utils/utils.h`.
