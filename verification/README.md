# QTR-tool: the trace pipeline, modelled and proved

QTR-tool logs the heap events of a running Java program under a lock, and a simulator written in C++ replays the log
to find when each object became unreachable. This project models that pipeline in Dafny, from the hooks to the list
of records with death records in it, and proves what each part is for.

- **Event buffer** (`EventBuffer`, `TraceBuffer`, `Interleaving`): the hooks of `QTRProxy` on parallel arrays that are
  flushed when full. `TraceBuffer.QTRProxy` is the class with its arrays; `EventBuffer` says what one call does, as a
  function; `Interleaving` breaks the hooks into the steps of threads that compete for the reentrant lock, with the
  thread-local flag, the nested lock of a flush and the check-then-insert of object ids as separate steps.
- **Trace format** (`Text`, `Tokenizer`, `TraceFormat`): the printed lines, the tokenizer that splits its buffer in
  place, and the reader's decoding of the words.
- **Reader** (`Records`, `Heap`, `TraceReader`, `Simulator`): the state machine of `read_trace_file_part1`. `Simulator`
  is the class on the heap, `TraceReader` the function it is proved against.
- **Merlin and death records** (`Reachability`, `MerlinSteps`, `Merlin`, `DeathInsertion`): `apply_merlin` on a heap
  graph of objects and edges, and the merge of death records into the trace.
- **Whole runs** (`Pipeline`, `EndToEnd`): the simulator's main program on any file, and the way of an event from a
  hook call in some thread to a record in the simulator.
- **Union-find** (`DisjointSets`), **calling contexts** (`CallingContext`, `Execution`, `ThreadRuns`), the
  **end-of-program counters** (`EndOfProgram`) and what id 0 can do (`ObjectZero`).

The main results: whatever the interleaving, the file holds each event once, in lock order and with the right fields
(`InterleavingIsSequential`, `RecordedRunIsReadBack`), no hook call is dropped that should not be and none is stuck
(`HookIsEntered`, `EveryCallFinishes`), and object ids stay as they are at every moment
(`IdsStayInEveryInterleaving`); the reader takes exactly the inputs that `ReaderTakes` describes, and stamps and
objects follow from the records (`RunKeepsInvariant`, `AcceptedIsAccounted`); Merlin gives every object the latest first timestamp that reaches it (`ApplyMerlin`); the merged list is known
record by record (`MergeIsMerge`);
from the hooks to the merged list, no record uses an object after its death record and each object has exactly one
(`RecordedRunIsAnalysed`, `NoUseAfterMerlin`, `SimMain`); `find` decides the equivalence closure of the unions in
logarithmic depth (`FindDecidesRelated`, `Find`); the nodes of the calling-context tree and the method stack tell the
same on every run exactly when method ids are unique (`RunFull`, `RecordsAgreeIffIdsUnique`, `SameNodeSameStack`).

Where the code does less than its comments or names suggest, the model follows the code and says exactly how far it
goes:

- The merged list is not always sorted. A death record is stamped with the stamp read before last, so an object that
  outlives the trace can get a `D` record that goes back (`MergeCanGoBack`); `MergeIsSorted` has the exact condition.
- Once the trace is used up, all further death records get the stamp of the first of them, whatever their objects'
  timestamps (`DeathsShareLastStamp`).
- Records stamped later than every object's final timestamp are not in the merged list (`MergeKeepsRecords`).
- A line without tokens ends the trace, whatever follows it (`BlankLineEndsTrace`).
- `AllocRecord` leaves its dimension count unset for an array event without dimensions (`DimCountRoundTrip`).
- In M, A and N records id 0 means "no object", and "uses an object" is read that way. A U record can make an object 0,
  though; read by id alone, a record with id 0 can then follow that object's `D` record
  (`ZeroCanBeCarriedLate`), and `NoIdAfterDeathIffZeroNotCarriedLate` says exactly when.
- `DisjointSets::find` enters an element that was never made under a null parent. All such elements are thereby
  joined to the null pointer, as an extra element; `m_set_size` does not count them, and the recursion can be one
  deeper (`Find`, `SizeOfClass`, `DepthIsLogarithmic`).
- Numbers are printed as ints and scanned into unsigned ints, so a negative one comes back modulo 2^32
  (`FileRoundTrip`).
- A `CCNode` finds callees by method id, so two methods with one id share a node and the tree then names the wrong
  method (`SharedIdDisagrees`).
- The `U` case replaces edges but never makes a first one, so the reader's own heap has no edges
  (`ReaderHeapIsClosed`). The Merlin theorems are therefore stated for every heap graph.
- In `__end_of_program` an object whose flag is already set keeps it, but is counted at-end all the same because its
  reason changes; the branch for a death time equal to the end time cannot be reached.

Conventions: object ids, timestamps and counters are unbounded naturals, which agrees with the code while counters
stay below 2^32 (sizes in `EndOfProgram` and scanned numbers wrap explicitly). Identity hash codes, object sizes,
array lengths and clock readings are inputs of the hooks. A failed `assert`, and a `stoi` that throws, are outcomes
of the model (`Abort`), not preconditions.

## Model

| member | source | states |
|---|---|---|
| `Merlin.ApplyMerlin` | simulator/simulator.cpp:212-293 | For every heap whose edges stay inside it, cyclic or not: each last timestamp and death time becomes the maximum first timestamp over all objects that reach the object; every edge ends with its source; the list is the merge of trace and death records |
| `Merlin.Propagate` | simulator/simulator.cpp:231-289 | The same result from any order of garbage that is descending in timestamp, so sort ties, field order and map order do not matter; the loop terminates |
| `Merlin.Trace` | simulator/simulator.cpp:232-288 | One traversal: the objects reached from cur get their final times and leave garbage, nothing else changes; it ends although labeled objects are pushed again, by unlabeled objects and then stack length |
| `Merlin.VisitNext` | simulator/simulator.cpp:239-287 | One round of the inner loop: pop, set the death time, erase from garbage, label, visit the fields if new; keeps the traversal invariant |
| `Merlin.VisitEdge` | simulator/simulator.cpp:266-284 | An edge gets the end time, and its target the time if it is later than the target's own |
| `Merlin.Erase` | simulator/simulator.cpp:247-253 | std::find and erase: exactly the object leaves the list, and nothing if it is not there |
| `Merlin.SortByTimestamp` | simulator/simulator.cpp:223-229 | The same objects in descending order of timestamp |
| `Merlin.EdgeEndsBeforeTargetDies` | simulator/simulator.cpp:258-278 | After Merlin every edge ends with its source's death, no later than its target dies |
| `MerlinSteps.PopUnlabeled` | simulator/simulator.cpp:256-287 | The traversal invariant survives labeling an object, raising its targets and pushing them: visited objects have final times and their targets are visited or on the stack |
| `MerlinSteps.PopLabeled` | simulator/simulator.cpp:239-256 | The traversal invariant survives popping an object that was labeled before |
| `MerlinSteps.StartTracing` | simulator/simulator.cpp:232-238 | The first object left in garbage still has its first timestamp, the latest of all that are left |
| `MerlinSteps.EndTracing` | simulator/simulator.cpp:239-288 | With the stack empty the visited set is closed under edges and carries the latest timestamps |
| `MerlinSteps.SweptEverything` | simulator/simulator.cpp:232-289 | With garbage empty every object carries the latest timestamp that reaches it, as last timestamp and as death time |
| `Reachability.Latest` | simulator/simulator.cpp:212-289 | The intended death time exists: the maximum first timestamp over the objects that reach y |
| `Reachability.LatestUnique` | simulator/simulator.cpp:223-229 | That maximum is unique, so nothing is left to ties or to the order of visits |
| `Reachability.LatestFromFirst` | simulator/simulator.cpp:232-238 | An object reached from the latest object outside a closed finished set gets exactly that object's timestamp |
| `Reachability.LatestGrowsAlongEdge` | simulator/simulator.cpp:271-284 | Final times never decrease along an edge |
| `Reachability.LatestSharedOnCycles` | simulator/simulator.cpp:212-289 | Objects on a common cycle share one death time |
| `Reachability.LatestIdempotent` | simulator/simulator.cpp:212-289 | A second propagation over the same edges changes nothing |
| `DeathInsertion.InsertDeathRecords` | simulator/simulator.cpp:157-186 | The list is the merge of the trace with the heap's objects in id order and their timestamps, and meets IsMerge: each copied record and each D record, with its stamp, in its place as the cuts of the trace give them |
| `DeathInsertion.CopyUpTo` | simulator/simulator.cpp:167-177 | The inner loop: copies up to the first record stamped later than the object; what prev_timestamp and rec_timestamp hold then is given in terms of the trace, and neither moves when the trace is used up |
| `DeathInsertion.MergeIsMerge` | simulator/simulator.cpp:157-186 | Without the iterator: the D record of object k stands right after the longest prefix stamped no later than the latest time of objects 0 to k, at the index of that prefix plus k, and its stamp is given by the cuts at k and k-1 (carry-over of rec_timestamp, the stamp before last at the end of the trace, and the previous D record's stamp once the trace is used up) |
| `DeathInsertion.MergeIsUnique` | simulator/simulator.cpp:157-186 | No other list is like that |
| `DeathInsertion.DeathsShareLastStamp` | simulator/simulator.cpp:167-181 | Once all of the trace is in the list, every further D record has the same stamp as the one before |
| `DeathInsertion.MergeKeepsRecords` | simulator/simulator.cpp:157-186 | Without its D records the list is exactly the trace up to the first record stamped later than every object; the D records name the objects in heap order |
| `DeathInsertion.OneDeathEach` | simulator/simulator.cpp:163-183 | Each heap object gets exactly one D record, and ids ascend |
| `DeathInsertion.DeathsComeLate` | simulator/simulator.cpp:166-183 | In a nondecreasing trace every record after an object's D record is stamped later than that object's final timestamp |
| `DeathInsertion.WeaveTakesFromRest` | simulator/simulator.cpp:167-177 | Every other record in the list comes from the part of the trace not yet copied |
| `DeathInsertion.MergeIsSorted` | simulator/simulator.cpp:161-184 | The whole list, D records included, is nondecreasing if and only if the trace is empty or Overtaken fails: the last record is stamped later than the one before it, some object lives at least to the last stamp, and all objects before that one end before the stamp of the record before last |
| `DeathInsertion.WeaveIsSorted` | simulator/simulator.cpp:161-184 | The same from any point of the merge, with the exact carry-over of prev_timestamp and rec_timestamp between objects |
| `DeathInsertion.MergeIsSortedWhenTraceOutlivesHeap` | simulator/simulator.cpp:161-184 | If the last record is stamped later than every object, the list is nondecreasing |
| `DeathInsertion.MergeCanGoBack` | simulator/simulator.cpp:167-181 | A concrete nondecreasing trace whose list goes back: the D record of an object that outlives the trace gets the stamp before last |
| `Records.VerifyTrace` | simulator/simulator.cpp:135-153 | True exactly when the stamps never go back |
| `Simulator.Simulator.Process` | simulator/simulator.cpp:344-613 | One round of the reader's switch on heap, clock and trace does what Step specifies, or stops exactly when Step aborts |
| `Simulator.Simulator.ProcessMethod` | simulator/simulator.cpp:346-384 | M: tick, record, create the receiver if unknown, stamp it |
| `Simulator.Simulator.ProcessAlloc` | simulator/simulator.cpp:406-471 | A and N: record at the time before the tick, replace the map entry, then tick, unless the id is 0; RunKeepsInvariant fixes the stamp by the records before |
| `Simulator.Simulator.ProcessUpdate` | simulator/simulator.cpp:473-579 | U: tick, record, look up or create both objects, stop on a missing target, stamp both, redirect a field that already leads elsewhere |
| `Simulator.Simulator.ProcessWitness` | simulator/simulator.cpp:581-609 | W: record and stamp, or stop if the object was never seen |
| `Simulator.Simulator.LookupOrCreate` | simulator/simulator.cpp:497-520 | An object without an allocation record is created once and entered in no_alloc_map |
| `Simulator.Simulator.UpdateEdge` | simulator/simulator.cpp:555-577 | A new edge replaces the old one only if the field holds an edge to another object |
| `TraceReader.RunKeepsInvariant` | simulator/simulator.cpp:304-617 | Over every accepted input: each stamp is the number of ticks of the records before it, plus its own tick for M and U records but not for A and N; the clock counts M, U and A/N records with nonzero id, each timestamp is the stamp of the last record that mentions the object, no_alloc_map stays inside the heap, and neither DUPE assertion can fire |
| `TraceReader.StepKeepsInvariant` | simulator/simulator.cpp:344-613 | One line keeps that invariant |
| `TraceReader.AcceptedIsAccounted` | simulator/simulator.cpp:304-617 | Over every accepted input the heap follows from the records alone: it holds the ids they use; each object has the size, kind, flag and creation time of its last A or N record, or 4, M or U, false and the stamp of its first use; total_objects counts A and N records with an id and other first uses; no_alloc_map holds the ids first used by a U record |
| `TraceReader.RunKeepsAccounts` | simulator/simulator.cpp:304-617 | From any state of which that holds it goes on to hold |
| `TraceReader.StepKeepsAccounts` | simulator/simulator.cpp:344-613 | One line keeps that |
| `TraceReader.ReaderTakes` | simulator/simulator.cpp:344-613 | The reader takes an input to its end if and only if every line has the right number of tokens, every U line has a target other than 0, and every W line names an object that an earlier line names |
| `TraceReader.StepNeverDuplicates` | simulator/simulator.cpp:497-546 | With no_alloc_map inside the heap map a line never reaches a DUPE assertion |
| `TraceReader.LastUseIsLatest` | simulator/simulator.cpp:304-617 | The stamp of the last record that mentions an object bounds the stamp of every record that does |
| `TraceReader.UpdateRedirectsField` | simulator/simulator.cpp:555-577 | A U line redirects the one field it names if that field leads somewhere, never makes a first edge, and leaves all other fields alone |
| `TraceReader.UpdateExtends` | simulator/simulator.cpp:473-579 | A U line adds one record and moves only the clock and the two objects it names |
| `Pipeline.SimMain` | simulator/simulator.cpp:856-859 | For every file the reader accepts: verification succeeds, Merlin runs on a closed heap, and no record of the merged list uses an object after its D record; id 0 in an M, A or N record is no object |
| `Pipeline.NoUseAfterMerlin` | simulator/simulator.cpp:212-293 | No use after death for every accepted trace and whatever edges the heap has when Merlin propagates the reader's timestamps; id 0 in an M, A or N record is no object |
| `Pipeline.LateDeathsComeAfterUses` | simulator/simulator.cpp:157-186 | No use after death whenever no final timestamp is earlier than the reader's |
| `Pipeline.ReadTraceFile` | simulator/simulator.cpp:328-617 | Reading a file line by line through the tokenizer gives the run of the decoded lines, to the end or to the first failed assertion |
| `Pipeline.ReadNext` | simulator/simulator.cpp:328-614 | One round of the loop: next line, stop if it has no tokens, decode, process |
| `Pipeline.ReadLine` | simulator/simulator.cpp:343-613 | Reading the tokens through getChar, getInt and getString decodes the line |
| `Pipeline.ReaderHeapIsClosed` | simulator/simulator.cpp:555-577 | From an empty heap the reader installs no edge, so the heap it leaves is closed |
| `ObjectZero.NoIdAfterDeathIffZeroNotCarriedLate` | simulator/simulator.cpp:157-186 | Read by id alone, no record carries an id after its D record if and only if there is no object 0, or no M, A or N record with id 0 is stamped after its final timestamp and no later than some object's |
| `ObjectZero.ZeroCanBeCarriedLate` | simulator/simulator.cpp:363-384 | An accepted trace of three lines in which an M record with receiver 0 follows the D record of object 0 |
| `DisjointSets.RelatedIsEquivalenceClosure` | simulator/analyze.cpp:67-95 | Related is the smallest equivalence that contains every pair united |
| `DisjointSets.FindDecidesRelated` | simulator/analyze.cpp:54-65 | Two elements share a root exactly when the pairs united so far relate them |
| `DisjointSets.DisjointSets.Find` | simulator/analyze.cpp:54-65 | For every argument: returns the root, compresses the path and changes no root of an element; an element never made is entered under the root of the null pointer and joined to it; the depth is at most log2 of the number of elements, plus one for an element never made |
| `DisjointSets.DisjointSets.SetUnion` | simulator/analyze.cpp:67-95 | For all arguments: keeps every invariant and adds the pair to the relation, after what the two finds add; the root of lower rank is hung below the other, the one of b on a tie, and only then a rank grows |
| `DisjointSets.DisjointSets.LinkByRank` | simulator/analyze.cpp:74-95 | The three rank cases; ranks and sizes that are not there count as 0 |
| `DisjointSets.DisjointSets.MakeSet` | simulator/analyze.cpp:45-52 | A new element is a class of its own; a known one changes nothing |
| `DisjointSets.DisjointSets.IsRoot` | simulator/analyze.cpp:35-43 | True exactly for an element that is its own root |
| `DisjointSets.DisjointSets.GetSets` | simulator/analyze.cpp:112-122 | Every element with a size is filed under its root, and nothing else, while find compresses paths |
| `DisjointSets.GroupsAreClasses` | simulator/analyze.cpp:112-122 | The groups of get_sets are exactly the classes of the pairs united, as far as their elements have sizes |
| `DisjointSets.DepthIsLogarithmic` | simulator/analyze.cpp:54-65 | 2^depth is at most the number of elements, twice that for an element never made |
| `DisjointSets.CompressionKeepsRoots` | simulator/analyze.cpp:60-63 | Pointing an element at its root keeps every root and the order of ranks |
| `DisjointSets.UnionKeepsInvariants` | simulator/analyze.cpp:74-95 | Linking keeps ranks rising along parents, at least 2^rank elements below a root, the sizes exact and the relation exact |
| `DisjointSets.LinkIsSized` | simulator/analyze.cpp:77-93 | The size stored at every root stays the number of made elements of its class |
| `DisjointSets.SizeOfClass` | simulator/analyze.cpp:74-95 | The size stored at a root is the size of its class exactly if all of the class was made, and then at least 2^rank |
| `DisjointSets.ExtendedImplements` | simulator/analyze.cpp:54-65 | An element that find enters is related to the null pointer, and to what that is related to |
| `DisjointSets.LinkImplements` | simulator/analyze.cpp:74-95 | Sharing a root after the link is being related by the unions and the new pair |
| `DisjointSets.RedundantUnion` | simulator/analyze.cpp:69-73 | Uniting two elements of one class changes no root |
| `EventBuffer.RunAllPrintsEvents` | javassist-inst/qtrtool/src/main/java/veroy/research/qtrtool/javassist/QTRProxy.java:63-225 | After any sequence of hook calls the text written followed by the text of slots 0 to ptr-1 is the lines of all events in order; the buffer never overflows |
| `EventBuffer.RunCallAddsLine` | javassist-inst/qtrtool/src/main/java/veroy/research/qtrtool/javassist/QTRProxy.java:63-225 | One call adds exactly the line of its event, whatever an earlier event left in the slot |
| `EventBuffer.RunCallGrowsIds` | javassist-inst/qtrtool/src/main/java/veroy/research/qtrtool/javassist/QTRProxy.java:539-548 | One call gives ids to exactly the objects and the thread it names, and changes none |
| `EventBuffer.RunCallNumbersInOrder` | javassist-inst/qtrtool/src/main/java/veroy/research/qtrtool/javassist/QTRProxy.java:151-178 | Objects named for the first time are numbered in the order the hook looks them up, the thread last: target before source, allocated object or receiver before thread |
| `EventBuffer.RunAllNumbers` | javassist-inst/qtrtool/src/main/java/veroy/research/qtrtool/javassist/QTRProxy.java:539-548 | Ids are exactly 1, 2, ..., n, one for each object and thread named |
| `EventBuffer.IdsAreStable` | javassist-inst/qtrtool/src/main/java/veroy/research/qtrtool/javassist/QTRProxy.java:539-548 | In a sequence of calls, an id once given is never changed by later ones |
| `EventBuffer.FilledPrintsEvent` | javassist-inst/qtrtool/src/main/java/veroy/research/qtrtool/javassist/QTRProxy.java:358-424 | The slot a call has filled prints as the line of its event, independent of stale fields |
| `EventBuffer.FlushedKeepsOutput` | javassist-inst/qtrtool/src/main/java/veroy/research/qtrtool/javassist/QTRProxy.java:358-446 | A flush writes everything in the buffer once and empties it |
| `EventBuffer.FlushToWrites` | javassist-inst/qtrtool/src/main/java/veroy/research/qtrtool/javassist/QTRProxy.java:362-441 | After i rounds of the flush loop exactly the first i slots are written and the others untouched |
| `EventBuffer.RunAllWitnesses` | javassist-inst/qtrtool/src/main/java/veroy/research/qtrtool/javassist/QTRProxy.java:227-245 | The witness map holds the last witness of each object under its id, and nothing else |
| `EventBuffer.RunCallWitnesses` | javassist-inst/qtrtool/src/main/java/veroy/research/qtrtool/javassist/QTRProxy.java:227-245 | Only a witness call changes the witness map, and only at its object's id |
| `EventBuffer.ShutdownWritesEverything` | javassist-inst/qtrtool/src/main/java/veroy/research/qtrtool/javassist/DynamicInstrumenter.java:57-65 | After the shutdown hook the file holds the lines of all events |
| `TraceBuffer.QTRProxy.OnEntry` | javassist-inst/qtrtool/src/main/java/veroy/research/qtrtool/javassist/QTRProxy.java:63-88 | Flushes a full buffer, claims a slot and fills it: method, receiver id or 0, event type 1, time, thread id; the new state is RunCall of the old one |
| `TraceBuffer.QTRProxy.OnExit` | javassist-inst/qtrtool/src/main/java/veroy/research/qtrtool/javassist/QTRProxy.java:90-115 | The same for a method exit; fields it does not write keep what an earlier event left |
| `TraceBuffer.QTRProxy.OnObjectAlloc` | javassist-inst/qtrtool/src/main/java/veroy/research/qtrtool/javassist/QTRProxy.java:117-144 | The same for an object: id, class, site, size; ids are looked up while the slot is being filled |
| `TraceBuffer.QTRProxy.OnPutField` | javassist-inst/qtrtool/src/main/java/veroy/research/qtrtool/javassist/QTRProxy.java:151-178 | The same for a field update: id of the new target, field, id of the source |
| `TraceBuffer.QTRProxy.OnArrayAlloc` | javassist-inst/qtrtool/src/main/java/veroy/research/qtrtool/javassist/QTRProxy.java:187-225 | The same for an array, with its dimensions, and length 0 when the object is no array |
| `TraceBuffer.QTRProxy.SaveDimsToBuffer` | javassist-inst/qtrtool/src/main/java/veroy/research/qtrtool/javassist/QTRProxy.java:180-185 | Stores the number of dimensions and the dimensions as text that DimsRoundTrip reads back |
| `TraceBuffer.QTRProxy.WitnessObjectAliveVer2` | javassist-inst/qtrtool/src/main/java/veroy/research/qtrtool/javassist/QTRProxy.java:227-245 | Enters the object in the witness map and takes no slot |
| `TraceBuffer.QTRProxy.FlushBuffer` | javassist-inst/qtrtool/src/main/java/veroy/research/qtrtool/javassist/QTRProxy.java:354-446 | Prints min(ptr, BUFMAX) slots, clears their dimensions and resets ptr |
| `TraceBuffer.QTRProxy.GetObjectId` | javassist-inst/qtrtool/src/main/java/veroy/research/qtrtool/javassist/QTRProxy.java:539-548 | Returns the known id, or the next one and enters it |
| `Interleaving.InterleavingIsSequential` | javassist-inst/qtrtool/src/main/java/veroy/research/qtrtool/javassist/QTRProxy.java:63-245 | In every interleaving of threads, whenever the lock is free the shared state equals running the finished calls one after the other in lock order: nothing lost, doubled or mixed, ptr at most BUFMAX, ids exactly 1 to n |
| `Interleaving.PlayKeepsInv` | javassist-inst/qtrtool/src/main/java/veroy/research/qtrtool/javassist/QTRProxy.java:63-245 | Every reachable state: the owner of the lock is the only thread inside, as deep as the lock counts, and the buffer is the finished calls plus the done part of the owner's call |
| `Interleaving.StepKeepsInv` | javassist-inst/qtrtool/src/main/java/veroy/research/qtrtool/javassist/QTRProxy.java:63-446 | Every step of every thread keeps that: test, flush, claim, check-then-insert of an id, write, unlock |
| `Interleaving.IdsStayInEveryInterleaving` | javassist-inst/qtrtool/src/main/java/veroy/research/qtrtool/javassist/QTRProxy.java:539-548 | Between any two moments of any schedule, lock held or not, no id changes or goes away |
| `Interleaving.IdsAreExactInEveryState` | javassist-inst/qtrtool/src/main/java/veroy/research/qtrtool/javassist/QTRProxy.java:539-548 | In every state of every schedule, lock held or not, no two objects share an id and the ids are 1 to n; a number taken but not yet entered is the next one |
| `Interleaving.StepKeepsIds` | javassist-inst/qtrtool/src/main/java/veroy/research/qtrtool/javassist/QTRProxy.java:539-548 | The step that enters an id does so only where there is none |
| `Interleaving.BeginKeepsInv` | javassist-inst/qtrtool/src/main/java/veroy/research/qtrtool/javassist/QTRProxy.java:63-70 | Beginning a hook keeps the invariant; HookIsEntered says what it begins |
| `Interleaving.HookIsEntered` | javassist-inst/qtrtool/src/main/java/veroy/research/qtrtool/javassist/QTRProxy.java:63-70 | In every state of every schedule a hook call of a thread that is in no hook begins, with the lock held or not: it is added to the calls the thread has begun and the thread then waits for the lock; a call from inside a hook is dropped, and no other thread, nor the buffer, moves |
| `Interleaving.WaitingThreadEnters` | javassist-inst/qtrtool/src/main/java/veroy/research/qtrtool/javassist/QTRProxy.java:70-70 | A waiting thread takes the lock with its next step whenever the lock is free |
| `Interleaving.EveryCallFinishes` | javassist-inst/qtrtool/src/main/java/veroy/research/qtrtool/javassist/QTRProxy.java:63-245 | No deadlock: from every state of every schedule, steps of the threads alone bring any given thread to the end of its hook, with all the calls it has begun in the log |
| `Interleaving.OwnerFinishes` | javassist-inst/qtrtool/src/main/java/veroy/research/qtrtool/javassist/QTRProxy.java:71-87 | The owner of the lock can go on alone until it has released it |
| `Interleaving.LookupKeepsInv` | javassist-inst/qtrtool/src/main/java/veroy/research/qtrtool/javassist/QTRProxy.java:539-548 | The separate steps of getObjectId keep the invariant: no other thread can come between check and insert |
| `Interleaving.FlushKeepsInv` | javassist-inst/qtrtool/src/main/java/veroy/research/qtrtool/javassist/QTRProxy.java:358-446 | The flush inside a hook takes the lock a second time and gives back only its own hold |
| `Interleaving.MutualExclusion` | javassist-inst/qtrtool/src/main/java/veroy/research/qtrtool/javassist/QTRProxy.java:71-87 | At most one thread is between lock and unlock |
| `Interleaving.CallsStayInProgramOrder` | javassist-inst/qtrtool/src/main/java/veroy/research/qtrtool/javassist/QTRProxy.java:63-245 | Each thread's calls enter the log in the order it began them, and only its last one can still be missing; HookIsEntered says which calls it begins |
| `Interleaving.OwnerLeaves` | javassist-inst/qtrtool/src/main/java/veroy/research/qtrtool/javassist/QTRProxy.java:71-87 | Each step of the owner leaves the critical section or brings it closer, so no hook keeps the lock for ever |
| `TraceFormat.FileRoundTrip` | javassist-inst/qtrtool/src/main/java/veroy/research/qtrtool/javassist/QTRProxy.java:362-424 | Printing events with int numbers and lines that fit, then tokenizing and decoding the file, gives back the same records in the same order, each number modulo 2^32 |
| `TraceFormat.LineRoundTrip` | simulator/simulator.cpp:346-579 | The line of an event splits into its words and decodes with every field in its place |
| `TraceFormat.DimCountRoundTrip` | simulator/record.hpp:75-87 | The parsed dimension count is the number of dimensions, and stays unset exactly for none |
| `TraceFormat.DimsRoundTrip` | javassist-inst/qtrtool/src/main/java/veroy/research/qtrtool/javassist/QTRProxy.java:180-185 | What saveDimsToBuffer stores splits at its commas into the number of dimensions and each dimension, in order and in decimal, with single commas between |
| `TraceFormat.LineIsSingleSpaced` | javassist-inst/qtrtool/src/main/java/veroy/research/qtrtool/javassist/QTRProxy.java:362-424 | A printed line has single blanks between its words and one newline, at its end |
| `TraceFormat.BlankLineEndsTrace` | simulator/simulator.cpp:328-342 | A line without tokens ends the trace: the reader sees nothing of what follows |
| `TraceFormat.TokenCountDecides` | simulator/simulator.cpp:346-475 | A line that starts like an event's line is taken exactly if it has as many tokens, and for an array a readable dimension count |
| `TraceFormat.WitnessLineRoundTrip` | simulator/simulator.cpp:581-598 | A W line of three ints decodes with every field in its place |
| `TraceFormat.FirstLine` | simulator/tokenizer.cpp:7-56 | fgets takes the first printed line whole and leaves the rest |
| `Text.ScanIntString` | simulator/tokenizer.cpp:58-67 | Scanning a printed int gives it back, read into an unsigned int modulo 2^32 |
| `Text.ScanAmid` | simulator/tokenizer.cpp:58-67 | The same after blanks and before any text that does not go on with a digit |
| `Text.SplitAtDelimiter` | simulator/tokenizer.cpp:21-40 | Splitting a text with a delimiter in it is splitting what is before and what is after; with SplitRun this fixes the split of every text |
| `Text.SplitRun` | simulator/tokenizer.cpp:21-40 | A text without delimiters is its own only part, and none if it is empty |
| `Text.SplitJoin` | simulator/tokenizer.cpp:21-40 | Words joined by blanks are split into the same words |
| `Tokenizer.Tokenizer.GetLine` | simulator/tokenizer.cpp:7-56 | Token i, read from its stored start to the next NUL, is the i-th maximal run of non-delimiters of the line; isDone holds exactly when there is none |
| `Tokenizer.Tokenizer.SplitInPlace` | simulator/tokenizer.cpp:21-40 | Overwriting delimiters in place keeps every other character and finds the starts of the runs |
| `Tokenizer.Tokenizer.Gets` | simulator/tokenizer.cpp:11-11 | fgets: the next LINESIZE-1 characters at most, through the newline |
| `Tokenizer.Tokenizer.GetInt` | simulator/tokenizer.cpp:58-67 | The number scanned from token i, or 0 |
| `Tokenizer.Tokenizer.GetString` | simulator/tokenizer.cpp:69-77 | Token i, or the null pointer |
| `Tokenizer.Tokenizer.GetChar` | simulator/tokenizer.cpp:79-87 | The first character of token i, or NUL |
| `Tokenizer.StartsAreSplit` | simulator/tokenizer.cpp:21-40 | The starts found from left to right are those of the functional split |
| `Tokenizer.MaskedWord` | simulator/tokenizer.cpp:24-39 | Read up to NUL, the overwritten line gives the run that starts there |
| `EndToEnd.RecordedRunIsReadBack` | simulator/simulator.cpp:328-617 | For every interleaving that ends with the shutdown hook: the simulator reads the file without a failed assertion and holds one record for each event, in lock order, with every field in place and stamped by the ticks before it |
| `EndToEnd.RecordedRunIsAnalysed` | simulator/simulator.cpp:856-859 | The whole way, for every interleaving that ends with the shutdown hook and whatever edges the heap gets: the reader accepts the file, verification succeeds, exactly the objects that events name get one D record each, and no record uses an object after its D record |
| `EndToEnd.HeapHoldsNamedObjects` | simulator/simulator.cpp:344-579 | The reader's heap holds exactly the objects that the events name |
| `EndToEnd.EventsAreRecorded` | simulator/simulator.cpp:344-613 | The reader accepts every sequence of readable events and appends one matching record for each |
| `EndToEnd.EventIsRecorded` | simulator/simulator.cpp:344-579 | The line of one readable event is accepted and its record holds the event's fields |
| `EndToEnd.UpdatesNameTargets` | javassist-inst/qtrtool/src/main/java/veroy/research/qtrtool/javassist/QTRProxy.java:539-548 | Ids start at 1, so every recorded update names a target the reader accepts |
| `CallingContext.RecordsAgreeIffIdsUnique` | simulator/execution.cpp:120-201 | Full and StackOnly hold the same methods after every sequence of calls and returns if and only if no two of the methods share an id; ThreadRuns.RunFull ties this to the nodes |
| `CallingContext.PathIsStackIds` | simulator/execution.cpp:120-201 | Unique ids or not, the ids on the way to the current node are the ids on the method stack, returns on an empty stack and from the wrong method included |
| `CallingContext.UniqueIdsAgree` | simulator/execution.cpp:12-28 | With unique ids the methods filed on the way to the current position are the method stack |
| `CallingContext.SamePositionSameStack` | simulator/execution.cpp:12-37 | With unique ids two sequences of events lead to the same position exactly when they lead to the same method stack |
| `CallingContext.SharedIdDisagrees` | simulator/execution.cpp:12-28 | Two methods with one id: the second call lands on the first one's node |
| `CallingContext.MoveKeepsContextOk` | simulator/execution.cpp:12-37 | Each node's way is in the tree and ends with its method's id |
| `ThreadRuns.RunFull` | simulator/execution.cpp:120-201 | On every run of a Full thread: the nodes m_curcc goes through are known, and walking m_parent up from it meets the methods of the stack exactly when the two records agree |
| `ThreadRuns.RunStackOnly` | simulator/execution.cpp:120-201 | On every run of a StackOnly thread m_methods is the stack of the calls not yet returned from |
| `ThreadRuns.SameNodeSameStack` | simulator/execution.cpp:12-37 | With unique ids, m_curcc is the same node at two moments of a run exactly when the method stacks of the two moments are equal |
| `ThreadRuns.SameNodeSameIds` | simulator/execution.cpp:12-37 | Unique ids or not, m_curcc is the same node at two moments exactly when the ids on the stack are the same |
| `ThreadRuns.WalkIsStack` | simulator/execution.cpp:120-201 | With unique ids, at every moment the methods from m_curcc up to, but excluding, the root are m_methods from the top |
| `ThreadRuns.AgreeIsWalk` | simulator/execution.cpp:120-201 | The walk up from m_curcc meets the stack exactly when the two records agree |
| `ThreadRuns.RunThreads` | simulator/execution.cpp:503-521 | On every run of all threads, however mixed: each thread holds the record of its own events, the clock counts every event, and the shared pair counts are those of PairsAfter |
| `Execution.PairsCountCalls` | simulator/execution.cpp:127-151 | After every run of all threads the count of a pair is the number of calls in it, of any thread, with that callee and that caller; in Full mode nothing is counted |
| `Execution.ChainIsMethodsTo` | simulator/execution.cpp:12-37 | Walking from a node up its parents meets the methods of the nodes on the way to it |
| `Execution.CCNode.Call` | simulator/execution.cpp:12-28 | Returns the callee with that id, made and entered if it was not there |
| `Execution.CCNode.SimpleCcEqual` | simulator/execution.cpp:97-112 | True exactly when the methods up to the root are the same |
| `Execution.EqualContextsAreOneNode` | simulator/execution.cpp:97-112 | On nodes of one tree simple_cc_equal holds exactly for a node and itself |
| `Execution.NodesAreWays` | simulator/execution.cpp:12-28 | In one tree, two nodes are the same exactly when the ids on the way to them are |
| `Execution.Thread.Call` | simulator/execution.cpp:120-152 | Moves the tree position, or pushes the method, sets the context pair and counts the pair of the top two methods, by mode; nodes made before stay |
| `Execution.Thread.CallStack` | simulator/execution.cpp:127-151 | Pushes, records the context pair and counts the pair of the top two methods |
| `Execution.Thread.MoveToNew` | simulator/execution.cpp:12-28 | The tree stays canonical when a call makes a node |
| `Execution.Thread.Return` | simulator/execution.cpp:155-201 | Moves to the parent, or pops and sets the context pair; a return at the root or on an empty stack changes nothing |
| `Execution.Thread.TopMethod` | simulator/execution.cpp:225-242 | The method of the current node, or the top of the stack, or null |
| `Execution.Thread.TopNMethods` | simulator/execution.cpp:270-297 | The top n methods from the top down, padded with null |
| `Execution.PairCounts.IncCallContext` | simulator/execution.hpp:400-403 | One more for that pair |
| `Execution.ExecState.GetThread` | simulator/execution.cpp:482-500 | The thread of that id, made empty if unknown; no thread's record changes |
| `Execution.ExecState.Call` | simulator/execution.cpp:503-511 | The method clock alone moves, by one, the thread moves as Thread::Call does and its pair is counted, the others stay, and the thread is pushed on the thread stack |
| `Execution.ExecState.Return` | simulator/execution.cpp:514-521 | The method-exit clock alone moves, by one, the thread moves as Thread::Return does, the others and the pair counts stay, and the thread stack is popped |
| `Execution.ThreadsAreIndependent` | simulator/execution.cpp:503-521 | Folding the steps of all threads' events, each thread's record is that of its own events alone |
| `Heap.HeapState.Allocate` | simulator/heap.cpp:68-97 | A new object with a timestamp of 0 replaces whatever the map held under its id |
| `Heap.Object.UpdateField` | simulator/heap.cpp:515-522 | The field holds the edge, the other fields are as before |
| `EndOfProgram.DeathCounters.EndOfProgram` | simulator/heap.cpp:351-438 | Every object is marked and counted in id order; each counter, size and null counter is that of its group of objects, and they balance |
| `EndOfProgram.TallyBalances` | simulator/heap.cpp:210-302 | From zero: at-end, stack and heap counts sum to the number of objects, after-heap and stack-only to the stack count, and the global count is at most the heap count |
| `EndOfProgram.CountersCount` | simulator/heap.cpp:210-302 | Each counter is the number of objects of its group, told from the flags the pass finds: at the end, lost from the stack (flagged so, or by nothing at all), from the stack after the heap or only, lost from the heap, and of these by a static field |
| `EndOfProgram.SizesCount` | simulator/heap.cpp:210-302 | Each size counter is the sum of the sizes of its group modulo 2^32 |
| `EndOfProgram.NullsCount` | simulator/heap.cpp:210-302 | The null counters count the stack and the heap objects whose last update was to null; the one for all of them adds the objects at the end; sizes likewise modulo 2^32 |
| `EndOfProgram.KindIsGroup` | simulator/heap.cpp:210-302 | The case of update_death_counters that an object takes is that of its group |
| `EndOfProgram.UntouchedIsStackOnly` | simulator/heap.cpp:276-295 | An object that nothing ever pointed at and that is dead before the end is counted as lost from the stack only |
| `EndOfProgram.MarkedFromHeap` | simulator/heap.cpp:245-275 | The pass flags an object as lost from the heap exactly if it counts it so, unless the flag was there before; other objects dead before the end keep all their flags |
| `EndOfProgram.MarkedAtEnd` | simulator/heap.cpp:361-388 | An object that lives to the end is dead, loses its stack and heap flags, and gets the at-end flag only if no flag was set |
| `EndOfProgram.SizesBalance` | simulator/heap.cpp:210-302 | The three sizes sum to the total size and the two stack sizes to the stack size, modulo 2^32 |
| `EndOfProgram.DeathCounters.UpdateDeathCounters` | simulator/heap.cpp:210-302 | The four cases in their order as one counting function; CountersCount, SizesCount and MarkedFromHeap say what it counts and flags |
| `EndOfProgram.MarkEnd` | simulator/heap.cpp:361-412 | An object that lives to the end is marked dead now, once; a flag already set is not overridden, the reason is |

## Left out

- Merlin.ApplyMerlin: requires that edges stay inside the object map; a second `A` or `N` for an id replaces the map entry and can leave edges to an object outside it. The code builds the merged list and drops it; the model returns it.
- Merlin.SortByTimestamp: `std::sort` is modelled by an insertion sort; `Propagate` is proved for every descending order.
- Tokenizer.Tokenizer.GetLine: requires at most TOKENSIZE tokens on the line; the code writes past its token array on a longer one.
- Tokenizer.Tokenizer.GetInt: a number that does not fit an int is reduced modulo 2^32; the C standard leaves `sscanf` undefined there.
- TraceFormat.FileRoundTrip: requires ints, ids of field updates that are not negative (they are printed as unsigned 64-bit numbers, which the C standard does not let `sscanf` read back when negative) and lines shorter than LINESIZE-1.
- EventBuffer.RunAllPrintsEvents: Java's 32-bit and 64-bit integers are unbounded here, and println and string conversion are the text they produce.
- Interleaving.InterleavingIsSequential: the inner `synchronized(ptr)` is left out, as it is only ever taken while `mx` is held; a hook that throws while it holds the lock is not modelled.
- Execution.Thread.Call: `m_curcc` starts at the thread's root node, which the constructor forgets to set; local-variable sets and node ids are left out.
- Simulator.Simulator.Process: the E case only records, as its `object_id` is never assigned; class names and the threads the reader creates are left out.
- Simulator.Simulator.ProcessAlloc: allocation sites, allocation time and the thread of the allocation are left out; no result depends on them.
- Heap.HeapState.Allocate: allocation time, the live set and the live sizes are left out.
- Heap.Object.UpdateField: the old edge is dropped from the field; that its memory is freed is left out.
- EndOfProgram.DeathCounters.EndOfProgram: the map from death sites to type names and the death-site strings are left out.
- Writing the witness map to its file, and the W lines that no active hook prints: the reader's W case is modelled, the file is not.
- Bytecode rewriting with Javassist, `asm-instrument/ETProxy.java`, `flushBuffer_ver02` and event types 5, 6 and 8: no active hook reaches them.
- File opening, standard input, debug and progress output, usage text and the CLASS, FIELDS and METHODS modes.
- `verify_garbage_order` (always true), `compute_overlap` (floating point), `simple_stacktrace` (asserts at the root), `stacktrace_using_id`, death-site names and maps, `set_reason_for_cycles`: easy members or no clear theorem.
