/** read_trace_file_part1 (simulator/simulator.cpp): the state machine that replays a trace on the heap. */
module TraceReader {
  import opened Records
  import opened Heap

  /** One input line, decoded by its first character. BadLine has a wrong number of tokens. */
  datatype Line =
    | MethodLine(methodId: nat, objectId: nat, threadId: nat)
    | ExitLine(methodId: nat, threadId: nat)
    | AllocLine(kind: char, objectId: nat, size: nat, typeId: nat, siteId: nat, length: nat, threadId: nat,
                numDims: Option<int>)
    | UpdateLine(sourceId: nat, targetId: nat, fieldId: nat, threadId: nat)
    | WitnessLine(objectId: nat, typeId: nat, timestamp: nat)
    | UnknownLine
    | BadLine

  /** The assertions that can stop the reader. */
  datatype Failure = WrongTokenCount | DuplicateUnallocated | NoTarget | NeverSeen

  /** What an object holds; fields lead to the ids of their targets. */
  datatype ObjectVal = ObjectVal(size: nat, kind: char, newFlag: bool, createTime: nat, lastTimestamp: nat,
                                 deathTime: nat, fields: map<nat, nat>)

  type Objects = map<nat, ObjectVal>

  datatype State = State(clock: nat, trace: seq<Record>, objects: Objects, unallocated: set<nat>, total: nat)

  datatype Outcome = Next(state: State) | Abort(why: Failure)

  const EMPTY := State(0, [], map[], {}, 0)

  function FreshObject(size: nat, kind: char, newFlag: bool, createTime: nat): ObjectVal {
    ObjectVal(size, kind, newFlag, createTime, 0, UINT_MAX, map[])
  }

  function Touch(objects: Objects, id: nat, stamp: nat): Objects
    requires id in objects
  {
    objects[id := objects[id].(lastTimestamp := stamp)]
  }

  function AddObject(s: State, id: nat, o: ObjectVal): State {
    s.(objects := s.objects[id := o], total := s.total + 1)
  }

  /** The record is in the trace and the clock has moved by `ticks`. */
  function Logged(s: State, r: Record, ticks: nat): State {
    State(s.clock + ticks, s.trace + [r], s.objects, s.unallocated, s.total)
  }

  /** The object of a U record: one without an allocation record is created once. */
  function Lookup(s: State, id: nat): Outcome {
    if id in s.objects then Next(s)
    else if id in s.unallocated then Abort(DuplicateUnallocated)
    else Next(AddObject(s, id, FreshObject(4, 'U', false, s.clock)).(unallocated := s.unallocated + {id}))
  }

  /** A field that already leads somewhere is redirected to the new target. */
  function Redirect(objects: Objects, source: nat, field: nat, target: nat): Objects
    requires source in objects
  {
    var fs := objects[source].fields;
    if field in fs && fs[field] != target then objects[source := objects[source].(fields := fs[field := target])]
    else objects
  }

  function StepMethod(s: State, m: nat, o: nat, t: nat): State {
    var s1 := Logged(s, Method(m, o, t, s.clock + 1), 1);
    if o == 0 then s1
    else
      var s2 := if o in s1.objects then s1 else AddObject(s1, o, FreshObject(4, 'M', false, s1.clock));
      s2.(objects := Touch(s2.objects, o, s1.clock))
  }

  function AllocRecord(line: Line, stamp: nat): Record
    requires line.AllocLine?
  {
    Alloc(line.kind, line.objectId, line.siteId, line.threadId, line.typeId, line.length, line.size, line.numDims, stamp)
  }

  function StepAlloc(s: State, line: Line): State
    requires line.AllocLine?
  {
    var s1 := Logged(s, AllocRecord(line, s.clock), 0);
    if line.objectId == 0 then s1
    else
      var o := FreshObject(line.size, line.kind, true, s.clock);
      AddObject(s1, line.objectId, o.(lastTimestamp := s.clock)).(clock := s.clock + 1)
  }

  /** Source first, then target; a record without a target stops the reader. */
  function LookupBoth(s: State, source: nat, target: nat): Outcome {
    match Lookup(s, source)
    case Abort(why) => Abort(why)
    case Next(s') => if target == 0 then Abort(NoTarget) else Lookup(s', target)
  }

  function TouchBoth(objects: Objects, source: nat, target: nat, field: nat, stamp: nat): Objects
    requires source in objects && target in objects
  {
    Redirect(Touch(Touch(objects, target, stamp), source, stamp), source, field, target)
  }

  /** What a U record does after the clock has ticked and the record is in the trace. */
  function UpdatePair(s: State, source: nat, target: nat, field: nat): Outcome {
    match LookupBoth(s, source, target)
    case Abort(why) => Abort(why)
    case Next(s') => Next(s'.(objects := TouchBoth(s'.objects, source, target, field, s'.clock)))
  }

  function StepUpdate(s: State, source: nat, target: nat, field: nat, t: nat): Outcome {
    UpdatePair(Logged(s, Update(target, field, source, t, s.clock + 1), 1), source, target, field)
  }

  function StepWitness(s: State, o: nat, typeId: nat, timestamp: nat): Outcome {
    var s1 := Logged(s, Witness(o, typeId, timestamp, s.clock), 0);
    if o in s1.objects then Next(s1.(objects := Touch(s1.objects, o, s.clock))) else Abort(NeverSeen)
  }

  function Step(s: State, line: Line): Outcome {
    match line
    case MethodLine(m, o, t) => Next(StepMethod(s, m, o, t))
    case ExitLine(m, t) => Next(Logged(s, Exit(m, t, s.clock), 0))
    case AllocLine(_, _, _, _, _, _, _, _) => Next(StepAlloc(s, line))
    case UpdateLine(source, target, field, t) => StepUpdate(s, source, target, field, t)
    case WitnessLine(o, typeId, timestamp) => StepWitness(s, o, typeId, timestamp)
    case UnknownLine => Next(s)
    case BadLine => Abort(WrongTokenCount)
  }

  function Run(s: State, lines: seq<Line>): Outcome
    decreases |lines|
  {
    if lines == [] then Next(s)
    else
      match Step(s, lines[0])
      case Abort(why) => Abort(why)
      case Next(s') => Run(s', lines[1..])
  }

  // ----- What every accepted run keeps -----

  /** The stamp of the last record that mentions id. */
  function LastUse(trace: seq<Record>, id: nat): Option<nat> {
    if trace == [] then None
    else if Mentions(trace[|trace| - 1], id) then Some(trace[|trace| - 1].stamp)
    else LastUse(trace[..|trace| - 1], id)
  }

  predicate Ticks(r: Record) {
    r.Method? || r.Update? || (r.Alloc? && r.objectId != 0)
  }

  function CountTicks(trace: seq<Record>): nat {
    if trace == [] then 0
    else CountTicks(trace[..|trace| - 1]) + if Ticks(trace[|trace| - 1]) then 1 else 0
  }

  /** M and U records are stamped after their own tick, all others before. */
  function OwnTick(r: Record): nat {
    if r.Method? || r.Update? then 1 else 0
  }

  predicate StampCounts(trace: seq<Record>, i: nat)
    requires i < |trace|
  {
    trace[i].stamp == CountTicks(trace[..i]) + OwnTick(trace[i])
  }

  /** Every stamp is the number of ticks up to its record. */
  ghost predicate Clocked(trace: seq<Record>) {
    forall i {:trigger StampCounts(trace, i)} :: 0 <= i < |trace| ==> StampCounts(trace, i)
  }

  ghost predicate UseKnown(s: State, id: nat) {
    && (id in s.objects <==> LastUse(s.trace, id).Some?)
    && (id in s.objects ==> s.objects[id].lastTimestamp == LastUse(s.trace, id).value)
  }

  ghost predicate Edgeless(objects: Objects) {
    forall id :: id in objects ==> objects[id].fields == map[]
  }

  ghost predicate Invariant(s: State) {
    && Nondecreasing(s.trace) && DeathFree(s.trace)
    && (forall r :: r in s.trace ==> r.stamp <= s.clock)
    && s.clock == CountTicks(s.trace) && Clocked(s.trace)
    && s.unallocated <= s.objects.Keys
    && Edgeless(s.objects)
    && forall id {:trigger UseKnown(s, id)} :: UseKnown(s, id)
  }

  /** One record more: the clock, the objects it mentions and nothing else move along. */
  ghost predicate Extends(s: State, r: Record, s': State) {
    && s'.trace == s.trace + [r] && !r.Death?
    && r.stamp == s.clock + OwnTick(r)
    && s'.clock == s.clock + (if Ticks(r) then 1 else 0)
    && s'.unallocated <= s.unallocated + s'.objects.Keys && s.objects.Keys <= s'.objects.Keys
    && (Edgeless(s.objects) ==> Edgeless(s'.objects))
    && (forall id :: id in s'.objects && !Mentions(r, id) ==> id in s.objects && s'.objects[id] == s.objects[id])
    && (forall id :: Mentions(r, id) ==> id in s'.objects && s'.objects[id].lastTimestamp == r.stamp)
  }

  lemma ClockedNext(trace: seq<Record>, r: Record)
    requires Clocked(trace) && r.stamp == CountTicks(trace) + OwnTick(r)
    ensures Clocked(trace + [r])
  {
    hide CountTicks;
    forall i | 0 <= i < |trace + [r]| ensures StampCounts(trace + [r], i) {
      assert (trace + [r])[..i] == trace[..i];
      if i < |trace| {
        assert StampCounts(trace, i);
      } else {
        assert trace[..i] == trace;
      }
    }
  }

  lemma ExtendsKeepsInvariant(s: State, r: Record, s': State)
    requires Invariant(s) && Extends(s, r, s')
    ensures Invariant(s')
  {
    assert s'.trace[..|s'.trace| - 1] == s.trace;
    ClockedNext(s.trace, r);
    forall i, j | 0 <= i < j < |s'.trace| ensures s'.trace[i].stamp <= s'.trace[j].stamp {
      if j == |s.trace| {
        assert s'.trace[i] in s.trace;
      }
    }
    forall id: nat ensures UseKnown(s', id) {
      assert UseKnown(s, id);
    }
  }

  lemma MethodExtends(s: State, m: nat, o: nat, t: nat)
    ensures Extends(s, Method(m, o, t, s.clock + 1), StepMethod(s, m, o, t))
  {
  }

  lemma AllocExtends(s: State, line: Line)
    requires line.AllocLine?
    ensures Extends(s, AllocRecord(line, s.clock), StepAlloc(s, line))
  {
  }

  /** s' is s with source and target looked up. */
  ghost predicate Found(s: State, source: nat, target: nat, s': State) {
    && s'.trace == s.trace && s'.clock == s.clock
    && s'.unallocated <= s.unallocated + s'.objects.Keys
    && s'.objects.Keys == s.objects.Keys + {source, target}
    && (forall x :: x in s.objects ==> s'.objects[x] == s.objects[x])
    && (Edgeless(s.objects) ==> Edgeless(s'.objects))
  }

  lemma LookupFinds(s: State, source: nat, target: nat)
    requires LookupBoth(s, source, target).Next?
    ensures Found(s, source, target, LookupBoth(s, source, target).state)
    ensures source in LookupBoth(s, source, target).state.objects && target in LookupBoth(s, source, target).state.objects
  {
  }

  /** o is `objects` with source and target stamped, and perhaps a field redirected. */
  ghost predicate Touched(objects: Objects, source: nat, target: nat, stamp: nat, o: Objects) {
    && o.Keys == objects.Keys && source in o && target in o
    && (Edgeless(objects) ==> Edgeless(o))
    && o[source].lastTimestamp == stamp && o[target].lastTimestamp == stamp
    && forall x :: x in o && x != source && x != target ==> o[x] == objects[x]
  }

  lemma TouchBothTouches(objects: Objects, source: nat, target: nat, field: nat, stamp: nat)
    requires source in objects && target in objects
    ensures Touched(objects, source, target, stamp, TouchBoth(objects, source, target, field, stamp))
  {
  }

  lemma FoundAndTouched(s: State, r: Record, s2: State, o: Objects)
    requires r.Update? && r.stamp == s.clock + 1
    requires Found(Logged(s, r, 1), r.sourceId, r.targetId, s2)
    requires Touched(s2.objects, r.sourceId, r.targetId, s2.clock, o)
    ensures Extends(s, r, s2.(objects := o))
  {
  }

  lemma UpdateExtends(s: State, source: nat, target: nat, field: nat, t: nat)
    requires StepUpdate(s, source, target, field, t).Next?
    ensures Extends(s, Update(target, field, source, t, s.clock + 1), StepUpdate(s, source, target, field, t).state)
  {
    var r := Update(target, field, source, t, s.clock + 1);
    var s1 := Logged(s, r, 1);
    LookupFinds(s1, source, target);
    var s2 := LookupBoth(s1, source, target).state;
    TouchBothTouches(s2.objects, source, target, field, s2.clock);
    FoundAndTouched(s, r, s2, TouchBoth(s2.objects, source, target, field, s2.clock));
  }

  /** Where an object's fields lead after an update of `field` of `source`. */
  function FieldsAfter(objects: Objects, id: nat, source: nat, field: nat, target: nat): map<nat, nat> {
    if id !in objects then map[]
    else if id == source && field in objects[id].fields then objects[id].fields[field := target]
    else objects[id].fields
  }

  /** A U record redirects the one field it names, if that leads somewhere; it never gives a field its first target. */
  lemma UpdateRedirectsField(s: State, source: nat, target: nat, field: nat, t: nat, id: nat)
    requires StepUpdate(s, source, target, field, t).Next? && id in StepUpdate(s, source, target, field, t).state.objects
    ensures StepUpdate(s, source, target, field, t).state.objects[id].fields
         == FieldsAfter(s.objects, id, source, field, target)
  {
    var s1 := Logged(s, Update(target, field, source, t, s.clock + 1), 1);
    var s2 := LookupBoth(s1, source, target).state;
    assert s2.objects[id].fields == if id in s.objects then s.objects[id].fields else map[];
  }

  lemma WitnessExtends(s: State, o: nat, typeId: nat, timestamp: nat)
    requires StepWitness(s, o, typeId, timestamp).Next?
    ensures Extends(s, Witness(o, typeId, timestamp, s.clock), StepWitness(s, o, typeId, timestamp).state)
  {
  }

  lemma StepKeepsInvariant(s: State, line: Line)
    requires Invariant(s) && Step(s, line).Next?
    ensures Invariant(Step(s, line).state)
  {
    var s' := Step(s, line).state;
    match line
    case MethodLine(m, o, t) =>
      MethodExtends(s, m, o, t);
      ExtendsKeepsInvariant(s, Method(m, o, t, s.clock + 1), s');
    case ExitLine(m, t) =>
      assert Extends(s, Exit(m, t, s.clock), s');
      ExtendsKeepsInvariant(s, Exit(m, t, s.clock), s');
    case AllocLine(_, _, _, _, _, _, _, _) =>
      AllocExtends(s, line);
      ExtendsKeepsInvariant(s, AllocRecord(line, s.clock), s');
    case UpdateLine(source, target, field, t) =>
      UpdateExtends(s, source, target, field, t);
      ExtendsKeepsInvariant(s, Update(target, field, source, t, s.clock + 1), s');
    case WitnessLine(o, typeId, timestamp) =>
      WitnessExtends(s, o, typeId, timestamp);
      ExtendsKeepsInvariant(s, Witness(o, typeId, timestamp, s.clock), s');
    case UnknownLine =>
    case BadLine =>
  }

  /** An object without an allocation record is never created twice. */
  lemma StepNeverDuplicates(s: State, line: Line)
    requires s.unallocated <= s.objects.Keys
    ensures Step(s, line) != Abort(DuplicateUnallocated)
  {
  }

  /** Every state an accepted trace can reach meets the invariant, and no run stops at a "DUPE". */
  lemma {:induction false} RunKeepsInvariant(s: State, lines: seq<Line>)
    requires Invariant(s)
    ensures Run(s, lines).Next? ==> Invariant(Run(s, lines).state)
    ensures Run(s, lines) != Abort(DuplicateUnallocated)
    decreases |lines|
  {
    if lines != [] {
      StepNeverDuplicates(s, lines[0]);
      if Step(s, lines[0]).Next? {
        StepKeepsInvariant(s, lines[0]);
        RunKeepsInvariant(Step(s, lines[0]).state, lines[1..]);
      }
    }
  }

  lemma EmptyIsInvariant()
    ensures Invariant(EMPTY)
  {
  }

  /** The timestamp of an object bounds the stamp of every record that uses it. */
  lemma {:induction false} LastUseIsLatest(trace: seq<Record>, id: nat, r: Record)
    requires Nondecreasing(trace) && r in trace && Mentions(r, id)
    ensures LastUse(trace, id).Some? && r.stamp <= LastUse(trace, id).value
    decreases |trace|
  {
    var last, init := trace[|trace| - 1], trace[..|trace| - 1];
    if Mentions(last, id) {
      var i :| 0 <= i < |trace| && trace[i] == r;
    } else {
      assert trace == init + [last];
      LastUseIsLatest(init, id, r);
    }
  }

  // ----- What the records tell about the objects -----

  /** The ids that the record uses. */
  function IdsOf(r: Record): (ids: set<nat>)
    ensures forall id :: id in ids <==> Mentions(r, id)
  {
    match r
    case Method(_, o, _, _) => if o == 0 then {} else {o}
    case Alloc(_, o, _, _, _, _, _, _, _) => if o == 0 then {} else {o}
    case Update(target, _, source, _, _) => {source, target}
    case Witness(o, _, _, _) => {o}
    case _ => {}
  }

  function UsedIds(trace: seq<Record>): set<nat> {
    if trace == [] then {} else UsedIds(trace[..|trace| - 1]) + IdsOf(trace[|trace| - 1])
  }

  /** The ids whose first use is in a U record. */
  function FirstUpdated(trace: seq<Record>): set<nat> {
    if trace == [] then {}
    else
      var init, last := trace[..|trace| - 1], trace[|trace| - 1];
      FirstUpdated(init) + if last.Update? then MadeBy(last, UsedIds(init)) else {}
  }

  /** The ids that the record makes an object for, on a heap with the ids `known`. */
  function MadeBy(r: Record, known: set<nat>): set<nat> {
    if r.Alloc? then IdsOf(r) else IdsOf(r) - known
  }

  function Size(ids: set<nat>): nat {
    |ids|
  }

  /** How many objects the records make: one for each allocation, and one for each other first use. */
  function Made(trace: seq<Record>): nat {
    if trace == [] then 0
    else
      var init, last := trace[..|trace| - 1], trace[|trace| - 1];
      Made(init) + Size(MadeBy(last, UsedIds(init)))
  }

  /** What does not change while an object lives. */
  datatype Origin = Origin(size: nat, kind: char, newFlag: bool, createTime: nat)

  /** An object comes from its last allocation record, or if it has none from the first M or U record that uses it. */
  function OriginIn(trace: seq<Record>, id: nat): Origin
    requires id in UsedIds(trace)
  {
    var init, last := trace[..|trace| - 1], trace[|trace| - 1];
    if id in UsedIds(init) && !(last.Alloc? && id in IdsOf(last)) then OriginIn(init, id) else OriginFrom(last)
  }

  function OriginFrom(r: Record): Origin {
    if r.Alloc? then Origin(r.size, r.kind, true, r.stamp)
    else Origin(4, if r.Method? then 'M' else 'U', false, r.stamp)
  }

  function OriginOf(o: ObjectVal): Origin {
    Origin(o.size, o.kind, o.newFlag, o.createTime)
  }

  ghost predicate HasOrigin(s: State, id: nat) {
    id in UsedIds(s.trace) && id in s.objects ==>
      OriginOf(s.objects[id]) == OriginIn(s.trace, id) && s.objects[id].deathTime == UINT_MAX
  }

  /** The heap, the map of objects without allocation record and the count of objects follow from the records alone. */
  ghost predicate Accounted(s: State) {
    && s.objects.Keys == UsedIds(s.trace)
    && s.unallocated == FirstUpdated(s.trace)
    && s.total == Made(s.trace)
    && forall id {:trigger HasOrigin(s, id)} :: HasOrigin(s, id)
  }

  lemma EmptyIsAccounted()
    ensures Accounted(EMPTY)
  {
  }

  /** What the record makes comes from it, and the other objects are as before. */
  ghost predicate Comes(s: State, r: Record, s': State, id: nat) {
    id in s'.objects ==>
      if id in MadeBy(r, s.objects.Keys) then
        OriginOf(s'.objects[id]) == OriginFrom(r) && s'.objects[id].deathTime == UINT_MAX
      else
        && id in s.objects && OriginOf(s'.objects[id]) == OriginOf(s.objects[id])
        && s'.objects[id].deathTime == s.objects[id].deathTime
  }

  ghost predicate Counts(s: State, r: Record, s': State) {
    && s'.trace == s.trace + [r]
    && s'.objects.Keys == s.objects.Keys + IdsOf(r)
    && s'.unallocated == s.unallocated + (if r.Update? then MadeBy(r, s.objects.Keys) else {})
    && s'.total == s.total + Size(MadeBy(r, s.objects.Keys))
  }

  ghost predicate Accounts(s: State, r: Record, s': State) {
    Counts(s, r, s') && forall id {:trigger Comes(s, r, s', id)} :: Comes(s, r, s', id)
  }

  lemma CountsKeep(s: State, r: Record, s': State)
    requires Accounted(s) && Counts(s, r, s')
    ensures s'.objects.Keys == UsedIds(s'.trace) && s'.unallocated == FirstUpdated(s'.trace) && s'.total == Made(s'.trace)
  {
    hide IdsOf, MadeBy, Size, HasOrigin;
    assert s'.trace[..|s'.trace| - 1] == s.trace;
  }

  lemma OriginKept(s: State, r: Record, s': State, id: nat)
    requires s.objects.Keys == UsedIds(s.trace) && s'.trace == s.trace + [r] && id in UsedIds(s'.trace)
    requires HasOrigin(s, id) && Comes(s, r, s', id)
    ensures HasOrigin(s', id)
  {
    hide IdsOf, OriginOf, OriginFrom;
    assert s'.trace[..|s'.trace| - 1] == s.trace;
  }

  lemma AccountsKeep(s: State, r: Record, s': State)
    requires Accounted(s) && Accounts(s, r, s')
    ensures Accounted(s')
  {
    hide UsedIds, FirstUpdated, Made, Comes, IdsOf;
    CountsKeep(s, r, s');
    forall id: nat ensures HasOrigin(s', id) {
      assert HasOrigin(s, id) && Comes(s, r, s', id);
      if id in UsedIds(s'.trace) {
        OriginKept(s, r, s', id);
      }
    }
  }

  lemma SizeOfOne(id: nat, known: set<nat>)
    ensures Size({id} - known) == if id in known then 0 else 1
    ensures Size({} - known) == 0
  {
    assert {} - known == {};
    assert {id} - known == if id in known then {} else {id};
  }

  lemma SizeOfPair(a: nat, b: nat, known: set<nat>)
    ensures Size({a, b} - known) == Size({a} - known) + Size({b} - (known + {a}))
  {
    assert {a, b} - known == ({a} - known) + ({b} - (known + {a}));
  }

  lemma MethodAccounts(s: State, m: nat, o: nat, t: nat)
    ensures Accounts(s, Method(m, o, t, s.clock + 1), StepMethod(s, m, o, t))
  {
    hide Size;
    SizeOfOne(o, s.objects.Keys);
  }

  lemma AllocAccounts(s: State, line: Line)
    requires line.AllocLine?
    ensures Accounts(s, AllocRecord(line, s.clock), StepAlloc(s, line))
  {
    hide Size;
    SizeOfOne(line.objectId, {});
    assert MadeBy(AllocRecord(line, s.clock), s.objects.Keys) == IdsOf(AllocRecord(line, s.clock)) - {};
  }

  /** s' is s with an object for each of the ids that has none. */
  ghost predicate Added(s: State, ids: set<nat>, s': State) {
    && s'.trace == s.trace && s'.clock == s.clock
    && s'.objects.Keys == s.objects.Keys + ids && s'.unallocated == s.unallocated + (ids - s.objects.Keys)
    && s'.total == s.total + Size(ids - s.objects.Keys)
    && forall x :: x in s'.objects ==>
         s'.objects[x] == if x in s.objects then s.objects[x] else FreshObject(4, 'U', false, s.clock)
  }

  lemma LookupAdds(s: State, id: nat)
    requires Lookup(s, id).Next?
    ensures Added(s, {id}, Lookup(s, id).state)
  {
    hide Size;
    SizeOfOne(id, s.objects.Keys);
    assert {id} - s.objects.Keys == if id in s.objects then {} else {id};
  }

  lemma AddedBoth(s: State, a: nat, s1: State, b: nat, s2: State)
    requires Added(s, {a}, s1) && Added(s1, {b}, s2)
    ensures Added(s, {a, b}, s2)
  {
    hide Size, FreshObject;
    SizeOfPair(a, b, s.objects.Keys);
  }

  /** The objects are as before, up to timestamps and fields. */
  ghost predicate SameOrigins(objects: Objects, o: Objects) {
    && o.Keys == objects.Keys
    && forall x :: x in o ==> OriginOf(o[x]) == OriginOf(objects[x]) && o[x].deathTime == objects[x].deathTime
  }

  lemma TouchKeepsOrigins(objects: Objects, source: nat, target: nat, field: nat, stamp: nat)
    requires source in objects && target in objects
    ensures SameOrigins(objects, TouchBoth(objects, source, target, field, stamp))
  {
  }

  lemma AddedAccounts(s: State, r: Record, s2: State, o: Objects)
    requires r.Update? && r.stamp == s.clock + 1
    requires Added(Logged(s, r, 1), {r.targetId, r.sourceId}, s2) && SameOrigins(s2.objects, o)
    ensures Accounts(s, r, s2.(objects := o))
  {
    hide Size;
    assert IdsOf(r) == {r.targetId, r.sourceId} && MadeBy(r, s.objects.Keys) == IdsOf(r) - s.objects.Keys;
    forall id: nat ensures Comes(s, r, s2.(objects := o), id) {
    }
  }

  lemma UpdateAccounts(s: State, source: nat, target: nat, field: nat, t: nat)
    requires StepUpdate(s, source, target, field, t).Next?
    ensures Accounts(s, Update(target, field, source, t, s.clock + 1), StepUpdate(s, source, target, field, t).state)
  {
    hide Added, SameOrigins, TouchBoth, Accounts, Lookup;
    var r := Update(target, field, source, t, s.clock + 1);
    var s0 := Logged(s, r, 1);
    LookupAdds(s0, source);
    var s1 := Lookup(s0, source).state;
    LookupAdds(s1, target);
    var s2 := Lookup(s1, target).state;
    AddedBoth(s0, source, s1, target, s2);
    LookupFinds(s0, source, target);
    TouchKeepsOrigins(s2.objects, source, target, field, s2.clock);
    assert {source, target} == {target, source};
    AddedAccounts(s, r, s2, TouchBoth(s2.objects, source, target, field, s2.clock));
  }

  lemma WitnessAccounts(s: State, o: nat, typeId: nat, timestamp: nat)
    requires StepWitness(s, o, typeId, timestamp).Next?
    ensures Accounts(s, Witness(o, typeId, timestamp, s.clock), StepWitness(s, o, typeId, timestamp).state)
  {
  }

  lemma StepKeepsAccounts(s: State, line: Line)
    requires Accounted(s) && Step(s, line).Next?
    ensures Accounted(Step(s, line).state)
  {
    hide Accounts, Accounted, StepMethod, StepAlloc, StepUpdate, StepWitness;
    var s' := Step(s, line).state;
    match line
    case MethodLine(m, o, t) =>
      MethodAccounts(s, m, o, t);
      AccountsKeep(s, Method(m, o, t, s.clock + 1), s');
    case ExitLine(m, t) =>
      ExitAccounts(s, Exit(m, t, s.clock));
      AccountsKeep(s, Exit(m, t, s.clock), s');
    case AllocLine(_, _, _, _, _, _, _, _) =>
      AllocAccounts(s, line);
      AccountsKeep(s, AllocRecord(line, s.clock), s');
    case UpdateLine(source, target, field, t) =>
      UpdateAccounts(s, source, target, field, t);
      AccountsKeep(s, Update(target, field, source, t, s.clock + 1), s');
    case WitnessLine(o, typeId, timestamp) =>
      WitnessAccounts(s, o, typeId, timestamp);
      AccountsKeep(s, Witness(o, typeId, timestamp, s.clock), s');
    case UnknownLine =>
    case BadLine =>
  }

  lemma ExitAccounts(s: State, r: Record)
    requires r.Exit?
    ensures Accounts(s, r, Logged(s, r, 0))
  {
  }

  /** Over every accepted input the objects and their count are what the records tell. */
  lemma {:induction false} RunKeepsAccounts(s: State, lines: seq<Line>)
    requires Accounted(s)
    ensures Run(s, lines).Next? ==> Accounted(Run(s, lines).state)
    decreases |lines|
  {
    hide Step, Accounted;
    if lines != [] && Step(s, lines[0]).Next? {
      StepKeepsAccounts(s, lines[0]);
      RunKeepsAccounts(Step(s, lines[0]).state, lines[1..]);
    }
  }

  lemma AcceptedIsAccounted(lines: seq<Line>)
    ensures Run(EMPTY, lines).Next? ==> Accounted(Run(EMPTY, lines).state)
  {
    hide Run;
    EmptyIsAccounted();
    RunKeepsAccounts(EMPTY, lines);
  }

  // ----- Which inputs the reader takes -----

  /** The ids that the line makes the reader look for or make. */
  function IdsOfLine(line: Line): set<nat> {
    match line
    case MethodLine(_, o, _) => if o == 0 then {} else {o}
    case AllocLine(_, o, _, _, _, _, _, _) => if o == 0 then {} else {o}
    case UpdateLine(source, target, _, _) => {source, target}
    case WitnessLine(o, _, _) => {o}
    case _ => {}
  }

  function UsedBy(lines: seq<Line>): set<nat> {
    if lines == [] then {} else UsedBy(lines[..|lines| - 1]) + IdsOfLine(lines[|lines| - 1])
  }

  /** The right number of tokens, a target for an update, and for a witness an object that was named before. */
  predicate Takes(line: Line, known: set<nat>) {
    !line.BadLine? && (line.UpdateLine? ==> line.targetId != 0) && (line.WitnessLine? ==> line.objectId in known)
  }

  lemma StepTakes(s: State, line: Line)
    requires s.unallocated <= s.objects.Keys
    ensures Step(s, line).Next? <==> Takes(line, s.objects.Keys)
    ensures Step(s, line).Next? ==> var s' := Step(s, line).state;
      s'.objects.Keys == s.objects.Keys + IdsOfLine(line) && s'.unallocated <= s'.objects.Keys
  {
    hide FreshObject;
  }

  lemma {:induction false} UsedByConcat(a: seq<Line>, b: seq<Line>)
    ensures UsedBy(a + b) == UsedBy(a) + UsedBy(b)
    decreases |b|
  {
    if b == [] {
      assert a + b == a;
    } else {
      assert (a + b)[..|a + b| - 1] == a + b[..|b| - 1];
      UsedByConcat(a, b[..|b| - 1]);
    }
  }

  /** The reader takes line k. */
  ghost predicate TakesAt(lines: seq<Line>, k: nat, known: set<nat>)
    requires k < |lines|
  {
    Takes(lines[k], known + UsedBy(lines[..k]))
  }

  lemma TakesLater(lines: seq<Line>, k: nat, known: set<nat>)
    requires 0 < k < |lines|
    ensures TakesAt(lines, k, known) <==> TakesAt(lines[1..], k - 1, known + IdsOfLine(lines[0]))
  {
    assert lines[..k] == [lines[0]] + lines[1..][..k - 1];
    UsedByConcat([lines[0]], lines[1..][..k - 1]);
    assert UsedBy([lines[0]]) == UsedBy([]) + IdsOfLine(lines[0]);
    assert known + UsedBy(lines[..k]) == known + IdsOfLine(lines[0]) + UsedBy(lines[1..][..k - 1]);
  }

  lemma {:induction false} RunTakes(s: State, lines: seq<Line>)
    requires s.unallocated <= s.objects.Keys
    ensures Run(s, lines).Next? <==> forall k {:trigger TakesAt(lines, k, s.objects.Keys)} ::
      0 <= k < |lines| ==> TakesAt(lines, k, s.objects.Keys)
    decreases |lines|
  {
    hide Step, Takes, IdsOfLine;
    if lines != [] {
      StepTakes(s, lines[0]);
      assert s.objects.Keys + UsedBy(lines[..0]) == s.objects.Keys;
      assert TakesAt(lines, 0, s.objects.Keys) <==> Step(s, lines[0]).Next?;
      if Step(s, lines[0]).Next? {
        var s' := Step(s, lines[0]).state;
        RunTakes(s', lines[1..]);
        forall k | 0 < k < |lines|
          ensures TakesAt(lines, k, s.objects.Keys) <==> TakesAt(lines[1..], k - 1, s'.objects.Keys) {
          TakesLater(lines, k, s.objects.Keys);
        }
        if Run(s, lines).Next? {
          forall k | 0 <= k < |lines| ensures TakesAt(lines, k, s.objects.Keys) {
            assert k > 0 ==> TakesAt(lines[1..], k - 1, s'.objects.Keys);
          }
        } else {
          var k :| 0 <= k < |lines[1..]| && !TakesAt(lines[1..], k, s'.objects.Keys);
          assert !TakesAt(lines, k + 1, s.objects.Keys);
        }
      }
    }
  }

  /**
   * Exactly which inputs the reader takes to the end: those with the right number of tokens on every line, a target
   * other than 0 in every U line, and no W line for an object that no line before it names.
   */
  lemma ReaderTakes(lines: seq<Line>)
    ensures Run(EMPTY, lines).Next? <==> forall k {:trigger TakesAt(lines, k, {})} ::
      0 <= k < |lines| ==> TakesAt(lines, k, {})
  {
    RunTakes(EMPTY, lines);
    assert EMPTY.objects.Keys == {};
  }
}
