/** The reader loop of simulator/simulator.cpp on the heap itself, proved against TraceReader.Step. */
module Simulator {
  import opened Records
  import opened Heap
  import opened TraceReader

  /** Where the fields of an object lead. */
  ghost function FieldTargets(fields: map<nat, Edge?>): map<nat, nat> {
    map f | f in fields && fields[f] != null && fields[f].target != null :: fields[f].target.id
  }

  ghost function ValueOf(o: Object): ObjectVal
    reads o`fields, o`lastTimestamp, o`deathTime
  {
    ObjectVal(o.size, o.kind, o.newFlag, o.createTime, o.lastTimestamp, o.deathTime, FieldTargets(o.fields))
  }

  /** Every field that is set leads to an object. */
  ghost predicate FieldsLead(o: Object)
    reads o`fields
  {
    forall f :: f in o.fields ==> o.fields[f] != null && o.fields[f].target != null
  }

  /** The state s is what the specification gives, unless an assertion stopped the program. */
  ghost predicate Reached(ok: bool, s: State, outcome: Outcome) {
    if ok then outcome == Next(s) else outcome.Abort?
  }

  lemma UpdateAfterLogging(s: State, s1: State, source: nat, target: nat, field: nat, t: nat)
    requires s1 == Logged(s, Update(target, field, source, t, s.clock + 1), 1)
    ensures StepUpdate(s, source, target, field, t) == UpdatePair(s1, source, target, field)
  {
  }

  lemma AddThenTouch(s: State, id: nat, o: ObjectVal, stamp: nat)
    ensures id in AddObject(s, id, o).objects
    ensures AddObject(s, id, o).(objects := Touch(AddObject(s, id, o).objects, id, stamp))
         == AddObject(s, id, o.(lastTimestamp := stamp))
  {
  }

  class Simulator {
    const heap: HeapState
    var uptime: nat
    var trace: seq<Record>
    var noAllocMap: map<nat, Object>
    var totalObjects: nat

    constructor ()
      ensures Valid() && Abs() == EMPTY && fresh(heap) && heap.objects == map[]
    {
      heap := new HeapState();
      uptime, trace, noAllocMap, totalObjects := 0, [], map[], 0;
    }

    ghost predicate Valid()
      reads heap, heap.objects.Values`fields
    {
      && heap.Valid()
      && forall id {:trigger FieldsLead(heap.objects[id])} :: id in heap.objects ==> FieldsLead(heap.objects[id])
    }

    ghost function ObjectVals(): Objects
      reads heap, heap.objects.Values
    {
      map id | id in heap.objects :: ValueOf(heap.objects[id])
    }

    ghost function Abs(): State
      reads this, heap, heap.objects.Values
    {
      State(uptime, trace, ObjectVals(), noAllocMap.Keys, totalObjects)
    }

    /** Advances the clock if the record ticks, and appends it to the trace. */
    method Log(r: Record, ticks: nat)
      requires Valid()
      modifies this`uptime, this`trace
      ensures Abs() == Logged(old(Abs()), r, ticks)
    {
      uptime := uptime + ticks;
      trace := trace + [r];
      assert ObjectVals() == old(ObjectVals());
    }

    /** Sets the last timestamp of a heap object. */
    method Stamp(obj: Object, stamp: nat)
      requires Valid() && heap.Holds(obj)
      modifies obj`lastTimestamp
      ensures ObjectVals() == Touch(old(ObjectVals()), obj.id, stamp)
    {
      obj.lastTimestamp := stamp;
    }

    method NewObject(id: nat, size: nat, kind: char, newFlag: bool) returns (obj: Object)
      requires Valid()
      modifies heap, this`totalObjects
      ensures Valid() && heap.Holds(obj) && obj.id == id && fresh(obj)
      ensures heap.objects == old(heap.objects)[id := obj]
      ensures Abs() == AddObject(old(Abs()), id, FreshObject(size, kind, newFlag, uptime))
    {
      obj := heap.Allocate(id, size, kind, newFlag, uptime);
      totalObjects := totalObjects + 1;
      assert ObjectVals() == old(ObjectVals())[id := FreshObject(size, kind, newFlag, uptime)];
    }

    /** The object of a U record; null when it was created before and then lost. */
    method LookupOrCreate(id: nat) returns (obj: Object?)
      requires Valid()
      modifies heap, this`totalObjects, this`noAllocMap
      ensures Valid()
      ensures obj == null <==> Lookup(old(Abs()), id).Abort?
      ensures obj != null ==> heap.Holds(obj) && obj.id == id && Next(Abs()) == Lookup(old(Abs()), id)
      ensures forall x :: x in old(heap.objects) ==> x in heap.objects && heap.objects[x] == old(heap.objects[x])
      ensures forall o :: o in heap.objects.Values ==> o in old(heap.objects.Values) || fresh(o)
    {
      obj := heap.GetObject(id);
      if obj == null {
        if id !in noAllocMap {
          var o := NewObject(id, 4, 'U', false);
          noAllocMap := noAllocMap[id := o];
          obj := o;
        }
      }
    }

    method InstallEdge(source: Object, field: nat, target: Object)
      requires Valid() && heap.Holds(source) && heap.Holds(target)
      modifies source`fields
      ensures Valid()
      ensures FieldTargets(source.fields) == FieldTargets(old(source.fields))[field := target.id]
    {
      assert source.OwnsEdges() && FieldsLead(source);
      var edge := new Edge(source, field, target, uptime);
      source.UpdateField(edge, field);
      forall id | id in heap.objects ensures heap.objects[id].OwnsEdges() && FieldsLead(heap.objects[id]) {
        assert old(heap.objects[id].OwnsEdges() && FieldsLead(heap.objects[id]));
      }
    }

    /** Installs an edge to the new target if the field already leads to another object. */
    method UpdateEdge(source: Object, field: nat, target: Object)
      requires Valid() && heap.Holds(source) && heap.Holds(target)
      modifies source`fields
      ensures Valid()
      ensures ObjectVals() == Redirect(old(ObjectVals()), source.id, field, target.id)
    {
      var oldEdge := source.GetEdge(field);
      if oldEdge != null {
        var oldTarget := oldEdge.target;
        if oldTarget != null {
          if oldTarget.id != target.id {
            ghost var vals := ObjectVals();
            InstallEdge(source, field, target);
            assert ValueOf(source) == vals[source.id].(fields := vals[source.id].fields[field := target.id]);
            assert ObjectVals() == vals[source.id := ValueOf(source)];
          }
        }
      }
    }

    /** One round of the reader loop; false when an assertion stops the program. */
    method Process(line: Line) returns (ok: bool)
      requires Valid()
      modifies this, heap, heap.objects.Values`lastTimestamp, heap.objects.Values`fields
      ensures Valid()
      ensures Reached(ok, Abs(), Step(old(Abs()), line))
      ensures fresh(heap.objects.Values - old(heap.objects.Values))
    {
      match line
      case MethodLine(m, o, t) =>
        ProcessMethod(m, o, t);
        ok := true;
      case ExitLine(m, t) =>
        Log(Exit(m, t, uptime), 0);
        ok := true;
      case AllocLine(_, _, _, _, _, _, _, _) =>
        ProcessAlloc(line);
        ok := true;
      case UpdateLine(source, target, field, t) =>
        ok := ProcessUpdate(source, target, field, t);
      case WitnessLine(o, typeId, timestamp) =>
        ok := ProcessWitness(o, typeId, timestamp);
      case UnknownLine =>
        ok := true;
      case BadLine =>
        ok := false;
    }

    method ProcessMethod(m: nat, o: nat, t: nat)
      requires Valid()
      modifies this, heap, heap.objects.Values`lastTimestamp
      ensures Valid() && Abs() == StepMethod(old(Abs()), m, o, t)
      ensures fresh(heap.objects.Values - old(heap.objects.Values))
    {
      Log(Method(m, o, t, uptime + 1), 1);
      if o > 0 {
        var obj := heap.GetObject(o);
        if obj == null {
          obj := NewObject(o, 4, 'M', false);
        }
        ghost var s2 := Abs();
        Stamp(obj, uptime);
        assert Abs() == s2.(objects := Touch(s2.objects, o, uptime));
      }
    }

    method ProcessAlloc(line: Line)
      requires Valid() && line.AllocLine?
      modifies this, heap
      ensures Valid() && Abs() == StepAlloc(old(Abs()), line)
      ensures fresh(heap.objects.Values - old(heap.objects.Values))
    {
      var stamp := uptime;
      Log(Alloc(line.kind, line.objectId, line.siteId, line.threadId, line.typeId, line.length, line.size,
                line.numDims, stamp), 0);
      if line.objectId > 0 {
        NewStamped(line.objectId, line.size, line.kind, stamp);
        uptime := uptime + 1;
        assert ObjectVals() == old(ObjectVals())[line.objectId := ObjectVals()[line.objectId]];
      }
    }

    method NewStamped(id: nat, size: nat, kind: char, stamp: nat)
      requires Valid()
      modifies heap, this`totalObjects
      ensures Valid()
      ensures Abs() == AddObject(old(Abs()), id, FreshObject(size, kind, true, uptime).(lastTimestamp := stamp))
      ensures fresh(heap.objects.Values - old(heap.objects.Values))
    {
      hide Touch, AddObject, FreshObject;
      ghost var s := Abs();
      var obj := NewObject(id, size, kind, true);
      ghost var s1 := Abs();
      AddThenTouch(s, id, FreshObject(size, kind, true, uptime), stamp);
      Stamp(obj, stamp);
      assert Abs() == s1.(objects := Touch(s1.objects, id, stamp));
    }

    /** Looks up source and target; null twice when that stops the reader. */
    method LookupPair(sourceId: nat, targetId: nat) returns (source: Object?, target: Object?)
      requires Valid()
      modifies heap, this`totalObjects, this`noAllocMap
      ensures Valid()
      ensures (source != null && target != null) <==> LookupBoth(old(Abs()), sourceId, targetId).Next?
      ensures source != null && target != null ==>
        && LookupBoth(old(Abs()), sourceId, targetId) == Next(Abs())
        && heap.Holds(source) && heap.Holds(target) && source.id == sourceId && target.id == targetId
      ensures forall o :: o in heap.objects.Values ==> o in old(heap.objects.Values) || fresh(o)
    {
      target := null;
      source := LookupOrCreate(sourceId);
      if source != null {
        if targetId > 0 {
          target := LookupOrCreate(targetId);
        }
      }
    }

    /** Stamps both objects and redirects the field. */
    method TouchPair(source: Object, field: nat, target: Object)
      requires Valid() && heap.Holds(source) && heap.Holds(target)
      modifies source`lastTimestamp, target`lastTimestamp, source`fields
      ensures Valid()
      ensures ObjectVals() == TouchBoth(old(ObjectVals()), source.id, target.id, field, uptime)
    {
      Stamp(target, uptime);
      Stamp(source, uptime);
      UpdateEdge(source, field, target);
    }

    method ProcessPair(sourceId: nat, targetId: nat, field: nat) returns (ok: bool)
      requires Valid()
      modifies this, heap, heap.objects.Values`lastTimestamp, heap.objects.Values`fields
      ensures Valid()
      ensures Reached(ok, Abs(), UpdatePair(old(Abs()), sourceId, targetId, field))
      ensures fresh(heap.objects.Values - old(heap.objects.Values))
    {
      var source, target := LookupPair(sourceId, targetId);
      ok := source != null && target != null;
      if ok {
        ghost var s := Abs();
        TouchPair(source, field, target);
        assert Abs() == s.(objects := TouchBoth(s.objects, sourceId, targetId, field, s.clock));
      }
    }

    method ProcessUpdate(sourceId: nat, targetId: nat, field: nat, t: nat) returns (ok: bool)
      requires Valid()
      modifies this, heap, heap.objects.Values`lastTimestamp, heap.objects.Values`fields
      ensures Valid()
      ensures Reached(ok, Abs(), StepUpdate(old(Abs()), sourceId, targetId, field, t))
      ensures fresh(heap.objects.Values - old(heap.objects.Values))
    {
      ghost var s := Abs();
      Log(Update(targetId, field, sourceId, t, uptime + 1), 1);
      UpdateAfterLogging(s, Abs(), sourceId, targetId, field, t);
      ok := ProcessPair(sourceId, targetId, field);
    }

    method ProcessWitness(o: nat, typeId: nat, timestamp: nat) returns (ok: bool)
      requires Valid()
      modifies this, heap.objects.Values`lastTimestamp
      ensures Valid()
      ensures Reached(ok, Abs(), StepWitness(old(Abs()), o, typeId, timestamp))
    {
      Log(Witness(o, typeId, timestamp, uptime), 0);
      var obj := heap.GetObject(o);
      if obj == null {
        return false;
      }
      Stamp(obj, uptime);
      return true;
    }
  }
}
