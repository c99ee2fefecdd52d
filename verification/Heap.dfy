/** The simulator's heap: objects, edges and the object map (simulator/heap.hpp, simulator/heap.cpp). */
module Heap {

  const UINT_MAX: nat := 0xFFFF_FFFF

  // ----- The order of a map keyed by ids -----

  predicate IsMinimum(s: set<nat>, m: nat) {
    m in s && forall x :: x in s ==> m <= x
  }

  lemma {:induction false} MinimumExists(s: set<nat>) returns (m: nat)
    requires s != {}
    ensures IsMinimum(s, m)
    decreases s
  {
    var y :| y in s;
    m := y;
    if s != {y} {
      var z := MinimumExists(s - {y});
      m := if z < y then z else y;
      assert forall x :: x in s ==> x == y || x in s - {y};
    }
  }

  lemma SomeMinimum(s: set<nat>)
    requires s != {}
    ensures exists m :: m in s && IsMinimum(s, m)
  {
    var m := MinimumExists(s);
  }

  /** The elements of s from small to large, as an ordered map iterates over its keys. */
  function Ascending(s: set<nat>): (r: seq<nat>)
    ensures forall x :: x in r <==> x in s
    decreases s
  {
    if s == {} then []
    else
      SomeMinimum(s);
      var m :| m in s && IsMinimum(s, m);
      [m] + Ascending(s - {m})
  }

  predicate StrictlyAscending(r: seq<nat>) {
    r == [] || ((forall x :: x in r[1..] ==> r[0] < x) && StrictlyAscending(r[1..]))
  }

  lemma {:induction false} AscendingIsSorted(s: set<nat>)
    ensures StrictlyAscending(Ascending(s))
    decreases s
  {
    if s != {} {
      var m := Ascending(s)[0];
      var rest := Ascending(s - {m});
      AscendingIsSorted(s - {m});
      assert Ascending(s)[1..] == rest;
    }
  }

  lemma {:induction false} AscendingOrder(r: seq<nat>, i: nat, j: nat)
    requires StrictlyAscending(r) && i < j < |r|
    ensures r[i] < r[j]
    decreases |r|
  {
    if i > 0 {
      AscendingOrder(r[1..], i - 1, j - 1);
    } else {
      assert r[1..][j - 1] in r[1..];
    }
  }

  class Edge {
    const source: Object
    const sourceField: nat
    const target: Object?
    const createTime: nat
    var endTime: nat

    constructor (source: Object, sourceField: nat, target: Object?, createTime: nat)
      ensures this.source == source && this.sourceField == sourceField
      ensures this.target == target && this.createTime == createTime && endTime == 0
    {
      this.source, this.sourceField := source, sourceField;
      this.target, this.createTime := target, createTime;
      endTime := 0;
    }
  }

  // ----- How an object died -----

  datatype Reason = StackReason | HeapReason | GlobalReason | EndReason | UnknownReason

  datatype LastEvent =
    | NewObjectEvent | RootEvent | DecRefCount | UpdateUnknown | UpdateAwayToNull | UpdateAwayToValid
    | DeathAfterRoot | DeathAfterUpdate | DeathAfterRootDecRefCount | DeathAfterUpdateDecRefCount
    | DeathAfterUnknown | EndEvent | UnknownEvent

  datatype Tribool = Yes | No | Indeterminate

  /** The flags of an object that tell whether and how it died. */
  datatype Fate = Fate(dead: bool, pointedByHeap: bool, byHeap: bool, byStack: bool, atEnd: bool, byGlobal: bool,
                       flagSet: bool, reason: Reason, lastEvent: LastEvent, lastUpdateNull: Tribool)

  const NEWBORN := Fate(false, false, false, false, false, false, false, UnknownReason, UnknownEvent, Indeterminate)

  class Object {
    const id: nat
    const size: nat
    const kind: char
    const newFlag: bool
    const createTime: nat
    var fields: map<nat, Edge?>
    var lastTimestamp: nat
    var deathTime: nat
    var fate: Fate

    constructor (id: nat, size: nat, kind: char, newFlag: bool, createTime: nat)
      ensures this.id == id && this.size == size && this.kind == kind
      ensures this.newFlag == newFlag && this.createTime == createTime
      ensures fields == map[] && lastTimestamp == 0 && deathTime == UINT_MAX && fate == NEWBORN
    {
      this.id, this.size, this.kind := id, size, kind;
      this.newFlag, this.createTime := newFlag, createTime;
      fields, lastTimestamp, deathTime, fate := map[], 0, UINT_MAX, NEWBORN;
    }

    function GetEdge(fieldId: nat): Edge?
      reads this`fields
    {
      if fieldId in fields then fields[fieldId] else null
    }

    method UpdateField(edge: Edge, fieldId: nat)
      modifies this`fields
      ensures fields == old(fields)[fieldId := edge]
    {
      fields := fields[fieldId := edge];
    }

    /** Every edge stored in a field of this object leaves from this object. */
    ghost predicate OwnsEdges()
      reads this`fields
    {
      forall f :: f in fields && fields[f] != null ==> fields[f].source == this
    }

    ghost function OutEdges(): set<Edge>
      reads this`fields
    {
      set f | f in fields && fields[f] != null :: fields[f]
    }

    /** The ids of the objects its fields point at. */
    ghost function Targets(): set<nat>
      reads this`fields
    {
      set f | f in fields && fields[f] != null && fields[f].target != null :: fields[f].target.id
    }
  }

  /** Objects are filed under their own id. */
  ghost predicate Filed(objects: map<nat, Object>) {
    forall id :: id in objects ==> objects[id].id == id
  }

  class HeapState {
    var objects: map<nat, Object>

    constructor ()
      ensures objects == map[] && Valid()
    {
      objects := map[];
    }

    ghost predicate Valid()
      reads this, objects.Values`fields
    {
      && Filed(objects)
      && forall id {:trigger objects[id].OwnsEdges()} :: id in objects ==> objects[id].OwnsEdges()
    }

    ghost predicate Holds(o: Object)
      reads this
    {
      o.id in objects && objects[o.id] == o
    }

    /** Every edge of a heap object points at a heap object or nowhere. */
    ghost predicate EdgesStayInside()
      reads this, objects.Values`fields
    {
      forall id {:trigger PointsInside(objects[id])} :: id in objects ==> PointsInside(objects[id])
    }

    ghost predicate PointsInside(o: Object)
      reads this, o`fields
    {
      forall f :: f in o.fields && o.fields[f] != null && o.fields[f].target != null ==> Holds(o.fields[f].target)
    }

    ghost function Graph(): map<nat, set<nat>>
      reads this, objects.Values`fields
    {
      map id | id in objects :: objects[id].Targets()
    }

    ghost function Stamps(): map<nat, nat>
      reads this, objects.Values`lastTimestamp
    {
      map id | id in objects :: objects[id].lastTimestamp
    }

    ghost function DeathTimes(): map<nat, nat>
      reads this, objects.Values`deathTime
    {
      map id | id in objects :: objects[id].deathTime
    }

    ghost function Edges(): set<Edge>
      reads this, objects.Values`fields
    {
      set id, e | id in objects && e in objects[id].OutEdges() :: e
    }

    function GetObject(id: nat): Object?
      reads this
    {
      if id in objects then objects[id] else null
    }

    method Allocate(id: nat, size: nat, kind: char, newFlag: bool, createTime: nat) returns (obj: Object)
      requires Valid()
      modifies this
      ensures Valid() && fresh(obj) && objects == old(objects)[id := obj]
      ensures obj.id == id && obj.size == size && obj.kind == kind && obj.newFlag == newFlag
      ensures obj.createTime == createTime
      ensures obj.fields == map[] && obj.lastTimestamp == 0 && obj.deathTime == UINT_MAX
    {
      obj := new Object(id, size, kind, newFlag, createTime);
      objects := objects[id := obj];
    }
  }
}
