/** apply_merlin (simulator/simulator.cpp): death times by depth-first propagation of timestamps. */
module Merlin {
  import opened Reachability
  import opened MerlinSteps
  import opened Heap
  import opened Records
  import opened DeathInsertion

  /** The objects of `os` are heap objects. */
  ghost predicate Held(objects: map<nat, Object>, os: seq<Object>) {
    forall o :: o in os ==> o.id in objects && objects[o.id] == o
  }

  ghost function Ids(os: seq<Object>): set<nat> {
    if os == [] then {} else {os[0].id} + Ids(os[1..])
  }

  lemma {:induction false} IdsMembers(os: seq<Object>)
    ensures forall o :: o in os ==> o.id in Ids(os)
    ensures forall id :: id in Ids(os) ==> exists o :: o in os && o.id == id
  {
    if os != [] {
      IdsMembers(os[1..]);
      assert os == [os[0]] + os[1..];
    }
  }

  ghost predicate Distinct(os: seq<Object>) {
    forall i, j :: 0 <= i < j < |os| ==> os[i] != os[j]
  }

  /** Latest timestamp first. */
  ghost predicate Descending(os: seq<Object>, t: Times) {
    os == [] || (os[0].id in t && AllAtMost(os[1..], t, t[os[0].id]) && Descending(os[1..], t))
  }

  ghost predicate AllAtMost(os: seq<Object>, t: Times, max: nat) {
    forall o :: o in os ==> o.id in t && t[o.id] <= max
  }

  /** The objects still waiting for a traversal: those with the given ids, latest first. */
  ghost predicate Waiting(objects: map<nat, Object>, garbage: seq<Object>, ids: set<nat>, t: Times) {
    Held(objects, garbage) && Ids(garbage) == ids && Distinct(garbage) && Descending(garbage, t)
  }

  /** os without the objects whose id is in `gone`. */
  ghost function Without(os: seq<Object>, gone: set<nat>): seq<Object> {
    if os == [] then []
    else if os[0].id in gone then Without(os[1..], gone)
    else [os[0]] + Without(os[1..], gone)
  }

  lemma {:induction false} WithoutMembers(os: seq<Object>, gone: set<nat>)
    ensures forall o :: o in Without(os, gone) ==> o in os && o.id !in gone
    ensures |Without(os, gone)| <= |os|
  {
    if os != [] {
      WithoutMembers(os[1..], gone);
      assert os == [os[0]] + os[1..];
    }
  }

  lemma {:induction false} WithoutIds(os: seq<Object>, gone: set<nat>)
    ensures Ids(Without(os, gone)) == Ids(os) - gone
  {
    if os != [] {
      var rest := Without(os[1..], gone);
      WithoutIds(os[1..], gone);
      assert ([os[0]] + rest)[1..] == rest;
    }
  }

  lemma {:induction false} WithoutDistinct(os: seq<Object>, gone: set<nat>)
    requires Distinct(os)
    ensures Distinct(Without(os, gone))
  {
    if os != [] {
      assert os[0] !in os[1..];
      WithoutDistinct(os[1..], gone);
      WithoutMembers(os[1..], gone);
    }
  }

  lemma {:induction false} WithoutDescending(os: seq<Object>, gone: set<nat>, t: Times)
    requires Descending(os, t)
    ensures Descending(Without(os, gone), t)
  {
    if os != [] {
      WithoutDescending(os[1..], gone, t);
      WithoutMembers(os[1..], gone);
      var rest := Without(os[1..], gone);
      assert ([os[0]] + rest)[1..] == rest;
    }
  }

  lemma WithoutIsWaiting(objects: map<nat, Object>, os: seq<Object>, ids: set<nat>, t: Times, gone: set<nat>)
    requires Waiting(objects, os, ids, t)
    ensures Waiting(objects, Without(os, gone), ids - gone, t)
  {
    WithoutMembers(os, gone);
    WithoutIds(os, gone);
    WithoutDistinct(os, gone);
    WithoutDescending(os, gone, t);
  }

  lemma {:induction false} WithoutNothing(os: seq<Object>)
    ensures Without(os, {}) == os
  {
    if os != [] {
      WithoutNothing(os[1..]);
    }
  }

  lemma {:induction false} WithoutTwice(os: seq<Object>, a: set<nat>, b: set<nat>)
    ensures Without(Without(os, a), b) == Without(os, a + b)
  {
    if os != [] {
      WithoutTwice(os[1..], a, b);
      var w := Without(os[1..], a);
      assert ([os[0]] + w)[1..] == w;
    }
  }

  ghost predicate EdgesEndAt(o: Object, time: nat)
    reads o`fields, o.OutEdges()`endTime
  {
    forall e :: e in o.OutEdges() ==> e.endTime == time
  }

  /** Finds obj and erases it. */
  method Erase(os: seq<Object>, obj: Object, ghost objects: map<nat, Object>) returns (os': seq<Object>)
    requires Held(objects, os) && Distinct(os) && obj.id in objects && objects[obj.id] == obj
    ensures os' == Without(os, {obj.id})
  {
    for i := 0 to |os|
      invariant obj !in os[..i]
    {
      if os[i] == obj {
        WithoutSplit(os, i, {obj.id});
        assert os[i..][1..] == os[i + 1..];
        WithoutAbsent(os[..i], {obj.id});
        WithoutAbsent(os[i + 1..], {obj.id});
        return os[..i] + os[i + 1..];
      }
    }
    WithoutAbsent(os, {obj.id});
    return os;
  }

  lemma {:induction false} WithoutAbsent(os: seq<Object>, gone: set<nat>)
    requires forall o :: o in os ==> o.id !in gone
    ensures Without(os, gone) == os
  {
    if os != [] {
      WithoutAbsent(os[1..], gone);
    }
  }

  lemma {:induction false} WithoutSplit(os: seq<Object>, i: nat, gone: set<nat>)
    requires i <= |os|
    ensures Without(os, gone) == Without(os[..i], gone) + Without(os[i..], gone)
  {
    if i > 0 {
      WithoutSplit(os[1..], i - 1, gone);
      assert os[1..][..i - 1] == os[..i][1..] && os[1..][i - 1..] == os[i..];
    }
  }

  /** Raises one target that is stamped earlier than `time`. */
  method RaiseTarget(heap: HeapState, target: Object, time: nat)
    requires heap.Valid() && heap.Holds(target)
    modifies target`lastTimestamp, target`deathTime
    ensures Raised(old(heap.Stamps()), old(heap.Stamps()), heap.Stamps(), {target.id}, time)
    ensures Raised(old(heap.Stamps()), old(heap.DeathTimes()), heap.DeathTimes(), {target.id}, time)
  {
    if time > target.lastTimestamp {
      target.lastTimestamp := time;
      target.deathTime := time;
    }
  }

  lemma RaisedTwice(l: Times, m: Times, l1: Times, m1: Times, l2: Times, m2: Times, a: set<nat>, b: set<nat>, time: nat)
    requires l.Keys == m.Keys && Raised(l, l, l1, a, time) && Raised(l, m, m1, a, time)
    requires Raised(l1, l1, l2, b, time) && Raised(l1, m1, m2, b, time)
    ensures Raised(l, l, l2, a + b, time) && Raised(l, m, m2, a + b, time)
  {
  }

  ghost function TargetOf(edge: Edge): set<nat> {
    if edge.target == null then {} else {edge.target.id}
  }

  /** One step of the inner loop: end the edge, raise its target and push it. */
  method VisitEdge(heap: HeapState, edge: Edge, time: nat, stack: seq<Object>)
    returns (stack': seq<Object>)
    requires heap.Valid() && Held(heap.objects, stack)
    requires edge.target != null ==> heap.Holds(edge.target)
    modifies heap.objects.Values`lastTimestamp, heap.objects.Values`deathTime, edge`endTime
    ensures Held(heap.objects, stack') && Ids(stack') == Ids(stack) + TargetOf(edge) && edge.endTime == time
    ensures Raised(old(heap.Stamps()), old(heap.Stamps()), heap.Stamps(), TargetOf(edge), time)
    ensures Raised(old(heap.Stamps()), old(heap.DeathTimes()), heap.DeathTimes(), TargetOf(edge), time)
  {
    edge.endTime := time;
    var target := edge.target;
    if target != null {
      RaiseTarget(heap, target, time);
      stack' := [target] + stack;
      assert stack'[1..] == stack;
    } else {
      stack' := stack;
    }
  }

  /**
   * The inner loop over the fields of obj: end each edge, raise each target that is stamped earlier
   * and push it. Fields are taken in any order.
   */
  method VisitFields(heap: HeapState, obj: Object, time: nat, stack: seq<Object>)
    returns (stack': seq<Object>)
    requires heap.Valid() && heap.EdgesStayInside() && heap.Holds(obj) && Held(heap.objects, stack)
    modifies heap.objects.Values`lastTimestamp, heap.objects.Values`deathTime, obj.OutEdges()`endTime
    ensures Held(heap.objects, stack') && Ids(stack') == Ids(stack) + obj.Targets()
    ensures Raised(old(heap.Stamps()), old(heap.Stamps()), heap.Stamps(), obj.Targets(), time)
    ensures Raised(old(heap.Stamps()), old(heap.DeathTimes()), heap.DeathTimes(), obj.Targets(), time)
    ensures EdgesEndAt(obj, time)
  {
    stack' := stack;
    var todo := obj.fields.Keys;
    ghost var done: set<nat> := {};
    ghost var l, m := heap.Stamps(), heap.DeathTimes();
    while todo != {}
      invariant todo <= obj.fields.Keys && done <= obj.Targets()
      invariant Held(heap.objects, stack') && Ids(stack') == Ids(stack) + done
      invariant Raised(l, l, heap.Stamps(), done, time) && Raised(l, m, heap.DeathTimes(), done, time)
      invariant forall f :: f in obj.fields && f !in todo && obj.fields[f] != null ==>
        obj.fields[f].endTime == time && TargetOf(obj.fields[f]) <= done
      decreases todo
    {
      var f :| f in todo;
      todo := todo - {f};
      var edge := obj.fields[f];
      if edge != null {
        assert heap.PointsInside(obj);
        ghost var l1, m1 := heap.Stamps(), heap.DeathTimes();
        stack' := VisitEdge(heap, edge, time, stack');
        RaisedTwice(l, m, l1, m1, heap.Stamps(), heap.DeathTimes(), done, TargetOf(edge), time);
        done := done + TargetOf(edge);
      }
    }
    assert done == obj.Targets();
  }

  /** The edges of every object in `ids` end at its last timestamp. */
  ghost predicate EdgesEnded(heap: HeapState, ids: set<nat>)
    reads heap, heap.objects.Values`fields, heap.objects.Values`lastTimestamp, heap.Edges()`endTime
  {
    forall id {:trigger EdgesEndedAt(heap, id)} :: id in ids && id in heap.objects ==> EdgesEndedAt(heap, id)
  }

  ghost predicate EdgesEndedAt(heap: HeapState, id: nat)
    requires id in heap.objects
    reads heap, heap.objects.Values`fields, heap.objects.Values`lastTimestamp, heap.Edges()`endTime
  {
    EdgesEndAt(heap.objects[id], heap.objects[id].lastTimestamp)
  }

  ghost predicate Labels(objects: map<nat, Object>, labeled: set<Object>, seen: set<nat>) {
    && (forall o :: o in labeled ==> o.id in objects && objects[o.id] == o && o.id in seen)
    && forall id :: id in seen ==> id in objects && objects[id] in labeled
  }

  lemma LabelOneMore(objects: map<nat, Object>, labeled: set<Object>, seen: set<nat>, obj: Object)
    requires Labels(objects, labeled, seen) && obj.id in objects && objects[obj.id] == obj
    ensures Labels(objects, labeled + {obj}, seen + {obj.id})
    ensures obj in labeled <==> obj.id in seen
  {
  }

  /** Visiting the fields of obj ends its edges with it and leaves the edges of the objects in `ids` ended. */
  method VisitSettled(heap: HeapState, obj: Object, time: nat, stack: seq<Object>, ghost ids: set<nat>)
    returns (stack': seq<Object>)
    requires heap.Valid() && heap.EdgesStayInside() && heap.Holds(obj) && Held(heap.objects, stack)
    requires EdgesEnded(heap, ids) && time == obj.lastTimestamp
    requires forall y :: y in obj.Targets() && y in ids && y in heap.objects ==> time <= heap.objects[y].lastTimestamp
    modifies heap.objects.Values`lastTimestamp, heap.objects.Values`deathTime, heap.Edges()`endTime
    ensures Held(heap.objects, stack') && Ids(stack') == Ids(stack) + obj.Targets()
    ensures Raised(old(heap.Stamps()), old(heap.Stamps()), heap.Stamps(), obj.Targets(), time)
    ensures Raised(old(heap.Stamps()), old(heap.DeathTimes()), heap.DeathTimes(), obj.Targets(), time)
    ensures EdgesEnded(heap, ids + {obj.id})
  {
    ghost var l := heap.Stamps();
    stack' := VisitFields(heap, obj, time, stack);
    ghost var l' := heap.Stamps();
    assert l'[obj.id] == l[obj.id];
    forall id | id in ids && id in heap.objects && id != obj.id ensures EdgesEndedAt(heap, id) {
      assert old(EdgesEndedAt(heap, id));
      assert l'[id] == l[id];
      assert heap.objects[id].OwnsEdges() && obj.OwnsEdges();
      assert heap.objects[id].OutEdges() !! obj.OutEdges();
    }
  }

  /** A heap the traversal can work on, and its graph. */
  ghost predicate Shape(heap: HeapState, g: Graph)
    reads heap, heap.objects.Values`fields
  {
    heap.Valid() && heap.EdgesStayInside() && heap.Graph() == g
  }

  /** The first visit of obj, whose death time was d before it was set to its last timestamp. */
  method SettleNew(heap: HeapState, obj: Object, time: nat, stack: seq<Object>, ghost g: Graph, ghost t: Times,
                   ghost d: Times, ghost done: set<nat>, ghost cur: nat, ghost seen: set<nat>)
    returns (stack': seq<Object>)
    requires Shape(heap, g) && heap.Holds(obj) && Held(heap.objects, stack) && obj.id !in seen
    requires Start(g, t, done, cur) && Tracing(g, t, done, cur, seen, {obj.id} + Ids(stack), heap.Stamps(), d)
    requires time == obj.lastTimestamp && heap.DeathTimes() == d[obj.id := time]
    requires EdgesEnded(heap, done + seen)
    modifies heap.objects.Values`lastTimestamp, heap.objects.Values`deathTime, heap.Edges()`endTime
    ensures Held(heap.objects, stack')
    ensures Tracing(g, t, done, cur, seen + {obj.id}, Ids(stack'), heap.Stamps(), heap.DeathTimes())
    ensures EdgesEnded(heap, done + (seen + {obj.id}))
  {
    ghost var l, pending := heap.Stamps(), {obj.id} + Ids(stack);
    assert g[obj.id] == obj.Targets();
    forall y | y in g[obj.id] && y in done + seen && y in heap.objects
      ensures time <= heap.objects[y].lastTimestamp
    {
      SettledTargetsStay(g, t, done, cur, seen, pending, l, d, obj.id, y);
    }
    stack' := VisitSettled(heap, obj, time, stack, done + seen);
    assert done + (seen + {obj.id}) == done + seen + {obj.id};
    PopUnlabeled(g, t, done, cur, seen, pending, l, d, obj.id, Ids(stack), heap.Stamps(), heap.DeathTimes());
  }

  method SetDeathTime(heap: HeapState, obj: Object, time: nat)
    requires heap.Valid() && heap.Holds(obj)
    modifies obj`deathTime
    ensures heap.DeathTimes() == old(heap.DeathTimes())[obj.id := time]
  {
    obj.deathTime := time;
  }

  /** Settles the death time of an object just popped and, if it is new, visits its fields. */
  method Settle(heap: HeapState, obj: Object, isNew: bool, stack: seq<Object>, ghost g: Graph, ghost t: Times,
                ghost done: set<nat>, ghost cur: nat, ghost seen: set<nat>)
    returns (stack': seq<Object>)
    requires Shape(heap, g) && heap.Holds(obj) && Held(heap.objects, stack) && (isNew <==> obj.id !in seen)
    requires Start(g, t, done, cur)
    requires Tracing(g, t, done, cur, seen, {obj.id} + Ids(stack), heap.Stamps(), heap.DeathTimes())
    requires EdgesEnded(heap, done + seen)
    modifies heap.objects.Values`lastTimestamp, heap.objects.Values`deathTime, heap.Edges()`endTime
    ensures Held(heap.objects, stack') && (!isNew ==> stack' == stack)
    ensures Tracing(g, t, done, cur, seen + {obj.id}, Ids(stack'), heap.Stamps(), heap.DeathTimes())
    ensures EdgesEnded(heap, done + (seen + {obj.id}))
  {
    hide TracingAt, Start, EdgesEnded;
    var time := obj.lastTimestamp;
    ghost var l, d := heap.Stamps(), heap.DeathTimes();
    SetDeathTime(heap, obj, time);
    if isNew {
      stack' := SettleNew(heap, obj, time, stack, g, t, d, done, cur, seen);
    } else {
      stack' := stack;
      PopLabeled(g, t, done, cur, seen, {obj.id} + Ids(stack), l, d, obj.id, Ids(stack));
    }
  }

  /** One round of the traversal: pop an object, take it out of garbage, label it and settle it. */
  method VisitNext(heap: HeapState, stack: seq<Object>, labeled: set<Object>, garbage: seq<Object>,
                   ghost g: Graph, ghost t: Times, ghost done: set<nat>, ghost cur: nat, ghost seen: set<nat>)
    returns (stack': seq<Object>, labeled': set<Object>, garbage': seq<Object>, ghost seen': set<nat>)
    requires Shape(heap, g) && stack != [] && Held(heap.objects, stack)
    requires Labels(heap.objects, labeled, seen) && Held(heap.objects, garbage) && Distinct(garbage)
    requires Start(g, t, done, cur) && Tracing(g, t, done, cur, seen, Ids(stack), heap.Stamps(), heap.DeathTimes())
    requires EdgesEnded(heap, done + seen)
    modifies heap.objects.Values`lastTimestamp, heap.objects.Values`deathTime, heap.Edges()`endTime
    ensures seen' == seen + {stack[0].id} && garbage' == Without(garbage, {stack[0].id})
    ensures Held(heap.objects, stack') && Labels(heap.objects, labeled', seen')
    ensures Tracing(g, t, done, cur, seen', Ids(stack'), heap.Stamps(), heap.DeathTimes())
    ensures EdgesEnded(heap, done + seen')
    ensures stack[0].id in seen ==> |stack'| < |stack|
  {
    var obj := stack[0];
    garbage' := Erase(garbage, obj, heap.objects);
    var isNew := obj !in labeled;
    LabelOneMore(heap.objects, labeled, seen, obj);
    labeled', seen' := labeled + {obj}, seen + {obj.id};
    stack' := Settle(heap, obj, isNew, stack[1..], g, t, done, cur, seen);
  }

  lemma HeldInGraph(heap: HeapState, g: Graph, o: Object, os: seq<Object>)
    requires Shape(heap, g) && Held(heap.objects, os) && o in os
    ensures o.id in g
  {
  }

  lemma LabelShrinksRest(all: set<nat>, seen: set<nat>, id: nat)
    requires id in all
    ensures id !in seen ==> all - (seen + {id}) < all - seen
    ensures id in seen ==> seen + {id} == seen
  {
  }

  /** The traversal from cur: everything it can reach gets its final times and leaves garbage. */
  method Trace(heap: HeapState, cur: Object, garbage: seq<Object>, ghost g: Graph, ghost t: Times,
               ghost done: set<nat>, ghost floor: nat)
    returns (garbage': seq<Object>, ghost seen: set<nat>)
    requires Shape(heap, g) && heap.Holds(cur) && cur.id !in done
    requires Swept(g, t, done, floor, heap.Stamps(), heap.DeathTimes()) && EdgesEnded(heap, done)
    requires forall x :: x in g && x !in done ==> t[x] <= t[cur.id]
    requires Held(heap.objects, garbage) && Distinct(garbage)
    modifies heap.objects.Values`lastTimestamp, heap.objects.Values`deathTime, heap.Edges()`endTime
    ensures cur.id in seen && garbage' == Without(garbage, seen)
    ensures Swept(g, t, done + seen, t[cur.id], heap.Stamps(), heap.DeathTimes())
    ensures EdgesEnded(heap, done + seen)
  {
    hide Tracing, Swept, EdgesEnded, Shape, Distinct, Without;
    garbage' := garbage;
    var stack, labeled := [cur], {};
    seen := {};
    HeldInGraph(heap, g, cur, stack);
    StartTracing(g, t, done, floor, heap.Stamps(), heap.DeathTimes(), cur.id);
    WithoutNothing(garbage);
    assert Ids(stack) == {cur.id} && done + seen == done;
    while stack != []
      invariant Held(heap.objects, stack) && Labels(heap.objects, labeled, seen)
      invariant Tracing(g, t, done, cur.id, seen, Ids(stack), heap.Stamps(), heap.DeathTimes())
      invariant EdgesEnded(heap, done + seen)
      invariant garbage' == Without(garbage, seen)
      decreases g.Keys - seen, |stack|
    {
      ghost var id := stack[0].id;
      HeldInGraph(heap, g, stack[0], stack);
      LabelShrinksRest(g.Keys, seen, id);
      WithoutTwice(garbage, seen, {id});
      WithoutKeepsHeld(heap.objects, garbage, seen);
      stack, labeled, garbage', seen := VisitNext(heap, stack, labeled, garbage', g, t, done, cur.id, seen);
    }
    EndTracing(g, t, done, cur.id, seen, heap.Stamps(), heap.DeathTimes());
  }

  lemma WithoutKeepsHeld(objects: map<nat, Object>, os: seq<Object>, gone: set<nat>)
    requires Held(objects, os) && Distinct(os)
    ensures Held(objects, Without(os, gone)) && Distinct(Without(os, gone))
  {
    WithoutMembers(os, gone);
    WithoutDistinct(os, gone);
  }

  /**
   * The outer loop. Whatever order the sort leaves among equal timestamps, every object ends with the
   * latest timestamp that reaches it.
   */
  method Propagate(heap: HeapState, garbage: seq<Object>)
    requires heap.Valid() && heap.EdgesStayInside()
    requires Waiting(heap.objects, garbage, heap.objects.Keys, heap.Stamps())
    modifies heap.objects.Values`lastTimestamp, heap.objects.Values`deathTime, heap.Edges()`endTime
    ensures IsAllLatest(old(heap.Graph()), old(heap.Stamps()), heap.Stamps())
    ensures heap.DeathTimes() == heap.Stamps() && EdgesEnded(heap, heap.objects.Keys)
  {
    ghost var g, t := heap.Graph(), heap.Stamps();
    var rest := garbage;
    ghost var done: set<nat>, floor := {}, if garbage == [] then 0 else t[garbage[0].id];
    StartSweeping(heap, garbage, floor);
    while rest != []
      invariant Swept(g, t, done, floor, heap.Stamps(), heap.DeathTimes()) && EdgesEnded(heap, done)
      invariant Waiting(heap.objects, rest, heap.objects.Keys - done, t)
      decreases |rest|
    {
      var cur := rest[0];
      FirstIsLatest(heap.objects, rest, done, t);
      ghost var seen;
      ghost var before := rest;
      rest, seen := Trace(heap, cur, rest[1..], g, t, done, floor);
      NextWaiting(heap.objects, before, done, t, seen);
      done, floor := done + seen, t[cur.id];
    }
    assert done == g.Keys;
    SweptEverything(g, t, done, floor, heap.Stamps(), heap.DeathTimes());
  }

  lemma FirstIsLatest(objects: map<nat, Object>, garbage: seq<Object>, done: set<nat>, t: Times)
    requires garbage != [] && t.Keys == objects.Keys && Waiting(objects, garbage, objects.Keys - done, t)
    ensures forall x :: x in objects && x !in done ==> t[x] <= t[garbage[0].id]
    ensures garbage[0].id !in done && Held(objects, garbage[1..]) && Distinct(garbage[1..])
  {
    IdsMembers(garbage);
    forall x | x in objects && x !in done ensures t[x] <= t[garbage[0].id] {
      assert x in Ids(garbage);
      var o :| o in garbage && o.id == x;
      assert o == garbage[0] || o in garbage[1..];
    }
  }

  lemma NextWaiting(objects: map<nat, Object>, garbage: seq<Object>, done: set<nat>, t: Times, seen: set<nat>)
    requires garbage != [] && Waiting(objects, garbage, objects.Keys - done, t) && garbage[0].id in seen
    ensures Waiting(objects, Without(garbage[1..], seen), objects.Keys - (done + seen), t)
    ensures |Without(garbage[1..], seen)| < |garbage|
  {
    WithoutIsWaiting(objects, garbage, objects.Keys - done, t, seen);
    assert objects.Keys - done - seen == objects.Keys - (done + seen);
    WithoutMembers(garbage[1..], seen);
  }

  lemma StartSweeping(heap: HeapState, garbage: seq<Object>, floor: nat)
    requires heap.Valid() && heap.EdgesStayInside()
    requires Waiting(heap.objects, garbage, heap.objects.Keys, heap.Stamps())
    requires garbage != [] ==> floor == heap.Stamps()[garbage[0].id]
    ensures Swept(heap.Graph(), heap.Stamps(), {}, floor, heap.Stamps(), heap.DeathTimes())
  {
    IdsMembers(garbage);
    forall x | x in heap.objects ensures heap.objects[x].Targets() <= heap.objects.Keys {
      assert heap.PointsInside(heap.objects[x]);
    }
    SweptNothing(heap.Graph(), heap.Stamps(), floor, heap.DeathTimes());
  }

  // ----- The whole algorithm -----

  lemma IdsAre(objects: map<nat, Object>, os: seq<Object>, ids: set<nat>)
    requires forall o :: o in os ==> o.id in ids
    requires forall id :: id in ids ==> id in objects && objects[id].id == id && objects[id] in os
    ensures Ids(os) == ids
  {
    IdsMembers(os);
    forall id | id in ids ensures id in Ids(os) {
      assert objects[id] in os;
    }
  }

  method ListObjects(heap: HeapState) returns (garbage: seq<Object>)
    requires heap.Valid()
    ensures Held(heap.objects, garbage) && Distinct(garbage) && Ids(garbage) == heap.objects.Keys
  {
    var ids := Ascending(heap.objects.Keys);
    garbage := [];
    for i := 0 to |ids|
      invariant |garbage| == i && forall k :: 0 <= k < i ==> garbage[k] == heap.objects[ids[k]]
    {
      garbage := garbage + [heap.objects[ids[i]]];
    }
    AscendingIsSorted(heap.objects.Keys);
    ListedInOrder(heap.objects, ids, garbage);
  }

  lemma ListedInOrder(objects: map<nat, Object>, ids: seq<nat>, os: seq<Object>)
    requires Filed(objects) && StrictlyAscending(ids) && forall id :: id in ids <==> id in objects
    requires |os| == |ids| && forall k :: 0 <= k < |ids| ==> os[k] == objects[ids[k]]
    ensures Held(objects, os) && Distinct(os) && Ids(os) == objects.Keys
  {
    forall i, j | 0 <= i < j < |os| ensures os[i] != os[j] {
      AscendingOrder(ids, i, j);
    }
    forall id | id in objects ensures objects[id] in os {
      var k :| 0 <= k < |ids| && ids[k] == id;
      assert os[k] == objects[id];
    }
    IdsAre(objects, os, objects.Keys);
  }

  /** Where obj belongs: before the first object with an earlier timestamp. */
  ghost function Inserted(os: seq<Object>, obj: Object, t: Times): seq<Object>
    requires obj.id in t && forall o :: o in os ==> o.id in t
  {
    if os == [] || t[os[0].id] < t[obj.id] then [obj] + os else [os[0]] + Inserted(os[1..], obj, t)
  }

  lemma {:induction false} InsertedIsDescending(os: seq<Object>, obj: Object, t: Times)
    requires Descending(os, t) && obj.id in t && Distinct(os) && obj !in os && forall o :: o in os ==> o.id in t
    ensures Descending(Inserted(os, obj, t), t) && Distinct(Inserted(os, obj, t))
    ensures forall o :: o in Inserted(os, obj, t) <==> o in os || o == obj
  {
    if os == [] || t[os[0].id] < t[obj.id] {
      assert ([obj] + os)[1..] == os;
    } else {
      var rest := Inserted(os[1..], obj, t);
      InsertedIsDescending(os[1..], obj, t);
      assert ([os[0]] + rest)[1..] == rest;
      assert os[0] !in os[1..];
    }
  }

  /** Where the inner loop goes on, and where it stops. */
  lemma InsertedStep(os: seq<Object>, k: nat, obj: Object, t: Times)
    requires k <= |os| && obj.id in t && forall o :: o in os ==> o.id in t
    ensures k < |os| && t[os[k].id] >= t[obj.id] ==>
      os[..k] + Inserted(os[k..], obj, t) == os[..k + 1] + Inserted(os[k + 1..], obj, t)
    ensures k == |os| || t[os[k].id] < t[obj.id] ==> os[..k] + Inserted(os[k..], obj, t) == os[..k] + [obj] + os[k..]
  {
  }

  method Insert(os: seq<Object>, obj: Object, ghost t: Times) returns (os': seq<Object>)
    requires forall o :: o in os || o == obj ==> o.id in t && o.lastTimestamp == t[o.id]
    requires Descending(os, t) && Distinct(os) && obj !in os
    ensures Descending(os', t) && Distinct(os')
    ensures forall o :: o in os' <==> o in os || o == obj
  {
    hide Descending, Distinct, Inserted;
    var k := 0;
    while k < |os| && os[k].lastTimestamp >= obj.lastTimestamp
      invariant 0 <= k <= |os|
      invariant Inserted(os, obj, t) == os[..k] + Inserted(os[k..], obj, t)
    {
      InsertedStep(os, k, obj, t);
      k := k + 1;
    }
    InsertedStep(os, k, obj, t);
    os' := os[..k] + [obj] + os[k..];
    InsertedIsDescending(os, obj, t);
  }

  /** One way to sort by descending timestamp; Propagate works after any other as well. */
  method SortByTimestamp(heap: HeapState, garbage: seq<Object>) returns (sorted: seq<Object>)
    requires heap.Valid() && Held(heap.objects, garbage) && Distinct(garbage)
    ensures Waiting(heap.objects, sorted, Ids(garbage), heap.Stamps())
  {
    sorted := [];
    ghost var t := heap.Stamps();
    for i := 0 to |garbage|
      invariant Held(heap.objects, sorted) && forall o :: o in sorted <==> o in garbage[..i]
      invariant Distinct(sorted) && Descending(sorted, t)
    {
      assert garbage[..i + 1] == garbage[..i] + [garbage[i]];
      assert forall o :: o in garbage ==> o.lastTimestamp == t[o.id];
      sorted := Insert(sorted, garbage[i], t);
    }
    assert garbage[..|garbage|] == garbage;
    SameMembersSameIds(heap.objects, garbage, sorted);
  }

  lemma SameMembersSameIds(objects: map<nat, Object>, a: seq<Object>, b: seq<Object>)
    requires Filed(objects) && Held(objects, a) && forall o :: o in b <==> o in a
    ensures Ids(b) == Ids(a)
  {
    IdsMembers(a);
    IdsAre(objects, b, Ids(a));
  }

  /** The part of apply_merlin that sets the times. */
  method SetTimes(heap: HeapState)
    requires heap.Valid() && heap.EdgesStayInside()
    modifies heap.objects.Values`lastTimestamp, heap.objects.Values`deathTime, heap.Edges()`endTime
    ensures IsAllLatest(old(heap.Graph()), old(heap.Stamps()), heap.Stamps())
    ensures heap.DeathTimes() == heap.Stamps() && EdgesEnded(heap, heap.objects.Keys)
  {
    hide IsAllLatest, EdgesEnded;
    var garbage := ListObjects(heap);
    garbage := SortByTimestamp(heap, garbage);
    Propagate(heap, garbage);
  }

  method ApplyMerlin(heap: HeapState, trace: seq<Record>) returns (traceList: seq<Record>)
    requires heap.Valid() && heap.EdgesStayInside()
    modifies heap.objects.Values`lastTimestamp, heap.objects.Values`deathTime, heap.Edges()`endTime
    ensures IsAllLatest(old(heap.Graph()), old(heap.Stamps()), heap.Stamps())
    ensures heap.DeathTimes() == heap.Stamps() && EdgesEnded(heap, heap.objects.Keys)
    ensures traceList == Weave(trace, START, FinalTimes(heap.Stamps()))
  {
    hide IsAllLatest, EdgesEnded, Weave, FinalTimes;
    SetTimes(heap);
    traceList := InsertDeathRecords(heap, trace);
  }

  /** An edge ends with its source, and no later than its target dies. */
  lemma EdgeEndsBeforeTargetDies(heap: HeapState, t: Times, id: nat, e: Edge)
    requires heap.Valid() && heap.EdgesStayInside() && IsAllLatest(heap.Graph(), t, heap.Stamps())
    requires heap.DeathTimes() == heap.Stamps() && EdgesEnded(heap, heap.objects.Keys)
    requires id in heap.objects && e in heap.objects[id].OutEdges()
    ensures e.endTime == heap.objects[id].deathTime
    ensures e.target != null ==> e.endTime <= e.target.deathTime
  {
    var l, d := heap.Stamps(), heap.DeathTimes();
    assert EdgesEndedAt(heap, id);
    assert d[id] == l[id];
    if e.target != null {
      var y := e.target.id;
      assert heap.PointsInside(heap.objects[id]);
      assert y in heap.Graph()[id] && d[y] == l[y];
      assert CarriesLatest(heap.Graph(), t, l, id) && CarriesLatest(heap.Graph(), t, l, y);
      LatestGrowsAlongEdge(heap.Graph(), t, id, y);
    }
  }
}
