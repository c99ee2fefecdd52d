/** HeapState::end_of_program and the counters it fills (simulator/heap.cpp). */
module EndOfProgram {
  import opened Heap
  import opened Text

  /** The counters of HeapState: numbers of objects, and sizes that wrap around at 32 bits. */
  datatype Tally = Tally(
    atEnd: nat, byStack: nat, byHeap: nat, byGlobal: nat, stackAfterHeap: nat, stackOnly: nat,
    sizeAtEnd: nat, sizeByStack: nat, sizeByHeap: nat, sizeByGlobal: nat, sizeStackAfterHeap: nat, sizeStackOnly: nat,
    updateNull: nat, updateNullHeap: nat, updateNullStack: nat,
    sizeUpdateNull: nat, sizeUpdateNullHeap: nat, sizeUpdateNullStack: nat)

  const ZERO := Tally(0, 0, 0, 0, 0, 0, 0, 0, 0, 0, 0, 0, 0, 0, 0, 0, 0, 0)

  function Plus(a: nat, b: nat): nat {
    (a + b) % UINT_RANGE
  }

  // ----- One object -----

  /** Keeps the flag that is already set, if any. */
  function FlaggedAtEnd(f: Fate): Fate {
    if f.flagSet then f else f.(atEnd := true, reason := EndReason, flagSet := true)
  }

  /** Object::makeDead at the end of the program. */
  function Killed(f: Fate): Fate {
    FlaggedAtEnd(f.(reason := EndReason, dead := true))
  }

  function Ended(f: Fate): Fate {
    FlaggedAtEnd(f.(byStack := false, byHeap := false)).(reason := EndReason, lastEvent := EndEvent)
  }

  /** What the pass makes of an object before it counts it. */
  function AtTheEnd(f: Fate, deathTime: nat, now: nat): Fate {
    if deathTime < now then f else Ended(if f.dead then f else Killed(f))
  }

  datatype Kind = EndKind | StackKind(afterHeap: bool) | HeapKind

  /** The first of the four cases of update_death_counters that applies. */
  function KindOf(f: Fate): Kind {
    if f.reason == EndReason || f.atEnd then EndKind
    else if f.byStack || ((f.reason == StackReason || f.lastEvent == RootEvent) && !f.byHeap) then
      StackKind(f.pointedByHeap)
    else if f.byHeap || f.reason == HeapReason || f.lastEvent == UpdateAwayToNull || f.lastEvent == UpdateAwayToValid
            || f.pointedByHeap || f.byGlobal then HeapKind
    else StackKind(false)
  }

  /** One more object in a counter of objects and one of sizes. */
  datatype Bump = Bump(count: nat, size: nat)

  function Bumped(count: nat, size: nat, when: bool, bytes: nat): Bump {
    if when then Bump(count + 1, Plus(size, bytes)) else Bump(count, size)
  }

  function Counted(t: Tally, f: Fate, size: nat): Tally {
    var k, nil := KindOf(f), f.lastUpdateNull == Yes;
    var e := Bumped(t.atEnd, t.sizeAtEnd, k == EndKind, size);
    var s := Bumped(t.byStack, t.sizeByStack, k.StackKind?, size);
    var h := Bumped(t.byHeap, t.sizeByHeap, k == HeapKind, size);
    var g := Bumped(t.byGlobal, t.sizeByGlobal, k == HeapKind && f.byGlobal, size);
    var sh := Bumped(t.stackAfterHeap, t.sizeStackAfterHeap, k == StackKind(true), size);
    var so := Bumped(t.stackOnly, t.sizeStackOnly, k == StackKind(false), size);
    var n := Bumped(t.updateNull, t.sizeUpdateNull, nil, size);
    var nh := Bumped(t.updateNullHeap, t.sizeUpdateNullHeap, nil && k == HeapKind, size);
    var ns := Bumped(t.updateNullStack, t.sizeUpdateNullStack, nil && k.StackKind?, size);
    Tally(e.count, s.count, h.count, g.count, sh.count, so.count, e.size, s.size, h.size, g.size, sh.size, so.size,
          n.count, nh.count, ns.count, n.size, nh.size, ns.size)
  }

  /** An object that is counted as lost from the heap is flagged so. */
  function Settled(f: Fate): Fate {
    if KindOf(f) == HeapKind then f.(byHeap := true, reason := HeapReason, flagSet := true) else f
  }

  // ----- All objects -----

  /** An object as the pass finds it. */
  datatype Item = Item(size: nat, deathTime: nat, fate: Fate)

  function Tallied(items: seq<Item>, now: nat): Tally {
    if items == [] then ZERO
    else
      var o := items[|items| - 1];
      Counted(Tallied(items[..|items| - 1], now), AtTheEnd(o.fate, o.deathTime, now), o.size)
  }

  function TotalSize(items: seq<Item>): nat {
    if items == [] then 0 else TotalSize(items[..|items| - 1]) + items[|items| - 1].size
  }

  /** The flags the pass leaves. */
  function Marked(o: Item, now: nat): Fate {
    Settled(AtTheEnd(o.fate, o.deathTime, now))
  }

  // ----- What the counters count -----

  /** The objects that live to the end, or are already marked so. */
  predicate LastsToEnd(o: Item, now: nat) {
    o.deathTime >= now || o.fate.reason == EndReason || o.fate.atEnd
  }

  /** The object's flags say that it was lost from the stack; a heap flag outweighs all but a stack flag. */
  predicate StackFlagged(f: Fate) {
    f.byStack || (!f.byHeap && (f.reason == StackReason || f.lastEvent == RootEvent))
  }

  /** Something in the heap or a static field has pointed at the object, or its flags say that it was lost there. */
  predicate HeapFlagged(f: Fate) {
    || f.byHeap || f.byGlobal || f.pointedByHeap || f.reason == HeapReason
    || f.lastEvent in {UpdateAwayToNull, UpdateAwayToValid}
  }

  /** Objects that nothing speaks for are lost from the stack. */
  predicate LostFromStack(o: Item, now: nat) {
    !LastsToEnd(o, now) && (StackFlagged(o.fate) || !HeapFlagged(o.fate))
  }

  predicate LostFromHeap(o: Item, now: nat) {
    !LastsToEnd(o, now) && !StackFlagged(o.fate) && HeapFlagged(o.fate)
  }

  /** What objects are counted by. */
  datatype Group = ToEnd | FromStack | AfterHeap | StackOnly | FromHeap | FromGlobal

  predicate In(g: Group, o: Item, now: nat) {
    match g
    case ToEnd => LastsToEnd(o, now)
    case FromStack => LostFromStack(o, now)
    case AfterHeap => LostFromStack(o, now) && o.fate.pointedByHeap
    case StackOnly => LostFromStack(o, now) && !o.fate.pointedByHeap
    case FromHeap => LostFromHeap(o, now)
    case FromGlobal => LostFromHeap(o, now) && o.fate.byGlobal
  }

  function Number(g: Group, items: seq<Item>, now: nat): nat {
    if items == [] then 0
    else Number(g, items[..|items| - 1], now) + if In(g, items[|items| - 1], now) then 1 else 0
  }

  function Bytes(g: Group, items: seq<Item>, now: nat): nat {
    if items == [] then 0
    else Bytes(g, items[..|items| - 1], now) + if In(g, items[|items| - 1], now) then items[|items| - 1].size else 0
  }

  /** The same for the objects of the group whose last update was to null. */
  function NullNumber(g: Group, items: seq<Item>, now: nat): nat {
    if items == [] then 0
    else
      var o := items[|items| - 1];
      NullNumber(g, items[..|items| - 1], now) + if In(g, o, now) && o.fate.lastUpdateNull == Yes then 1 else 0
  }

  function NullBytes(g: Group, items: seq<Item>, now: nat): nat {
    if items == [] then 0
    else
      var o := items[|items| - 1];
      NullBytes(g, items[..|items| - 1], now) + if In(g, o, now) && o.fate.lastUpdateNull == Yes then o.size else 0
  }

  /** Each counter is the number of objects of its group. */
  ghost predicate NumbersOk(t: Tally, items: seq<Item>, now: nat) {
    && t.atEnd == Number(ToEnd, items, now)
    && t.byStack == Number(FromStack, items, now)
    && t.stackAfterHeap == Number(AfterHeap, items, now)
    && t.stackOnly == Number(StackOnly, items, now)
    && t.byHeap == Number(FromHeap, items, now)
    && t.byGlobal == Number(FromGlobal, items, now)
  }

  /** Each size is the sum of the sizes of its group, up to wrap-around. */
  ghost predicate BytesOk(t: Tally, items: seq<Item>, now: nat) {
    && t.sizeAtEnd == Bytes(ToEnd, items, now) % UINT_RANGE
    && t.sizeByStack == Bytes(FromStack, items, now) % UINT_RANGE
    && t.sizeStackAfterHeap == Bytes(AfterHeap, items, now) % UINT_RANGE
    && t.sizeStackOnly == Bytes(StackOnly, items, now) % UINT_RANGE
    && t.sizeByHeap == Bytes(FromHeap, items, now) % UINT_RANGE
    && t.sizeByGlobal == Bytes(FromGlobal, items, now) % UINT_RANGE
  }

  /** The null updates of stack and heap objects; the counter of all of them takes in the objects at the end. */
  ghost predicate NullsOk(t: Tally, items: seq<Item>, now: nat) {
    && t.updateNullStack == NullNumber(FromStack, items, now)
    && t.updateNullHeap == NullNumber(FromHeap, items, now)
    && t.updateNull == t.updateNullStack + t.updateNullHeap + NullNumber(ToEnd, items, now)
    && t.sizeUpdateNullStack == NullBytes(FromStack, items, now) % UINT_RANGE
    && t.sizeUpdateNullHeap == NullBytes(FromHeap, items, now) % UINT_RANGE
    && t.sizeUpdateNull
       == (NullBytes(FromStack, items, now) + NullBytes(FromHeap, items, now) + NullBytes(ToEnd, items, now)) % UINT_RANGE
  }

  /** The group of an object, from the flags the pass finds and leaves. */
  lemma KindIsGroup(o: Item, now: nat)
    ensures var f := AtTheEnd(o.fate, o.deathTime, now);
      && (KindOf(f) == EndKind <==> In(ToEnd, o, now))
      && (KindOf(f).StackKind? <==> In(FromStack, o, now))
      && (KindOf(f) == StackKind(true) <==> In(AfterHeap, o, now))
      && (KindOf(f) == StackKind(false) <==> In(StackOnly, o, now))
      && (KindOf(f) == HeapKind <==> In(FromHeap, o, now))
      && (KindOf(f) == HeapKind && f.byGlobal <==> In(FromGlobal, o, now))
      && f.lastUpdateNull == o.fate.lastUpdateNull
  {
  }

  lemma PlusWraps(x: nat, size: nat)
    ensures Plus(x % UINT_RANGE, size) == (x + size) % UINT_RANGE
  {
  }

  lemma {:induction false} CountersCount(items: seq<Item>, now: nat)
    ensures NumbersOk(Tallied(items, now), items, now)
  {
    hide KindOf, AtTheEnd, In, Plus;
    if items != [] {
      CountersCount(items[..|items| - 1], now);
      KindIsGroup(items[|items| - 1], now);
    }
  }

  lemma {:induction false} SizesCount(items: seq<Item>, now: nat)
    ensures BytesOk(Tallied(items, now), items, now)
  {
    hide KindOf, AtTheEnd, In, Plus;
    if items != [] {
      var init, o := items[..|items| - 1], items[|items| - 1];
      SizesCount(init, now);
      KindIsGroup(o, now);
      forall g: Group
        ensures Plus(Bytes(g, init, now) % UINT_RANGE, o.size) == (Bytes(g, init, now) + o.size) % UINT_RANGE {
        PlusWraps(Bytes(g, init, now), o.size);
      }
    }
  }

  lemma {:induction false} NullsCount(items: seq<Item>, now: nat)
    ensures NullsOk(Tallied(items, now), items, now)
  {
    hide KindOf, AtTheEnd, In, Plus;
    if items != [] {
      var init, o := items[..|items| - 1], items[|items| - 1];
      NullsCount(init, now);
      KindIsGroup(o, now);
      GroupIsOne(o, now);
      PlusWraps(NullBytes(FromStack, init, now), o.size);
      PlusWraps(NullBytes(FromHeap, init, now), o.size);
      PlusWraps(NullBytes(FromStack, init, now) + NullBytes(FromHeap, init, now) + NullBytes(ToEnd, init, now), o.size);
    }
  }

  lemma GroupIsOne(o: Item, now: nat)
    ensures In(FromStack, o, now) || In(FromHeap, o, now) || In(ToEnd, o, now)
    ensures !(In(FromStack, o, now) && In(FromHeap, o, now)) && !(In(FromStack, o, now) && In(ToEnd, o, now))
         && !(In(FromHeap, o, now) && In(ToEnd, o, now))
  {
  }

  /** Every object is in exactly one of at-end, stack and heap; stack objects are in one of their two groups. */
  lemma {:induction false} GroupsPartition(items: seq<Item>, now: nat)
    ensures Number(ToEnd, items, now) + Number(FromStack, items, now) + Number(FromHeap, items, now) == |items|
    ensures Number(AfterHeap, items, now) + Number(StackOnly, items, now) == Number(FromStack, items, now)
    ensures Number(FromGlobal, items, now) <= Number(FromHeap, items, now)
  {
    if items != [] {
      GroupsPartition(items[..|items| - 1], now);
    }
  }

  /** An object nothing ever pointed at, dead before the end, is lost from the stack only. */
  lemma UntouchedIsStackOnly(o: Item, now: nat)
    requires o.fate == NEWBORN && o.deathTime < now
    ensures In(StackOnly, o, now)
  {
  }

  /** The pass flags an object as lost from the heap exactly if it counts it so; other dead objects stay as they are. */
  lemma MarkedFromHeap(o: Item, now: nat)
    ensures Marked(o, now).byHeap <==> LostFromHeap(o, now) || (o.fate.byHeap && o.deathTime < now)
    ensures LostFromHeap(o, now) ==> Marked(o, now) == o.fate.(byHeap := true, reason := HeapReason, flagSet := true)
    ensures o.deathTime < now && !LostFromHeap(o, now) ==> Marked(o, now) == o.fate
  {
  }

  /** An object that lives to the end loses its other flags, but gets the at-end flag only if no flag was set before. */
  lemma MarkedAtEnd(o: Item, now: nat)
    requires o.deathTime >= now
    ensures Marked(o, now) == o.fate.(dead := true, byStack := false, byHeap := false, flagSet := true,
                                      reason := EndReason, lastEvent := EndEvent,
                                      atEnd := o.fate.atEnd || !o.fate.flagSet)
  {
  }

  /** Every object is counted in exactly one of at-end, stack and heap; stack objects in one of their two kinds. */
  ghost predicate Balanced(t: Tally, items: seq<Item>) {
    && t.atEnd + t.byStack + t.byHeap == |items|
    && t.stackAfterHeap + t.stackOnly == t.byStack
    && t.byGlobal <= t.byHeap
  }

  /** The sizes agree with the objects, up to wrap-around. */
  ghost predicate SizesBalanced(t: Tally, items: seq<Item>) {
    && (t.sizeAtEnd + t.sizeByStack + t.sizeByHeap) % UINT_RANGE == TotalSize(items) % UINT_RANGE
    && (t.sizeStackAfterHeap + t.sizeStackOnly) % UINT_RANGE == t.sizeByStack % UINT_RANGE
  }

  /** Adding to one part of a sum adds to the sum, up to wrap-around. */
  lemma PlusAdds(part: nat, rest: nat, size: nat, total: nat)
    requires (part + rest) % UINT_RANGE == total % UINT_RANGE
    ensures (Plus(part, size) + rest) % UINT_RANGE == (total + size) % UINT_RANGE
  {
    var carry := (part + size) / UINT_RANGE;
    var turns := (part + rest) / UINT_RANGE - total / UINT_RANGE;
    assert Plus(part, size) + rest == total + size + (turns - carry) * UINT_RANGE;
    WrapsAround(total + size, turns - carry);
  }

  lemma WrapsAround(x: int, turns: int)
    ensures (x + turns * UINT_RANGE) % UINT_RANGE == x % UINT_RANGE
  {
  }

  lemma CountKeepsSizes(t: Tally, f: Fate, size: nat, total: nat)
    requires (t.sizeAtEnd + t.sizeByStack + t.sizeByHeap) % UINT_RANGE == total % UINT_RANGE
    requires (t.sizeStackAfterHeap + t.sizeStackOnly) % UINT_RANGE == t.sizeByStack % UINT_RANGE
    ensures var u := Counted(t, f, size);
      && (u.sizeAtEnd + u.sizeByStack + u.sizeByHeap) % UINT_RANGE == (total + size) % UINT_RANGE
      && (u.sizeStackAfterHeap + u.sizeStackOnly) % UINT_RANGE == u.sizeByStack % UINT_RANGE
  {
    hide Plus, KindOf;
    match KindOf(f)
    case EndKind =>
      PlusAdds(t.sizeAtEnd, t.sizeByStack + t.sizeByHeap, size, total);
    case HeapKind =>
      PlusAdds(t.sizeByHeap, t.sizeAtEnd + t.sizeByStack, size, total);
    case StackKind(afterHeap) =>
      PlusAdds(t.sizeByStack, t.sizeAtEnd + t.sizeByHeap, size, total);
      PlusAdds(t.sizeByStack, 0, size, t.sizeByStack);
      if afterHeap {
        PlusAdds(t.sizeStackAfterHeap, t.sizeStackOnly, size, t.sizeByStack);
      } else {
        PlusAdds(t.sizeStackOnly, t.sizeStackAfterHeap, size, t.sizeByStack);
      }
  }

  lemma TallyBalances(items: seq<Item>, now: nat)
    ensures Balanced(Tallied(items, now), items)
  {
    CountersCount(items, now);
    GroupsPartition(items, now);
  }

  lemma {:induction false} SizesBalance(items: seq<Item>, now: nat)
    ensures SizesBalanced(Tallied(items, now), items)
  {
    hide Counted, AtTheEnd;
    if items != [] {
      var o := items[|items| - 1];
      SizesBalance(items[..|items| - 1], now);
      CountKeepsSizes(Tallied(items[..|items| - 1], now), AtTheEnd(o.fate, o.deathTime, now), o.size,
                      TotalSize(items[..|items| - 1]));
    }
  }

  // ----- The pass over the heap -----

  ghost function ItemOf(o: Object): Item
    reads o`deathTime, o`fate
  {
    Item(o.size, o.deathTime, o.fate)
  }

  method SetDiedAtEndFlag(obj: Object)
    modifies obj`fate
    ensures obj.fate == FlaggedAtEnd(old(obj.fate))
  {
    if obj.fate.flagSet {
      return;
    }
    obj.fate := obj.fate.(atEnd := true, reason := EndReason, flagSet := true);
  }

  /** A live object dies now; one that is already marked dead keeps its times. */
  method MarkEnd(obj: Object, now: nat)
    modifies obj`fate, obj`deathTime, obj`lastTimestamp
    ensures obj.fate == AtTheEnd(old(obj.fate), old(obj.deathTime), now)
    ensures if old(obj.deathTime) >= now && !old(obj.fate.dead) then obj.deathTime == obj.lastTimestamp == now
            else obj.deathTime == old(obj.deathTime) && obj.lastTimestamp == old(obj.lastTimestamp)
  {
    if obj.deathTime >= now {
      if !obj.fate.dead {
        obj.deathTime := now;
        obj.fate := obj.fate.(reason := EndReason, dead := true);
        SetDiedAtEndFlag(obj);
        obj.lastTimestamp := now;
      }
      obj.fate := obj.fate.(byStack := false, byHeap := false);
      SetDiedAtEndFlag(obj);
      obj.fate := obj.fate.(reason := EndReason, lastEvent := EndEvent);
    }
  }

  class DeathCounters {
    const heap: HeapState
    var tally: Tally

    constructor (heap: HeapState)
      ensures this.heap == heap && tally == ZERO
    {
      this.heap, tally := heap, ZERO;
    }

    method UpdateDeathCounters(obj: Object)
      modifies this`tally, obj`fate
      ensures tally == Counted(old(tally), old(obj.fate), obj.size) && obj.fate == Settled(old(obj.fate))
    {
      var size, f := obj.size, obj.fate;
      if f.reason == EndReason || f.atEnd {
        tally := tally.(atEnd := tally.atEnd + 1, sizeAtEnd := Plus(tally.sizeAtEnd, size));
      } else if f.byStack || ((f.reason == StackReason || f.lastEvent == RootEvent) && !f.byHeap) {
        tally := tally.(byStack := tally.byStack + 1, sizeByStack := Plus(tally.sizeByStack, size));
        if f.pointedByHeap {
          tally := tally.(stackAfterHeap := tally.stackAfterHeap + 1,
                          sizeStackAfterHeap := Plus(tally.sizeStackAfterHeap, size));
        } else {
          tally := tally.(stackOnly := tally.stackOnly + 1, sizeStackOnly := Plus(tally.sizeStackOnly, size));
        }
        if f.lastUpdateNull == Yes {
          tally := tally.(updateNullStack := tally.updateNullStack + 1,
                          sizeUpdateNullStack := Plus(tally.sizeUpdateNullStack, size));
        }
      } else if f.byHeap || f.reason == HeapReason || f.lastEvent == UpdateAwayToNull
                || f.lastEvent == UpdateAwayToValid || f.pointedByHeap || f.byGlobal {
        tally := tally.(byHeap := tally.byHeap + 1, sizeByHeap := Plus(tally.sizeByHeap, size));
        obj.fate := f.(byHeap := true, reason := HeapReason, flagSet := true);
        if f.lastUpdateNull == Yes {
          tally := tally.(updateNullHeap := tally.updateNullHeap + 1,
                          sizeUpdateNullHeap := Plus(tally.sizeUpdateNullHeap, size));
        }
        if f.byGlobal {
          tally := tally.(byGlobal := tally.byGlobal + 1, sizeByGlobal := Plus(tally.sizeByGlobal, size));
        }
      } else {
        tally := tally.(byStack := tally.byStack + 1, sizeByStack := Plus(tally.sizeByStack, size),
                        stackOnly := tally.stackOnly + 1, sizeStackOnly := Plus(tally.sizeStackOnly, size));
        if f.lastUpdateNull == Yes {
          tally := tally.(updateNullStack := tally.updateNullStack + 1,
                          sizeUpdateNullStack := Plus(tally.sizeUpdateNullStack, size));
        }
      }
      if f.lastUpdateNull == Yes {
        tally := tally.(updateNull := tally.updateNull + 1, sizeUpdateNull := Plus(tally.sizeUpdateNull, size));
      }
    }

    ghost function Items(ids: seq<nat>): (items: seq<Item>)
      requires forall id :: id in ids ==> id in heap.objects
      reads heap, heap.objects.Values
      ensures |items| == |ids| && forall i :: 0 <= i < |ids| ==> items[i] == ItemOf(heap.objects[ids[i]])
    {
      if ids == [] then [] else Items(ids[..|ids| - 1]) + [ItemOf(heap.objects[ids[|ids| - 1]])]
    }

    /** One round of the pass. */
    method EndOne(obj: Object, now: nat)
      modifies this`tally, obj
      ensures tally == Counted(old(tally), AtTheEnd(old(obj.fate), old(obj.deathTime), now), obj.size)
      ensures obj.fate == Marked(old(ItemOf(obj)), now)
    {
      MarkEnd(obj, now);
      UpdateDeathCounters(obj);
    }

    /** The first i objects are marked and counted, the others are as the pass finds them. */
    ghost predicate Passed(ids: seq<nat>, items: seq<Item>, i: nat, now: nat)
      requires (forall id :: id in ids ==> id in heap.objects) && i <= |ids| == |items|
      reads this, heap, heap.objects.Values
    {
      && tally == Tallied(items[..i], now)
      && (forall j :: i <= j < |ids| ==> ItemOf(heap.objects[ids[j]]) == items[j])
      && forall j :: 0 <= j < i ==> heap.objects[ids[j]].fate == Marked(items[j], now)
    }

    method EndNext(ids: seq<nat>, ghost items: seq<Item>, i: nat, now: nat)
      requires Filed(heap.objects) && StrictlyAscending(ids) && forall id :: id in ids ==> id in heap.objects
      requires i < |ids| == |items| && Passed(ids, items, i, now)
      modifies this`tally, heap.objects.Values
      ensures Passed(ids, items, i + 1, now)
    {
      hide Counted, AtTheEnd, Marked, StrictlyAscending;
      OthersDiffer(ids, i);
      EndOne(heap.objects[ids[i]], now);
      TalliedNext(items, i, now);
    }

    /** end_of_program: marks and counts every object, in id order. */
    method EndOfProgram(now: nat)
      requires heap.Valid() && tally == ZERO
      modifies this`tally, heap.objects.Values
      ensures var items := old(Items(Ascending(heap.objects.Keys)));
        && tally == Tallied(items, now) && Balanced(tally, items) && SizesBalanced(tally, items)
        && NumbersOk(tally, items, now) && BytesOk(tally, items, now) && NullsOk(tally, items, now)
      ensures forall id :: id in heap.objects ==> heap.objects[id].fate == Marked(old(ItemOf(heap.objects[id])), now)
    {
      hide Marked, Balanced, SizesBalanced, NumbersOk, BytesOk, NullsOk, StrictlyAscending;
      var ids := Ascending(heap.objects.Keys);
      ghost var items := Items(ids);
      AscendingIsSorted(heap.objects.Keys);
      for i := 0 to |ids|
        invariant heap.objects == old(heap.objects) && Passed(ids, items, i, now)
      {
        EndNext(ids, items, i, now);
      }
      assert items[..|ids|] == items;
      TallyBalances(items, now);
      SizesCount(items, now);
      NullsCount(items, now);
      CountersCount(items, now);
      SizesBalance(items, now);
    }

    lemma OthersDiffer(ids: seq<nat>, i: nat)
      requires Filed(heap.objects) && i < |ids| && StrictlyAscending(ids) && forall id :: id in ids ==> id in heap.objects
      ensures forall j :: 0 <= j < |ids| && j != i ==> heap.objects[ids[j]] != heap.objects[ids[i]]
    {
      forall j | 0 <= j < |ids| && j != i ensures heap.objects[ids[j]] != heap.objects[ids[i]] {
        AscendingOrder(ids, if i < j then i else j, if i < j then j else i);
      }
    }
  }

  lemma TalliedNext(items: seq<Item>, i: nat, now: nat)
    requires i < |items|
    ensures Tallied(items[..i + 1], now)
         == Counted(Tallied(items[..i], now), AtTheEnd(items[i].fate, items[i].deathTime, now), items[i].size)
  {
    assert items[..i + 1][..i] == items[..i];
  }
}
