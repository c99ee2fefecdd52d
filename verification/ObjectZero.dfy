/**
 * Id 0. M, A and N records use it for "no object", but a U record can make an object 0. Read by id alone, the
 * merged list can therefore name 0 after its death record; this module says exactly when.
 */
module ObjectZero {
  import opened Records
  import opened Heap
  import opened TraceReader
  import opened DeathInsertion
  import opened Pipeline

  /** The record carries the id, whether or not it means an object by it. */
  predicate Carries(r: Record, id: nat) {
    Mentions(r, id) || (id == 0 && NamesNoObject(r))
  }

  predicate NamesNoObject(r: Record) {
    (r.Method? || r.Alloc?) && r.objectId == 0
  }

  ghost predicate NoIdAfterDeath(rs: seq<Record>) {
    forall i, j :: 0 <= i < j < |rs| && rs[i].Death? ==> !Carries(rs[j], rs[i].objectId)
  }

  /** Some final timestamp is at least `stamp`. */
  ghost predicate Outlived(final: map<nat, nat>, stamp: nat) {
    exists id :: id in final && stamp <= final[id]
  }

  /** A record without an object is stamped after object 0 dies, and some object lives on to its stamp. */
  ghost predicate ZeroCarriedLate(trace: seq<Record>, final: map<nat, nat>) {
    0 in final
    && exists r :: r in trace && NamesNoObject(r) && final[0] < r.stamp && Outlived(final, r.stamp)
  }

  // ----- How far the list copies the trace -----

  /** MaxLimit is the largest of m and the limits. */
  lemma {:induction false} MaxLimitIsLargest(m: int, ds: Deaths)
    ensures m <= MaxLimit(m, ds) && forall k :: 0 <= k < |ds| ==> ds[k].1 <= MaxLimit(m, ds)
    ensures MaxLimit(m, ds) == m || exists k :: 0 <= k < |ds| && MaxLimit(m, ds) == ds[k].1
    decreases |ds|
  {
    if ds != [] {
      var rest, n := ds[1..], Max(m, ds[0].1);
      MaxLimitIsLargest(n, rest);
      assert forall k :: 0 < k < |ds| ==> ds[k] == rest[k - 1];
      if MaxLimit(n, rest) != n {
        var k :| 0 <= k < |rest| && MaxLimit(n, rest) == rest[k].1;
        assert rest[k] == ds[k + 1];
      }
    }
  }

  lemma {:induction false} WithoutDeathsMembers(rs: seq<Record>, r: Record)
    ensures r in WithoutDeaths(rs) <==> r in rs && !r.Death?
  {
    if rs != [] {
      WithoutDeathsMembers(rs[1..], r);
      assert rs == [rs[0]] + rs[1..];
    }
  }

  /** Object 0 comes first in the heap's order. */
  lemma ZeroIsFirst(final: map<nat, nat>)
    requires 0 in final
    ensures FinalTimes(final) != [] && FinalTimes(final)[0] == (0, final[0])
  {
    var ids := Ascending(final.Keys);
    AscendingIsSorted(final.Keys);
    StampedPairs(ids, final);
    assert 0 in ids;
    var k :| 0 <= k < |ids| && ids[k] == 0;
    FirstIsLeast(ids, k);
  }

  lemma FirstIsLeast(ids: seq<nat>, k: nat)
    requires StrictlyAscending(ids) && k < |ids|
    ensures ids[0] <= ids[k]
  {
    if k > 0 {
      AscendingOrder(ids, 0, k);
    }
  }

  lemma LimitOfOutlived(m: int, ds: Deaths, final: map<nat, nat>, stamp: nat)
    requires ds == FinalTimes(final)
    ensures Outlived(final, stamp) ==> stamp <= MaxLimit(m, ds)
    ensures stamp <= MaxLimit(m, ds) ==> stamp <= m || Outlived(final, stamp)
  {
    var ids := Ascending(final.Keys);
    StampedPairs(ids, final);
    MaxLimitIsLargest(m, ds);
    if Outlived(final, stamp) {
      var id :| id in final && stamp <= final[id];
      assert id in ids;
      var k :| 0 <= k < |ids| && ids[k] == id;
      assert ds[k] == (id, final[id]);
    }
    if m < stamp <= MaxLimit(m, ds) {
      var k :| 0 <= k < |ds| && MaxLimit(m, ds) == ds[k].1;
      assert ds[k] == (ids[k], final[ids[k]]) && ids[k] in ids;
    }
  }

  // ----- The exact condition -----

  /** A record stamped after 0 dies and no later than the last final timestamp is copied behind the D record of 0. */
  lemma CopiedAfterZero(trace: seq<Record>, final: map<nat, nat>, r: Record) returns (i: nat, j: nat)
    requires Nondecreasing(trace) && DeathFree(trace) && 0 in final && r in trace
    requires final[0] < r.stamp && Outlived(final, r.stamp)
    ensures var merged := Weave(trace, START, FinalTimes(final));
      i < j < |merged| && merged[i].Death? && merged[i].objectId == 0 && merged[j] == r
  {
    hide Weave, FinalTimes, Advance, Outlived;
    var ds := FinalTimes(final);
    ZeroIsFirst(final);
    var c := Advance(trace, START, final[0]);
    AdvanceCuts(trace, START, final[0], -1);
    var rest := Weave(trace, c, ds[1..]);
    var p := WeaveKeepsRecords(trace, c, ds[1..], final[0]);
    LimitOfOutlived(-1, ds, final, r.stamp);
    var k :| 0 <= k < |trace| && trace[k] == r;
    assert c.pos <= k < p;
    assert trace[c.pos..p][k - c.pos] == r;
    WithoutDeathsMembers(rest, r);
    var m :| 0 <= m < |rest| && rest[m] == r;
    i, j := c.pos, c.pos + 1 + m;
    WeaveFirst(trace, ds);
  }

  lemma WeaveFirst(trace: seq<Record>, ds: Deaths)
    requires ds != []
    ensures var c := Advance(trace, START, ds[0].1);
      Weave(trace, START, ds) == trace[..c.pos] + [Death(ds[0].0, 0, c.prev)] + Weave(trace, c, ds[1..])
  {
    var c := Advance(trace, START, ds[0].1);
    assert trace[0..c.pos] == trace[..c.pos];
  }

  /** A record of the list that carries an id after its death record carries 0 and names no object. */
  lemma OnlyZeroIsCarriedLate(s: State, final: map<nat, nat>, i: nat, j: nat)
    requires Invariant(s) && final.Keys == s.objects.Keys
    requires forall id :: id in final ==> s.objects[id].lastTimestamp <= final[id]
    requires var merged := Weave(s.trace, START, FinalTimes(final));
      i < j < |merged| && merged[i].Death? && Carries(merged[j], merged[i].objectId)
    ensures ZeroCarriedLate(s.trace, final)
  {
    hide Invariant, Weave, FinalTimes;
    var ds := FinalTimes(final);
    var merged := Weave(s.trace, START, ds);
    var r := merged[j];
    InvariantMeans(s);
    LateDeathsComeAfterUses(s, final);
    assert merged[i].objectId == 0 && NamesNoObject(r);
    var k := DeathsComeLate(s.trace, START, ds, -1, i, j);
    PairOf(final, k);
    var p := MergeKeepsRecords(s.trace, ds);
    WithoutDeathsMembers(merged, r);
    assert r in s.trace[..p];
    LimitOfOutlived(-1, ds, final, r.stamp);
  }

  lemma PairOf(final: map<nat, nat>, k: nat)
    requires k < |FinalTimes(final)|
    ensures FinalTimes(final)[k].0 in final && FinalTimes(final)[k].1 == final[FinalTimes(final)[k].0]
  {
    StampedPairs(Ascending(final.Keys), final);
  }

  /** Read by id alone, nothing is used after its death record exactly when 0 is not carried late. */
  lemma NoIdAfterDeathIffZeroNotCarriedLate(s: State, final: map<nat, nat>)
    requires Invariant(s) && final.Keys == s.objects.Keys
    requires forall id :: id in final ==> s.objects[id].lastTimestamp <= final[id]
    ensures NoIdAfterDeath(Weave(s.trace, START, FinalTimes(final))) <==> !ZeroCarriedLate(s.trace, final)
  {
    hide Invariant, Weave, FinalTimes;
    var merged := Weave(s.trace, START, FinalTimes(final));
    InvariantMeans(s);
    if ZeroCarriedLate(s.trace, final) {
      var r :| r in s.trace && NamesNoObject(r) && final[0] < r.stamp && Outlived(final, r.stamp);
      var i, j := CopiedAfterZero(s.trace, final, r);
      assert Carries(merged[j], merged[i].objectId);
    }
    if !NoIdAfterDeath(merged) {
      var i, j :| 0 <= i < j < |merged| && merged[i].Death? && Carries(merged[j], merged[i].objectId);
      OnlyZeroIsCarriedLate(s, final, i, j);
    }
  }

  // ----- It can happen -----

  const ZERO_LINES := [UpdateLine(0, 5, 1, 1), MethodLine(1, 0, 1), MethodLine(1, 5, 1)]

  const UPDATED := FreshObject(4, 'U', false, 1)

  const AFTER_UPDATE := State(1, [Update(5, 1, 0, 1, 1)],
    map[0 := UPDATED.(lastTimestamp := 1), 5 := UPDATED.(lastTimestamp := 1)], {0, 5}, 2)

  const AFTER_CALL := State(2, [Update(5, 1, 0, 1, 1), Method(1, 0, 1, 2)], AFTER_UPDATE.objects, {0, 5}, 2)

  const AFTER_ALL := State(3, [Update(5, 1, 0, 1, 1), Method(1, 0, 1, 2), Method(1, 5, 1, 3)],
    map[0 := UPDATED.(lastTimestamp := 1), 5 := UPDATED.(lastTimestamp := 3)], {0, 5}, 2)

  lemma FirstLineUpdates()
    ensures Step(EMPTY, ZERO_LINES[0]) == Next(AFTER_UPDATE)
  {
    var s := Logged(EMPTY, Update(5, 1, 0, 1, 1), 1);
    var s1 := AddObject(s, 0, UPDATED).(unallocated := {0});
    assert Lookup(s, 0) == Next(s1) by {
      assert s.unallocated + {0} == {0};
    }
    var s2 := AddObject(s1, 5, UPDATED).(unallocated := {0, 5});
    assert Lookup(s1, 5) == Next(s2) by {
      assert s1.unallocated + {5} == {0, 5};
    }
    assert TouchBoth(s2.objects, 0, 5, 1, 1) == AFTER_UPDATE.objects;
  }

  /** An accepted trace whose list carries 0 after the death record of object 0. */
  lemma ZeroCanBeCarriedLate()
    ensures Run(EMPTY, ZERO_LINES) == Next(AFTER_ALL)
    ensures !NoIdAfterDeath(Weave(AFTER_ALL.trace, START, FinalTimes(LastStamps(AFTER_ALL.objects))))
  {
    hide Step, Weave, Invariant;
    FirstLineUpdates();
    LastLinesCall();
    EmptyIsInvariant();
    RunKeepsInvariant(EMPTY, ZERO_LINES);
    CarriedLateAtTheEnd();
    NoIdAfterDeathIffZeroNotCarriedLate(AFTER_ALL, LastStamps(AFTER_ALL.objects));
  }

  lemma LastLinesCall()
    ensures Run(AFTER_UPDATE, ZERO_LINES[1..]) == Next(AFTER_ALL)
  {
    assert Step(AFTER_UPDATE, MethodLine(1, 0, 1)) == Next(AFTER_CALL);
    assert Step(AFTER_CALL, MethodLine(1, 5, 1)) == Next(AFTER_ALL) by {
      assert Touch(AFTER_CALL.objects, 5, 3) == AFTER_ALL.objects;
    }
    assert ZERO_LINES[1..] == [MethodLine(1, 0, 1), MethodLine(1, 5, 1)];
    assert ZERO_LINES[1..][1..] == [MethodLine(1, 5, 1)];
    assert Run(AFTER_CALL, [MethodLine(1, 5, 1)]) == Next(AFTER_ALL);
  }

  lemma CarriedLateAtTheEnd()
    ensures ZeroCarriedLate(AFTER_ALL.trace, LastStamps(AFTER_ALL.objects))
  {
    var final := LastStamps(AFTER_ALL.objects);
    assert final[0] == 1 && final[5] == 3;
    assert AFTER_ALL.trace[1] == Method(1, 0, 1, 2) && Outlived(final, 2);
  }
}
