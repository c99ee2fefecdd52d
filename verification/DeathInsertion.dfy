/** insert_death_records_into_trace (simulator/simulator.cpp): a merge with a forward-only iterator. */
module DeathInsertion {
  import opened Heap
  import opened Records

  /** The iterator into the trace, and the stamps read last and before last. */
  datatype Cursor = Cursor(pos: nat, prev: nat, rec: nat)

  /** The object ids in heap order, each with its final timestamp. */
  type Deaths = seq<(nat, nat)>

  function Names(ds: Deaths): seq<nat> {
    if ds == [] then [] else [ds[0].0] + Names(ds[1..])
  }

  const START := Cursor(0, 0, 0)

  function Advance(trace: seq<Record>, c: Cursor, limit: nat): (c': Cursor)
    requires c.pos <= |trace|
    ensures c.pos <= c'.pos <= |trace|
    decreases |trace| - c.pos
  {
    if c.pos == |trace| then c
    else
      var stamp := trace[c.pos].stamp;
      if stamp > limit then Cursor(c.pos, c.rec, stamp)
      else Advance(trace, Cursor(c.pos + 1, c.rec, stamp), limit)
  }

  /** The merged list that the iterator at c still has to produce for the objects ds. */
  function Weave(trace: seq<Record>, c: Cursor, ds: Deaths): seq<Record>
    requires c.pos <= |trace|
    decreases |ds|
  {
    if ds == [] then []
    else
      var (id, limit) := ds[0];
      var c' := Advance(trace, c, limit);
      trace[c.pos..c'.pos] + [Death(id, 0, c'.prev)] + Weave(trace, c', ds[1..])
  }

  // ----- Where the iterator stops -----

  /** p is the length of the longest prefix of the trace stamped no later than m. */
  ghost predicate IsCut(trace: seq<Record>, m: int, p: nat) {
    && p <= |trace|
    && (forall i :: 0 <= i < p ==> trace[i].stamp <= m)
    && (p < |trace| ==> trace[p].stamp > m)
  }

  function Max(a: int, b: int): int {
    if a < b then b else a
  }

  function MaxLimit(m: int, ds: Deaths): int
    decreases |ds|
  {
    if ds == [] then m else MaxLimit(Max(m, ds[0].1), ds[1..])
  }

  lemma {:induction false} AdvanceStops(trace: seq<Record>, c: Cursor, limit: nat, m: int)
    requires c.pos <= |trace|
    requires forall i :: 0 <= i < c.pos ==> trace[i].stamp <= Max(m, limit)
    requires c.pos < |trace| && trace[c.pos].stamp > limit ==> trace[c.pos].stamp > m
    requires m <= limit || c.pos == |trace| || trace[c.pos].stamp > m
    ensures IsCut(trace, Max(m, limit), Advance(trace, c, limit).pos)
    decreases |trace| - c.pos
  {
    if c.pos < |trace| && trace[c.pos].stamp <= limit {
      AdvanceStops(trace, Cursor(c.pos + 1, c.rec, trace[c.pos].stamp), limit, limit);
    }
  }

  /**
   * What the inner loop does from c for an object with this limit: where it stops, and the two stamps it then holds,
   * of the record it looked at last and of the one before. It does nothing when the trace is used up.
   */
  predicate Reads(trace: seq<Record>, c: Cursor, limit: nat, c': Cursor) {
    && c.pos <= c'.pos <= |trace|
    && (forall i :: c.pos <= i < c'.pos ==> trace[i].stamp <= limit)
    && (c'.pos < |trace| ==> trace[c'.pos].stamp > limit)
    && if c.pos == |trace| then c' == c
       else if c'.pos < |trace| then
         c'.rec == trace[c'.pos].stamp && c'.prev == if c'.pos == c.pos then c.rec else trace[c'.pos - 1].stamp
       else
         && c'.rec == trace[|trace| - 1].stamp
         && c'.prev == if c.pos == |trace| - 1 then c.rec else trace[|trace| - 2].stamp
  }

  lemma {:induction false} AdvanceReads(trace: seq<Record>, c: Cursor, limit: nat)
    requires c.pos <= |trace|
    ensures Reads(trace, c, limit, Advance(trace, c, limit))
    decreases |trace| - c.pos
  {
    if c.pos < |trace| && trace[c.pos].stamp <= limit {
      AdvanceReads(trace, Cursor(c.pos + 1, c.rec, trace[c.pos].stamp), limit);
    }
  }

  /** One object moves the iterator from the cut at m to the cut at the larger of m and the object's timestamp. */
  lemma AdvanceCuts(trace: seq<Record>, c: Cursor, limit: nat, m: int)
    requires IsCut(trace, m, c.pos)
    ensures IsCut(trace, Max(m, limit), Advance(trace, c, limit).pos)
  {
    AdvanceStops(trace, c, limit, m);
  }

  // ----- The records that are not deaths -----

  lemma ChunkDeaths(head: seq<Record>, dead: Record, tail: seq<Record>)
    requires DeathFree(head) && dead.Death?
    ensures WithoutDeaths(head + [dead] + tail) == head + WithoutDeaths(tail)
    ensures DeathIds(head + [dead] + tail) == [dead.objectId] + DeathIds(tail)
  {
    var rest := [dead] + tail;
    assert head + [dead] + tail == head + rest;
    DeathFirst(dead, tail);
    DeathFreeIsUntouched(head);
    ChunkConcat(head, rest);
  }

  lemma ChunkConcat(head: seq<Record>, rest: seq<Record>)
    requires WithoutDeaths(head) == head && DeathIds(head) == []
    ensures WithoutDeaths(head + rest) == head + WithoutDeaths(rest) && DeathIds(head + rest) == DeathIds(rest)
  {
    WithoutDeathsConcat(head, rest);
    DeathIdsConcat(head, rest);
  }

  lemma DeathFirst(dead: Record, tail: seq<Record>)
    requires dead.Death?
    ensures WithoutDeaths([dead] + tail) == WithoutDeaths(tail)
    ensures DeathIds([dead] + tail) == [dead.objectId] + DeathIds(tail)
  {
  }

  lemma {:induction false} WeaveKeepsRecords(trace: seq<Record>, c: Cursor, ds: Deaths, m: int) returns (p: nat)
    requires DeathFree(trace) && IsCut(trace, m, c.pos)
    ensures c.pos <= p && IsCut(trace, MaxLimit(m, ds), p)
    ensures WithoutDeaths(Weave(trace, c, ds)) == trace[c.pos..p]
    ensures DeathIds(Weave(trace, c, ds)) == Names(ds)
    decreases |ds|
  {
    p := c.pos;
    if ds != [] {
      var c' := Advance(trace, c, ds[0].1);
      AdvanceCuts(trace, c, ds[0].1, m);
      p := WeaveKeepsRecords(trace, c', ds[1..], Max(m, ds[0].1));
      ChunkDeaths(trace[c.pos..c'.pos], Death(ds[0].0, 0, c'.prev), Weave(trace, c', ds[1..]));
      assert trace[c.pos..c'.pos] + trace[c'.pos..p] == trace[c.pos..p];
    }
  }

  /**
   * The merged list without its death records is the longest prefix of the trace stamped no later than the
   * largest object timestamp, and there is exactly one death record an object, in heap order.
   */
  lemma MergeKeepsRecords(trace: seq<Record>, ds: Deaths) returns (p: nat)
    requires DeathFree(trace)
    ensures IsCut(trace, MaxLimit(-1, ds), p)
    ensures WithoutDeaths(Weave(trace, START, ds)) == trace[..p]
    ensures DeathIds(Weave(trace, START, ds)) == Names(ds)
  {
    p := WeaveKeepsRecords(trace, START, ds, -1);
  }

  // ----- Where the death records go -----

  lemma {:induction false} WeaveTakesFromRest(trace: seq<Record>, c: Cursor, ds: Deaths, r: Record)
    requires c.pos <= |trace| && r in Weave(trace, c, ds) && !r.Death?
    ensures r in trace[c.pos..]
    decreases |ds|
  {
    var c' := Advance(trace, c, ds[0].1);
    if r !in trace[c.pos..c'.pos] {
      WeaveTakesFromRest(trace, c', ds[1..], r);
    }
  }

  /** Each death record comes after every record stamped no later than its object's final timestamp. */
  lemma {:induction false} DeathsComeLate(trace: seq<Record>, c: Cursor, ds: Deaths, m: int, i: nat, j: nat)
    returns (k: nat)
    requires Nondecreasing(trace) && DeathFree(trace) && IsCut(trace, m, c.pos)
    requires i < j < |Weave(trace, c, ds)|
    requires Weave(trace, c, ds)[i].Death? && !Weave(trace, c, ds)[j].Death?
    ensures k < |ds| && ds[k].0 == Weave(trace, c, ds)[i].objectId && ds[k].1 < Weave(trace, c, ds)[j].stamp
    decreases |ds|
  {
    var w := Weave(trace, c, ds);
    var c' := Advance(trace, c, ds[0].1);
    AdvanceCuts(trace, c, ds[0].1, m);
    var head, tail := trace[c.pos..c'.pos], Weave(trace, c', ds[1..]);
    forall x | 0 <= x < |head| ensures !w[x].Death? {
      assert w[x] == trace[c.pos + x] && trace[c.pos + x] in trace;
    }
    if i == |head| {
      assert w[j] == tail[j - |head| - 1];
      WeaveTakesFromRest(trace, c', ds[1..], w[j]);
      k := 0;
    } else {
      assert w[i] == tail[i - |head| - 1] && w[j] == tail[j - |head| - 1];
      k := DeathsComeLate(trace, c', ds[1..], Max(m, ds[0].1), i - |head| - 1, j - |head| - 1);
      k := k + 1;
    }
  }

  // ----- The merged list, record by record -----

  /** The length of the longest prefix of the trace stamped no later than m. */
  function Cut(trace: seq<Record>, m: int): (p: nat)
    ensures IsCut(trace, m, p)
  {
    if trace == [] || trace[0].stamp > m then 0 else 1 + Cut(trace[1..], m)
  }

  /** The part of the trace that precedes the death record of object k: cut at the latest time of objects 0 to k. */
  function CutAt(trace: seq<Record>, ds: Deaths, k: nat): (p: nat)
    requires k < |ds|
    ensures p <= |trace|
  {
    Cut(trace, MaxLimit(-1, ds[..k + 1]))
  }

  /** The same for the object before k. */
  function CutBefore(trace: seq<Record>, ds: Deaths, k: nat): (p: nat)
    requires k <= |ds|
    ensures p <= |trace|
  {
    if k == 0 then 0 else CutAt(trace, ds, k - 1)
  }

  /**
   * The stamp of the death record of object k, when the trace is cut at q before it and at p by it: that of the last
   * record but one that the merge has looked at, and 0 if there is none. It looks at one record more than it copies,
   * as long as there is one, and at nothing when the trace is used up.
   */
  function DeathStamp(trace: seq<Record>, k: nat, q: nat, p: nat, prior: nat): nat
    requires q <= p <= |trace|
  {
    if p < |trace| then
      if q < p then trace[p - 1].stamp else if k == 0 then 0 else trace[p].stamp
    else if q == |trace| then
      if k == 0 then 0 else prior
    else if q == |trace| - 1 then
      if k == 0 then 0 else trace[q].stamp
    else
      trace[|trace| - 2].stamp
  }

  /** Object k's part of w: the records between the two cuts, then its death record. */
  ghost predicate DiesAt(trace: seq<Record>, ds: Deaths, w: seq<Record>, k: nat)
    requires k < |ds|
  {
    var q, p := CutBefore(trace, ds, k), CutAt(trace, ds, k);
    && q <= p && p + k < |w|
    && w[q + k..p + k] == trace[q..p]
    && w[p + k] == Death(ds[k].0, 0, DeathStamp(trace, k, q, p, if k == 0 then 0 else w[q + k - 1].stamp))
  }

  /** What the merged list is, without the iterator. */
  ghost predicate IsMerge(trace: seq<Record>, ds: Deaths, w: seq<Record>) {
    && |w| == CutBefore(trace, ds, |ds|) + |ds|
    && forall k {:trigger DiesAt(trace, ds, w, k)} :: 0 <= k < |ds| ==> DiesAt(trace, ds, w, k)
  }

  /** The iterator after the objects ds. */
  ghost function After(trace: seq<Record>, c: Cursor, ds: Deaths): (c': Cursor)
    requires c.pos <= |trace|
    ensures c.pos <= c'.pos <= |trace|
    decreases |ds|
  {
    if ds == [] then c else After(trace, Advance(trace, c, ds[0].1), ds[1..])
  }

  lemma {:induction false} WeaveSplit(trace: seq<Record>, c: Cursor, ds: Deaths, k: nat)
    requires c.pos <= |trace| && k <= |ds|
    ensures Weave(trace, c, ds) == Weave(trace, c, ds[..k]) + Weave(trace, After(trace, c, ds[..k]), ds[k..])
    ensures |Weave(trace, c, ds[..k])| == After(trace, c, ds[..k]).pos - c.pos + k
    decreases k
  {
    hide Advance, Weave;
    if k == 0 {
      assert ds[0..] == ds && ds[..0] == [];
      WeaveNone(trace, c);
    } else {
      var c' := Advance(trace, c, ds[0].1);
      WeaveSplit(trace, c', ds[1..], k - 1);
      assert ds[..k][1..] == ds[1..][..k - 1] && ds[1..][k - 1..] == ds[k..] && ds[..k][0] == ds[0];
      WeaveFirst(trace, c, ds);
      WeaveFirst(trace, c, ds[..k]);
      var head, dead := trace[c.pos..c'.pos], Death(ds[0].0, 0, c'.prev);
      Reassociate(head, dead, Weave(trace, c', ds[1..][..k - 1]), Weave(trace, After(trace, c, ds[..k]), ds[k..]));
    }
  }

  lemma WeaveNone(trace: seq<Record>, c: Cursor)
    requires c.pos <= |trace|
    ensures Weave(trace, c, []) == []
  {
  }

  lemma WeaveFirst(trace: seq<Record>, c: Cursor, ds: Deaths)
    requires c.pos <= |trace| && ds != []
    ensures var c' := Advance(trace, c, ds[0].1);
      Weave(trace, c, ds) == trace[c.pos..c'.pos] + [Death(ds[0].0, 0, c'.prev)] + Weave(trace, c', ds[1..])
  {
  }

  lemma Reassociate(head: seq<Record>, dead: Record, a: seq<Record>, b: seq<Record>)
    ensures head + [dead] + (a + b) == head + [dead] + a + b
  {
  }

  lemma {:induction false} AfterNext(trace: seq<Record>, c: Cursor, ds: Deaths, k: nat)
    requires c.pos <= |trace| && k < |ds|
    ensures After(trace, c, ds[..k + 1]) == Advance(trace, After(trace, c, ds[..k]), ds[k].1)
    decreases k
  {
    if k == 0 {
      assert ds[..1][1..] == [];
    } else {
      AfterNext(trace, Advance(trace, c, ds[0].1), ds[1..], k - 1);
      assert ds[..k + 1][1..] == ds[1..][..k] && ds[..k][1..] == ds[1..][..k - 1];
    }
  }

  lemma {:induction false} MaxLimitNext(m: int, ds: Deaths, k: nat)
    requires k < |ds|
    ensures MaxLimit(m, ds[..k + 1]) == Max(MaxLimit(m, ds[..k]), ds[k].1)
    decreases k
  {
    if k == 0 {
      assert ds[..1][1..] == [];
    } else {
      MaxLimitNext(Max(m, ds[0].1), ds[1..], k - 1);
      assert ds[..k + 1][1..] == ds[1..][..k] && ds[..k][1..] == ds[1..][..k - 1];
    }
  }

  lemma CutIsUnique(trace: seq<Record>, m: int, p: nat)
    requires IsCut(trace, m, p)
    ensures p == Cut(trace, m)
  {
  }

  /** After k objects the iterator stands at the cut, and has looked at the record there. */
  lemma {:induction false} AfterIsCut(trace: seq<Record>, ds: Deaths, k: nat)
    requires k <= |ds|
    ensures var c := After(trace, START, ds[..k]);
      && IsCut(trace, MaxLimit(-1, ds[..k]), c.pos) && c.pos == CutBefore(trace, ds, k)
      && (k == 0 ==> c == START) && (k > 0 && c.pos < |trace| ==> c.rec == trace[c.pos].stamp)
    decreases k
  {
    hide Advance, Cut;
    if k > 0 {
      var c := After(trace, START, ds[..k - 1]);
      AfterIsCut(trace, ds, k - 1);
      AfterNext(trace, START, ds, k - 1);
      MaxLimitNext(-1, ds, k - 1);
      AdvanceCuts(trace, c, ds[k - 1].1, MaxLimit(-1, ds[..k - 1]));
      CutIsUnique(trace, MaxLimit(-1, ds[..k]), Advance(trace, c, ds[k - 1].1).pos);
      AdvanceReads(trace, c, ds[k - 1].1);
    }
  }

  /** The next death record's stamp, from the cuts. */
  lemma AdvanceStamps(trace: seq<Record>, c: Cursor, limit: nat, k: nat)
    requires c.pos <= |trace| && (k == 0 ==> c == START)
    requires k > 0 && c.pos < |trace| ==> c.rec == trace[c.pos].stamp
    ensures Advance(trace, c, limit).prev == DeathStamp(trace, k, c.pos, Advance(trace, c, limit).pos, c.prev)
  {
    AdvanceReads(trace, c, limit);
  }

  /** The death record that w holds last is stamped with what the iterator has read before last. */
  lemma LastDeath(trace: seq<Record>, ds: Deaths, k: nat)
    requires 0 < k <= |ds|
    ensures var c, w := After(trace, START, ds[..k]), Weave(trace, START, ds);
      c.pos + k <= |w| && w[c.pos + k - 1].stamp == c.prev
  {
    var c0, c, w := After(trace, START, ds[..k - 1]), After(trace, START, ds[..k]), Weave(trace, START, ds);
    WeaveSplit(trace, START, ds, k - 1);
    AfterNext(trace, START, ds, k - 1);
    var tail := Weave(trace, c0, ds[k - 1..]);
    assert w[c.pos + k - 1] == tail[c.pos - c0.pos];
  }

  lemma ObjectDies(trace: seq<Record>, ds: Deaths, k: nat)
    requires k < |ds|
    ensures DiesAt(trace, ds, Weave(trace, START, ds), k)
  {
    hide Advance, Weave, DeathStamp, After, IsCut, MaxLimit, CutAt;
    var c, w := After(trace, START, ds[..k]), Weave(trace, START, ds);
    var c' := Advance(trace, c, ds[k].1);
    AfterIsCut(trace, ds, k);
    AfterIsCut(trace, ds, k + 1);
    AfterNext(trace, START, ds, k);
    AdvanceStamps(trace, c, ds[k].1, k);
    if k > 0 {
      LastDeath(trace, ds, k);
    }
    WeaveSplit(trace, START, ds, k);
    WeaveFirst(trace, c, ds[k..]);
    var head, tail := Weave(trace, START, ds[..k]), Weave(trace, c', ds[k..][1..]);
    ChunkOfMerge(head, trace[c.pos..c'.pos], Death(ds[k].0, 0, c'.prev), tail, w);
  }

  lemma ChunkOfMerge(head: seq<Record>, chunk: seq<Record>, dead: Record, tail: seq<Record>, w: seq<Record>)
    requires w == head + (chunk + [dead] + tail)
    ensures |head| + |chunk| < |w| && w[|head|..|head| + |chunk|] == chunk && w[|head| + |chunk|] == dead
  {
  }

  /** The merge yields exactly that list: each copied record and each death record, stamp included, in its place. */
  lemma MergeIsMerge(trace: seq<Record>, ds: Deaths)
    ensures IsMerge(trace, ds, Weave(trace, START, ds))
  {
    hide DiesAt, Weave, CutBefore;
    var w := Weave(trace, START, ds);
    forall k | 0 <= k < |ds| ensures DiesAt(trace, ds, w, k) {
      ObjectDies(trace, ds, k);
    }
    AfterIsCut(trace, ds, |ds|);
    WeaveSplit(trace, START, ds, |ds|);
    assert ds[..|ds|] == ds;
  }

  /** No other list is like that. */
  lemma {:induction false} MergeIsUnique(trace: seq<Record>, ds: Deaths, w: seq<Record>, w': seq<Record>, k: nat)
    requires IsMerge(trace, ds, w) && IsMerge(trace, ds, w') && k <= |ds|
    ensures var n := CutBefore(trace, ds, k) + k; n <= |w| && n <= |w'| && w[..n] == w'[..n]
    ensures k == |ds| ==> w == w'
    decreases k
  {
    hide CutAt, DeathStamp;
    if k > 0 {
      MergeIsUnique(trace, ds, w, w', k - 1);
      assert DiesAt(trace, ds, w, k - 1) && DiesAt(trace, ds, w', k - 1);
      var q, p := CutBefore(trace, ds, k - 1), CutAt(trace, ds, k - 1);
      if k > 1 {
        assert w[..q + k - 1][q + k - 2] == w'[..q + k - 1][q + k - 2];
      }
      SameUpTo(w, w', q + k - 1, p + k - 1);
    }
  }

  lemma SameUpTo(w: seq<Record>, w': seq<Record>, from: nat, to: nat)
    requires from <= to < |w| && to < |w'| && w[..from] == w'[..from] && w[from..to] == w'[from..to] && w[to] == w'[to]
    ensures w[..to + 1] == w'[..to + 1]
  {
    assert w[..to + 1] == w[..from] + w[from..to] + [w[to]];
  }

  lemma {:induction false} DeathsAfterEnd(trace: seq<Record>, c: Cursor, ds: Deaths, i: nat, j: nat)
    requires DeathFree(trace) && c.pos <= |trace| && i < j < |Weave(trace, c, ds)|
    requires Weave(trace, c, ds)[i].Death? && Weave(trace, c, ds)[j].Death?
    requires |WithoutDeaths(Weave(trace, c, ds)[..i])| == |trace| - c.pos
    ensures Weave(trace, c, ds)[j].stamp == Weave(trace, c, ds)[i].stamp
    decreases |ds|
  {
    hide Advance, Weave, WithoutDeaths;
    WeaveNone(trace, c);
    var c', w := Advance(trace, c, ds[0].1), Weave(trace, c, ds);
    var head, dead, tail := trace[c.pos..c'.pos], Death(ds[0].0, 0, c'.prev), Weave(trace, c', ds[1..]);
    WeaveFirst(trace, c, ds);
    forall x | 0 <= x < |head| ensures !w[x].Death? {
      assert w[x] == trace[c.pos + x] && trace[c.pos + x] in trace;
    }
    if i == |head| {
      assert w[..i] == head;
      DeathFreeIsUntouched(head);
      OneStampAtEnd(trace, c', ds[1..], w[j]);
    } else {
      var x := i - |head| - 1;
      ChunkDeaths(head, dead, tail[..x]);
      assert w[..i] == head + [dead] + tail[..x];
      DeathsAfterEnd(trace, c', ds[1..], x, j - |head| - 1);
    }
  }

  lemma {:induction false} OneStampAtEnd(trace: seq<Record>, c: Cursor, ds: Deaths, r: Record)
    requires c.pos == |trace| && r in Weave(trace, c, ds)
    ensures r.stamp == c.prev
    decreases |ds|
  {
    if r in Weave(trace, c, ds[1..]) {
      OneStampAtEnd(trace, c, ds[1..], r);
    }
  }

  /** Once all of the trace is in the list, the death records all carry one stamp. */
  lemma DeathsShareLastStamp(trace: seq<Record>, ds: Deaths, i: nat, j: nat)
    requires DeathFree(trace)
    ensures var w := Weave(trace, START, ds);
      i < j < |w| && w[i].Death? && w[j].Death? && |WithoutDeaths(w[..i])| == |trace| ==> w[j].stamp == w[i].stamp
  {
    var w := Weave(trace, START, ds);
    if i < j < |w| && w[i].Death? && w[j].Death? && |WithoutDeaths(w[..i])| == |trace| {
      DeathsAfterEnd(trace, START, ds, i, j);
    }
  }

  // ----- When the merged list is sorted -----

  /** The stamps of rs never go back, starting from e. */
  predicate SortedFrom(e: nat, rs: seq<Record>)
    decreases |rs|
  {
    rs == [] || (e <= rs[0].stamp && SortedFrom(rs[0].stamp, rs[1..]))
  }

  function LastStamp(e: nat, rs: seq<Record>): nat {
    if rs == [] then e else rs[|rs| - 1].stamp
  }

  lemma {:induction false} SortedConcat(e: nat, a: seq<Record>, b: seq<Record>)
    ensures SortedFrom(e, a + b) <==> SortedFrom(e, a) && SortedFrom(LastStamp(e, a), b)
    decreases |a|
  {
    if a == [] {
      assert a + b == b;
    } else {
      SortedConcat(a[0].stamp, a[1..], b);
      assert (a + b)[1..] == a[1..] + b;
    }
  }

  lemma {:induction false} SortedIsNondecreasing(e: nat, rs: seq<Record>)
    ensures SortedFrom(e, rs) <==> Nondecreasing(rs) && (rs == [] || e <= rs[0].stamp)
    decreases |rs|
  {
    if rs != [] {
      SortedIsNondecreasing(rs[0].stamp, rs[1..]);
      if Nondecreasing(rs) {
        assert rs[1..] != [] ==> rs[1..][0] == rs[1];
        forall i, j | 0 <= i < j < |rs[1..]| ensures rs[1..][i].stamp <= rs[1..][j].stamp {
          assert rs[1..][i] == rs[i + 1] && rs[1..][j] == rs[j + 1];
        }
      }
      if SortedFrom(e, rs) {
        forall i, j | 0 <= i < j < |rs| ensures rs[i].stamp <= rs[j].stamp {
          assert rs[j] == rs[1..][j - 1] && rs[1..][0].stamp <= rs[1..][j - 1].stamp;
          if i > 0 {
            assert rs[i] == rs[1..][i - 1];
          }
        }
      }
    }
  }

  function Last(trace: seq<Record>): nat
    requires trace != []
  {
    trace[|trace| - 1].stamp
  }

  function BeforeLast(trace: seq<Record>): nat
    requires trace != []
  {
    if |trace| == 1 then 0 else trace[|trace| - 2].stamp
  }

  /**
   * The last record is stamped later than the one before it, and some object outlives it although all
   * earlier objects (and m) stay below the one before it. The death record of that object gets the stamp of
   * the record before last.
   */
  predicate Overtaken(trace: seq<Record>, m: int, ds: Deaths)
    requires trace != []
  {
    && m < BeforeLast(trace) < Last(trace)
    && exists k :: 0 <= k < |ds| && Last(trace) <= ds[k].1 && forall j :: 0 <= j < k ==> ds[j].1 < BeforeLast(trace)
  }

  /** With the trace used up, every further death record gets the same stamp. */
  lemma {:induction false} ExhaustedIsSorted(trace: seq<Record>, c: Cursor, ds: Deaths)
    requires c.pos == |trace|
    ensures SortedFrom(c.prev, Weave(trace, c, ds))
    decreases |ds|
  {
    if ds != [] {
      ExhaustedIsSorted(trace, c, ds[1..]);
      assert trace[c.pos..c.pos] == [];
      assert Weave(trace, c, ds)[1..] == Weave(trace, c, ds[1..]);
    }
  }

  lemma ChunkIsSorted(e: nat, head: seq<Record>, dead: Record, tail: seq<Record>)
    requires Nondecreasing(head) && (head != [] ==> e <= head[0].stamp)
    ensures SortedFrom(e, head + [dead] + tail) <==> LastStamp(e, head) <= dead.stamp && SortedFrom(dead.stamp, tail)
  {
    SortedIsNondecreasing(e, head);
    assert head + [dead] + tail == head + ([dead] + tail);
    SortedConcat(e, head, [dead] + tail);
    assert ([dead] + tail)[1..] == tail;
  }

  /** Later objects decide whether the list stays sorted once the first one is behind. */
  lemma OvertakenLater(trace: seq<Record>, m: int, ds: Deaths)
    requires trace != [] && ds != [] && ds[0].1 < Last(trace)
    ensures Overtaken(trace, m, ds) <==> Overtaken(trace, Max(m, ds[0].1), ds[1..])
  {
  }

  /** e is the stamp of the last record merged so far; m is -1 before the first object. */
  ghost predicate Midway(trace: seq<Record>, c: Cursor, e: nat, m: int) {
    && Nondecreasing(trace) && IsCut(trace, m, c.pos) && c.pos < |trace|
    && e <= trace[c.pos].stamp
    && if m < 0 then c == START && e == 0 else c.rec == trace[c.pos].stamp
  }

  /** The object that takes the iterator to the end gets a stamp that is too early just when it is Overtaken. */
  lemma LastObject(trace: seq<Record>, c: Cursor, e: nat, m: int, ds: Deaths)
    requires Midway(trace, c, e, m) && ds != [] && Advance(trace, c, ds[0].1).pos == |trace|
    ensures Last(trace) <= Advance(trace, c, ds[0].1).prev <==> !Overtaken(trace, m, ds)
    ensures LastStamp(e, trace[c.pos..]) == Last(trace)
  {
    AdvanceReads(trace, c, ds[0].1);
    AdvanceCuts(trace, c, ds[0].1, m);
    assert Last(trace) <= ds[0].1;
  }

  lemma NextObject(trace: seq<Record>, c: Cursor, e: nat, m: int, limit: nat)
    requires Midway(trace, c, e, m) && Advance(trace, c, limit).pos < |trace|
    ensures var c' := Advance(trace, c, limit);
      && LastStamp(e, trace[c.pos..c'.pos]) <= c'.prev && limit < Last(trace)
      && Midway(trace, c', c'.prev, Max(m, limit))
  {
    AdvanceReads(trace, c, limit);
    AdvanceCuts(trace, c, limit, m);
  }

  lemma {:induction false} WeaveIsSorted(trace: seq<Record>, c: Cursor, e: nat, m: int, ds: Deaths)
    requires Midway(trace, c, e, m)
    ensures SortedFrom(e, Weave(trace, c, ds)) <==> !Overtaken(trace, m, ds)
    decreases |ds|
  {
    if ds != [] {
      var c' := Advance(trace, c, ds[0].1);
      var head, tail := trace[c.pos..c'.pos], Weave(trace, c', ds[1..]);
      ChunkIsSorted(e, head, Death(ds[0].0, 0, c'.prev), tail);
      if c'.pos < |trace| {
        NextObject(trace, c, e, m, ds[0].1);
        WeaveIsSorted(trace, c', c'.prev, Max(m, ds[0].1), ds[1..]);
        OvertakenLater(trace, m, ds);
      } else {
        ExhaustedIsSorted(trace, c', ds[1..]);
        LastObject(trace, c, e, m, ds);
      }
    }
  }

  /** Exactly when the merged list, death records included, never goes back in time. */
  lemma MergeIsSorted(trace: seq<Record>, ds: Deaths)
    requires Nondecreasing(trace)
    ensures Nondecreasing(Weave(trace, START, ds)) <==> trace == [] || !Overtaken(trace, -1, ds)
  {
    SortedIsNondecreasing(0, Weave(trace, START, ds));
    if trace == [] {
      ExhaustedIsSorted(trace, START, ds);
    } else {
      WeaveIsSorted(trace, START, 0, -1, ds);
    }
  }

  /** In particular it is sorted when the last record is later than every object's final timestamp. */
  lemma MergeIsSortedWhenTraceOutlivesHeap(trace: seq<Record>, ds: Deaths)
    requires Nondecreasing(trace) && trace != []
    requires forall k :: 0 <= k < |ds| ==> ds[k].1 < Last(trace)
    ensures Nondecreasing(Weave(trace, START, ds))
  {
  }

  /** An object last used by the last record is enough to break the order. */
  lemma MergeCanGoBack()
    ensures var trace := [Method(1, 7, 1, 1), Method(1, 7, 1, 2)];
      Nondecreasing(trace) && !Nondecreasing(Weave(trace, START, [(7, 2)]))
  {
    var trace := [Method(1, 7, 1, 1), Method(1, 7, 1, 2)];
    assert Last(trace) <= [(7, 2)][0].1;
    assert Overtaken(trace, -1, [(7, 2)]);
    MergeIsSorted(trace, [(7, 2)]);
  }

  // ----- The loop over the heap -----

  ghost function Stamped(ids: seq<nat>, stamps: map<nat, nat>): Deaths
    requires forall id :: id in ids ==> id in stamps
  {
    if ids == [] then [] else [(ids[0], stamps[ids[0]])] + Stamped(ids[1..], stamps)
  }

  /** The heap's objects in id order, each with its last timestamp. */
  ghost function FinalTimes(stamps: map<nat, nat>): Deaths {
    Stamped(Ascending(stamps.Keys), stamps)
  }

  lemma {:induction false} StampedPairs(ids: seq<nat>, stamps: map<nat, nat>)
    requires forall id :: id in ids ==> id in stamps
    ensures Names(Stamped(ids, stamps)) == ids && |Stamped(ids, stamps)| == |ids|
    ensures forall k :: 0 <= k < |ids| ==> Stamped(ids, stamps)[k] == (ids[k], stamps[ids[k]])
  {
    if ids != [] {
      StampedPairs(ids[1..], stamps);
    }
  }

  /** Every heap object gets exactly one death record, in id order. */
  lemma OneDeathEach(trace: seq<Record>, stamps: map<nat, nat>)
    requires DeathFree(trace)
    ensures DeathIds(Weave(trace, START, FinalTimes(stamps))) == Ascending(stamps.Keys)
    ensures StrictlyAscending(Ascending(stamps.Keys))
  {
    var p := MergeKeepsRecords(trace, FinalTimes(stamps));
    StampedPairs(Ascending(stamps.Keys), stamps);
    AscendingIsSorted(stamps.Keys);
  }

  /** The inner loop: copy records until one is stamped later than ettime. */
  method CopyUpTo(trace: seq<Record>, c: Cursor, ettime: nat) returns (copied: seq<Record>, c': Cursor)
    requires c.pos <= |trace|
    ensures c' == Advance(trace, c, ettime) && Reads(trace, c, ettime, c') && copied == trace[c.pos..c'.pos]
  {
    var p: nat, prev: nat, rec: nat := c.pos, c.prev, c.rec;
    copied := [];
    while p < |trace|
      invariant c.pos <= p <= |trace| && copied == trace[c.pos..p]
      invariant Advance(trace, Cursor(p, prev, rec), ettime) == Advance(trace, c, ettime)
    {
      prev := rec;
      rec := trace[p].stamp;
      if rec > ettime {
        break;
      }
      copied := copied + [trace[p]];
      p := p + 1;
    }
    c' := Cursor(p, prev, rec);
    AdvanceReads(trace, c, ettime);
  }

  method InsertDeathRecords(heap: HeapState, trace: seq<Record>) returns (tlist: seq<Record>)
    ensures tlist == Weave(trace, START, FinalTimes(heap.Stamps()))
    ensures IsMerge(trace, FinalTimes(heap.Stamps()), tlist)
  {
    ghost var stamps := heap.Stamps();
    var ids := Ascending(heap.objects.Keys);
    var c := START;
    tlist := [];
    ghost var left, merged := Weave(trace, START, Stamped(ids, stamps)), Weave(trace, START, Stamped(ids, stamps));
    for i := 0 to |ids|
      invariant c.pos <= |trace| && left == Weave(trace, c, Stamped(ids[i..], stamps))
      invariant tlist + left == merged
    {
      DropFirst(ids, i);
      var copied, c' := CopyUpTo(trace, c, heap.objects[ids[i]].lastTimestamp);
      ghost var left' := Weave(trace, c', Stamped(ids[i + 1..], stamps));
      WeaveOne(trace, c, ids[i..], stamps);
      Splice(tlist, left, copied, Death(ids[i], 0, c'.prev), left');
      tlist := tlist + copied + [Death(ids[i], 0, c'.prev)];
      c, left := c', left';
    }
    assert stamps.Keys == heap.objects.Keys;
    MergeIsMerge(trace, FinalTimes(stamps));
  }

  lemma DropFirst(ids: seq<nat>, i: nat)
    requires i < |ids|
    ensures ids[i..][0] == ids[i] && ids[i..][1..] == ids[i + 1..]
  {
  }

  lemma Splice(done: seq<Record>, left: seq<Record>, copied: seq<Record>, dead: Record, left': seq<Record>)
    requires left == copied + [dead] + left'
    ensures done + left == done + copied + [dead] + left'
  {
  }

  lemma WeaveOne(trace: seq<Record>, c: Cursor, ids: seq<nat>, stamps: map<nat, nat>)
    requires c.pos <= |trace| && ids != [] && forall id :: id in ids ==> id in stamps
    ensures var c' := Advance(trace, c, stamps[ids[0]]);
      Weave(trace, c, Stamped(ids, stamps)) ==
      trace[c.pos..c'.pos] + [Death(ids[0], 0, c'.prev)] + Weave(trace, c', Stamped(ids[1..], stamps))
  {
  }
}
