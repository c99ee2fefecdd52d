/** The simulator's in-memory trace records (simulator/record.hpp). */
module Records {

  datatype Option<+T> = None | Some(value: T)

  datatype Record =
    | Exit(methodId: nat, threadId: nat, stamp: nat)
    | Method(methodId: nat, objectId: nat, threadId: nat, stamp: nat)
    | Alloc(kind: char, objectId: nat, siteId: nat, threadId: nat, typeId: nat, length: nat, size: nat,
            numDims: Option<int>, stamp: nat)
    | Update(targetId: nat, fieldId: nat, sourceId: nat, threadId: nat, stamp: nat)
    | Witness(objectId: nat, typeId: nat, timestamp: nat, stamp: nat)
    | Death(objectId: nat, typeId: nat, stamp: nat)

  /**
   * The record uses the object `id`: as receiver, allocated object, source, target or witnessed object.
   * A method or allocation record with id 0 names no object.
   */
  predicate Mentions(r: Record, id: nat) {
    match r
    case Exit(_, _, _) => false
    case Method(_, o, _, _) => o == id && id > 0
    case Alloc(_, o, _, _, _, _, _, _, _) => o == id && id > 0
    case Update(target, _, source, _, _) => source == id || target == id
    case Witness(o, _, _, _) => o == id
    case Death(_, _, _) => false
  }

  predicate Nondecreasing(rs: seq<Record>) {
    forall i, j :: 0 <= i < j < |rs| ==> rs[i].stamp <= rs[j].stamp
  }

  predicate DeathFree(rs: seq<Record>) {
    forall r :: r in rs ==> !r.Death?
  }

  /** rs without its death records. */
  function WithoutDeaths(rs: seq<Record>): seq<Record> {
    if rs == [] then []
    else (if rs[0].Death? then [] else [rs[0]]) + WithoutDeaths(rs[1..])
  }

  /** The ids named by the death records of rs, in order. */
  function DeathIds(rs: seq<Record>): seq<nat> {
    if rs == [] then []
    else (if rs[0].Death? then [rs[0].objectId] else []) + DeathIds(rs[1..])
  }

  lemma {:induction false} WithoutDeathsConcat(a: seq<Record>, b: seq<Record>)
    ensures WithoutDeaths(a + b) == WithoutDeaths(a) + WithoutDeaths(b)
  {
    if a == [] {
      assert a + b == b;
    } else {
      var first := if a[0].Death? then [] else [a[0]];
      WithoutDeathsConcat(a[1..], b);
      assert (a + b)[1..] == a[1..] + b;
      assert WithoutDeaths(a + b) == first + (WithoutDeaths(a[1..]) + WithoutDeaths(b));
    }
  }

  lemma {:induction false} DeathIdsConcat(a: seq<Record>, b: seq<Record>)
    ensures DeathIds(a + b) == DeathIds(a) + DeathIds(b)
  {
    if a == [] {
      assert a + b == b;
    } else {
      var first := if a[0].Death? then [a[0].objectId] else [];
      DeathIdsConcat(a[1..], b);
      assert (a + b)[1..] == a[1..] + b;
      assert DeathIds(a + b) == first + (DeathIds(a[1..]) + DeathIds(b));
    }
  }

  lemma {:induction false} DeathFreeIsUntouched(rs: seq<Record>)
    requires DeathFree(rs)
    ensures WithoutDeaths(rs) == rs && DeathIds(rs) == []
  {
    if rs != [] {
      DeathFreeIsUntouched(rs[1..]);
    }
  }

  /** No record uses an object after its death record. */
  predicate NoUseAfterDeath(rs: seq<Record>) {
    forall i, j :: 0 <= i < j < |rs| && rs[i].Death? ==> !Mentions(rs[j], rs[i].objectId)
  }

  /** verify_trace: do the stamps never go back? */
  method VerifyTrace(trace: seq<Record>) returns (ok: bool)
    ensures ok <==> Nondecreasing(trace)
  {
    var prev, cur := 0, 0;
    for i := 0 to |trace|
      invariant Nondecreasing(trace[..i])
      invariant cur == if i == 0 then 0 else trace[i - 1].stamp
    {
      prev := cur;
      cur := trace[i].stamp;
      if cur < prev {
        return false;
      }
      assert trace[..i + 1] == trace[..i] + [trace[i]];
    }
    assert trace[..|trace|] == trace;
    return true;
  }
}
