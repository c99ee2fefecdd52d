/** QTRProxy's static arrays and counters, updated in place; each hook is proved against EventBuffer.RunCall. */
module TraceBuffer {
  import opened Records
  import opened TraceFormat
  import opened EventBuffer

  lemma RunCallIs(b: Buffer, c: Call, self: int)
    requires TakesSlot(c) && |b.slots| == BUFMAX + 1
    ensures RunCall(b, c, self) == DoWrites(Claimed(b), Ready(b).ptr, Writes(c, self), |Writes(c, self)|)
  {
  }

  class QTRProxy {
    const eventTypeBuffer: array<int>
    const firstBuffer: array<int>
    const secondBuffer: array<int>
    const thirdBuffer: array<int>
    const fourthBuffer: array<int>
    const fifthBuffer: array<int>
    const timestampBuffer: array<int>
    const threadIDBuffer: array<int>
    const dimsBuffer: array<string>
    var ptr: nat
    var objIdMap: map<int, int>
    var nextObjectId: int
    var witnessMap: map<int, (int, int)>
    var traceWriter: string

    constructor ()
      ensures Valid() && Initial(Abs())
    {
      eventTypeBuffer := new int[BUFMAX + 1];
      firstBuffer := new int[BUFMAX + 1];
      secondBuffer := new int[BUFMAX + 1];
      thirdBuffer := new int[BUFMAX + 1];
      fourthBuffer := new int[BUFMAX + 1];
      fifthBuffer := new int[BUFMAX + 1];
      timestampBuffer := new int[BUFMAX + 1];
      threadIDBuffer := new int[BUFMAX + 1];
      dimsBuffer := new string[BUFMAX + 1];
      ptr, objIdMap, nextObjectId, witnessMap, traceWriter := 0, map[], 1, map[], "";
    }

    ghost function IntArrays(): set<array<int>> {
      {eventTypeBuffer, firstBuffer, secondBuffer, thirdBuffer, fourthBuffer, fifthBuffer, timestampBuffer,
       threadIDBuffer}
    }

    ghost predicate Valid() {
      && (forall a :: a in IntArrays() ==> a.Length == BUFMAX + 1) && dimsBuffer.Length == BUFMAX + 1
      && eventTypeBuffer !in {firstBuffer, secondBuffer, thirdBuffer, fourthBuffer, fifthBuffer, timestampBuffer,
                              threadIDBuffer}
      && firstBuffer !in {secondBuffer, thirdBuffer, fourthBuffer, fifthBuffer, timestampBuffer, threadIDBuffer}
      && secondBuffer !in {thirdBuffer, fourthBuffer, fifthBuffer, timestampBuffer, threadIDBuffer}
      && thirdBuffer !in {fourthBuffer, fifthBuffer, timestampBuffer, threadIDBuffer}
      && fourthBuffer !in {fifthBuffer, timestampBuffer, threadIDBuffer}
      && fifthBuffer !in {timestampBuffer, threadIDBuffer}
      && timestampBuffer != threadIDBuffer
    }

    function SlotAt(i: nat): Slot
      requires Valid() && i <= BUFMAX
      reads IntArrays(), dimsBuffer
    {
      Slot(eventTypeBuffer[i], firstBuffer[i], secondBuffer[i], thirdBuffer[i], fourthBuffer[i], fifthBuffer[i],
           timestampBuffer[i], threadIDBuffer[i], dimsBuffer[i])
    }

    /** The slots at the indices 0 to n - 1. */
    ghost function Slots(n: nat): (ss: seq<Slot>)
      requires Valid() && n <= BUFMAX + 1
      reads IntArrays(), dimsBuffer
      ensures |ss| == n && forall i :: 0 <= i < n ==> ss[i] == SlotAt(i)
    {
      if n == 0 then [] else Slots(n - 1) + [SlotAt(n - 1)]
    }

    ghost function Abs(): (b: Buffer)
      requires Valid()
      reads this, IntArrays(), dimsBuffer
      ensures |b.slots| == BUFMAX + 1
    {
      Buffer(traceWriter, ptr, Slots(BUFMAX + 1), objIdMap, nextObjectId, witnessMap)
    }

    // ----- One array element -----

    method SetSlot(f: Field, i: nat, v: int)
      requires Valid() && i <= BUFMAX
      modifies IntArrays()
      ensures Slots(BUFMAX + 1) == old(Slots(BUFMAX + 1))[i := SetField(old(SlotAt(i)), f, v)]
    {
      match f
      case EventType => eventTypeBuffer[i] := v;
      case First => firstBuffer[i] := v;
      case Second => secondBuffer[i] := v;
      case Third => thirdBuffer[i] := v;
      case Fourth => fourthBuffer[i] := v;
      case Fifth => fifthBuffer[i] := v;
      case Timestamp => timestampBuffer[i] := v;
      case ThreadId => threadIDBuffer[i] := v;
    }

    method Set(f: Field, i: nat, v: int)
      requires Valid() && i <= BUFMAX
      modifies IntArrays()
      ensures Abs() == DoWrite(old(Abs()), i, Put(f, v))
    {
      SetSlot(f, i, v);
    }

    /** The id of the object with the given identity hash code. */
    method SetId(f: Field, i: nat, hash: int)
      requires Valid() && i <= BUFMAX
      modifies IntArrays(), this`objIdMap, this`nextObjectId
      ensures Abs() == DoWrite(old(Abs()), i, PutId(f, hash))
    {
      var id := GetObjectId(hash);
      ghost var b1 := Abs();
      SetSlot(f, i, id);
      assert Abs() == UpdateSlot(b1, i, SetField(b1.slots[i], f, id));
    }

    method SetDims(i: nat, text: string)
      requires Valid() && i <= BUFMAX
      modifies dimsBuffer
      ensures Slots(BUFMAX + 1) == old(Slots(BUFMAX + 1))[i := old(SlotAt(i)).(dims := text)]
    {
      dimsBuffer[i] := text;
    }

    method SaveDimsToBuffer(i: nat, dims: seq<int>)
      requires Valid() && i <= BUFMAX
      modifies dimsBuffer
      ensures Abs() == DoWrite(old(Abs()), i, PutDims(DimsString(dims)))
    {
      SetDims(i, DimsString(dims));
    }

    // ----- Object ids -----

    method GetObjectId(hash: int) returns (id: int)
      requires Valid()
      modifies this`objIdMap, this`nextObjectId
      ensures Abs() == GetId(old(Abs()), hash) && hash in objIdMap && id == objIdMap[hash]
    {
      if hash in objIdMap {
        id := objIdMap[hash];
      } else {
        id := nextObjectId;
        nextObjectId := nextObjectId + 1;
        objIdMap := objIdMap[hash := id];
      }
    }

    // ----- Flushing -----

    /** Prints slot i and clears its dimensions. */
    method FlushSlot(i: nat)
      requires Valid() && i <= BUFMAX
      modifies this`traceWriter, dimsBuffer
      ensures Abs() == FlushOne(old(Abs()), i)
    {
      hide RenderSlot;
      traceWriter := traceWriter + RenderSlot(SlotAt(i));
      SetDims(i, "");
    }

    method FlushBuffer()
      requires Valid()
      modifies this`ptr, this`traceWriter, dimsBuffer
      ensures Abs() == Flushed(old(Abs()))
    {
      hide RenderSlot, FlushOne;
      var bufSize := if ptr < BUFMAX then ptr else BUFMAX;
      var i := 0;
      while i < bufSize
        invariant i <= bufSize && Abs() == FlushTo(old(Abs()), i)
      {
        FlushSlot(i);
        i := i + 1;
      }
      ptr := 0;
    }

    /** A free slot, after a flush if there was none. */
    method Claim() returns (currPtr: nat)
      requires Valid()
      modifies this`ptr, this`traceWriter, dimsBuffer
      ensures Abs() == Claimed(old(Abs())) && currPtr == Ready(old(Abs())).ptr && currPtr < BUFMAX
    {
      hide Flushed;
      if ptr >= BUFMAX {
        FlushBuffer();
      }
      currPtr := ptr;
      ptr := ptr + 1;
    }

    // ----- The hooks, between lock and unlock -----

    method OnEntry(methodId: int, receiver: Option<int>, timestamp: int, self: int)
      requires Valid()
      modifies this, IntArrays(), dimsBuffer
      ensures Abs() == RunCall(old(Abs()), EventBuffer.OnEntry(methodId, receiver, timestamp), self)
    {
      hide DoWrite, Ready, Claimed, RunCall, Abs, Valid;
      ghost var c := EventBuffer.OnEntry(methodId, receiver, timestamp);
      RunCallIs(Abs(), c, self);
      var currPtr := Claim();
      ghost var b, ws := Abs(), Writes(c, self);
      Set(First, currPtr, methodId);
      assert Abs() == DoWrites(b, currPtr, ws, 1);
      if receiver == None {
        Set(Second, currPtr, 0);
      } else {
        SetId(Second, currPtr, receiver.value);
      }
      assert Abs() == DoWrites(b, currPtr, ws, 2);
      Set(EventType, currPtr, 1);
      assert Abs() == DoWrites(b, currPtr, ws, 3);
      Set(Timestamp, currPtr, timestamp);
      assert Abs() == DoWrites(b, currPtr, ws, 4);
      SetId(ThreadId, currPtr, self);
      assert Abs() == DoWrites(b, currPtr, ws, 5);
    }

    method OnExit(methodId: int, timestamp: int, self: int)
      requires Valid()
      modifies this, IntArrays(), dimsBuffer
      ensures Abs() == RunCall(old(Abs()), EventBuffer.OnExit(methodId, timestamp), self)
    {
      hide DoWrite, Ready, Claimed, RunCall, Abs, Valid;
      ghost var c := EventBuffer.OnExit(methodId, timestamp);
      RunCallIs(Abs(), c, self);
      var currPtr := Claim();
      ghost var b, ws := Abs(), Writes(c, self);
      Set(First, currPtr, methodId);
      assert Abs() == DoWrites(b, currPtr, ws, 1);
      Set(EventType, currPtr, 2);
      assert Abs() == DoWrites(b, currPtr, ws, 2);
      Set(Timestamp, currPtr, timestamp);
      assert Abs() == DoWrites(b, currPtr, ws, 3);
      SetId(ThreadId, currPtr, self);
      assert Abs() == DoWrites(b, currPtr, ws, 4);
    }

    method OnObjectAlloc(obj: int, allocdClassID: int, allocSiteID: int, size: int, timestamp: int, self: int)
      requires Valid()
      modifies this, IntArrays(), dimsBuffer
      ensures Abs()
           == RunCall(old(Abs()), EventBuffer.OnObjectAlloc(obj, allocdClassID, allocSiteID, size, timestamp), self)
    {
      hide DoWrite, Ready, Claimed, RunCall, Abs, Valid;
      ghost var c := EventBuffer.OnObjectAlloc(obj, allocdClassID, allocSiteID, size, timestamp);
      RunCallIs(Abs(), c, self);
      var currPtr := Claim();
      ghost var b, ws := Abs(), Writes(c, self);
      SetId(First, currPtr, obj);
      assert Abs() == DoWrites(b, currPtr, ws, 1);
      Set(EventType, currPtr, 3);
      assert Abs() == DoWrites(b, currPtr, ws, 2);
      Set(Second, currPtr, allocdClassID);
      assert Abs() == DoWrites(b, currPtr, ws, 3);
      Set(Third, currPtr, allocSiteID);
      assert Abs() == DoWrites(b, currPtr, ws, 4);
      Set(Fourth, currPtr, size);
      assert Abs() == DoWrites(b, currPtr, ws, 5);
      Set(Timestamp, currPtr, timestamp);
      assert Abs() == DoWrites(b, currPtr, ws, 6);
      SetId(ThreadId, currPtr, self);
      assert Abs() == DoWrites(b, currPtr, ws, 7);
    }

    method OnPutField(tgtObject: int, obj: int, fieldId: int, timestamp: int, self: int)
      requires Valid()
      modifies this, IntArrays(), dimsBuffer
      ensures Abs() == RunCall(old(Abs()), EventBuffer.OnPutField(tgtObject, obj, fieldId, timestamp), self)
    {
      hide DoWrite, Ready, Claimed, RunCall, Abs, Valid;
      ghost var c := EventBuffer.OnPutField(tgtObject, obj, fieldId, timestamp);
      RunCallIs(Abs(), c, self);
      var currPtr := Claim();
      ghost var b, ws := Abs(), Writes(c, self);
      Set(EventType, currPtr, 7);
      assert Abs() == DoWrites(b, currPtr, ws, 1);
      SetId(First, currPtr, tgtObject);
      assert Abs() == DoWrites(b, currPtr, ws, 2);
      Set(Second, currPtr, fieldId);
      assert Abs() == DoWrites(b, currPtr, ws, 3);
      SetId(Third, currPtr, obj);
      assert Abs() == DoWrites(b, currPtr, ws, 4);
      Set(Timestamp, currPtr, timestamp);
      assert Abs() == DoWrites(b, currPtr, ws, 5);
      SetId(ThreadId, currPtr, self);
      assert Abs() == DoWrites(b, currPtr, ws, 6);
    }

    /** `length` is None when Array.getLength rejects the object. */
    method OnArrayAlloc(arrayObj: int, typeId: int, allocSiteId: int, length: Option<int>, size: int, dims: seq<int>,
                        timestamp: int, self: int)
      requires Valid()
      modifies this, IntArrays(), dimsBuffer
      ensures Abs() == RunCall(old(Abs()), EventBuffer.OnArrayAlloc(arrayObj, typeId, allocSiteId, length, size, dims,
                                                                    timestamp), self)
    {
      hide DoWrite, Ready, Claimed, RunCall, Abs, Valid, DimsString;
      ghost var c := EventBuffer.OnArrayAlloc(arrayObj, typeId, allocSiteId, length, size, dims, timestamp);
      RunCallIs(Abs(), c, self);
      var currPtr := Claim();
      ghost var b, ws := Abs(), Writes(c, self);
      Set(EventType, currPtr, 4);
      assert Abs() == DoWrites(b, currPtr, ws, 1);
      SetId(First, currPtr, arrayObj);
      assert Abs() == DoWrites(b, currPtr, ws, 2);
      Set(Second, currPtr, typeId);
      assert Abs() == DoWrites(b, currPtr, ws, 3);
      Set(Third, currPtr, if length == None then 0 else length.value);
      assert Abs() == DoWrites(b, currPtr, ws, 4);
      Set(Fourth, currPtr, size);
      assert Abs() == DoWrites(b, currPtr, ws, 5);
      Set(Fifth, currPtr, allocSiteId);
      assert Abs() == DoWrites(b, currPtr, ws, 6);
      Set(Timestamp, currPtr, timestamp);
      assert Abs() == DoWrites(b, currPtr, ws, 7);
      SetId(ThreadId, currPtr, self);
      assert Abs() == DoWrites(b, currPtr, ws, 8);
      SaveDimsToBuffer(currPtr, dims);
      assert Abs() == DoWrites(b, currPtr, ws, 9);
    }

    method WitnessObjectAliveVer2(aliveObject: int, classId: int, timestamp: int, self: int)
      requires Valid()
      modifies this
      ensures Abs() == RunCall(old(Abs()), OnWitness(aliveObject, classId, timestamp), self)
    {
      ghost var ws, b := Writes(OnWitness(aliveObject, classId, timestamp), self), Abs();
      var id := GetObjectId(aliveObject);
      witnessMap := witnessMap[id := (timestamp, classId)];
      assert Abs() == DoWrite(b, 0, ws[0]);
      assert DoWrites(b, 0, ws, 0) == b;
    }
  }
}
