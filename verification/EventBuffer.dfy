/** The event buffer of QTRProxy: parallel arrays that are flushed when full. */
module EventBuffer {
  import opened Records
  import opened Text
  import opened TraceFormat

  const BUFMAX: nat := 10000

  datatype Field = EventType | First | Second | Third | Fourth | Fifth | Timestamp | ThreadId

  /** One index of the parallel arrays. */
  datatype Slot = Slot(eventType: int, first: int, second: int, third: int, fourth: int, fifth: int,
                       timestamp: int, threadId: int, dims: string)

  function SetField(s: Slot, f: Field, v: int): Slot {
    match f
    case EventType => s.(eventType := v)
    case First => s.(first := v)
    case Second => s.(second := v)
    case Third => s.(third := v)
    case Fourth => s.(fourth := v)
    case Fifth => s.(fifth := v)
    case Timestamp => s.(timestamp := v)
    case ThreadId => s.(threadId := v)
  }

  /** The words flushBuffer prints for one slot, by event type. */
  function SlotWords(s: Slot): seq<string>
    requires 1 <= s.eventType <= 8
  {
    var f1, f2, f3 := IntString(s.first), IntString(s.second), IntString(s.third);
    var f4, f5, t := IntString(s.fourth), IntString(s.fifth), IntString(s.threadId);
    if s.eventType == 1 then ["M", f1, f2, t]
    else if s.eventType == 2 then ["E", f1, t]
    else if s.eventType == 3 then ["N", f1, f4, f2, f3, IntString(0), t]
    else if s.eventType == 4 || s.eventType == 5 then ["A", f1, f4, f2, f5, f3, t, s.dims]
    else if s.eventType == 6 then ["A", f1, f5, f2, f4, f3, t]
    else if s.eventType == 7 then ["U", UnsignedString(s.third), UnsignedString(s.first), f2, t]
    else ["W", f1, f2, t]
  }

  /** The text flushBuffer prints for one slot; an unexpected event does not end its line. */
  function RenderSlot(s: Slot): string {
    if 1 <= s.eventType <= 8 then Join(SlotWords(s)) + "\n"
    else
      "Unexpected event " + IntString(s.eventType) + ": [" + IntString(s.first) + ", " + IntString(s.second)
      + "] thread: " + IntString(s.threadId)
  }

  function RenderSlots(ss: seq<Slot>): string {
    if ss == [] then [] else RenderSlots(ss[..|ss| - 1]) + RenderSlot(ss[|ss| - 1])
  }

  // ----- The hooks -----

  /** A hook call; objects are given by their identity hash codes, sizes and lengths as the JVM reports them. */
  datatype Call =
    | OnEntry(methodId: int, receiver: Option<int>, time: int)
    | OnExit(methodId: int, time: int)
    | OnObjectAlloc(obj: int, classId: int, siteId: int, size: int, time: int)
    | OnPutField(target: int, obj: int, fieldId: int, time: int)
    | OnArrayAlloc(array: int, typeId: int, siteId: int, length: Option<int>, size: int, dims: seq<int>, time: int)
    | OnWitness(obj: int, classId: int, time: int)
    | Shutdown

  /** One write of a hook: a value, the id of an object, the dimensions, or an entry of the witness map. */
  datatype Write =
    | Put(field: Field, value: int)
    | PutId(field: Field, hash: int)
    | PutDims(text: string)
    | PutWitness(hash: int, time: int, classId: int)

  /** The writes of a call by a thread with hash code `self`, in program order. */
  function Writes(c: Call, self: int): seq<Write> {
    match c
    case OnEntry(m, r, time) =>
      [Put(First, m), if r == None then Put(Second, 0) else PutId(Second, r.value), Put(EventType, 1),
       Put(Timestamp, time), PutId(ThreadId, self)]
    case OnExit(m, time) =>
      [Put(First, m), Put(EventType, 2), Put(Timestamp, time), PutId(ThreadId, self)]
    case OnObjectAlloc(o, classId, site, size, time) =>
      [PutId(First, o), Put(EventType, 3), Put(Second, classId), Put(Third, site), Put(Fourth, size),
       Put(Timestamp, time), PutId(ThreadId, self)]
    case OnPutField(target, o, field, time) =>
      [Put(EventType, 7), PutId(First, target), Put(Second, field), PutId(Third, o), Put(Timestamp, time),
       PutId(ThreadId, self)]
    case OnArrayAlloc(a, typeId, site, length, size, dims, time) =>
      [Put(EventType, 4), PutId(First, a), Put(Second, typeId), Put(Third, if length == None then 0 else length.value),
       Put(Fourth, size), Put(Fifth, site), Put(Timestamp, time), PutId(ThreadId, self), PutDims(DimsString(dims))]
    case OnWitness(o, classId, time) => [PutWitness(o, time, classId)]
    case Shutdown => []
  }

  /** The call takes a slot of the buffer. */
  predicate TakesSlot(c: Call) {
    !c.OnWitness? && !c.Shutdown?
  }

  // ----- The buffer, one call at a time -----

  /** The shared state: the text in the file, the slots taken, all slots, the ids given, the next id, the witnesses. */
  datatype Buffer = Buffer(written: string, ptr: nat, slots: seq<Slot>, ids: map<int, int>, nextId: int,
                           witnesses: map<int, (int, int)>)

  function GetId(b: Buffer, hash: int): Buffer {
    if hash in b.ids then b else b.(ids := b.ids[hash := b.nextId], nextId := b.nextId + 1)
  }

  function UpdateSlot(b: Buffer, i: nat, s: Slot): Buffer
    requires i < |b.slots|
  {
    b.(slots := b.slots[i := s])
  }

  /** Stores a resolved write: `id` is the object id a PutId or PutWitness needs. */
  function Store(b: Buffer, cur: nat, w: Write, id: int): Buffer
    requires cur < |b.slots|
  {
    match w
    case Put(f, v) => UpdateSlot(b, cur, SetField(b.slots[cur], f, v))
    case PutId(f, _) => UpdateSlot(b, cur, SetField(b.slots[cur], f, id))
    case PutDims(text) => UpdateSlot(b, cur, b.slots[cur].(dims := text))
    case PutWitness(_, time, classId) => b.(witnesses := b.witnesses[id := (time, classId)])
  }

  predicate NeedsId(w: Write) {
    w.PutId? || w.PutWitness?
  }

  function DoWrite(b: Buffer, cur: nat, w: Write): (b': Buffer)
    requires cur < |b.slots|
    ensures |b'.slots| == |b.slots| && b'.ptr == b.ptr
  {
    if NeedsId(w) then
      var b1 := GetId(b, w.hash);
      Store(b1, cur, w, b1.ids[w.hash])
    else Store(b, cur, w, 0)
  }

  /** The first k writes of ws. */
  function DoWrites(b: Buffer, cur: nat, ws: seq<Write>, k: nat): (b': Buffer)
    requires cur < |b.slots| && k <= |ws|
    ensures |b'.slots| == |b.slots| && b'.ptr == b.ptr
  {
    if k == 0 then b else DoWrite(DoWrites(b, cur, ws, k - 1), cur, ws[k - 1])
  }

  /** Slot i is printed and its dimensions cleared. */
  function FlushOne(b: Buffer, i: nat): (b': Buffer)
    requires i < |b.slots|
    ensures |b'.slots| == |b.slots| && b'.ptr == b.ptr
  {
    UpdateSlot(b, i, b.slots[i].(dims := "")).(written := b.written + RenderSlot(b.slots[i]))
  }

  function FlushTo(b: Buffer, i: nat): (b': Buffer)
    requires i <= |b.slots|
    ensures |b'.slots| == |b.slots| && b'.ptr == b.ptr
  {
    if i == 0 then b else FlushOne(FlushTo(b, i - 1), i - 1)
  }

  function FlushSize(b: Buffer): nat {
    if b.ptr < BUFMAX then b.ptr else BUFMAX
  }

  function Flushed(b: Buffer): (b': Buffer)
    requires |b.slots| == BUFMAX + 1
    ensures |b'.slots| == |b.slots| && b'.ptr == 0
  {
    FlushTo(b, FlushSize(b)).(ptr := 0)
  }

  /** A full buffer is flushed before a slot is taken. */
  function Ready(b: Buffer): (b': Buffer)
    requires |b.slots| == BUFMAX + 1
    ensures |b'.slots| == |b.slots| && b'.ptr < BUFMAX
  {
    if b.ptr >= BUFMAX then Flushed(b) else b
  }

  function Claimed(b: Buffer): (b': Buffer)
    requires |b.slots| == BUFMAX + 1
    ensures |b'.slots| == |b.slots|
  {
    Ready(b).(ptr := Ready(b).ptr + 1)
  }

  /** The buffer after a whole call. */
  function RunCall(b: Buffer, c: Call, self: int): (b': Buffer)
    requires |b.slots| == BUFMAX + 1
    ensures |b'.slots| == |b.slots|
  {
    var ws := Writes(c, self);
    if c.Shutdown? then Flushed(b)
    else if c.OnWitness? then DoWrites(b, 0, ws, |ws|)
    else DoWrites(Claimed(b), Ready(b).ptr, ws, |ws|)
  }

  // ----- What a run of calls leaves -----

  /** The text written so far and the text still in the buffer. */
  function Output(b: Buffer): string
    requires b.ptr <= |b.slots|
  {
    b.written + RenderSlots(b.slots[..b.ptr])
  }

  function IdOf(ids: map<int, int>, hash: int): int {
    if hash in ids then ids[hash] else 0
  }

  /** The event of a call by the thread with hash code `self`, with ids taken from `ids`. */
  function EventOf(c: Call, self: int, ids: map<int, int>): Event
    requires TakesSlot(c)
  {
    var t := IdOf(ids, self);
    match c
    case OnEntry(m, r, _) => MethodEntry(m, if r == None then 0 else IdOf(ids, r.value), t)
    case OnExit(m, _) => MethodExit(m, t)
    case OnObjectAlloc(o, classId, site, size, _) => ObjectAllocation(IdOf(ids, o), size, classId, site, t)
    case OnPutField(target, o, field, _) => PutField(IdOf(ids, o), IdOf(ids, target), field, t)
    case OnArrayAlloc(a, typeId, site, length, size, dims, _) =>
      ArrayAllocation(IdOf(ids, a), size, typeId, site, if length == None then 0 else length.value, t, dims)
  }

  /** Ids never change and never go away. */
  predicate IdsGrow(m: map<int, int>, m': map<int, int>) {
    forall h :: h in m ==> h in m' && m'[h] == m[h]
  }

  ghost predicate HandedOut(ids: map<int, int>, v: int) {
    exists h :: h in ids && ids[h] == v
  }

  ghost predicate Separate(ids: map<int, int>, h: int, k: int) {
    h in ids && k in ids && ids[h] == ids[k] ==> h == k
  }

  /** The ids handed out are 1, 2, ..., nextId - 1, each to one hash code. */
  ghost predicate IdsAreExact(ids: map<int, int>, nextId: int) {
    && nextId >= 1
    && (forall h :: h in ids ==> 1 <= ids[h] < nextId)
    && (forall h, k {:trigger Separate(ids, h, k)} :: Separate(ids, h, k))
    && forall v {:trigger HandedOut(ids, v)} :: 1 <= v < nextId ==> HandedOut(ids, v)
  }

  ghost predicate WellFormed(b: Buffer) {
    |b.slots| == BUFMAX + 1 && b.ptr <= BUFMAX
  }

  lemma GetIdKeepsExact(b: Buffer, hash: int)
    requires IdsAreExact(b.ids, b.nextId)
    ensures IdsAreExact(GetId(b, hash).ids, GetId(b, hash).nextId)
  {
    if hash !in b.ids {
      var b' := GetId(b, hash);
      forall v | 1 <= v < b'.nextId ensures HandedOut(b'.ids, v) {
        if v == b.nextId {
          assert b'.ids[hash] == v;
        } else {
          assert HandedOut(b.ids, v);
          var h :| h in b.ids && b.ids[h] == v;
          assert b'.ids[h] == v;
        }
      }
      forall h, k ensures Separate(b'.ids, h, k) {
        assert Separate(b.ids, h, k);
      }
    }
  }

  /** A write changes no other slot, and gives an id to at most the object it names. */
  lemma DoWriteKeeps(b: Buffer, cur: nat, w: Write)
    requires cur < |b.slots|
    ensures var b' := DoWrite(b, cur, w);
      && IdsGrow(b.ids, b'.ids) && b'.ids.Keys == b.ids.Keys + (if NeedsId(w) then {w.hash} else {})
      && b'.written == b.written
      && forall i :: 0 <= i < |b.slots| && i != cur ==> b'.slots[i] == b.slots[i]
  {
  }

  /** The hash codes of the objects that the first k writes need an id for. */
  function Hashes(ws: seq<Write>, k: nat): set<int>
    requires k <= |ws|
  {
    if k == 0 then {} else Hashes(ws, k - 1) + if NeedsId(ws[k - 1]) then {ws[k - 1].hash} else {}
  }

  lemma {:induction false} DoWritesKeepRest(b: Buffer, cur: nat, ws: seq<Write>, k: nat)
    requires cur < |b.slots| && k <= |ws|
    ensures var b' := DoWrites(b, cur, ws, k);
      && b'.written == b.written
      && forall i :: 0 <= i < |b.slots| && i != cur ==> b'.slots[i] == b.slots[i]
  {
    if k > 0 {
      DoWritesKeepRest(b, cur, ws, k - 1);
      DoWriteKeeps(DoWrites(b, cur, ws, k - 1), cur, ws[k - 1]);
    }
  }

  lemma {:induction false} DoWritesGrowIds(b: Buffer, cur: nat, ws: seq<Write>, k: nat)
    requires cur < |b.slots| && k <= |ws|
    ensures var b' := DoWrites(b, cur, ws, k);
      IdsGrow(b.ids, b'.ids) && b'.ids.Keys == b.ids.Keys + Hashes(ws, k)
  {
    if k > 0 {
      DoWritesGrowIds(b, cur, ws, k - 1);
      DoWriteKeeps(DoWrites(b, cur, ws, k - 1), cur, ws[k - 1]);
    }
  }

  lemma {:induction false} DoWritesKeepExact(b: Buffer, cur: nat, ws: seq<Write>, k: nat)
    requires IdsAreExact(b.ids, b.nextId) && cur < |b.slots| && k <= |ws|
    ensures IdsAreExact(DoWrites(b, cur, ws, k).ids, DoWrites(b, cur, ws, k).nextId)
  {
    if k > 0 {
      var b1 := DoWrites(b, cur, ws, k - 1);
      DoWritesKeepExact(b, cur, ws, k - 1);
      if NeedsId(ws[k - 1]) {
        GetIdKeepsExact(b1, ws[k - 1].hash);
      }
    }
  }

  function FillOne(s: Slot, w: Write, ids: map<int, int>): Slot {
    match w
    case Put(f, v) => SetField(s, f, v)
    case PutId(f, h) => SetField(s, f, IdOf(ids, h))
    case PutDims(text) => s.(dims := text)
    case PutWitness(_, _, _) => s
  }

  /** What the first k writes of a call leave in its slot, given the ids they used. */
  function Filled(s: Slot, ws: seq<Write>, k: nat, ids: map<int, int>): Slot
    requires k <= |ws|
  {
    if k == 0 then s else FillOne(Filled(s, ws, k - 1, ids), ws[k - 1], ids)
  }

  lemma {:induction false} FilledWithLaterIds(s: Slot, ws: seq<Write>, k: nat, m: map<int, int>, m': map<int, int>)
    requires k <= |ws| && IdsGrow(m, m') && Hashes(ws, k) <= m.Keys
    ensures Filled(s, ws, k, m') == Filled(s, ws, k, m)
  {
    if k > 0 {
      FilledWithLaterIds(s, ws, k - 1, m, m');
    }
  }

  lemma DoWriteFills(b: Buffer, cur: nat, w: Write)
    requires cur < |b.slots|
    ensures DoWrite(b, cur, w).slots[cur] == FillOne(b.slots[cur], w, DoWrite(b, cur, w).ids)
  {
  }

  lemma {:induction false} DoWritesFill(b: Buffer, cur: nat, ws: seq<Write>, k: nat)
    requires cur < |b.slots| && k <= |ws|
    ensures DoWrites(b, cur, ws, k).slots[cur] == Filled(b.slots[cur], ws, k, DoWrites(b, cur, ws, k).ids)
  {
    if k > 0 {
      var b1 := DoWrites(b, cur, ws, k - 1);
      DoWritesGrowIds(b, cur, ws, k - 1);
      DoWriteKeeps(b1, cur, ws[k - 1]);
      DoWriteFills(b1, cur, ws[k - 1]);
      DoWritesFill(b, cur, ws, k - 1);
      FilledWithLaterIds(b.slots[cur], ws, k - 1, b1.ids, DoWrites(b, cur, ws, k).ids);
    }
  }

  /** The k-th write of ws takes the slot from s to s'. */
  lemma FillNext(s0: Slot, ws: seq<Write>, k: nat, ids: map<int, int>, s: Slot, s': Slot)
    requires k < |ws| && Filled(s0, ws, k, ids) == s && FillOne(s, ws[k], ids) == s'
    ensures Filled(s0, ws, k + 1, ids) == s'
  {
  }

  /** Four writes in a row. */
  lemma FillFour(s0: Slot, ws: seq<Write>, k: nat, ids: map<int, int>, s: Slot) returns (s': Slot)
    requires k + 4 <= |ws| && Filled(s0, ws, k, ids) == s
    ensures s' == FillOne(FillOne(FillOne(FillOne(s, ws[k], ids), ws[k + 1], ids), ws[k + 2], ids), ws[k + 3], ids)
    ensures Filled(s0, ws, k + 4, ids) == s'
  {
    var s1 := FillOne(s, ws[k], ids);
    var s2 := FillOne(s1, ws[k + 1], ids);
    var s3 := FillOne(s2, ws[k + 2], ids);
    s' := FillOne(s3, ws[k + 3], ids);
    FillNext(s0, ws, k, ids, s, s1);
    FillNext(s0, ws, k + 1, ids, s1, s2);
    FillNext(s0, ws, k + 2, ids, s2, s3);
    FillNext(s0, ws, k + 3, ids, s3, s');
  }

  ghost predicate Prints(s: Slot, c: Call, self: int, ids: map<int, int>)
    requires TakesSlot(c)
  {
    var ws := Writes(c, self);
    RenderSlot(Filled(s, ws, |ws|, ids)) == EventLine(EventOf(c, self, ids))
  }

  lemma EntryPrints(s: Slot, c: Call, self: int, ids: map<int, int>)
    requires c.OnEntry?
    ensures Prints(s, c, self, ids)
  {
    var ws := Writes(c, self);
    var s4 := FillFour(s, ws, 0, ids, s);
    assert SlotWords(FillOne(s4, ws[4], ids)) == Words(EventOf(c, self, ids));
  }

  lemma ExitPrints(s: Slot, c: Call, self: int, ids: map<int, int>)
    requires c.OnExit?
    ensures Prints(s, c, self, ids)
  {
    var s4 := FillFour(s, Writes(c, self), 0, ids, s);
    assert SlotWords(s4) == Words(EventOf(c, self, ids));
  }

  lemma ObjectPrints(s: Slot, c: Call, self: int, ids: map<int, int>)
    requires c.OnObjectAlloc?
    ensures Prints(s, c, self, ids)
  {
    var ws := Writes(c, self);
    var s4 := FillFour(s, ws, 0, ids, s);
    var s7 := FillOne(FillOne(FillOne(s4, ws[4], ids), ws[5], ids), ws[6], ids);
    FillNext(s, ws, 4, ids, s4, FillOne(s4, ws[4], ids));
    assert Filled(s, ws, 7, ids) == s7;
    assert SlotWords(s7) == Words(EventOf(c, self, ids));
  }

  lemma PutFieldPrints(s: Slot, c: Call, self: int, ids: map<int, int>)
    requires c.OnPutField?
    ensures Prints(s, c, self, ids)
  {
    var ws := Writes(c, self);
    var s4 := FillFour(s, ws, 0, ids, s);
    var s6 := FillOne(FillOne(s4, ws[4], ids), ws[5], ids);
    assert Filled(s, ws, 6, ids) == s6;
    assert SlotWords(s6) == Words(EventOf(c, self, ids));
  }

  lemma ArrayPrints(s: Slot, c: Call, self: int, ids: map<int, int>)
    requires c.OnArrayAlloc?
    ensures Prints(s, c, self, ids)
  {
    var ws := Writes(c, self);
    var s4 := FillFour(s, ws, 0, ids, s);
    var s8 := FillFour(s, ws, 4, ids, s4);
    assert SlotWords(FillOne(s8, ws[8], ids)) == Words(EventOf(c, self, ids));
  }

  /** Whatever an earlier event left in the slot, it prints as the line of this call's event. */
  lemma FilledPrintsEvent(s: Slot, c: Call, self: int, ids: map<int, int>)
    requires TakesSlot(c)
    ensures Prints(s, c, self, ids)
  {
    match c
    case OnEntry(_, _, _) => EntryPrints(s, c, self, ids);
    case OnExit(_, _) => ExitPrints(s, c, self, ids);
    case OnObjectAlloc(_, _, _, _, _) => ObjectPrints(s, c, self, ids);
    case OnPutField(_, _, _, _) => PutFieldPrints(s, c, self, ids);
    case OnArrayAlloc(_, _, _, _, _, _, _) => ArrayPrints(s, c, self, ids);
  }

  // ----- Runs of calls, one after the other -----

  /** A call by the thread with identity hash code `self`. */
  datatype Entry = Entry(thread: nat, self: int, call: Call)

  function RunAll(b: Buffer, log: seq<Entry>): (b': Buffer)
    requires |b.slots| == BUFMAX + 1
    ensures |b'.slots| == |b.slots|
  {
    if log == [] then b
    else RunCall(RunAll(b, log[..|log| - 1]), log[|log| - 1].call, log[|log| - 1].self)
  }

  /** The events of the calls that take a slot. */
  function Events(log: seq<Entry>, ids: map<int, int>): seq<Event> {
    if log == [] then []
    else
      var e := log[|log| - 1];
      Events(log[..|log| - 1], ids) + if TakesSlot(e.call) then [EventOf(e.call, e.self, ids)] else []
  }

  function CallHashes(e: Entry): set<int> {
    var ws := Writes(e.call, e.self);
    Hashes(ws, |ws|)
  }

  /** The hash codes of the objects and threads the calls of the log name. */
  function LogHashes(log: seq<Entry>): set<int> {
    if log == [] then {} else LogHashes(log[..|log| - 1]) + CallHashes(log[|log| - 1])
  }

  /** The state in which the program starts; nothing is known about the contents of the slots. */
  ghost predicate Initial(b: Buffer) {
    && b.written == "" && b.ptr == 0 && |b.slots| == BUFMAX + 1
    && b.ids == map[] && b.nextId == 1 && b.witnesses == map[]
  }

  lemma RenderNext(ss: seq<Slot>, i: nat)
    requires i < |ss|
    ensures RenderSlots(ss[..i + 1]) == RenderSlots(ss[..i]) + RenderSlot(ss[i])
  {
    assert ss[..i + 1][..i] == ss[..i];
  }

  /** Slot i is the first that is not yet printed. */
  ghost predicate FlushedUpTo(b: Buffer, b': Buffer, i: nat)
    requires i <= |b.slots| == |b'.slots|
  {
    b'.written == b.written + RenderSlots(b.slots[..i]) && b'.slots[i..] == b.slots[i..]
  }

  lemma FlushOneWrites(b: Buffer, b1: Buffer, i: nat)
    requires i < |b.slots| == |b1.slots| && FlushedUpTo(b, b1, i)
    ensures FlushedUpTo(b, FlushOne(b1, i), i + 1)
  {
    assert b1.slots[i..][0] == b.slots[i];
    assert b1.slots[i..][1..] == b1.slots[i + 1..] && b.slots[i..][1..] == b.slots[i + 1..];
    RenderNext(b.slots, i);
    Regroup(b.written, RenderSlots(b.slots[..i]), RenderSlot(b.slots[i]));
  }

  lemma NothingFlushed(b: Buffer)
    ensures FlushedUpTo(b, b, 0)
  {
  }

  lemma Regroup(x: string, y: string, z: string)
    ensures x + y + z == x + (y + z)
  {
  }

  lemma {:induction false} FlushToWrites(b: Buffer, i: nat)
    requires i <= |b.slots|
    ensures FlushedUpTo(b, FlushTo(b, i), i)
  {
    hide RenderSlot;
    if i == 0 {
      NothingFlushed(b);
    } else {
      FlushToWrites(b, i - 1);
      FlushOneWrites(b, FlushTo(b, i - 1), i - 1);
    }
  }

  lemma FlushOneKeepsIds(b: Buffer, i: nat)
    requires i < |b.slots|
    ensures FlushOne(b, i).ids == b.ids && FlushOne(b, i).nextId == b.nextId && FlushOne(b, i).witnesses == b.witnesses
  {
  }

  lemma {:induction false} FlushToKeepsIds(b: Buffer, i: nat)
    requires i <= |b.slots|
    ensures FlushTo(b, i).ids == b.ids && FlushTo(b, i).nextId == b.nextId && FlushTo(b, i).witnesses == b.witnesses
  {
    hide RenderSlot;
    if i > 0 {
      FlushToKeepsIds(b, i - 1);
      FlushOneKeepsIds(FlushTo(b, i - 1), i - 1);
    }
  }

  lemma OutputOfEmpty(b: Buffer)
    requires b.ptr == 0
    ensures Output(b) == b.written
  {
  }

  /** A flush writes everything that is in the buffer, once. */
  lemma FlushedKeepsOutput(b: Buffer)
    requires WellFormed(b)
    ensures Flushed(b).written == Output(b) && Output(Flushed(b)) == Output(b)
    ensures Flushed(b).ids == b.ids && Flushed(b).nextId == b.nextId
  {
    FlushToWrites(b, FlushSize(b));
    FlushToKeepsIds(b, FlushSize(b));
    OutputOfEmpty(Flushed(b));
  }

  lemma ReadyKeepsOutput(b: Buffer)
    requires WellFormed(b)
    ensures Output(Ready(b)) == Output(b) && Ready(b).ids == b.ids && Ready(b).nextId == b.nextId
  {
    if b.ptr >= BUFMAX {
      FlushedKeepsOutput(b);
    }
  }

  /** Slot cur is the next one, and b' differs from b in it and in the count of slots taken. */
  lemma OutputNext(b: Buffer, b': Buffer)
    requires b.ptr < |b.slots| == |b'.slots| && b'.ptr == b.ptr + 1 && b'.written == b.written
    requires forall i :: 0 <= i < |b.slots| && i != b.ptr ==> b'.slots[i] == b.slots[i]
    ensures Output(b') == Output(b) + RenderSlot(b'.slots[b.ptr])
  {
    assert b'.slots[..b.ptr] == b.slots[..b.ptr];
    RenderNext(b'.slots, b.ptr);
  }

  /** The writes of a call to the next slot add its line. */
  lemma WritesAddLine(b: Buffer, c: Call, self: int)
    requires WellFormed(b) && b.ptr < BUFMAX && TakesSlot(c)
    ensures var ws := Writes(c, self); var b' := DoWrites(b.(ptr := b.ptr + 1), b.ptr, ws, |ws|);
      Output(b') == Output(b) + EventLine(EventOf(c, self, b'.ids))
  {
    var cur, ws := b.ptr, Writes(c, self);
    var b1 := b.(ptr := b.ptr + 1);
    var b' := DoWrites(b1, cur, ws, |ws|);
    DoWritesKeepRest(b1, cur, ws, |ws|);
    DoWritesFill(b1, cur, ws, |ws|);
    FilledPrintsEvent(b1.slots[cur], c, self, b'.ids);
    OutputNext(b, b');
  }

  /** The line a call adds to the output, given the ids it used. */
  function LineOfCall(e: Entry, ids: map<int, int>): string {
    if TakesSlot(e.call) then EventLine(EventOf(e.call, e.self, ids)) else ""
  }

  /** A call adds exactly the line of its event. */
  lemma RunCallAddsLine(b: Buffer, e: Entry)
    requires WellFormed(b)
    ensures WellFormed(RunCall(b, e.call, e.self))
    ensures Output(RunCall(b, e.call, e.self)) == Output(b) + LineOfCall(e, RunCall(b, e.call, e.self).ids)
  {
    hide RenderSlot;
    if e.call.Shutdown? {
      FlushedKeepsOutput(b);
    } else if e.call.OnWitness? {
      var ws := Writes(e.call, e.self);
      assert DoWrites(b, 0, ws, 0) == b;
      assert DoWrites(b, 0, ws, 1) == DoWrite(b, 0, ws[0]);
    } else {
      ReadyKeepsOutput(b);
      WritesAddLine(Ready(b), e.call, e.self);
    }
  }

  /** A call gives ids to exactly the objects and the thread it names, and never changes one. */
  lemma RunCallGrowsIds(b: Buffer, e: Entry)
    requires WellFormed(b)
    ensures var b' := RunCall(b, e.call, e.self);
      && IdsGrow(b.ids, b'.ids) && b'.ids.Keys == b.ids.Keys + CallHashes(e)
      && (IdsAreExact(b.ids, b.nextId) ==> IdsAreExact(b'.ids, b'.nextId))
  {
    var ws := Writes(e.call, e.self);
    if e.call.Shutdown? {
      FlushedKeepsOutput(b);
    } else {
      ReadyKeepsOutput(b);
      var b1 := if e.call.OnWitness? then b else Claimed(b);
      var cur := if e.call.OnWitness? then 0 else Ready(b).ptr;
      DoWritesGrowIds(b1, cur, ws, |ws|);
      if IdsAreExact(b.ids, b.nextId) {
        DoWritesKeepExact(b1, cur, ws, |ws|);
      }
    }
  }

  function LookupOf(w: Write): seq<int> {
    if NeedsId(w) then [w.hash] else []
  }

  /** The hash codes that the first k writes look up, in order. */
  function LookedUp(ws: seq<Write>, k: nat): seq<int>
    requires k <= |ws|
  {
    if k == 0 then [] else LookedUp(ws, k - 1) + LookupOf(ws[k - 1])
  }

  /** The objects a call asks an id for, first to last; its thread is the last. */
  function Lookups(e: Entry): seq<int> {
    match e.call
    case OnEntry(_, r, _) => if r == None then [e.self] else [r.value, e.self]
    case OnExit(_, _) => [e.self]
    case OnObjectAlloc(o, _, _, _, _) => [o, e.self]
    case OnPutField(target, o, _, _) => [target, o, e.self]
    case OnArrayAlloc(a, _, _, _, _, _, _) => [a, e.self]
    case OnWitness(o, _, _) => [o]
    case Shutdown => []
  }

  lemma LookedUpTwo(ws: seq<Write>, k: nat)
    requires k + 2 <= |ws|
    ensures LookedUp(ws, k + 2) == LookedUp(ws, k) + (LookupOf(ws[k]) + LookupOf(ws[k + 1]))
  {
    hide LookupOf;
    assert LookedUp(ws, k + 2) == LookedUp(ws, k + 1) + LookupOf(ws[k + 1]);
    Associates(LookedUp(ws, k), LookupOf(ws[k]), LookupOf(ws[k + 1]));
  }

  lemma Associates(a: seq<int>, b: seq<int>, c: seq<int>)
    ensures a + b + c == a + (b + c)
    ensures [] + a == a
  {
  }

  /** The lookups of writes 0 to 3. */
  lemma LookedUpFour(ws: seq<Write>)
    requires 4 <= |ws|
    ensures LookedUp(ws, 4) == (LookupOf(ws[0]) + LookupOf(ws[1])) + (LookupOf(ws[2]) + LookupOf(ws[3]))
  {
    hide LookedUp, LookupOf;
    NothingLookedUp(ws);
    LookedUpTwo(ws, 0);
    Associates(LookupOf(ws[0]) + LookupOf(ws[1]), [], []);
    LookedUpTwo(ws, 2);
  }

  lemma NothingLookedUp(ws: seq<Write>)
    ensures LookedUp(ws, 0) == []
  {
  }

  lemma ShortCallLooksUp(e: Entry)
    requires e.call.OnEntry? || e.call.OnExit? || !TakesSlot(e.call)
    ensures var ws := Writes(e.call, e.self); LookedUp(ws, |ws|) == Lookups(e)
  {
    var ws := Writes(e.call, e.self);
    if |ws| >= 4 {
      LookedUpFour(ws);
    }
  }

  lemma LongCallLooksUp(e: Entry)
    requires e.call.OnObjectAlloc? || e.call.OnPutField?
    ensures var ws := Writes(e.call, e.self); LookedUp(ws, |ws|) == Lookups(e)
  {
    var ws := Writes(e.call, e.self);
    LookedUpFour(ws);
    LookedUpTwo(ws, 4);
  }

  lemma ArrayLooksUp(e: Entry)
    requires e.call.OnArrayAlloc?
    ensures var ws := Writes(e.call, e.self); LookedUp(ws, |ws|) == Lookups(e)
  {
    var ws := Writes(e.call, e.self);
    LookedUpFour(ws);
    LookedUpTwo(ws, 4);
    LookedUpTwo(ws, 6);
  }

  lemma CallLooksUp(e: Entry)
    ensures var ws := Writes(e.call, e.self); LookedUp(ws, |ws|) == Lookups(e)
  {
    hide Writes, LookedUp, Lookups;
    if e.call.OnArrayAlloc? {
      ArrayLooksUp(e);
    } else if e.call.OnObjectAlloc? || e.call.OnPutField? {
      LongCallLooksUp(e);
    } else {
      ShortCallLooksUp(e);
    }
  }

  lemma {:induction false} LookedUpAreHashes(ws: seq<Write>, k: nat)
    requires k <= |ws|
    ensures forall h :: h in LookedUp(ws, k) <==> h in Hashes(ws, k)
  {
    if k > 0 {
      LookedUpAreHashes(ws, k - 1);
    }
  }

  /** The j-th lookup is the first for its object. */
  predicate IsNew(ids: map<int, int>, lookups: seq<int>, j: nat)
    requires j < |lookups|
  {
    lookups[j] !in ids && lookups[j] !in lookups[..j]
  }

  /** The last write asks for an id for the first time: it is larger than all before. */
  lemma WriteNumbersNext(b: Buffer, cur: nat, w: Write, h: int)
    requires IdsAreExact(b.ids, b.nextId) && cur < |b.slots| && h in b.ids && NeedsId(w) && w.hash !in b.ids
    ensures var ids := DoWrite(b, cur, w).ids; h in ids && w.hash in ids && ids[h] < ids[w.hash]
  {
  }

  lemma {:induction false} WritesNumberInOrder(b: Buffer, cur: nat, ws: seq<Write>, k: nat, i: nat, j: nat)
    requires IdsAreExact(b.ids, b.nextId) && cur < |b.slots| && k <= |ws|
    requires i < j < |LookedUp(ws, k)| && IsNew(b.ids, LookedUp(ws, k), j)
    ensures var l, ids := LookedUp(ws, k), DoWrites(b, cur, ws, k).ids;
      l[i] in ids && l[j] in ids && ids[l[i]] < ids[l[j]]
  {
    hide IdsAreExact, DoWrite, NeedsId;
    var l, l1, b1 := LookedUp(ws, k), LookedUp(ws, k - 1), DoWrites(b, cur, ws, k - 1);
    DoWriteKeeps(b1, cur, ws[k - 1]);
    assert l == l1 + LookupOf(ws[k - 1]);
    assert l[..j] == l1[..j];
    assert DoWrites(b, cur, ws, k) == DoWrite(b1, cur, ws[k - 1]);
    if j < |l1| {
      assert l[i] == l1[i] && l[j] == l1[j];
      WritesNumberInOrder(b, cur, ws, k - 1, i, j);
    } else {
      assert l1[..j] == l1 && l[i] == l1[i];
      DoWritesGrowIds(b, cur, ws, k - 1);
      LookedUpAreHashes(ws, k - 1);
      DoWritesKeepExact(b, cur, ws, k - 1);
      WriteNumbersNext(b1, cur, ws[k - 1], l[i]);
    }
  }

  /** The objects a call names for the first time are numbered in the order of its lookups, all after the known ones. */
  lemma RunCallNumbersInOrder(b: Buffer, e: Entry, i: nat, j: nat)
    requires WellFormed(b) && IdsAreExact(b.ids, b.nextId)
    requires i < j < |Lookups(e)| && IsNew(b.ids, Lookups(e), j)
    ensures var l, ids := Lookups(e), RunCall(b, e.call, e.self).ids;
      l[i] in ids && l[j] in ids && ids[l[i]] < ids[l[j]]
  {
    hide IdsAreExact, Lookups, IsNew, Writes;
    var ws := Writes(e.call, e.self);
    CallLooksUp(e);
    ReadyKeepsOutput(b);
    assert !e.call.Shutdown? && !e.call.OnWitness? by {
      ManyLookups(e);
    }
    WritesNumberInOrder(Claimed(b), Ready(b).ptr, ws, |ws|, i, j);
  }

  lemma ManyLookups(e: Entry)
    ensures |Lookups(e)| >= 2 ==> TakesSlot(e.call)
  {
  }

  lemma {:induction false} PrintAllAppend(es: seq<Event>, e: Event)
    ensures PrintAll(es + [e]) == PrintAll(es) + EventLine(e)
  {
    if es == [] {
      assert [e][1..] == [];
    } else {
      assert (es + [e])[1..] == es[1..] + [e];
      PrintAllAppend(es[1..], e);
    }
  }

  lemma {:induction false} HashKnown(ws: seq<Write>, k: nat, i: nat)
    requires i < k <= |ws| && NeedsId(ws[i])
    ensures ws[i].hash in Hashes(ws, k)
  {
    if i < k - 1 {
      HashKnown(ws, k - 1, i);
    }
  }

  lemma EventWithLaterIds(e: Entry, m: map<int, int>, m': map<int, int>)
    requires TakesSlot(e.call) && IdsGrow(m, m') && CallHashes(e) <= m.Keys
    ensures EventOf(e.call, e.self, m') == EventOf(e.call, e.self, m)
  {
    var ws := Writes(e.call, e.self);
    forall i | 0 <= i < |ws| && NeedsId(ws[i]) ensures IdOf(m', ws[i].hash) == IdOf(m, ws[i].hash) {
      HashKnown(ws, |ws|, i);
    }
    if e.call.OnEntry? {
      assert ws[1].PutId? || e.call.receiver == None;
      assert ws[4].PutId?;
    } else if e.call.OnExit? {
      assert ws[3].PutId?;
    } else if e.call.OnArrayAlloc? {
      assert ws[1].PutId? && ws[7].PutId?;
    } else if e.call.OnObjectAlloc? {
      assert ws[0].PutId? && ws[6].PutId?;
    } else {
      assert ws[1].PutId? && ws[3].PutId? && ws[5].PutId?;
    }
  }

  lemma {:induction false} EventsWithLaterIds(log: seq<Entry>, m: map<int, int>, m': map<int, int>)
    requires IdsGrow(m, m') && LogHashes(log) <= m.Keys
    ensures Events(log, m') == Events(log, m)
  {
    if log != [] {
      EventsWithLaterIds(log[..|log| - 1], m, m');
      if TakesSlot(log[|log| - 1].call) {
        EventWithLaterIds(log[|log| - 1], m, m');
      }
    }
  }

  /** Ids are handed out to exactly the objects and threads the calls name, as 1, 2, ... */
  lemma {:induction false} RunAllNumbers(b: Buffer, log: seq<Entry>)
    requires Initial(b)
    ensures var b' := RunAll(b, log);
      WellFormed(b') && b'.ids.Keys == LogHashes(log) && IdsAreExact(b'.ids, b'.nextId)
  {
    if log != [] {
      var b1, e := RunAll(b, log[..|log| - 1]), log[|log| - 1];
      RunAllNumbers(b, log[..|log| - 1]);
      RunCallAddsLine(b1, e);
      RunCallGrowsIds(b1, e);
    }
  }

  /** One more call: the events so far print as before, and the new one, if any, comes last. */
  lemma PrintsOneMore(init: seq<Entry>, e: Entry, m: map<int, int>, m': map<int, int>)
    requires IdsGrow(m, m') && LogHashes(init) <= m.Keys
    ensures PrintAll(Events(init + [e], m')) == PrintAll(Events(init, m)) + LineOfCall(e, m')
  {
    EventsWithLaterIds(init, m, m');
    assert (init + [e])[..|init|] == init;
    if TakesSlot(e.call) {
      PrintAllAppend(Events(init, m'), EventOf(e.call, e.self, m'));
    } else {
      assert Events(init, m') + [] == Events(init, m');
    }
  }

  /**
   * After any sequence of calls the text written and the text still in the buffer are together the lines of all
   * events, in order.
   */
  lemma {:induction false} RunAllPrintsEvents(b: Buffer, log: seq<Entry>)
    requires Initial(b)
    ensures WellFormed(RunAll(b, log)) && Output(RunAll(b, log)) == PrintAll(Events(log, RunAll(b, log).ids))
  {
    if log != [] {
      var init, e := log[..|log| - 1], log[|log| - 1];
      var b1 := RunAll(b, init);
      RunAllPrintsEvents(b, init);
      RunAllNumbers(b, init);
      RunCallAddsLine(b1, e);
      RunCallGrowsIds(b1, e);
      PrintsOneMore(init, e, b1.ids, RunAll(b, log).ids);
      assert init + [e] == log;
    } else {
      OutputOfEmpty(b);
    }
  }

  /** Once the shutdown hook has run, the file holds the lines of all events. */
  lemma ShutdownWritesEverything(b: Buffer, log: seq<Entry>)
    requires Initial(b) && log != [] && log[|log| - 1].call.Shutdown?
    ensures RunAll(b, log).written == PrintAll(Events(log, RunAll(b, log).ids))
  {
    RunAllPrintsEvents(b, log);
    OutputOfEmpty(RunAll(b, log));
  }

  /** An id, once given, is never changed by later calls. */
  lemma {:induction false} IdsAreStable(b: Buffer, log: seq<Entry>, more: seq<Entry>)
    requires Initial(b)
    ensures IdsGrow(RunAll(b, log).ids, RunAll(b, log + more).ids)
    decreases |more|
  {
    hide RunCall;
    if more == [] {
      assert log + more == log;
    } else {
      var init, e := log + more[..|more| - 1], more[|more| - 1];
      IdsAreStable(b, log, more[..|more| - 1]);
      assert (log + more)[..|log + more| - 1] == init;
      RunAllNumbers(b, init);
      RunCallGrowsIds(RunAll(b, init), e);
    }
  }

  // ----- Witnesses -----

  /** The time and class of the last call that witnessed the object with this hash code. */
  function LastWitness(log: seq<Entry>, hash: int): Option<(int, int)> {
    if log == [] then None
    else
      var c := log[|log| - 1].call;
      if c.OnWitness? && c.obj == hash then Some((c.time, c.classId)) else LastWitness(log[..|log| - 1], hash)
  }

  ghost predicate WitnessKnown(b: Buffer, log: seq<Entry>, hash: int) {
    var w := LastWitness(log, hash);
    if hash in b.ids then w == if b.ids[hash] in b.witnesses then Some(b.witnesses[b.ids[hash]]) else None
    else w == None
  }

  /** The witness map holds, under each object's id, its last witness, and nothing else. */
  ghost predicate WitnessesOk(b: Buffer, log: seq<Entry>) {
    && (forall v :: v in b.witnesses ==> HandedOut(b.ids, v))
    && forall h {:trigger WitnessKnown(b, log, h)} :: WitnessKnown(b, log, h)
  }

  lemma {:induction false} DoWritesKeepWitnesses(b: Buffer, cur: nat, ws: seq<Write>, k: nat)
    requires cur < |b.slots| && k <= |ws| && forall i :: 0 <= i < k ==> !ws[i].PutWitness?
    ensures DoWrites(b, cur, ws, k).witnesses == b.witnesses
  {
    if k > 0 {
      DoWritesKeepWitnesses(b, cur, ws, k - 1);
    }
  }

  /** A call changes the witness map only if it is a witness, and then only at that object's id. */
  lemma RunCallWitnesses(b: Buffer, e: Entry)
    requires WellFormed(b)
    ensures var b' := RunCall(b, e.call, e.self);
      if e.call.OnWitness? then
        e.call.obj in b'.ids && b'.witnesses == b.witnesses[b'.ids[e.call.obj] := (e.call.time, e.call.classId)]
      else b'.witnesses == b.witnesses
  {
    hide RenderSlot, FlushTo;
    var ws := Writes(e.call, e.self);
    FlushToKeepsIds(b, FlushSize(b));
    if e.call.OnWitness? {
      assert DoWrites(b, 0, ws, 0) == b;
      assert DoWrites(b, 0, ws, 1) == DoWrite(b, 0, ws[0]);
    } else if !e.call.Shutdown? {
      DoWritesKeepWitnesses(Claimed(b), Ready(b).ptr, ws, |ws|);
    }
  }

  /** An id under which there is a witness was given before. */
  lemma WitnessedIdIsOld(b: Buffer, b': Buffer, h: int)
    requires IdsGrow(b.ids, b'.ids) && IdsAreExact(b'.ids, b'.nextId) && h in b'.ids
    requires forall v :: v in b.witnesses ==> HandedOut(b.ids, v)
    ensures b'.ids[h] in b.witnesses ==> h in b.ids
  {
    if b'.ids[h] in b.witnesses {
      assert HandedOut(b.ids, b'.ids[h]);
      var k :| k in b.ids && b.ids[k] == b'.ids[h];
      assert Separate(b'.ids, h, k);
    }
  }

  lemma WitnessStep(b: Buffer, b': Buffer, log: seq<Entry>, e: Entry)
    requires WitnessesOk(b, log) && IdsGrow(b.ids, b'.ids) && IdsAreExact(b'.ids, b'.nextId)
    requires if e.call.OnWitness? then
        e.call.obj in b'.ids && b'.witnesses == b.witnesses[b'.ids[e.call.obj] := (e.call.time, e.call.classId)]
      else b'.witnesses == b.witnesses
    ensures WitnessesOk(b', log + [e])
  {
    forall h ensures WitnessKnown(b', log + [e], h) {
      assert (log + [e])[..|log|] == log;
      assert WitnessKnown(b, log, h);
      if e.call.OnWitness? {
        assert Separate(b'.ids, h, e.call.obj);
      }
      if h in b'.ids {
        WitnessedIdIsOld(b, b', h);
      }
    }
    forall v | v in b'.witnesses ensures HandedOut(b'.ids, v) {
      if v in b.witnesses {
        assert HandedOut(b.ids, v);
        var k :| k in b.ids && b.ids[k] == v;
        assert b'.ids[k] == v;
      } else {
        assert b'.ids[e.call.obj] == v;
      }
    }
  }

  lemma NoWitnesses(b: Buffer)
    requires Initial(b)
    ensures WitnessesOk(b, [])
  {
  }

  /** After any sequence of calls the witness map holds the last witness of each object, and nothing else. */
  lemma {:induction false} RunAllWitnesses(b: Buffer, log: seq<Entry>)
    requires Initial(b)
    ensures WitnessesOk(RunAll(b, log), log)
  {
    hide RunCall, WitnessesOk, IdsAreExact, IdsGrow, LogHashes, CallHashes;
    if log == [] {
      NoWitnesses(b);
    } else {
      var init, e := log[..|log| - 1], log[|log| - 1];
      var b1 := RunAll(b, init);
      RunAllWitnesses(b, init);
      RunAllNumbers(b, init);
      RunAllNumbers(b, log);
      RunCallWitnesses(b1, e);
      RunCallGrowsIds(b1, e);
      WitnessStep(b1, RunAll(b, log), init, e);
      assert init + [e] == log;
    }
  }
}
