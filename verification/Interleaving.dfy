/** Threads calling the hooks of QTRProxy, interleaved step by step: lock, flush, claim, id lookup, write, unlock. */
module Interleaving {
  import opened Records
  import opened TraceFormat
  import opened EventBuffer

  /** Where a thread is inside a hook; e is the call it makes, cur its slot and k the next of its writes. */
  datatype Pc =
    | Idle
    | Flagged(e: Entry)                                // its flag is set; it waits for the lock
    | Locked(e: Entry)                                 // about to test ptr
    | FlushWaiting(e: Entry)                           // about to take the lock for the flush
    | Flushing(e: Entry, i: nat, n: nat)               // slots 0 to i - 1 of n are printed
    | FlushDone(e: Entry)                              // ptr is reset; about to release the flush's hold
    | Claiming(e: Entry)                               // about to take a slot
    | Writing(e: Entry, cur: nat, k: nat)
    | Missed(e: Entry, cur: nat, k: nat)               // the object of write k has no id yet
    | Found(e: Entry, cur: nat, k: nat)                // it has one
    | Numbered(e: Entry, cur: nat, k: nat, id: int)    // a new id is taken but not entered
    | Loaded(e: Entry, cur: nat, k: nat, id: int)      // the id is at hand
    | Clearing(e: Entry)                               // the lock is released; the flag is still set
    | Stopped(e: Entry)                                // the shutdown hook is done; its flag stays set

  /** The reentrant lock mx: its owner and how often the owner has taken it. */
  datatype Hold = Hold(owner: nat, count: nat)

  /**
   * All threads: the shared buffer, the lock, the thread-local flags, the calls in the order they released the lock,
   * and for each thread the calls it has begun.
   */
  datatype Sys = Sys(buf: Buffer, lock: Option<Hold>, pcs: map<nat, Pc>, flags: set<nat>, log: seq<Entry>,
                     begun: map<nat, seq<Entry>>)

  datatype Action = Invoke(e: Entry) | Advance(thread: nat)

  function PcOf(s: Sys, t: nat): Pc {
    if t in s.pcs then s.pcs[t] else Idle
  }

  function BegunBy(s: Sys, t: nat): seq<Entry> {
    if t in s.begun then s.begun[t] else []
  }

  // ----- The lock -----

  predicate CanLock(lock: Option<Hold>, t: nat) {
    lock == None || lock.value.owner == t
  }

  function Acquired(lock: Option<Hold>, t: nat): Option<Hold> {
    Some(Hold(t, if lock == None then 1 else lock.value.count + 1))
  }

  function Released(lock: Option<Hold>): Option<Hold> {
    if lock == None || lock.value.count <= 1 then None else Some(Hold(lock.value.owner, lock.value.count - 1))
  }

  // ----- The steps of one thread -----

  function At(s: Sys, t: nat, pc: Pc): Sys {
    s.(pcs := s.pcs[t := pc])
  }

  function StoreAt(b: Buffer, cur: nat, w: Write, id: int): Buffer {
    if cur < |b.slots| then Store(b, cur, w, id) else b
  }

  function FlushAt(b: Buffer, i: nat): Buffer {
    if i < |b.slots| then FlushOne(b, i) else b
  }

  /** The call has left the critical section. */
  function Finished(s: Sys, t: nat, e: Entry, pc: Pc): Sys {
    At(s, t, pc).(lock := Released(s.lock), log := s.log + [e])
  }

  function StepWriting(s: Sys, t: nat, e: Entry, cur: nat, k: nat): Sys {
    var ws := Writes(e.call, e.self);
    if k >= |ws| then Finished(s, t, e, Clearing(e))
    else if !NeedsId(ws[k]) then At(s, t, Writing(e, cur, k + 1)).(buf := StoreAt(s.buf, cur, ws[k], 0))
    else if ws[k].hash in s.buf.ids then At(s, t, Found(e, cur, k))
    else At(s, t, Missed(e, cur, k))
  }

  /** The steps of getObjectId: two for an id that is known, two for a new one. */
  function StepLookup(s: Sys, t: nat, pc: Pc): Sys
    requires pc.Missed? || pc.Found? || pc.Numbered? || pc.Loaded?
  {
    var ws := Writes(pc.e.call, pc.e.self);
    if pc.k >= |ws| || !NeedsId(ws[pc.k]) then s
    else
      var hash := ws[pc.k].hash;
      match pc
      case Found(e, cur, k) =>
        At(s, t, Loaded(e, cur, k, if hash in s.buf.ids then s.buf.ids[hash] else 0))
      case Missed(e, cur, k) =>
        At(s, t, Numbered(e, cur, k, s.buf.nextId)).(buf := s.buf.(nextId := s.buf.nextId + 1))
      case Numbered(e, cur, k, id) =>
        At(s, t, Loaded(e, cur, k, id)).(buf := s.buf.(ids := s.buf.ids[hash := id]))
      case Loaded(e, cur, k, id) =>
        At(s, t, Writing(e, cur, k + 1)).(buf := StoreAt(s.buf, cur, ws[k], id))
  }

  function StepFlush(s: Sys, t: nat, pc: Pc): Sys
    requires pc.FlushWaiting? || pc.Flushing? || pc.FlushDone?
  {
    match pc
    case FlushWaiting(e) =>
      if CanLock(s.lock, t) then At(s, t, Flushing(e, 0, FlushSize(s.buf))).(lock := Acquired(s.lock, t)) else s
    case Flushing(e, i, n) =>
      if i < n then At(s, t, Flushing(e, i + 1, n)).(buf := FlushAt(s.buf, i))
      else At(s, t, FlushDone(e)).(buf := s.buf.(ptr := 0))
    case FlushDone(e) =>
      if e.call.Shutdown? then Finished(s, t, e, Stopped(e))
      else At(s, t, Claiming(e)).(lock := Released(s.lock))
  }

  /** One step of thread t; a thread that waits for the lock stays where it is. */
  function StepThread(s: Sys, t: nat): Sys {
    var pc := PcOf(s, t);
    match pc
    case Idle => s
    case Flagged(e) => if CanLock(s.lock, t) then At(s, t, Locked(e)).(lock := Acquired(s.lock, t)) else s
    case Locked(e) =>
      At(s, t, if e.call.OnWitness? then Writing(e, 0, 0)
               else if s.buf.ptr >= BUFMAX then FlushWaiting(e) else Claiming(e))
    case FlushWaiting(_) => StepFlush(s, t, pc)
    case Flushing(_, _, _) => StepFlush(s, t, pc)
    case FlushDone(_) => StepFlush(s, t, pc)
    case Claiming(e) => At(s, t, Writing(e, s.buf.ptr, 0)).(buf := s.buf.(ptr := s.buf.ptr + 1))
    case Writing(e, cur, k) => StepWriting(s, t, e, cur, k)
    case Missed(_, _, _) => StepLookup(s, t, pc)
    case Found(_, _, _) => StepLookup(s, t, pc)
    case Numbered(_, _, _, _) => StepLookup(s, t, pc)
    case Loaded(_, _, _, _) => StepLookup(s, t, pc)
    case Clearing(_) => At(s, t, Idle).(flags := s.flags - {t})
    case Stopped(_) => s
  }

  /** A hook called while the thread's flag is set returns at once; the shutdown hook goes straight to the flush. */
  function Begin(s: Sys, e: Entry): Sys {
    if e.thread in s.flags then s
    else
      At(s, e.thread, if e.call.Shutdown? then FlushWaiting(e) else Flagged(e)).(
        flags := s.flags + {e.thread}, begun := s.begun[e.thread := BegunBy(s, e.thread) + [e]])
  }

  function Act(s: Sys, a: Action): Sys {
    match a
    case Invoke(e) => Begin(s, e)
    case Advance(t) => StepThread(s, t)
  }

  /** The state after a schedule: any actions of any threads in any order. */
  function Play(s: Sys, schedule: seq<Action>): Sys {
    if schedule == [] then s else Act(Play(s, schedule[..|schedule| - 1]), schedule[|schedule| - 1])
  }

  function Start(b: Buffer): Sys {
    Sys(b, None, map[], {}, [], map[])
  }

  // ----- What every schedule keeps -----

  /** How often a thread at pc holds the lock. */
  function HoldCount(pc: Pc): nat {
    match pc
    case Idle => 0
    case Flagged(_) => 0
    case Clearing(_) => 0
    case Stopped(_) => 0
    case FlushWaiting(e) => if e.call.Shutdown? then 0 else 1
    case Flushing(e, _, _) => if e.call.Shutdown? then 1 else 2
    case FlushDone(e) => if e.call.Shutdown? then 1 else 2
    case _ => 1
  }

  /** The call that has begun and has not yet released the lock. */
  function Open(pc: Pc): seq<Entry> {
    if pc.Idle? || pc.Clearing? || pc.Stopped? then [] else [pc.e]
  }

  /** The calls of one thread in the log. */
  function CallsOf(log: seq<Entry>, t: nat): seq<Entry> {
    if log == [] then []
    else CallsOf(log[..|log| - 1], t) + if log[|log| - 1].thread == t then [log[|log| - 1]] else []
  }

  /** The flush of a hook call: the buffer was full. The flush of the shutdown hook: it may hold anything. */
  predicate MayFlush(b: Buffer, e: Entry) {
    e.call.Shutdown? || (TakesSlot(e.call) && b.ptr >= BUFMAX)
  }

  function Base(b: Buffer, e: Entry): (b': Buffer)
    requires |b.slots| == BUFMAX + 1
    ensures |b'.slots| == BUFMAX + 1
  {
    if e.call.OnWitness? then b else Claimed(b)
  }

  function CurOf(b: Buffer, e: Entry): (cur: nat)
    requires |b.slots| == BUFMAX + 1
    ensures cur <= BUFMAX
  {
    if e.call.OnWitness? then 0 else Ready(b).ptr
  }

  /** The buffer after k writes of e, begun with the buffer b. */
  function Written(b: Buffer, e: Entry, k: nat): (b': Buffer)
    requires |b.slots| == BUFMAX + 1 && k <= |Writes(e.call, e.self)|
    ensures |b'.slots| == BUFMAX + 1
  {
    DoWrites(Base(b, e), CurOf(b, e), Writes(e.call, e.self), k)
  }

  predicate AtWrite(b: Buffer, e: Entry, cur: nat, k: nat)
    requires |b.slots| == BUFMAX + 1
  {
    !e.call.Shutdown? && cur == CurOf(b, e) && k <= |Writes(e.call, e.self)|
  }

  /** The hash code that write k of e looks up, and whether the buffer knows it before that write. */
  predicate AtLookup(b: Buffer, e: Entry, cur: nat, k: nat, known: bool)
    requires |b.slots| == BUFMAX + 1
  {
    && AtWrite(b, e, cur, k) && k < |Writes(e.call, e.self)| && NeedsId(Writes(e.call, e.self)[k])
    && (Writes(e.call, e.self)[k].hash in Written(b, e, k).ids <==> known)
  }

  /** The shared buffer, seen from a holder at pc whose call began with the buffer b. */
  predicate Midway(b: Buffer, buf: Buffer, pc: Pc)
    requires |b.slots| == BUFMAX + 1
  {
    match pc
    case Locked(e) => !e.call.Shutdown? && buf == b
    case FlushWaiting(e) => MayFlush(b, e) && buf == b
    case Flushing(e, i, n) => MayFlush(b, e) && n == FlushSize(b) && i <= n && buf == FlushTo(b, i)
    case FlushDone(e) => MayFlush(b, e) && buf == Flushed(b)
    case Claiming(e) => TakesSlot(e.call) && buf == Ready(b)
    case Writing(e, cur, k) => AtWrite(b, e, cur, k) && buf == Written(b, e, k)
    case Found(e, cur, k) => AtLookup(b, e, cur, k, true) && buf == Written(b, e, k)
    case Missed(e, cur, k) => AtLookup(b, e, cur, k, false) && buf == Written(b, e, k)
    case Numbered(e, cur, k, id) =>
      && AtLookup(b, e, cur, k, false) && id == Written(b, e, k).nextId
      && buf == Written(b, e, k).(nextId := id + 1)
    case Loaded(e, cur, k, id) =>
      && AtWrite(b, e, cur, k) && k < |Writes(e.call, e.self)| && NeedsId(Writes(e.call, e.self)[k])
      && buf == GetId(Written(b, e, k), Writes(e.call, e.self)[k].hash)
      && id == buf.ids[Writes(e.call, e.self)[k].hash]
    case _ => false
  }

  predicate LockAgrees(s: Sys, t: nat) {
    HoldCount(PcOf(s, t)) == if s.lock.Some? && s.lock.value.owner == t then s.lock.value.count else 0
  }

  /** Exactly the owner of the lock is inside the critical section, as deep as the lock counts. */
  ghost predicate LockOk(s: Sys) {
    && (s.lock.Some? ==> s.lock.value.count >= 1)
    && forall t {:trigger LockAgrees(s, t)} :: LockAgrees(s, t)
  }

  /** The shared buffer is what the finished calls and the part of the holder's call give, one after the other. */
  predicate BufferOk(b: Buffer, s: Sys)
    requires |b.slots| == BUFMAX + 1
  {
    if s.lock == None then s.buf == RunAll(b, s.log)
    else Midway(RunAll(b, s.log), s.buf, PcOf(s, s.lock.value.owner))
  }

  predicate ThreadAgrees(s: Sys, t: nat) {
    && (t in s.flags <==> PcOf(s, t) != Idle)
    && (PcOf(s, t) != Idle ==> PcOf(s, t).e.thread == t)
    && (PcOf(s, t).Flagged? ==> !PcOf(s, t).e.call.Shutdown?)
    && BegunBy(s, t) == CallsOf(s.log, t) + Open(PcOf(s, t))
  }

  ghost predicate ThreadsOk(s: Sys) {
    forall t {:trigger ThreadAgrees(s, t)} :: ThreadAgrees(s, t)
  }

  ghost predicate Inv(b: Buffer, s: Sys)
    requires |b.slots| == BUFMAX + 1
  {
    LockOk(s) && BufferOk(b, s) && ThreadsOk(s)
  }

  lemma StartIsInv(b: Buffer)
    requires Initial(b)
    ensures Inv(b, Start(b))
  {
  }

  // ----- The holder's next step, on the buffer alone -----

  lemma FlushNext(b: Buffer, buf: Buffer, e: Entry, i: nat, n: nat)
    requires |b.slots| == BUFMAX + 1 && Midway(b, buf, Flushing(e, i, n))
    ensures i < n ==> Midway(b, FlushAt(buf, i), Flushing(e, i + 1, n))
    ensures i >= n ==> Midway(b, buf.(ptr := 0), FlushDone(e))
  {
    hide FlushOne;
  }

  lemma ClaimNext(b: Buffer, buf: Buffer, e: Entry)
    requires |b.slots| == BUFMAX + 1 && Midway(b, buf, Claiming(e))
    ensures Midway(b, buf.(ptr := buf.ptr + 1), Writing(e, buf.ptr, 0))
  {
  }

  lemma LockedNext(b: Buffer, e: Entry)
    requires |b.slots| == BUFMAX + 1 && !e.call.Shutdown?
    ensures e.call.OnWitness? ==> Midway(b, b, Writing(e, 0, 0))
    ensures !e.call.OnWitness? ==> Midway(b, b, if b.ptr >= BUFMAX then FlushWaiting(e) else Claiming(e))
  {
  }

  /** The k-th write, once its value is known. */
  lemma StoreNext(b: Buffer, e: Entry, cur: nat, k: nat)
    requires |b.slots| == BUFMAX + 1 && AtWrite(b, e, cur, k) && k < |Writes(e.call, e.self)|
    ensures var w, b1 := Writes(e.call, e.self)[k], Written(b, e, k);
      && (!NeedsId(w) ==> Midway(b, StoreAt(b1, cur, w, 0), Writing(e, cur, k + 1)))
      && (NeedsId(w) ==> var b2 := GetId(b1, w.hash);
            Midway(b, StoreAt(b2, cur, w, b2.ids[w.hash]), Writing(e, cur, k + 1)))
  {
    hide Writes, Store, Base, CurOf;
    var ws := Writes(e.call, e.self);
    assert Written(b, e, k + 1) == DoWrite(Written(b, e, k), cur, ws[k]);
  }

  lemma LookupNext(b: Buffer, buf: Buffer, e: Entry, cur: nat, k: nat, id: int)
    requires |b.slots| == BUFMAX + 1 && k < |Writes(e.call, e.self)| && NeedsId(Writes(e.call, e.self)[k])
    ensures var hash := Writes(e.call, e.self)[k].hash;
      && (Midway(b, buf, Found(e, cur, k)) ==> hash in buf.ids && Midway(b, buf, Loaded(e, cur, k, buf.ids[hash])))
      && (Midway(b, buf, Missed(e, cur, k)) ==>
            Midway(b, buf.(nextId := buf.nextId + 1), Numbered(e, cur, k, buf.nextId)))
      && (Midway(b, buf, Numbered(e, cur, k, id)) ==> Midway(b, buf.(ids := buf.ids[hash := id]), Loaded(e, cur, k, id)))
  {
    hide Writes, Written;
  }

  /** A call that has done all its steps has done what RunCall does. */
  lemma LastStep(b: Buffer, buf: Buffer, e: Entry, cur: nat, k: nat)
    requires |b.slots| == BUFMAX + 1
    ensures Midway(b, buf, Writing(e, cur, k)) && k >= |Writes(e.call, e.self)| ==> buf == RunCall(b, e.call, e.self)
    ensures Midway(b, buf, FlushDone(e)) && e.call.Shutdown? ==> buf == RunCall(b, e.call, e.self)
    ensures Midway(b, buf, FlushDone(e)) && !e.call.Shutdown? ==> Midway(b, buf, Claiming(e))
  {
  }

  // ----- One step of the system -----

  /** The owner of the lock moves on inside the critical section. */
  lemma InnerStep(b: Buffer, s: Sys, s': Sys, t: nat, pc: Pc)
    requires |b.slots| == BUFMAX + 1 && Inv(b, s) && s.lock.Some? && s.lock.value.owner == t
    requires s' == At(s, t, pc).(buf := s'.buf, lock := Some(Hold(t, HoldCount(pc)))) && HoldCount(pc) > 0
    requires pc.e == PcOf(s, t).e && Midway(RunAll(b, s.log), s'.buf, pc)
    ensures Inv(b, s')
  {
    hide Midway, RunAll;
    forall x: nat ensures LockAgrees(s', x) && ThreadAgrees(s', x) {
      InnerAgrees(s, s', t, pc, x);
    }
  }

  lemma InnerAgrees(s: Sys, s': Sys, t: nat, pc: Pc, x: nat)
    requires LockOk(s) && ThreadsOk(s) && s.lock.Some? && s.lock.value.owner == t && LockAgrees(s, t)
    requires s' == At(s, t, pc).(buf := s'.buf, lock := Some(Hold(t, HoldCount(pc)))) && HoldCount(pc) > 0
    requires PcOf(s, t).Idle? || pc.e == PcOf(s, t).e
    ensures LockAgrees(s', x) && ThreadAgrees(s', x)
  {
    hide CallsOf;
    assert ThreadAgrees(s, t) && LockAgrees(s, x) && ThreadAgrees(s, x);
  }

  /** The owner leaves the critical section: its call enters the log. */
  lemma FinishStep(b: Buffer, s: Sys, t: nat, pc: Pc)
    requires |b.slots| == BUFMAX + 1 && Inv(b, s) && s.lock == Some(Hold(t, 1))
    requires (pc.Clearing? || pc.Stopped?) && pc.e == PcOf(s, t).e
    requires s.buf == RunCall(RunAll(b, s.log), pc.e.call, pc.e.self)
    ensures Inv(b, Finished(s, t, pc.e, pc))
  {
    hide Midway, RunCall, RunAll;
    var s' := Finished(s, t, pc.e, pc);
    RunAllNext(b, s.log, pc.e);
    assert LockAgrees(s, t);
    forall x: nat ensures LockAgrees(s', x) && ThreadAgrees(s', x) {
      FinishAgrees(s, t, pc, x);
    }
  }

  lemma RunAllNext(b: Buffer, log: seq<Entry>, e: Entry)
    requires |b.slots| == BUFMAX + 1
    ensures RunAll(b, log + [e]) == RunCall(RunAll(b, log), e.call, e.self)
  {
  }

  lemma CallsOfNext(log: seq<Entry>, e: Entry, x: nat)
    ensures CallsOf(log + [e], x) == CallsOf(log, x) + if e.thread == x then [e] else []
  {
  }

  lemma FinishAgrees(s: Sys, t: nat, pc: Pc, x: nat)
    requires LockOk(s) && ThreadsOk(s) && s.lock == Some(Hold(t, 1)) && LockAgrees(s, t)
    requires (pc.Clearing? || pc.Stopped?) && pc.e == PcOf(s, t).e
    ensures LockAgrees(Finished(s, t, pc.e, pc), x) && ThreadAgrees(Finished(s, t, pc.e, pc), x)
  {
    hide CallsOf;
    assert ThreadAgrees(s, t) && LockAgrees(s, x) && ThreadAgrees(s, x);
    CallsOfNext(s.log, pc.e, x);
  }

  /** A thread takes the free lock. */
  lemma AcquireStep(b: Buffer, s: Sys, t: nat, pc: Pc)
    requires |b.slots| == BUFMAX + 1 && Inv(b, s) && s.lock == None && HoldCount(pc) == 1
    requires !PcOf(s, t).Idle? && !PcOf(s, t).Clearing? && !PcOf(s, t).Stopped? && pc.e == PcOf(s, t).e
    requires Midway(s.buf, s.buf, pc)
    ensures Inv(b, At(s, t, pc).(lock := Acquired(s.lock, t)))
  {
    hide Midway, RunAll;
    var s' := At(s, t, pc).(lock := Acquired(s.lock, t));
    assert s.buf == RunAll(b, s.log);
    assert ThreadAgrees(s, t);
    forall x: nat ensures LockAgrees(s', x) && ThreadAgrees(s', x) {
      assert LockAgrees(s, x) && ThreadAgrees(s, x);
    }
  }

  /** A thread moves outside the critical section. */
  lemma OuterStep(b: Buffer, s: Sys, s': Sys, t: nat, pc: Pc)
    requires |b.slots| == BUFMAX + 1 && Inv(b, s) && HoldCount(PcOf(s, t)) == 0 && HoldCount(pc) == 0
    requires s' == At(s, t, pc).(flags := s'.flags, begun := s'.begun)
    requires forall x :: x != t ==> (x in s'.flags <==> x in s.flags) && BegunBy(s', x) == BegunBy(s, x)
    requires ThreadAgrees(s', t)
    ensures Inv(b, s')
  {
    hide Midway, RunAll;
    assert LockAgrees(s, t);
    forall x: nat ensures LockAgrees(s', x) && ThreadAgrees(s', x) {
      assert LockAgrees(s, x) && ThreadAgrees(s, x);
    }
  }

  lemma BeginKeepsInv(b: Buffer, s: Sys, e: Entry)
    requires |b.slots| == BUFMAX + 1 && Inv(b, s)
    ensures Inv(b, Begin(s, e))
  {
    hide Midway, RunAll;
    if e.thread !in s.flags {
      assert ThreadAgrees(s, e.thread);
      var pc := if e.call.Shutdown? then FlushWaiting(e) else Flagged(e);
      OuterStep(b, s, Begin(s, e), e.thread, pc);
    }
  }

  /** A thread inside the critical section owns the lock. */
  lemma HolderOwns(b: Buffer, s: Sys, t: nat)
    requires |b.slots| == BUFMAX + 1 && Inv(b, s) && HoldCount(PcOf(s, t)) > 0
    ensures s.lock == Some(Hold(t, HoldCount(PcOf(s, t)))) && Midway(RunAll(b, s.log), s.buf, PcOf(s, t))
  {
    hide Midway, RunAll;
    assert LockAgrees(s, t);
  }

  lemma FlushKeepsInv(b: Buffer, s: Sys, t: nat)
    requires |b.slots| == BUFMAX + 1 && Inv(b, s)
    requires PcOf(s, t).FlushWaiting? || PcOf(s, t).Flushing? || PcOf(s, t).FlushDone?
    ensures Inv(b, StepThread(s, t))
  {
    hide RunAll, FlushTo, FlushAt, RunCall, Flushed;
    var pc, b1 := PcOf(s, t), RunAll(b, s.log);
    match pc
    case FlushWaiting(e) =>
      if HoldCount(pc) > 0 {
        HolderOwns(b, s, t);
        FlushStart(b1, e);
        InnerStep(b, s, StepThread(s, t), t, Flushing(e, 0, FlushSize(s.buf)));
      } else if s.lock == None {
        FlushStart(s.buf, e);
        AcquireStep(b, s, t, Flushing(e, 0, FlushSize(s.buf)));
      } else {
        assert LockAgrees(s, t);
      }
    case Flushing(e, i, n) =>
      HolderOwns(b, s, t);
      FlushNext(b1, s.buf, e, i, n);
      InnerStep(b, s, StepThread(s, t), t, if i < n then Flushing(e, i + 1, n) else FlushDone(e));
    case FlushDone(e) =>
      HolderOwns(b, s, t);
      LastStep(b1, s.buf, e, 0, 0);
      if e.call.Shutdown? {
        FinishStep(b, s, t, Stopped(e));
      } else {
        InnerStep(b, s, StepThread(s, t), t, Claiming(e));
      }
  }

  lemma FlushStart(b: Buffer, e: Entry)
    requires |b.slots| == BUFMAX + 1 && MayFlush(b, e)
    ensures Midway(b, b, Flushing(e, 0, FlushSize(b)))
  {
  }

  lemma WriteKeepsInv(b: Buffer, s: Sys, t: nat)
    requires |b.slots| == BUFMAX + 1 && Inv(b, s) && PcOf(s, t).Writing?
    ensures Inv(b, StepThread(s, t))
  {
    hide RunAll, RunCall, StoreAt, Writes, Written, CurOf, ThreadsOk;
    var pc, b1 := PcOf(s, t), RunAll(b, s.log);
    var ws := Writes(pc.e.call, pc.e.self);
    HolderOwns(b, s, t);
    if pc.k >= |ws| {
      LastStep(b1, s.buf, pc.e, pc.cur, pc.k);
      FinishStep(b, s, t, Clearing(pc.e));
    } else {
      StoreNext(b1, pc.e, pc.cur, pc.k);
      InnerStep(b, s, StepThread(s, t), t, PcOf(StepThread(s, t), t));
    }
  }

  lemma LookupKeepsInv(b: Buffer, s: Sys, t: nat)
    requires |b.slots| == BUFMAX + 1 && Inv(b, s)
    requires PcOf(s, t).Missed? || PcOf(s, t).Found? || PcOf(s, t).Numbered? || PcOf(s, t).Loaded?
    ensures Inv(b, StepThread(s, t))
  {
    hide RunAll, RunCall, StoreAt, Writes, Written, CurOf, ThreadsOk;
    var pc, b1 := PcOf(s, t), RunAll(b, s.log);
    HolderOwns(b, s, t);
    if pc.Loaded? {
      StoreNext(b1, pc.e, pc.cur, pc.k);
    } else {
      LookupNext(b1, s.buf, pc.e, pc.cur, pc.k, if pc.Numbered? then pc.id else 0);
    }
    InnerStep(b, s, StepThread(s, t), t, PcOf(StepThread(s, t), t));
  }

  lemma StepKeepsInv(b: Buffer, s: Sys, t: nat)
    requires |b.slots| == BUFMAX + 1 && Inv(b, s)
    ensures Inv(b, StepThread(s, t))
  {
    hide RunAll, RunCall, StoreAt, Writes;
    var pc, b1 := PcOf(s, t), RunAll(b, s.log);
    assert ThreadAgrees(s, t);
    match pc
    case Idle =>
    case Stopped(_) =>
    case Flagged(e) =>
      assert LockAgrees(s, t);
      if s.lock == None {
        AcquireStep(b, s, t, Locked(e));
      }
    case Locked(e) =>
      HolderOwns(b, s, t);
      LockedNext(b1, e);
      InnerStep(b, s, StepThread(s, t), t, PcOf(StepThread(s, t), t));
    case Claiming(e) =>
      HolderOwns(b, s, t);
      ClaimNext(b1, s.buf, e);
      InnerStep(b, s, StepThread(s, t), t, Writing(e, s.buf.ptr, 0));
    case Clearing(e) =>
      OuterStep(b, s, StepThread(s, t), t, Idle);
    case Writing(_, _, _) => WriteKeepsInv(b, s, t);
    case FlushWaiting(_) => FlushKeepsInv(b, s, t);
    case Flushing(_, _, _) => FlushKeepsInv(b, s, t);
    case FlushDone(_) => FlushKeepsInv(b, s, t);
    case Missed(_, _, _) => LookupKeepsInv(b, s, t);
    case Found(_, _, _) => LookupKeepsInv(b, s, t);
    case Numbered(_, _, _, _) => LookupKeepsInv(b, s, t);
    case Loaded(_, _, _, _) => LookupKeepsInv(b, s, t);
  }

  /** Every state of every schedule meets the invariant. */
  lemma {:induction false} PlayKeepsInv(b: Buffer, schedule: seq<Action>)
    requires Initial(b)
    ensures Inv(b, Play(Start(b), schedule))
  {
    hide Inv;
    if schedule == [] {
      StartIsInv(b);
    } else {
      var s, a := Play(Start(b), schedule[..|schedule| - 1]), schedule[|schedule| - 1];
      PlayKeepsInv(b, schedule[..|schedule| - 1]);
      if a.Invoke? {
        BeginKeepsInv(b, s, a.e);
      } else {
        StepKeepsInv(b, s, a.thread);
      }
    }
  }

  // ----- What this says about every interleaving -----

  /** At most one thread is between lock and unlock. */
  lemma MutualExclusion(b: Buffer, schedule: seq<Action>, t: nat, u: nat)
    requires Initial(b)
    ensures var s := Play(Start(b), schedule);
      HoldCount(PcOf(s, t)) > 0 && HoldCount(PcOf(s, u)) > 0 ==> t == u
  {
    hide Midway, RunAll;
    PlayKeepsInv(b, schedule);
    var s := Play(Start(b), schedule);
    assert LockAgrees(s, t) && LockAgrees(s, u);
  }

  /**
   * Whenever the lock is free, the shared state is that of running the finished calls one after the other in lock
   * order: the text written and the text in the buffer are the lines of their events, the buffer never overflows, and
   * the ids are exactly 1, 2, ... for the objects and threads they name.
   */
  lemma InterleavingIsSequential(b: Buffer, schedule: seq<Action>)
    requires Initial(b) && Play(Start(b), schedule).lock == None
    ensures var s := Play(Start(b), schedule);
      && s.buf == RunAll(b, s.log) && WellFormed(s.buf)
      && Output(s.buf) == PrintAll(Events(s.log, s.buf.ids))
      && s.buf.ids.Keys == LogHashes(s.log) && IdsAreExact(s.buf.ids, s.buf.nextId)
  {
    hide Midway, Output, PrintAll, Events;
    PlayKeepsInv(b, schedule);
    RunAllPrintsEvents(b, Play(Start(b), schedule).log);
    RunAllNumbers(b, Play(Start(b), schedule).log);
  }

  /** The number the ids given so far stay below: a thread that has taken a number has not yet entered it. */
  function IdsEnd(s: Sys): int {
    if s.lock.Some? && PcOf(s, s.lock.value.owner).Numbered? then s.buf.nextId - 1 else s.buf.nextId
  }

  lemma WrittenIdsAreExact(b: Buffer, e: Entry, k: nat)
    requires |b.slots| == BUFMAX + 1 && b.ptr <= BUFMAX && IdsAreExact(b.ids, b.nextId) && k <= |Writes(e.call, e.self)|
    ensures IdsAreExact(Written(b, e, k).ids, Written(b, e, k).nextId)
  {
    hide IdsAreExact, Writes, Output;
    ReadyKeepsOutput(b);
    DoWritesKeepExact(Base(b, e), CurOf(b, e), Writes(e.call, e.self), k);
  }

  lemma MidwayIdsAreExact(b: Buffer, buf: Buffer, pc: Pc)
    requires |b.slots| == BUFMAX + 1 && b.ptr <= BUFMAX && IdsAreExact(b.ids, b.nextId) && Midway(b, buf, pc)
    ensures IdsAreExact(buf.ids, if pc.Numbered? then buf.nextId - 1 else buf.nextId)
  {
    hide IdsAreExact, Writes, Written, Output, FlushTo;
    FlushToKeepsIds(b, FlushSize(b));
    match pc
    case Flushing(e, i, n) => FlushToKeepsIds(b, i);
    case Claiming(e) => ReadyKeepsOutput(b);
    case Writing(e, cur, k) => WrittenIdsAreExact(b, e, k);
    case Found(e, cur, k) => WrittenIdsAreExact(b, e, k);
    case Missed(e, cur, k) => WrittenIdsAreExact(b, e, k);
    case Numbered(e, cur, k, id) => WrittenIdsAreExact(b, e, k);
    case Loaded(e, cur, k, id) =>
      WrittenIdsAreExact(b, e, k);
      GetIdKeepsExact(Written(b, e, k), Writes(e.call, e.self)[k].hash);
    case Locked(_) =>
    case FlushWaiting(_) =>
    case FlushDone(_) =>
  }

  lemma InvIdsAreExact(b: Buffer, s: Sys)
    requires |b.slots| == BUFMAX + 1 && BufferOk(b, s)
    requires RunAll(b, s.log).ptr <= BUFMAX && IdsAreExact(RunAll(b, s.log).ids, RunAll(b, s.log).nextId)
    ensures IdsAreExact(s.buf.ids, IdsEnd(s))
  {
    hide IdsAreExact, Midway, RunAll;
    if s.lock.Some? {
      MidwayIdsAreExact(RunAll(b, s.log), s.buf, PcOf(s, s.lock.value.owner));
    }
  }

  /** In every state, lock held or not, no two objects share an id, and the ids are 1, 2, ... without a gap. */
  lemma IdsAreExactInEveryState(b: Buffer, schedule: seq<Action>)
    requires Initial(b)
    ensures var s := Play(Start(b), schedule); IdsAreExact(s.buf.ids, IdsEnd(s))
  {
    hide IdsAreExact, BufferOk, LockOk, ThreadsOk, RunAll, LogHashes, Play;
    var s := Play(Start(b), schedule);
    PlayKeepsInv(b, schedule);
    RunAllNumbers(b, s.log);
    InvIdsAreExact(b, s);
  }

  /** One step changes no id: the one that enters an id does so only where there was none. */
  lemma StepKeepsIds(b: Buffer, s: Sys, t: nat)
    requires |b.slots| == BUFMAX + 1 && Inv(b, s)
    ensures IdsGrow(s.buf.ids, StepThread(s, t).buf.ids)
  {
    hide RunAll, Writes, Written, ThreadsOk, RenderSlot;
    var pc := PcOf(s, t);
    if pc.Numbered? {
      HolderOwns(b, s, t);
      assert Writes(pc.e.call, pc.e.self)[pc.k].hash !in s.buf.ids;
    }
  }

  /**
   * In every interleaving an id, once given, stays: no later step of any thread changes it or takes it away, at any
   * moment, lock held or not.
   */
  lemma {:induction false} IdsStayInEveryInterleaving(b: Buffer, schedule: seq<Action>, more: seq<Action>)
    requires Initial(b)
    ensures IdsGrow(Play(Start(b), schedule).buf.ids, Play(Start(b), schedule + more).buf.ids)
    decreases |more|
  {
    hide Inv, StepThread, Begin;
    if more == [] {
      assert schedule + more == schedule;
    } else {
      var a, init := more[|more| - 1], schedule + more[..|more| - 1];
      var s := Play(Start(b), init);
      assert (schedule + more)[..|schedule + more| - 1] == init;
      IdsStayInEveryInterleaving(b, schedule, more[..|more| - 1]);
      PlayKeepsInv(b, init);
      if a.Advance? {
        StepKeepsIds(b, s, a.thread);
      } else {
        BeginKeepsBuffer(s, a.e);
      }
    }
  }

  lemma BeginKeepsBuffer(s: Sys, e: Entry)
    ensures Begin(s, e).buf == s.buf
  {
  }

  /** Each thread's calls are in the log in the order it made them; only its last one can still be missing. */
  lemma CallsStayInProgramOrder(b: Buffer, schedule: seq<Action>, t: nat)
    requires Initial(b)
    ensures var s := Play(Start(b), schedule);
      && CallsOf(s.log, t) <= BegunBy(s, t) && |BegunBy(s, t)| <= |CallsOf(s.log, t)| + 1
      && (PcOf(s, t) == Idle ==> CallsOf(s.log, t) == BegunBy(s, t))
  {
    hide Midway, RunAll;
    PlayKeepsInv(b, schedule);
    assert ThreadAgrees(Play(Start(b), schedule), t);
  }

  /** A bound on the steps the owner of the lock still needs to leave the critical section. */
  function Remaining(pc: Pc): int {
    if pc.Idle? then 0
    else
      var n := |Writes(pc.e.call, pc.e.self)|;
      match pc
      case Locked(_) => 4 * n + BUFMAX + 6
      case FlushWaiting(_) => 4 * n + BUFMAX + 5
      case Flushing(_, i, size) => 4 * n + size - i + 4
      case FlushDone(_) => 4 * n + 3
      case Claiming(_) => 4 * n + 2
      case Writing(_, _, k) => 4 * (n - k) + 1
      case Missed(_, _, k) => 4 * (n - k)
      case Found(_, _, k) => 4 * (n - k)
      case Numbered(_, _, k, _) => 4 * (n - k) - 1
      case Loaded(_, _, k, _) => 4 * (n - k) - 2
      case _ => 0
  }

  ghost predicate Closer(s: Sys, t: nat) {
    && Remaining(PcOf(s, t)) > 0
    && (HoldCount(PcOf(StepThread(s, t), t)) == 0 || Remaining(PcOf(StepThread(s, t), t)) < Remaining(PcOf(s, t)))
  }

  lemma LookupIsCloser(b: Buffer, s: Sys, t: nat)
    requires |b.slots| == BUFMAX + 1 && Midway(b, s.buf, PcOf(s, t))
    requires PcOf(s, t).Missed? || PcOf(s, t).Found? || PcOf(s, t).Numbered? || PcOf(s, t).Loaded?
    ensures Closer(s, t)
  {
    hide StoreAt, Writes, Written, CurOf, GetId;
  }

  lemma StepIsCloser(b: Buffer, s: Sys, t: nat)
    requires |b.slots| == BUFMAX + 1 && HoldCount(PcOf(s, t)) > 0
    requires s.lock == Some(Hold(t, HoldCount(PcOf(s, t)))) && Midway(b, s.buf, PcOf(s, t))
    ensures Closer(s, t)
  {
    hide StoreAt, FlushAt, Writes, Written, FlushTo, Flushed, Ready, CurOf, MayFlush;
    var pc, pc' := PcOf(s, t), PcOf(StepThread(s, t), t);
    if pc.Missed? || pc.Found? || pc.Numbered? || pc.Loaded? {
      LookupIsCloser(b, s, t);
    } else {
      assert pc'.e == pc.e;
    }
  }

  /** No hook keeps the lock for ever: each step of the owner leaves the critical section or brings it closer. */
  lemma OwnerLeaves(b: Buffer, schedule: seq<Action>, t: nat)
    requires Initial(b) && HoldCount(PcOf(Play(Start(b), schedule), t)) > 0
    ensures Closer(Play(Start(b), schedule), t)
  {
    hide RunAll, Closer, Midway;
    var s := Play(Start(b), schedule);
    PlayKeepsInv(b, schedule);
    HolderOwns(b, s, t);
    StepIsCloser(RunAll(b, s.log), s, t);
  }

  // ----- No call is dropped, none is stuck -----

  lemma PlayNext(s: Sys, schedule: seq<Action>, a: Action)
    ensures Play(s, schedule + [a]) == Act(Play(s, schedule), a)
  {
    assert (schedule + [a])[..|schedule|] == schedule;
  }

  /** The thread has begun its hook and is outside the lock. */
  predicate Waits(pc: Pc) {
    pc.Flagged? || (pc.FlushWaiting? && pc.e.call.Shutdown?)
  }

  /** What a hook call that starts with s leaves for thread t: a thread inside no hook begins it, others do not move. */
  predicate Entered(s: Sys, s': Sys, e: Entry, t: nat) {
    if t == e.thread && PcOf(s, t).Idle? then
      Waits(PcOf(s', t)) && PcOf(s', t).e == e && BegunBy(s', t) == BegunBy(s, t) + [e]
    else
      PcOf(s', t) == PcOf(s, t) && BegunBy(s', t) == BegunBy(s, t)
  }

  /**
   * A hook call begins whatever the other threads do, with the lock held or not; it is dropped exactly when its own
   * thread is inside a hook.
   */
  lemma HookIsEntered(b: Buffer, schedule: seq<Action>, e: Entry, t: nat)
    requires Initial(b)
    ensures var s, s' := Play(Start(b), schedule), Play(Start(b), schedule + [Invoke(e)]);
      Entered(s, s', e, t) && s'.buf == s.buf && s'.lock == s.lock && s'.log == s.log
  {
    hide BufferOk, LockOk, CallsOf, Play;
    PlayKeepsInv(b, schedule);
    PlayNext(Start(b), schedule, Invoke(e));
    assert ThreadAgrees(Play(Start(b), schedule), e.thread);
  }

  /** Only thread t has moved, and no call has begun. */
  ghost predicate OnlyMoved(s: Sys, s': Sys, t: nat) {
    s'.begun == s.begun && forall x {:trigger PcOf(s', x)} :: x != t ==> PcOf(s', x) == PcOf(s, x)
  }

  lemma StepMovesOnly(s: Sys, t: nat)
    ensures OnlyMoved(s, StepThread(s, t), t)
  {
    hide Writes, StoreAt, FlushAt, FlushSize;
  }

  lemma WaiterTakesLock(s: Sys, t: nat)
    requires s.lock == None && Waits(PcOf(s, t))
    ensures var s' := StepThread(s, t);
      s'.lock == Some(Hold(t, 1)) && HoldCount(PcOf(s', t)) == 1 && PcOf(s', t).e == PcOf(s, t).e
  {
  }

  /** A thread that waits for the lock takes it whenever it is free. */
  lemma WaitingThreadEnters(b: Buffer, schedule: seq<Action>, t: nat)
    requires Initial(b)
    ensures var s, s' := Play(Start(b), schedule), Play(Start(b), schedule + [Advance(t)]);
      s.lock == None && Waits(PcOf(s, t)) ==>
        s'.lock == Some(Hold(t, 1)) && HoldCount(PcOf(s', t)) == 1 && PcOf(s', t).e == PcOf(s, t).e
  {
    hide Play, StepThread;
    PlayNext(Start(b), schedule, Advance(t));
    var s := Play(Start(b), schedule);
    if s.lock == None && Waits(PcOf(s, t)) {
      WaiterTakesLock(s, t);
    }
  }

  /** A step that leaves the critical section frees the lock and ends the call. */
  lemma LeavingFreesLock(b: Buffer, s: Sys, t: nat)
    requires |b.slots| == BUFMAX + 1 && Inv(b, s) && Inv(b, StepThread(s, t))
    requires HoldCount(PcOf(s, t)) > 0 && HoldCount(PcOf(StepThread(s, t), t)) == 0
    ensures var s' := StepThread(s, t); s'.lock == None && (PcOf(s', t).Clearing? || PcOf(s', t).Stopped?)
  {
    hide Midway, RunAll, Writes, StoreAt, FlushAt, FlushSize, CallsOf;
    HolderOwns(b, s, t);
    assert LockAgrees(StepThread(s, t), t);
  }

  predicate AllAdvance(actions: seq<Action>) {
    forall a :: a in actions ==> a.Advance?
  }

  /** The owner of the lock can always go on alone until it has left the critical section. */
  lemma {:induction false} OwnerFinishes(b: Buffer, schedule: seq<Action>, t: nat) returns (more: seq<Action>)
    requires Initial(b) && HoldCount(PcOf(Play(Start(b), schedule), t)) > 0
    ensures AllAdvance(more) && OnlyMoved(Play(Start(b), schedule), Play(Start(b), schedule + more), t)
    ensures var s' := Play(Start(b), schedule + more);
      s'.lock == None && (PcOf(s', t).Clearing? || PcOf(s', t).Stopped?)
    decreases Remaining(PcOf(Play(Start(b), schedule), t))
  {
    hide Play, StepThread, Inv, HoldCount, Remaining;
    var s, next := Play(Start(b), schedule), schedule + [Advance(t)];
    PlayNext(Start(b), schedule, Advance(t));
    PlayKeepsInv(b, schedule);
    PlayKeepsInv(b, next);
    OwnerLeaves(b, schedule, t);
    StepMovesOnly(s, t);
    if HoldCount(PcOf(StepThread(s, t), t)) == 0 {
      LeavingFreesLock(b, s, t);
      more := [Advance(t)];
    } else {
      var rest := OwnerFinishes(b, next, t);
      more := [Advance(t)] + rest;
      assert schedule + more == next + rest;
    }
  }

  /** The lock is free after some steps of its owner, and no other thread has moved. */
  lemma LockCanBeFreed(b: Buffer, schedule: seq<Action>, t: nat) returns (more: seq<Action>)
    requires Initial(b) && HoldCount(PcOf(Play(Start(b), schedule), t)) == 0
    ensures AllAdvance(more)
    ensures var s, s' := Play(Start(b), schedule), Play(Start(b), schedule + more);
      s'.lock == None && s'.begun == s.begun && PcOf(s', t) == PcOf(s, t)
  {
    hide Play, BufferOk, ThreadsOk, HoldCount;
    var s := Play(Start(b), schedule);
    PlayKeepsInv(b, schedule);
    if s.lock == None {
      more := [];
      assert schedule + more == schedule;
    } else {
      var u := s.lock.value.owner;
      assert LockAgrees(s, u) && LockAgrees(s, t);
      more := OwnerFinishes(b, schedule, u);
    }
  }

  /** A waiting thread gets through its hook. */
  lemma WaiterFinishes(b: Buffer, schedule: seq<Action>, t: nat) returns (more: seq<Action>)
    requires Initial(b) && Waits(PcOf(Play(Start(b), schedule), t))
    ensures AllAdvance(more)
    ensures var s, s' := Play(Start(b), schedule), Play(Start(b), schedule + more);
      s'.begun == s.begun && (PcOf(s', t).Clearing? || PcOf(s', t).Stopped?)
  {
    hide Play;
    var free := LockCanBeFreed(b, schedule, t);
    var s1 := Play(Start(b), schedule + free);
    PlayNext(Start(b), schedule + free, Advance(t));
    WaiterTakesLock(s1, t);
    StepMovesOnly(s1, t);
    var rest := OwnerFinishes(b, schedule + free + [Advance(t)], t);
    more := free + [Advance(t)] + rest;
    assert schedule + more == schedule + free + [Advance(t)] + rest;
  }

  /** A thread in a hook leaves its critical section, wherever it is. */
  lemma ThreadLeaves(b: Buffer, schedule: seq<Action>, t: nat) returns (more: seq<Action>)
    requires Initial(b)
    ensures AllAdvance(more)
    ensures var s, s' := Play(Start(b), schedule), Play(Start(b), schedule + more);
      s'.begun == s.begun && (PcOf(s', t).Idle? || PcOf(s', t).Clearing? || PcOf(s', t).Stopped?)
  {
    hide Play;
    var pc := PcOf(Play(Start(b), schedule), t);
    if pc.Idle? || pc.Clearing? || pc.Stopped? {
      more := [];
      assert schedule + more == schedule;
    } else if Waits(pc) {
      more := WaiterFinishes(b, schedule, t);
    } else {
      more := OwnerFinishes(b, schedule, t);
    }
  }

  /**
   * There is no deadlock: from every state of every schedule, steps of the threads alone bring t to the end of its
   * hook, and all calls it has begun are then in the log.
   */
  lemma EveryCallFinishes(b: Buffer, schedule: seq<Action>, t: nat) returns (more: seq<Action>)
    requires Initial(b)
    ensures AllAdvance(more)
    ensures var s, s' := Play(Start(b), schedule), Play(Start(b), schedule + more);
      && (PcOf(s', t).Idle? || PcOf(s', t).Stopped?)
      && CallsOf(s'.log, t) == BegunBy(s', t) == BegunBy(s, t)
  {
    hide Play, BufferOk, LockOk, CallsOf;
    more := ThreadLeaves(b, schedule, t);
    var s1 := Play(Start(b), schedule + more);
    if PcOf(s1, t).Clearing? {
      PlayNext(Start(b), schedule + more, Advance(t));
      assert schedule + (more + [Advance(t)]) == schedule + more + [Advance(t)];
      more := more + [Advance(t)];
    }
    PlayKeepsInv(b, schedule + more);
    assert ThreadAgrees(Play(Start(b), schedule + more), t);
  }
}
