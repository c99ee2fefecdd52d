/** From the hooks of a multi-threaded program to the simulator's records. */
module EndToEnd {
  import opened Records
  import opened Text
  import opened Tokenizer
  import opened TraceReader
  import opened TraceFormat
  import opened Heap
  import opened Reachability
  import opened DeathInsertion
  import EB = EventBuffer
  import Interleaving
  import Pipeline

  /** The record holds the fields of the event as unsigned ints; its stamp comes from the reader's clock. */
  predicate Matches(r: Record, e: Event) {
    match e
    case MethodEntry(m, o, t) =>
      r.Method? && r.methodId == Unsigned(m) && r.objectId == Unsigned(o) && r.threadId == Unsigned(t)
    case MethodExit(m, t) => r.Exit? && r.methodId == Unsigned(m) && r.threadId == Unsigned(t)
    case ObjectAllocation(o, size, typeId, site, t) =>
      r == Alloc('N', Unsigned(o), Unsigned(site), Unsigned(t), Unsigned(typeId), 0, Unsigned(size), Some(0), r.stamp)
    case ArrayAllocation(o, size, typeId, site, length, t, dims) =>
      r == Alloc('A', Unsigned(o), Unsigned(site), Unsigned(t), Unsigned(typeId), Unsigned(length), Unsigned(size),
                 if dims == [] then None else Some(|dims|), r.stamp)
    case PutField(s, g, f, t) =>
      r.Update? && r.sourceId == s && r.targetId == g && r.fieldId == Unsigned(f) && r.threadId == Unsigned(t)
  }

  /** The event names the object: as receiver, allocated object, source or target. */
  predicate EventNames(e: Event, id: nat) {
    match e
    case MethodEntry(_, o, _) => Unsigned(o) == id && id > 0
    case MethodExit(_, _) => false
    case ObjectAllocation(o, _, _, _, _) => Unsigned(o) == id && id > 0
    case ArrayAllocation(o, _, _, _, _, _, _) => Unsigned(o) == id && id > 0
    case PutField(s, g, _, _) => s == id || g == id
  }

  predicate AllMatch(rs: seq<Record>, es: seq<Event>) {
    |rs| == |es| && forall i :: 0 <= i < |rs| ==> Matches(rs[i], es[i])
  }

  /** The reader takes the event: its numbers fit, and an update names a target. */
  predicate Readable(e: Event) {
    InRange(e) && (e.PutField? ==> e.targetId > 0)
  }

  lemma UpdateIsRecorded(s: State, source: nat, target: nat, field: nat, t: nat)
    requires Invariant(s) && target > 0
    ensures StepUpdate(s, source, target, field, t).Next?
    ensures StepUpdate(s, source, target, field, t).state.trace
         == s.trace + [Update(target, field, source, t, s.clock + 1)]
  {
    var s1 := Logged(s, Update(target, field, source, t, s.clock + 1), 1);
    assert Lookup(s1, source).Next?;
    assert LookupBoth(s1, source, target).Next?;
    UpdateExtends(s, source, target, field, t);
  }

  /** The reader accepts the event's line and appends its record. */
  lemma EventIsRecorded(s: State, e: Event)
    requires Invariant(s) && Readable(e)
    ensures Step(s, LineOf(e)).Next?
    ensures var s' := Step(s, LineOf(e)).state;
      |s'.trace| == |s.trace| + 1 && s'.trace[..|s.trace|] == s.trace && Matches(s'.trace[|s.trace|], e)
  {
    hide Unsigned, Invariant, StepUpdate;
    if e.PutField? {
      UpdateIsRecorded(s, e.sourceId, e.targetId, Unsigned(e.fieldId), Unsigned(e.threadId));
    }
  }

  /** The reader accepts any sequence of readable events and keeps one record for each, in order. */
  lemma {:induction false} EventsAreRecorded(s: State, es: seq<Event>)
    requires Invariant(s) && forall e :: e in es ==> InRange(e) && Readable(e)
    ensures Run(s, LinesOf(es)).Next?
    ensures var s' := Run(s, LinesOf(es)).state;
      |s.trace| <= |s'.trace| && s'.trace[..|s.trace|] == s.trace && AllMatch(s'.trace[|s.trace|..], es)
    decreases |es|
  {
    hide Invariant, Step, Matches;
    if es == [] {
      assert s.trace[|s.trace|..] == [];
    } else {
      var line := LineOf(es[0]);
      EventIsRecorded(s, es[0]);
      StepKeepsInvariant(s, line);
      var s1 := Step(s, line).state;
      EventsAreRecorded(s1, es[1..]);
      assert LinesOf(es)[1..] == LinesOf(es[1..]);
      var s' := Run(s1, LinesOf(es[1..])).state;
      forall i | 0 <= i < |es| ensures Matches(s'.trace[|s.trace|..][i], es[i]) {
        if i == 0 {
          assert s'.trace[..|s1.trace|][|s.trace|] == s1.trace[|s.trace|];
        } else {
          assert s'.trace[|s1.trace|..][i - 1] == s'.trace[|s.trace|..][i];
        }
      }
      assert s'.trace[..|s.trace|] == s'.trace[..|s1.trace|][..|s.trace|];
    }
  }

  /** Ids are never 0, so every recorded update names a target. */
  lemma {:induction false} UpdatesNameTargets(log: seq<EB.Entry>, ids: map<int, int>, nextId: int)
    requires EB.IdsAreExact(ids, nextId) && EB.LogHashes(log) <= ids.Keys
    ensures forall e :: e in EB.Events(log, ids) ==> e.PutField? ==> e.targetId > 0
  {
    if log != [] {
      var last := log[|log| - 1];
      UpdatesNameTargets(log[..|log| - 1], ids, nextId);
      if last.call.OnPutField? {
        var ws := EB.Writes(last.call, last.self);
        EB.HashKnown(ws, |ws|, 1);
        assert last.call.target in ids;
      }
    }
  }

  /** A printed line has at most eight words. */
  lemma {:induction false} PrintedTokensFit(es: seq<Event>)
    requires forall e :: e in es ==> InRange(e) && FitsLine(e)
    ensures Pipeline.TokensFit(PrintAll(es))
  {
    hide Words, EventLine, LineTokens, Chunk;
    if es == [] {
      Pipeline.EmptyFileHasNoLine();
    } else {
      PrintedTokensFit(es[1..]);
      FirstLine(es[0], PrintAll(es[1..]));
      assert PrintAll(es) == EventLine(es[0]) + PrintAll(es[1..]);
      FewWords(es[0]);
    }
  }

  lemma FewWords(e: Event)
    ensures |Words(e)| <= TOKENSIZE
  {
  }

  lemma StampsCountTicks(s: State)
    requires Invariant(s)
    ensures Clocked(s.trace)
  {
  }

  /**
   * Whatever the threads' interleaving: once the shutdown hook is the last to have run, the simulator reads the file
   * without a failed assertion and holds exactly one record for each event, in lock order, with every field in place
   * and stamped by the ticks before it.
   */
  lemma RecordedRunIsReadBack(b: EB.Buffer, schedule: seq<Interleaving.Action>)
    requires EB.Initial(b)
    requires var s := Interleaving.Play(Interleaving.Start(b), schedule);
      && s.lock == None && s.log != [] && s.log[|s.log| - 1].call.Shutdown?
      && forall e :: e in EB.Events(s.log, s.buf.ids) ==> InRange(e) && FitsLine(e)
    ensures var s := Interleaving.Play(Interleaving.Start(b), schedule);
      && Pipeline.TokensFit(s.buf.written)
      && Pipeline.ReadAll(s.buf.written).Next?
      && AllMatch(Pipeline.ReadAll(s.buf.written).state.trace, EB.Events(s.log, s.buf.ids))
      && Clocked(Pipeline.ReadAll(s.buf.written).state.trace)
  {
    hide Invariant, Step, Run, InRange, FitsLine, EB.Output, EB.RunAll, EB.Events, EB.IdsAreExact, EB.LogHashes;
    var s := Interleaving.Play(Interleaving.Start(b), schedule);
    var es := EB.Events(s.log, s.buf.ids);
    Interleaving.InterleavingIsSequential(b, schedule);
    EB.ShutdownWritesEverything(b, s.log);
    FileRoundTrip(es);
    PrintedTokensFit(es);
    UpdatesNameTargets(s.log, s.buf.ids, s.buf.nextId);
    EmptyIsInvariant();
    EventsAreRecorded(EMPTY, es);
    var trace := Pipeline.ReadAll(s.buf.written).state.trace;
    assert trace[0..] == trace;
    RunKeepsInvariant(EMPTY, LinesOf(es));
    assert Clocked(trace) by {
      StampsCountTicks(Pipeline.ReadAll(s.buf.written).state);
    }
  }

  // ----- Recorded, read and analysed -----

  lemma {:induction false} LastUseExists(trace: seq<Record>, id: nat)
    ensures LastUse(trace, id).Some? <==> exists r :: r in trace && Mentions(r, id)
    decreases |trace|
  {
    if trace != [] {
      var init, last := trace[..|trace| - 1], trace[|trace| - 1];
      LastUseExists(init, id);
      assert trace == init + [last];
      assert last in trace;
    }
  }

  /** The reader's heap holds exactly the objects the events name. */
  lemma HeapHoldsNamedObjects(s: State, es: seq<Event>, id: nat)
    requires Invariant(s) && AllMatch(s.trace, es)
    ensures id in s.objects <==> exists e :: e in es && EventNames(e, id)
  {
    assert UseKnown(s, id);
    LastUseExists(s.trace, id);
    if r :| r in s.trace && Mentions(r, id) {
      var i :| 0 <= i < |s.trace| && s.trace[i] == r;
      assert Matches(s.trace[i], es[i]) && EventNames(es[i], id);
    }
    if e :| e in es && EventNames(e, id) {
      var i :| 0 <= i < |es| && es[i] == e;
      assert Matches(s.trace[i], es[i]) && Mentions(s.trace[i], id);
    }
  }

  /** `named` are the objects that the events name. */
  ghost predicate Named(named: seq<nat>, es: seq<Event>) {
    forall id :: id in named <==> exists e :: e in es && EventNames(e, id)
  }

  /**
   * The whole way: whatever the threads' interleaving and whatever edges the heap gets, once the shutdown hook has
   * run the simulator accepts the file, its verification succeeds, every object that an event names gets exactly one
   * D record and no other object gets one, and no record uses an object after its D record.
   */
  lemma RecordedRunIsAnalysed(b: EB.Buffer, schedule: seq<Interleaving.Action>, g: Graph, final: map<nat, nat>)
    requires EB.Initial(b)
    requires var s := Interleaving.Play(Interleaving.Start(b), schedule);
      && s.lock == None && s.log != [] && s.log[|s.log| - 1].call.Shutdown?
      && forall e :: e in EB.Events(s.log, s.buf.ids) ==> InRange(e) && FitsLine(e)
    requires var out := Pipeline.ReadAll(Interleaving.Play(Interleaving.Start(b), schedule).buf.written);
      out.Next? ==> IsAllLatest(g, Pipeline.LastStamps(out.state.objects), final)
    ensures var s := Interleaving.Play(Interleaving.Start(b), schedule);
      var out := Pipeline.ReadAll(s.buf.written);
      && out.Next? && Nondecreasing(out.state.trace)
      && var merged := Weave(out.state.trace, START, FinalTimes(final));
        && NoUseAfterDeath(merged)
        && StrictlyAscending(DeathIds(merged)) && Named(DeathIds(merged), EB.Events(s.log, s.buf.ids))
  {
    hide Invariant, Step, Run, InRange, FitsLine, Weave, FinalTimes, NoUseAfterDeath, Interleaving.Play, EB.Events;
    var s := Interleaving.Play(Interleaving.Start(b), schedule);
    RecordedRunIsReadBack(b, schedule);
    var lines := DecodeAll(AllLines(Space, s.buf.written));
    var st := Run(EMPTY, lines).state;
    EmptyIsInvariant();
    RunKeepsInvariant(EMPTY, lines);
    Pipeline.InvariantMeans(st);
    Pipeline.NoUseAfterMerlin(lines, g, final);
    OneDeathEach(st.trace, final);
    forall id: nat ensures id in final.Keys <==> exists e :: e in EB.Events(s.log, s.buf.ids) && EventNames(e, id) {
      HeapHoldsNamedObjects(st, EB.Events(s.log, s.buf.ids), id);
    }
  }
}
