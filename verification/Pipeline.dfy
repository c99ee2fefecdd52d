/** The simulator's main program: read the trace, verify it, run Merlin, insert the death records. */
module Pipeline {
  import opened Records
  import opened Text
  import opened Heap
  import opened Reachability
  import opened TraceReader
  import opened TraceFormat
  import opened DeathInsertion
  import opened Tokenizer
  import Simulator
  import Merlin

  // ----- Reading -----

  /** The last token of an array record, and the dimension count taken from it. */
  method ReadDims(tok: Tokenizer, ghost tokens: seq<string>) returns (dims: Option<Option<int>>)
    requires tok.Holds(tokens) && |tokens| == 8
    ensures dims == DimCount(tokens[7])
  {
    var text := tok.GetString(7);
    assert tok.TokenAt(7) == tokens[7];
    dims := DimCount(text.value);
  }

  method ReadInt(tok: Tokenizer, ghost tokens: seq<string>, i: nat) returns (v: nat)
    requires tok.Holds(tokens)
    ensures v == IntAt(tokens, i)
  {
    v := tok.GetInt(i);
    assert i < |tokens| ==> tok.TokenAt(i) == tokens[i];
  }

  method ReadAlloc(tok: Tokenizer, ghost tokens: seq<string>, kind: char, dims: Option<int>) returns (line: Line)
    requires tok.Holds(tokens)
    ensures line == DecodeAlloc(tokens, kind, dims)
  {
    var objectId := ReadInt(tok, tokens, 1);
    var size := ReadInt(tok, tokens, 2);
    var typeId := ReadInt(tok, tokens, 3);
    var siteId := ReadInt(tok, tokens, 4);
    var length := ReadInt(tok, tokens, 5);
    var threadId := ReadInt(tok, tokens, 6);
    line := AllocLine(kind, objectId, size, typeId, siteId, length, threadId, dims);
  }

  /** The line in the tokenizer, read through its get functions. */
  method ReadLine(tok: Tokenizer, ghost tokens: seq<string>) returns (line: Line)
    requires tok.Holds(tokens) && tokens != []
    ensures line == Decode(tokens)
  {
    assert tok.TokenAt(0) == tokens[0];
    var kind := tok.GetChar(0);
    line := UnknownLine;
    if kind == 'M' {
      line := BadLine;
      if tok.numTokens == 4 {
        var m := ReadInt(tok, tokens, 1);
        var o := ReadInt(tok, tokens, 2);
        var t := ReadInt(tok, tokens, 3);
        line := MethodLine(m, o, t);
      }
    } else if kind == 'E' {
      line := BadLine;
      if tok.numTokens == 3 {
        var m := ReadInt(tok, tokens, 1);
        var t := ReadInt(tok, tokens, 2);
        line := ExitLine(m, t);
      }
    } else if kind == 'A' {
      line := BadLine;
      if tok.numTokens == 8 {
        var dims := ReadDims(tok, tokens);
        if dims != None {
          line := ReadAlloc(tok, tokens, 'A', dims.value);
        }
      }
    } else if kind == 'N' {
      line := BadLine;
      if tok.numTokens == 7 {
        line := ReadAlloc(tok, tokens, 'N', Some(0));
      }
    } else if kind == 'U' {
      line := BadLine;
      if tok.numTokens == 5 {
        var source := ReadInt(tok, tokens, 1);
        var target := ReadInt(tok, tokens, 2);
        var field := ReadInt(tok, tokens, 3);
        var t := ReadInt(tok, tokens, 4);
        line := UpdateLine(source, target, field, t);
      }
    } else if kind == 'W' {
      var o := ReadInt(tok, tokens, 1);
      var typeId := ReadInt(tok, tokens, 2);
      var timestamp := ReadInt(tok, tokens, 3);
      line := WitnessLine(o, typeId, timestamp);
    }
  }

  /** No line breaks into more tokens than the tokenizer has room for. */
  predicate TokensFit(file: string)
    decreases |file|
  {
    && |LineTokens(Space, file)| <= TOKENSIZE
    && (file != [] && LineTokens(Space, file) != [] ==> TokensFit(file[|Chunk(file)|..]))
  }

  /** What the reader makes of a file. */
  function ReadAll(file: string): Outcome {
    Run(EMPTY, DecodeAll(AllLines(Space, file)))
  }

  /** The rest of the run, from state s with the rest of the file. */
  function RunRest(s: State, file: string): Outcome {
    Run(s, DecodeAll(AllLines(Space, file)))
  }

  lemma RunRestStep(s: State, file: string)
    requires LineTokens(Space, file) != []
    ensures var line := Decode(LineTokens(Space, file));
      RunRest(s, file) == match Step(s, line)
                          case Abort(why) => Abort(why)
                          case Next(s') => RunRest(s', file[|Chunk(file)|..])
  {
  }

  lemma EmptyFileHasNoLine()
    ensures LineTokens(Space, "") == []
  {
  }

  /** Reading has led to state s with `file` left, on the way to the outcome of the whole run. */
  ghost predicate OnTheWay(outcome: Outcome, ok: bool, done: bool, s: State, file: string) {
    if !ok then outcome.Abort?
    else if done then outcome == Next(s)
    else TokensFit(file) && RunRest(s, file) == outcome
  }

  /** One round of the loop: the next line, unless there is none. */
  method ReadNext(sim: Simulator.Simulator, tok: Tokenizer) returns (ok: bool)
    requires sim.Valid() && tok.Valid() && tok.delimiter == Space && TokensFit(tok.file)
    modifies tok, tok.line, tok.starts
    modifies sim, sim.heap, sim.heap.objects.Values`lastTimestamp, sim.heap.objects.Values`fields
    ensures sim.Valid() && tok.Valid() && fresh(sim.heap.objects.Values - old(sim.heap.objects.Values))
    ensures OnTheWay(RunRest(old(sim.Abs()), old(tok.file)), ok, tok.done, sim.Abs(), tok.file)
    ensures |tok.file| < |old(tok.file)| || (tok.done && |tok.file| == |old(tok.file)|)
  {
    hide Step, Decode, LineTokens, RunRest, TokensFit, Chunk;
    ghost var f, s := tok.file, sim.Abs();
    ghost var tokens := LineTokens(Space, f);
    ok := true;
    TokensFitNext(f);
    ChunkShortens(f);
    tok.GetLine();
    if !tok.done {
      RunRestStep(s, f);
      var line := ReadLine(tok, tokens);
      ok := sim.Process(line);
    } else {
      NoLineEndsRun(s, f);
    }
  }

  /** Reads lines until one has no tokens; stops early when an assertion fails. */
  method ReadTraceFile(file: string) returns (sim: Simulator.Simulator, ok: bool)
    requires TokensFit(file)
    ensures sim.Valid() && fresh(sim) && fresh(sim.heap) && fresh(sim.heap.objects.Values)
    ensures Simulator.Reached(ok, sim.Abs(), ReadAll(file))
  {
    hide Run, RunRest, TokensFit, ReadAll;
    sim := new Simulator.Simulator();
    var tok := new Tokenizer(file, Space);
    ok := true;
    ReadAllIsRunRest(file);
    while !tok.done && ok
      invariant sim.Valid() && fresh(sim) && fresh(sim.heap) && fresh(sim.heap.objects.Values)
      invariant tok.Valid() && tok.delimiter == Space && fresh(tok) && fresh(tok.line) && fresh(tok.starts)
      invariant OnTheWay(ReadAll(file), ok, tok.done, sim.Abs(), tok.file)
      decreases |tok.file|, !tok.done
    {
      ok := ReadNext(sim, tok);
    }
  }

  lemma ReadAllIsRunRest(file: string)
    ensures ReadAll(file) == RunRest(EMPTY, file)
  {
  }

  lemma TokensFitNext(file: string)
    requires TokensFit(file)
    ensures |LineTokens(Space, file)| <= TOKENSIZE
    ensures LineTokens(Space, file) != [] ==> TokensFit(file[|Chunk(file)|..])
  {
  }

  lemma ChunkShortens(file: string)
    ensures |file[|Chunk(file)|..]| < |file| || (LineTokens(Space, file) == [] && |file[|Chunk(file)|..]| == |file|)
  {
  }

  lemma NoLineEndsRun(s: State, file: string)
    requires LineTokens(Space, file) == []
    ensures RunRest(s, file) == Next(s)
  {
  }

  // ----- No use after death -----

  /** The timestamps the reader leaves. */
  function LastStamps(objects: Objects): map<nat, nat> {
    map id | id in objects :: objects[id].lastTimestamp
  }

  /** A record that uses an object is stamped no later than the object's timestamp. */
  lemma UseBeforeLastStamp(s: State, r: Record, id: nat)
    requires Invariant(s) && r in s.trace
    ensures Mentions(r, id) ==> id in s.objects && r.stamp <= s.objects[id].lastTimestamp
  {
    if Mentions(r, id) {
      LastUseIsLatest(s.trace, id, r);
      assert UseKnown(s, id);
    }
  }

  /** With death times no earlier than the reader's timestamps, no record uses an object after its death record. */
  lemma LateDeathsComeAfterUses(s: State, final: map<nat, nat>)
    requires Invariant(s) && final.Keys == s.objects.Keys
    requires forall id :: id in final ==> s.objects[id].lastTimestamp <= final[id]
    ensures NoUseAfterDeath(Weave(s.trace, START, FinalTimes(final)))
  {
    hide Invariant, Weave;
    var ds := FinalTimes(final);
    var merged := Weave(s.trace, START, ds);
    assert Nondecreasing(s.trace) && DeathFree(s.trace) by {
      InvariantMeans(s);
    }
    StampedPairs(Ascending(final.Keys), final);
    forall i, j | 0 <= i < j < |merged| && merged[i].Death? ensures !Mentions(merged[j], merged[i].objectId) {
      if !merged[j].Death? {
        var id := merged[i].objectId;
        var k := DeathsComeLate(s.trace, START, ds, -1, i, j);
        assert ds[k] == (id, final[id]);
        WeaveTakesFromRest(s.trace, START, ds, merged[j]);
        UseBeforeLastStamp(s, merged[j], id);
      }
    }
  }

  lemma InvariantMeans(s: State)
    requires Invariant(s)
    ensures Nondecreasing(s.trace) && DeathFree(s.trace)
  {
  }

  /**
   * Whatever edges the heap has: for every accepted trace, after Merlin has propagated the reader's timestamps along
   * them, no record of the merged list uses an object after its death record.
   */
  lemma NoUseAfterMerlin(lines: seq<Line>, g: Graph, final: map<nat, nat>)
    requires Run(EMPTY, lines).Next?
    requires IsAllLatest(g, LastStamps(Run(EMPTY, lines).state.objects), final)
    ensures NoUseAfterDeath(Weave(Run(EMPTY, lines).state.trace, START, FinalTimes(final)))
  {
    hide Invariant, Step, Weave;
    var s := Run(EMPTY, lines).state;
    EmptyIsInvariant();
    RunKeepsInvariant(EMPTY, lines);
    var t := LastStamps(s.objects);
    forall id | id in final ensures s.objects[id].lastTimestamp <= final[id] {
      assert CarriesLatest(g, t, final, id);
      ReachesSelf(g, id);
      assert IsLatest(g, t, id, Latest(g, t, id)) && Source(g, id, id);
      assert t[id] <= final[id];
    }
    LateDeathsComeAfterUses(s, final);
  }

  // ----- The main program -----

  lemma ReaderHeapIsClosed(sim: Simulator.Simulator)
    requires sim.Valid() && Edgeless(sim.Abs().objects)
    ensures sim.heap.EdgesStayInside() && sim.heap.Edges() == {}
    ensures sim.heap.Stamps() == LastStamps(sim.Abs().objects)
  {
    var objects := sim.Abs().objects;
    forall id | id in sim.heap.objects ensures sim.heap.objects[id].fields == map[] {
      var o := sim.heap.objects[id];
      assert Simulator.FieldsLead(o) && objects[id].fields == map[];
      assert forall f :: f in o.fields ==> f in Simulator.FieldTargets(o.fields);
    }
  }

  /** What the main program has to show for the state s that the reader left. */
  ghost predicate Analysed(s: State, g: Graph, final: map<nat, nat>, merged: seq<Record>) {
    && IsAllLatest(g, LastStamps(s.objects), final)
    && merged == Weave(s.trace, START, FinalTimes(final))
    && NoUseAfterDeath(merged)
  }

  /** sim_main: the trace of every file the reader accepts passes verification, and dead objects are never used. */
  method SimMain(file: string)
    returns (ok: bool, verified: bool, merged: seq<Record>, ghost g: Graph, ghost final: map<nat, nat>)
    requires TokensFit(file)
    ensures ok <==> ReadAll(file).Next?
    ensures ok ==> verified && Analysed(ReadAll(file).state, g, final, merged)
  {
    hide Invariant, Run, Weave, FinalTimes, NoUseAfterDeath;
    var sim;
    sim, ok := ReadTraceFile(file);
    verified, merged, g, final := false, [], map[], map[];
    if ok {
      ghost var s := sim.Abs();
      EmptyIsInvariant();
      RunKeepsInvariant(EMPTY, DecodeAll(AllLines(Space, file)));
      InvariantMeans(s);
      verified := VerifyTrace(sim.trace);
      assert Edgeless(s.objects) by {
        InvariantIsEdgeless(s);
      }
      ReaderHeapIsClosed(sim);
      g := sim.heap.Graph();
      merged := Merlin.ApplyMerlin(sim.heap, sim.trace);
      final := sim.heap.Stamps();
      NoUseAfterMerlin(DecodeAll(AllLines(Space, file)), g, final);
    }
  }

  lemma InvariantIsEdgeless(s: State)
    requires Invariant(s)
    ensures Edgeless(s.objects)
  {
  }
}
