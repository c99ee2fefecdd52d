/** Whole runs of one thread in both modes, and of all threads: what nodes and stacks say at every moment. */
module ThreadRuns {
  import opened CallingContext
  import opened Execution

  // ----- One thread -----

  /** The next event, in either mode. */
  method Do(t: Thread, op: Op)
    requires t.Valid()
    modifies t, t.curcc`callees, t.pairs
    ensures t.Valid() && fresh(t.tree.Values - old(t.tree.Values))
    ensures t.kind.Full? ==> t.Abs() == Move(old(t.Abs()), op)
    ensures t.kind.StackOnly? ==> t.methods == PushPop(old(t.methods), op)
    ensures forall p :: p in old(t.tree) ==> p in t.tree && t.tree[p] == old(t.tree)[p]
  {
    match op
    case Enter(m) => t.Call(m);
    case Leave(m) => t.Return(m);
  }

  lemma AfterNext(ops: seq<Op>, k: nat)
    requires k < |ops|
    ensures ContextAfter(ops[..k + 1]) == Move(ContextAfter(ops[..k]), ops[k])
    ensures StackAfter(ops[..k + 1]) == PushPop(StackAfter(ops[..k]), ops[k])
  {
    assert Init(ops[..k + 1]) == ops[..k];
  }

  /** The thread was at node n after the first i events. */
  ghost predicate WasAt(t: Thread, ops: seq<Op>, i: nat, n: CCNode)
    requires i <= |ops|
    reads t`tree
  {
    t.HasNode(n, ContextAfter(ops[..i]).path)
  }

  /** nodes[i] is where m_curcc pointed after the first i events. */
  ghost predicate Visited(t: Thread, ops: seq<Op>, nodes: seq<CCNode>)
    reads t`tree
  {
    |nodes| <= |ops| + 1 && forall i :: 0 <= i < |nodes| ==> WasAt(t, ops, i, nodes[i])
  }

  /** One event in Full mode adds one node to the list. */
  method Follow(t: Thread, ops: seq<Op>, k: nat, ghost nodes: seq<CCNode>)
    requires t.Valid() && t.kind.Full? && k < |ops| && t.Abs() == ContextAfter(ops[..k])
    requires Visited(t, ops, nodes) && |nodes| == k + 1
    modifies t, t.curcc`callees, t.pairs
    ensures t.Valid() && t.Abs() == ContextAfter(ops[..k + 1]) && fresh(t.tree.Values - old(t.tree.Values))
    ensures Visited(t, ops, nodes + [t.curcc])
  {
    hide Move, ContextAfter;
    AfterNext(ops, k);
    Do(t, ops[k]);
    assert WasAt(t, ops, k + 1, t.curcc);
    forall i | 0 <= i < |nodes| ensures WasAt(t, ops, i, nodes[i]) {
      assert old(WasAt(t, ops, i, nodes[i]));
    }
  }

  lemma CurrentNodeInTree(t: Thread)
    requires t.Valid()
    ensures t.curcc in t.tree.Values
  {
  }

  /** A run in Full mode, with the nodes m_curcc goes through. */
  method RunFull(ops: seq<Op>) returns (t: Thread, ghost nodes: seq<CCNode>)
    ensures t.Valid() && t.kind.Full? && t.Abs() == ContextAfter(ops)
    ensures Visited(t, ops, nodes) && |nodes| == |ops| + 1 && nodes[|ops|] == t.curcc
    ensures t.curcc.Rooted() && (Agree(ops) <==> t.curcc.Chain() == [null] + StackAfter(ops))
  {
    hide Thread.Abs;
    var pairs := new PairCounts();
    t := new Thread(0, Full, pairs);
    nodes := [t.curcc];
    StartsAtRoot(t, ops);
    for k := 0 to |ops|
      invariant t.Valid() && t.kind.Full? && fresh(t) && fresh(t.pairs) && fresh(t.tree.Values)
      invariant t.Abs() == ContextAfter(ops[..k])
      invariant Visited(t, ops, nodes) && |nodes| == k + 1 && nodes[k] == t.curcc
    {
      CurrentNodeInTree(t);
      Follow(t, ops, k, nodes);
      nodes := nodes + [t.curcc];
    }
    assert ops[..|ops|] == ops;
    AgreeIsWalk(t, ops);
  }

  lemma StartsAtRoot(t: Thread, ops: seq<Op>)
    requires t.Valid() && t.Abs() == Context(map[], [])
    ensures t.Abs() == ContextAfter(ops[..0]) && Visited(t, ops, [t.curcc])
  {
    assert ops[..0] == [];
  }

  /** A run in StackOnly mode. */
  method RunStackOnly(ops: seq<Op>) returns (t: Thread)
    ensures t.Valid() && t.kind.StackOnly? && t.methods == StackAfter(ops)
  {
    var pairs := new PairCounts();
    t := new Thread(0, StackOnly, pairs);
    for k := 0 to |ops|
      invariant t.Valid() && t.kind.StackOnly? && fresh(t) && fresh(t.pairs) && fresh(t.tree.Values)
      invariant t.methods == StackAfter(ops[..k])
    {
      CurrentNodeInTree(t);
      AfterNext(ops, k);
      Do(t, ops[k]);
    }
    assert ops[..|ops|] == ops;
  }

  // ----- What the nodes of a run say -----

  /** Two moments of a run have the same node exactly when the ids on the method stack are the same. */
  lemma SameNodeSameIds(t: Thread, ops: seq<Op>, nodes: seq<CCNode>, i: nat, j: nat)
    requires t.Valid() && Visited(t, ops, nodes) && i < |nodes| && j < |nodes|
    ensures nodes[i] == nodes[j] <==> Ids(StackAfter(ops[..i])) == Ids(StackAfter(ops[..j]))
  {
    assert WasAt(t, ops, i, nodes[i]) && WasAt(t, ops, j, nodes[j]);
    PathIsStackIds(ops[..i]);
    PathIsStackIds(ops[..j]);
    NodesAreWays(t, nodes[i], ContextAfter(ops[..i]).path, nodes[j], ContextAfter(ops[..j]).path);
  }

  /** With unique ids, two moments of a run have the same node exactly when they have the same method stack. */
  lemma SameNodeSameStack(methods: set<Method>, t: Thread, ops: seq<Op>, nodes: seq<CCNode>, i: nat, j: nat)
    requires UniqueIds(methods) && Uses(methods, ops)
    requires t.Valid() && Visited(t, ops, nodes) && i < |nodes| && j < |nodes|
    ensures nodes[i] == nodes[j] <==> StackAfter(ops[..i]) == StackAfter(ops[..j])
  {
    SameNodeSameIds(t, ops, nodes, i, j);
    PathIsStackIds(ops[..i]);
    PathIsStackIds(ops[..j]);
    SamePositionSameStack(methods, ops[..i], ops[..j]);
  }

  /** With unique ids, the methods from the node at any moment up to the root are the method stack of that moment. */
  lemma WalkIsStack(methods: set<Method>, t: Thread, ops: seq<Op>, nodes: seq<CCNode>, i: nat)
    requires UniqueIds(methods) && Uses(methods, ops) && t.Valid() && t.Abs() == ContextAfter(ops)
    requires Visited(t, ops, nodes) && i < |nodes|
    ensures nodes[i].Rooted() && nodes[i].Chain() == [null] + StackAfter(ops[..i])
  {
    var p := ContextAfter(ops[..i]).path;
    assert WasAt(t, ops, i, nodes[i]);
    ChainIsMethodsTo(t, p);
    PathIsStackIds(ops[..i]);
    NodesUse(methods, ops);
    StackUses(methods, ops[..i]);
    MethodsByIds(methods, t.Abs().nodes, p, StackAfter(ops[..i]));
  }

  /**
   * Unique ids or not: the two records agree after ops exactly when walking up from m_curcc meets the methods of
   * the stack, from its top down.
   */
  lemma AgreeIsWalk(t: Thread, ops: seq<Op>)
    requires t.Valid() && t.Abs() == ContextAfter(ops)
    ensures t.curcc.Rooted() && (Agree(ops) <==> t.curcc.Chain() == [null] + StackAfter(ops))
  {
    ContextAfterOk(ops);
    ChainIsMethodsTo(t, t.curcc.path);
    var c := t.curcc.Chain();
    if c == [null] + StackAfter(ops) {
      assert MethodsTo(t.Abs().nodes, t.curcc.path) == c[1..] == StackAfter(ops);
    }
  }

  // ----- All threads -----

  /** The next event of the thread it names. */
  method DoIn(e: ExecState, id: nat, op: Op)
    requires e.Valid()
    modifies e, e.threads.Values, e.Nodes(), e.pairs
    ensures e.Valid() && e.NowUp() == old(e.NowUp()) + 1
    ensures fresh(e.threads.Values - old(e.threads.Values)) && fresh(e.Nodes() - old(e.Nodes()))
    ensures e.StacksOf(id) == Moved(e.kind, old(e.StacksOf(id)), op)
    ensures e.pairs.counts == if op.Leave? then old(e.pairs.counts)
                              else PairCounted(e.kind, old(e.pairs.counts), op.m, old(e.StacksOf(id).methods))
    ensures forall j :: j != id ==> e.StacksOf(j) == old(e.StacksOf(j))
  {
    hide ExecState.Valid, ExecState.StacksOf, Moved, ExecState.Nodes;
    match op
    case Enter(m) => e.Call(m, id);
    case Leave(m) => e.Return(m, id);
  }

  ghost predicate HoldsRun(e: ExecState, run: seq<(nat, Op)>)
    requires e.Valid()
    reads e, e.pairs, e.threads.Values, e.Nodes()
  {
    e.pairs.counts == PairsAfter(e.kind, run) && forall id :: e.StacksOf(id) == StacksAfter(e.kind, run, id)
  }

  lemma StacksNext(kind: ExecMode, run: seq<(nat, Op)>, k: nat, id: nat)
    requires k < |run|
    ensures PairsAfter(kind, run[..k + 1])
         == if run[k].1.Leave? then PairsAfter(kind, run[..k])
            else PairCounted(kind, PairsAfter(kind, run[..k]), run[k].1.m, StacksAfter(kind, run[..k], run[k].0).methods)
    ensures StacksAfter(kind, run[..k + 1], id)
         == if run[k].0 == id then Moved(kind, StacksAfter(kind, run[..k], id), run[k].1)
            else StacksAfter(kind, run[..k], id)
  {
    assert Init(run[..k + 1]) == run[..k];
  }

  method DoNext(e: ExecState, run: seq<(nat, Op)>, k: nat)
    requires e.Valid() && k < |run| && HoldsRun(e, run[..k])
    modifies e, e.threads.Values, e.Nodes(), e.pairs
    ensures e.Valid() && e.NowUp() == old(e.NowUp()) + 1 && HoldsRun(e, run[..k + 1])
    ensures fresh(e.threads.Values - old(e.threads.Values)) && fresh(e.Nodes() - old(e.Nodes()))
  {
    hide ExecState.Valid, ExecState.StacksOf, Moved, StacksAfter, PairsAfter, PairCounted, ExecState.Nodes;
    var (id, op) := run[k];
    DoIn(e, id, op);
    StacksNext(e.kind, run, k, id);
    forall j: nat ensures e.StacksOf(j) == StacksAfter(e.kind, run[..k + 1], j) {
      StacksNext(e.kind, run, k, j);
    }
  }

  /**
   * A run of all threads: each thread's record is that of its own events alone, the clock counts every event, and
   * the pair counts are those of PairsAfter, however the events are mixed.
   */
  method RunThreads(kind: ExecMode, run: seq<(nat, Op)>) returns (e: ExecState)
    ensures e.Valid() && e.kind == kind && e.NowUp() == |run|
    ensures forall id :: e.StacksOf(id) == RecordOf(kind, OpsOf(run, id))
    ensures e.pairs.counts == PairsAfter(kind, run)
  {
    hide ExecState.Valid, ExecState.StacksOf, StacksAfter, PairsAfter, RecordOf, OpsOf;
    e := new ExecState(kind);
    StartsEmpty(e, run);
    for k := 0 to |run|
      invariant e.Valid() && e.kind == kind && e.NowUp() == k && HoldsRun(e, run[..k])
      invariant fresh(e) && fresh(e.pairs) && fresh(e.threads.Values) && fresh(e.Nodes())
    {
      DoNext(e, run, k);
    }
    assert run[..|run|] == run;
    forall id: nat ensures e.StacksOf(id) == RecordOf(kind, OpsOf(run, id)) {
      ThreadsAreIndependent(kind, run, id);
    }
  }

  lemma StartsEmpty(e: ExecState, run: seq<(nat, Op)>)
    requires e.Valid() && e.threads == map[] && e.pairs.counts == map[]
    ensures HoldsRun(e, run[..0]) && e.Nodes() == {}
  {
  }
}
