/** CCNode, Thread and ExecState (simulator/execution.hpp, simulator/execution.cpp), updated in place. */
module Execution {
  import opened CallingContext

  datatype ExecMode = Full | StackOnly

  class CCNode {
    const meth: Method?
    const parent: CCNode?
    ghost const path: Path
    var callees: map<nat, CCNode>

    /** The root of a thread's tree. */
    constructor Root()
      ensures meth == null && parent == null && path == [] && callees == map[]
    {
      meth, parent, path, callees := null, null, [], map[];
    }

    constructor (parent: CCNode, m: Method)
      ensures this.meth == m && this.parent == parent && path == parent.path + [m.id] && callees == map[]
    {
      this.meth, this.parent, path, callees := m, parent, parent.path + [m.id], map[];
    }

    method Call(m: Method) returns (result: CCNode)
      modifies this`callees
      ensures m.id in old(callees) ==> result == old(callees)[m.id] && callees == old(callees)
      ensures m.id !in old(callees) ==>
        && fresh(result) && callees == old(callees)[m.id := result] && result.callees == map[]
        && result.meth == m && result.parent == this && result.path == path + [m.id]
    {
      if m.id !in callees {
        result := new CCNode(this, m);
        callees := callees[m.id := result];
      } else {
        result := callees[m.id];
      }
    }

    /** Returning from any method leads to the parent. */
    function Return(m: Method): CCNode? {
      parent
    }

    /** The parents end at a root. */
    ghost predicate Rooted()
      decreases |path|
    {
      parent != null ==> |parent.path| < |path| && parent.Rooted()
    }

    /** The methods from the root down to this node. */
    ghost function Chain(): (c: seq<Method?>)
      requires Rooted()
      ensures c != []
      decreases |path|
    {
      (if parent == null then [] else parent.Chain()) + [meth]
    }

    /** Are the methods up to the root the same? */
    function SimpleCcEqual(other: CCNode): (same: bool)
      requires Rooted() && other.Rooted()
      ensures same <==> Chain() == other.Chain()
      decreases |path|
    {
      if meth != other.meth then
        assert Chain()[|Chain()| - 1] != other.Chain()[|other.Chain()| - 1];
        false
      else if parent == null || other.parent == null then
        assert |Chain()| == 1 <==> parent == null;
        assert |other.Chain()| == 1 <==> other.parent == null;
        parent == other.parent
      else
        assert Chain()[..|Chain()| - 1] == parent.Chain();
        assert other.Chain()[..|other.Chain()| - 1] == other.parent.Chain();
        parent.SimpleCcEqual(other.parent)
    }
  }

  /** The method that makes the next call, if any. */
  function TopOf(methods: seq<Method>): Method? {
    if methods == [] then null else Last(methods)
  }

  type Counts = map<(Method, Method?), nat>

  function CountIn(counts: Counts, pair: (Method, Method?)): nat {
    if pair in counts then counts[pair] else 0
  }

  /** A call of m from this stack is counted once, for m and its caller, if there is a stack at all. */
  function PairCounted(kind: ExecMode, counts: Counts, m: Method, stack: seq<Method>): Counts {
    var pair := (m, TopOf(stack));
    if kind == Full then counts else counts[pair := CountIn(counts, pair) + 1]
  }

  /** The counts of (callee, caller) pairs that ExecState keeps for its threads. */
  class PairCounts {
    var counts: map<(Method, Method?), nat>

    constructor ()
      ensures counts == map[]
    {
      counts := map[];
    }

    function Count(pair: (Method, Method?)): nat
      reads this
    {
      CountIn(counts, pair)
    }

    method IncCallContext(pair: (Method, Method?))
      modifies this
      ensures counts == old(counts)[pair := old(Count(pair)) + 1]
    {
      counts := counts[pair := Count(pair) + 1];
    }
  }

  class Thread {
    const id: nat
    const kind: ExecMode
    const rootcc: CCNode
    const pairs: PairCounts
    var curcc: CCNode
    var methods: seq<Method>
    var context: (Method?, Method?)
    ghost var tree: map<Path, CCNode>

    constructor (id: nat, kind: ExecMode, pairs: PairCounts)
      ensures this.id == id && this.kind == kind && this.pairs == pairs
      ensures Valid() && methods == [] && Abs() == Context(map[], []) && fresh(tree.Values)
    {
      this.id, this.kind, this.pairs := id, kind, pairs;
      var root := new CCNode.Root();
      rootcc, curcc, methods, context := root, root, [], (null, null);
      tree := map[[] := root];
    }

    ghost predicate NodeOk(p: Path)
      requires p in tree
      reads this`tree
    {
      var n := tree[p];
      && n.path == p
      && (p == [] ==> n == rootcc && n.parent == null && n.meth == null)
      && (p != [] ==> Init(p) in tree && n.parent == tree[Init(p)] && n.meth != null && n.meth.id == Last(p))
    }

    /** The callees of a node are the nodes one id further down. */
    ghost predicate CalleesOk(p: Path)
      requires p in tree
      reads this`tree, tree.Values`callees
    {
      && (forall i :: i in tree[p].callees ==> p + [i] in tree && tree[p].callees[i] == tree[p + [i]])
      && (forall i :: p + [i] in tree ==> i in tree[p].callees)
    }

    ghost predicate Valid()
      reads this, tree.Values`callees
    {
      && [] in tree
      && (forall p {:trigger NodeOk(p)} :: p in tree ==> NodeOk(p))
      && (forall p {:trigger CalleesOk(p)} :: p in tree ==> CalleesOk(p))
      && curcc.path in tree && tree[curcc.path] == curcc
    }

    ghost function Abs(): Context
      requires Valid()
      reads this, tree.Values`callees
    {
      assert forall p :: p in tree ==> NodeOk(p);
      Context(map p | p in tree && p != [] :: tree[p].meth, curcc.path)
    }

    /** The thread was, or is, at node n of its tree, reached by the ids p. */
    ghost predicate HasNode(n: CCNode, p: Path)
      reads this`tree
    {
      p in tree && tree[p] == n
    }

    // ----- Calls and returns -----

    lemma NothingBelow(p: Path)
      requires Valid()
      ensures forall i :: p + [i] in tree ==> p in tree
    {
      forall i | p + [i] in tree ensures p in tree {
        assert NodeOk(p + [i]) && Init(p + [i]) == p;
      }
    }

    /** The way the tree grows by a call of m. */
    ghost function WayTo(m: Method): Path
      reads this`curcc
    {
      curcc.path + [m.id]
    }

    /** A call of a method that was called from here before. */
    method MoveToOld(m: Method)
      requires Valid() && m.id in curcc.callees
      modifies this`curcc, curcc`callees
      ensures Valid() && HasNode(curcc, old(WayTo(m)))
    {
      assert NodeOk(curcc.path) && CalleesOk(curcc.path) && NodeOk(WayTo(m));
      curcc := curcc.Call(m);
      assert forall q :: q in tree ==> old(NodeOk(q)) && old(CalleesOk(q));
    }

    /** A call of a method that was not: the tree grows by one node. */
    method MoveToNew(m: Method)
      requires Valid() && m.id !in curcc.callees
      modifies this`curcc, this`tree, curcc`callees
      ensures Valid() && old(WayTo(m)) !in old(tree)
      ensures tree == old(tree)[old(WayTo(m)) := curcc] && fresh(curcc) && curcc.meth == m
    {
      var cur := curcc;
      ghost var p := WayTo(m);
      assert CalleesOk(cur.path) && Init(p) == cur.path && Last(p) == m.id;
      NothingBelow(p);
      curcc := cur.Call(m);
      tree := tree[p := curcc];
      forall q | q in tree ensures NodeOk(q) {
        assert q != p ==> old(NodeOk(q));
      }
      forall q | q in tree ensures CalleesOk(q) {
        if q in old(tree) {
          assert old(CalleesOk(q)) && old(NodeOk(q));
        }
      }
    }

    method CallFull(m: Method)
      requires Valid()
      modifies this`curcc, this`tree, curcc`callees
      ensures Valid() && Abs() == CallNode(old(Abs()), m)
      ensures forall p :: p in old(tree) ==> p in tree && tree[p] == old(tree)[p]
      ensures fresh(tree.Values - old(tree.Values))
    {
      ghost var p := WayTo(m);
      assert Init(p) == curcc.path && Last(p) == m.id && CalleesOk(curcc.path);
      if m.id in curcc.callees {
        MoveToOld(m);
      } else {
        MoveToNew(m);
      }
      assert NodeOk(p);
      assert Abs().nodes == CallNode(old(Abs()), m).nodes;
    }

    /** The method below the top of the stack. */
    function Caller(): Method?
      reads this`methods
    {
      TopOf(methods)
    }

    method CallStack(m: Method)
      requires kind.StackOnly?
      modifies this`methods, this`context, pairs
      ensures methods == PushPop(old(methods), Enter(m)) && context == (old(Caller()), m)
      ensures pairs.counts == PairCounted(StackOnly, old(pairs.counts), m, old(methods))
    {
      context := (Caller(), m);
      methods := methods + [m];
      var top2meth := TopNMethods(2);
      assert top2meth[0] == m;
      pairs.IncCallContext((m, top2meth[1]));
    }

    method Call(m: Method)
      requires Valid()
      modifies this, curcc`callees, pairs
      ensures Valid()
      ensures kind.Full? ==> Abs() == Move(old(Abs()), Enter(m)) && methods == old(methods)
      ensures kind.StackOnly? ==> methods == PushPop(old(methods), Enter(m)) && Abs() == old(Abs())
      ensures context == if kind.Full? then old(context) else (old(Caller()), m)
      ensures pairs.counts == PairCounted(kind, old(pairs.counts), m, old(methods))
      ensures forall p :: p in old(tree) ==> p in tree && tree[p] == old(tree)[p]
      ensures fresh(tree.Values - old(tree.Values))
    {
      if kind == Full {
        CallFull(m);
      }
      if kind == StackOnly {
        CallStack(m);
      }
    }

    method Return(m: Method)
      requires Valid()
      modifies this`curcc, this`methods, this`context
      ensures Valid() && tree == old(tree)
      ensures kind.Full? ==> Abs() == Move(old(Abs()), Leave(m)) && methods == old(methods)
      ensures kind.StackOnly? ==> methods == PushPop(old(methods), Leave(m)) && Abs() == old(Abs())
      ensures context == if kind.Full? || old(methods) == [] then old(context) else (old(Caller()), Caller())
    {
      assert NodeOk(curcc.path);
      if kind == Full {
        if curcc.meth != null {
          assert NodeOk(Init(curcc.path));
          curcc := curcc.Return(m);
        }
      }
      if kind == StackOnly {
        if methods != [] {
          var cur := Last(methods);
          methods := Init(methods);
          context := (cur, Caller());
        }
      }
    }

    // ----- Reading the stack -----

    function TopMethod(): (m: Method?)
      requires Valid()
      reads this, tree.Values`callees
      ensures kind.Full? ==> m == if Abs().path == [] then null else Abs().nodes[Abs().path]
      ensures kind.StackOnly? ==> m == if methods == [] then null else Last(methods)
    {
      assert NodeOk(curcc.path);
      if kind == Full then curcc.meth else Caller()
    }

    /** The num-th method from the top, counted from 0. */
    function MethodFromTop(num: nat): Method?
      requires kind.StackOnly?
      reads this`methods
    {
      if |methods| > num then methods[|methods| - num - 1] else null
    }

    /** The methods from the top down, filled up with null. */
    method TopNMethods(n: nat) returns (result: seq<Method?>)
      requires kind.StackOnly? && n > 1
      ensures |result| == n
      ensures forall i :: 0 <= i < n && i < |methods| ==> result[i] == methods[|methods| - 1 - i]
      ensures forall i :: |methods| <= i < n ==> result[i] == null
    {
      result := [];
      var count := 0;
      while count < n && count < |methods|
        invariant |result| == count <= n && count <= |methods|
        invariant forall i :: 0 <= i < count ==> result[i] == methods[|methods| - 1 - i]
      {
        result := result + [MethodFromTop(count)];
        count := count + 1;
      }
      while count < n
        invariant |result| == count <= n
        invariant forall i :: 0 <= i < count && i < |methods| ==> result[i] == methods[|methods| - 1 - i]
        invariant forall i :: |methods| <= i < count ==> result[i] == null
        invariant count >= n || count >= |methods|
      {
        result := result + [null];
        count := count + 1;
      }
    }
  }

  // ----- All threads -----

  /** What the two records of one thread hold. */
  datatype Stacks = Stacks(context: Context, methods: seq<Method>)

  const NO_CALLS := Stacks(Context(map[], []), [])

  function Moved(kind: ExecMode, s: Stacks, op: Op): Stacks {
    if kind == Full then s.(context := Move(s.context, op)) else s.(methods := PushPop(s.methods, op))
  }

  class ExecState {
    const kind: ExecMode
    const pairs: PairCounts
    var threads: map<nat, Thread>
    var methTime: nat
    var methexitTime: nat
    var uptime: nat
    var threadStack: seq<Thread>

    constructor (kind: ExecMode)
      ensures Valid() && this.kind == kind && threads == map[] && NowUp() == 0 && threadStack == [] && fresh(pairs)
      ensures pairs.counts == map[]
    {
      this.kind := kind;
      pairs := new PairCounts();
      threads, methTime, methexitTime, uptime, threadStack := map[], 0, 0, 0, [];
    }

    ghost function Nodes(): set<CCNode>
      reads this`threads, threads.Values`tree
    {
      set id, p | id in threads && p in threads[id].tree :: threads[id].tree[p]
    }

    ghost predicate ThreadOk(id: nat)
      requires id in threads
      reads this`threads, threads.Values, Nodes()
    {
      threads[id].id == id && threads[id].kind == kind && threads[id].pairs == pairs && threads[id].Valid()
    }

    /** Threads share no node. */
    ghost predicate Apart(i: nat, j: nat)
      requires i in threads && j in threads
      reads this`threads, threads.Values`tree
    {
      i != j ==> threads[i].tree.Values !! threads[j].tree.Values
    }

    ghost predicate Valid()
      reads this`threads, threads.Values, Nodes()
    {
      && (forall id {:trigger ThreadOk(id)} :: id in threads ==> ThreadOk(id))
      && forall i, j {:trigger Apart(i, j)} :: i in threads && j in threads ==> Apart(i, j)
    }

    ghost function StacksOf(id: nat): Stacks
      requires Valid()
      reads this`threads, threads.Values, Nodes()
    {
      if id in threads then assert ThreadOk(id); Stacks(threads[id].Abs(), threads[id].methods) else NO_CALLS
    }

    /** The logical clock: method calls, method exits and updates. */
    function NowUp(): nat
      reads this`uptime, this`methexitTime, this`methTime
    {
      uptime + methexitTime + methTime
    }

    method GetThread(id: nat) returns (t: Thread)
      requires Valid()
      modifies this`threads
      ensures Valid() && id in threads && threads[id] == t
      ensures id in old(threads) ==> threads == old(threads)
      ensures forall j :: StacksOf(j) == old(StacksOf(j))
      ensures fresh(threads.Values - old(threads.Values)) && fresh(Nodes() - old(Nodes()))
      ensures forall j :: j in old(threads) ==> j in threads && threads[j] == old(threads)[j]
    {
      if id !in threads {
        t := new Thread(id, kind, pairs);
        threads := threads[id := t];
        forall j | j in threads ensures ThreadOk(j) {
          assert j != id ==> old(ThreadOk(j));
        }
        forall i, j | i in threads && j in threads ensures Apart(i, j) {
          assert i != id && j != id ==> old(Apart(i, j));
        }
        assert Valid();
        NodesOfNewThread(id);
        forall j ensures StacksOf(j) == old(StacksOf(j)) {
          assert j in old(threads) ==> ThreadOk(j) && old(ThreadOk(j)) && threads[j] == old(threads[j]);
        }
      } else {
        t := threads[id];
      }
    }

    /** A new thread brings only fresh nodes. */
    twostate lemma NodesOfNewThread(id: nat)
      requires id in threads && id !in old(threads) && threads == old(threads)[id := threads[id]]
      requires forall j :: j in old(threads) ==> threads[j].tree == old(threads[j].tree)
      requires forall n :: n in threads[id].tree.Values ==> fresh(n)
      ensures forall n :: n in Nodes() ==> n in old(Nodes()) || fresh(n)
    {
      forall n | n in Nodes() ensures n in old(Nodes()) || fresh(n) {
        var j, p :| j in threads && p in threads[j].tree && threads[j].tree[p] == n;
        if j == id {
          assert n in threads[id].tree.Values;
        } else {
          assert p in old(threads[j].tree) && old(threads[j].tree)[p] == n;
        }
      }
    }

    /** Thread t calls m; the other threads stay as they are. */
    method CallIn(t: Thread, m: Method, threadid: nat)
      requires Valid() && threadid in threads && t == threads[threadid]
      modifies t, t.curcc`callees, pairs
      ensures Valid()
      ensures StacksOf(threadid) == Moved(kind, old(StacksOf(threadid)), Enter(m))
      ensures pairs.counts == PairCounted(kind, old(pairs.counts), m, old(StacksOf(threadid).methods))
      ensures forall j :: j != threadid ==> StacksOf(j) == old(StacksOf(j))
      ensures fresh(Nodes() - old(Nodes()))
    {
      hide PairCounted;
      assert ThreadOk(threadid);
      t.Call(m);
      forall j | j in threads ensures ThreadOk(j) {
        assert old(ThreadOk(j)) && old(Apart(j, threadid));
      }
      forall i, j | i in threads && j in threads ensures Apart(i, j) {
        assert old(Apart(i, j));
      }
      NodesGrow(threadid);
    }

    /** Only one thread's tree has grown, by fresh nodes. */
    twostate lemma NodesGrow(id: nat)
      requires threads == old(threads) && id in threads
      requires forall j :: j in threads && j != id ==> threads[j].tree == old(threads[j].tree)
      requires forall n :: n in threads[id].tree.Values ==> n in old(threads[id].tree.Values) || fresh(n)
      ensures forall n :: n in Nodes() ==> n in old(Nodes()) || fresh(n)
    {
      forall n | n in Nodes() ensures n in old(Nodes()) || fresh(n) {
        var j, p :| j in threads && p in threads[j].tree && threads[j].tree[p] == n;
        if j == id {
          assert n in threads[id].tree.Values;
          if n in old(threads[id].tree.Values) {
            var q :| q in old(threads[id].tree) && old(threads[id].tree)[q] == n;
            assert old(threads[id].tree[q]) == n;
          }
        } else {
          assert p in old(threads[j].tree) && old(threads[j].tree[p]) == n;
        }
      }
    }

    method ReturnIn(t: Thread, m: Method, threadid: nat)
      requires Valid() && threadid in threads && t == threads[threadid]
      modifies t
      ensures Valid()
      ensures StacksOf(threadid) == Moved(kind, old(StacksOf(threadid)), Leave(m))
      ensures forall j :: j != threadid ==> StacksOf(j) == old(StacksOf(j))
      ensures fresh(Nodes() - old(Nodes()))
    {
      assert ThreadOk(threadid);
      t.Return(m);
      forall j | j in threads ensures ThreadOk(j) {
        assert old(ThreadOk(j));
      }
      forall i, j | i in threads && j in threads ensures Apart(i, j) {
        assert old(Apart(i, j));
      }
    }

    method SetClocks(methTime: nat, methexitTime: nat)
      requires Valid()
      modifies this`methTime, this`methexitTime
      ensures Valid() && this.methTime == methTime && this.methexitTime == methexitTime && Nodes() == old(Nodes())
      ensures forall j :: StacksOf(j) == old(StacksOf(j))
    {
      this.methTime, this.methexitTime := methTime, methexitTime;
      forall id | id in threads ensures ThreadOk(id) {
        assert old(ThreadOk(id));
      }
    }

    method SetThreadStack(stack: seq<Thread>)
      requires Valid()
      modifies this`threadStack
      ensures Valid() && threadStack == stack && Nodes() == old(Nodes())
      ensures forall j :: StacksOf(j) == old(StacksOf(j))
    {
      threadStack := stack;
      forall id | id in threads ensures ThreadOk(id) {
        assert old(ThreadOk(id));
      }
    }

    /** The thread of that id, made if unknown, calls m. */
    method CallThread(m: Method, threadid: nat)
      requires Valid()
      modifies this`threads, threads.Values, Nodes(), pairs
      ensures Valid() && threadid in threads
      ensures StacksOf(threadid) == Moved(kind, old(StacksOf(threadid)), Enter(m))
      ensures pairs.counts == PairCounted(kind, old(pairs.counts), m, old(StacksOf(threadid).methods))
      ensures forall j :: j != threadid ==> StacksOf(j) == old(StacksOf(j))
      ensures fresh(threads.Values - old(threads.Values)) && fresh(Nodes() - old(Nodes()))
    {
      hide Valid, StacksOf, Moved;
      var t := GetThread(threadid);
      ghost var nodes := Nodes();
      CurrentNodeIsNode(t, threadid);
      CallIn(t, m, threadid);
      assert Nodes() - old(Nodes()) <= (Nodes() - nodes) + (nodes - old(Nodes()));
    }

    /** A call counts for the thread that makes it, moves the clock by one and leaves every other thread alone. */
    method Call(m: Method, threadid: nat)
      requires Valid()
      modifies this, threads.Values, Nodes(), pairs
      ensures Valid() && methTime == old(methTime) + 1 && methexitTime == old(methexitTime) && uptime == old(uptime)
      ensures StacksOf(threadid) == Moved(kind, old(StacksOf(threadid)), Enter(m))
      ensures pairs.counts == PairCounted(kind, old(pairs.counts), m, old(StacksOf(threadid).methods))
      ensures forall j :: j != threadid ==> StacksOf(j) == old(StacksOf(j))
      ensures threadid in threads && threadStack == old(threadStack) + [threads[threadid]]
      ensures fresh(threads.Values - old(threads.Values)) && fresh(Nodes() - old(Nodes()))
    {
      hide Valid, StacksOf, Moved;
      SetClocks(methTime + 1, methexitTime);
      CallThread(m, threadid);
      SetThreadStack(threadStack + [threads[threadid]]);
    }

    lemma CurrentNodeIsNode(t: Thread, id: nat)
      requires Valid() && id in threads && threads[id] == t
      ensures t.curcc in Nodes()
    {
      assert ThreadOk(id);
    }

    method Return(m: Method, threadid: nat)
      requires Valid()
      modifies this, threads.Values
      ensures Valid() && methTime == old(methTime) && methexitTime == old(methexitTime) + 1 && uptime == old(uptime)
      ensures StacksOf(threadid) == Moved(kind, old(StacksOf(threadid)), Leave(m))
      ensures pairs.counts == old(pairs.counts)
      ensures forall j :: j != threadid ==> StacksOf(j) == old(StacksOf(j))
      ensures threadStack == if old(threadStack) == [] then [] else Init(old(threadStack))
      ensures fresh(threads.Values - old(threads.Values)) && fresh(Nodes() - old(Nodes()))
    {
      hide Valid, StacksOf, Moved;
      SetClocks(methTime, methexitTime + 1);
      if threadStack != [] {
        SetThreadStack(Init(threadStack));
      }
      var t := GetThread(threadid);
      ghost var nodes := Nodes();
      ReturnIn(t, m, threadid);
      assert fresh(nodes - old(Nodes()));
      assert fresh(Nodes() - nodes);
      assert Nodes() - old(Nodes()) <= (Nodes() - nodes) + (nodes - old(Nodes()));
    }
  }

  /** The records of thread id after a run in which each event names its thread. */
  function StacksAfter(kind: ExecMode, run: seq<(nat, Op)>, id: nat): Stacks {
    if run == [] then NO_CALLS
    else
      var s := StacksAfter(kind, Init(run), id);
      if Last(run).0 == id then Moved(kind, s, Last(run).1) else s
  }

  /** The events of one thread. */
  function OpsOf(run: seq<(nat, Op)>, id: nat): seq<Op> {
    if run == [] then [] else OpsOf(Init(run), id) + if Last(run).0 == id then [Last(run).1] else []
  }

  /** What a thread that sees the events ops and no others holds, by mode. */
  function RecordOf(kind: ExecMode, ops: seq<Op>): Stacks {
    if kind == Full then Stacks(ContextAfter(ops), []) else Stacks(Context(map[], []), StackAfter(ops))
  }

  /** However the threads' events are mixed, each thread's record is that of its own events alone. */
  lemma {:induction false} ThreadsAreIndependent(kind: ExecMode, run: seq<(nat, Op)>, id: nat)
    ensures StacksAfter(kind, run, id) == RecordOf(kind, OpsOf(run, id))
  {
    if run != [] {
      ThreadsAreIndependent(kind, Init(run), id);
      var ops := OpsOf(Init(run), id);
      if Last(run).0 == id {
        assert OpsOf(run, id) == ops + [Last(run).1];
        assert Init(OpsOf(run, id)) == ops;
      } else {
        assert OpsOf(run, id) == ops;
      }
    }
  }

  /** The pair counts after a run, as each call adds to them. */
  function PairsAfter(kind: ExecMode, run: seq<(nat, Op)>): Counts {
    if run == [] then map[]
    else
      var (id, op) := Last(run);
      var counts := PairsAfter(kind, Init(run));
      if op.Enter? then PairCounted(kind, counts, op.m, StacksAfter(kind, Init(run), id).methods) else counts
  }

  /** The calls of the run, of any thread, whose callee and caller are this pair. */
  function CallsOfPair(run: seq<(nat, Op)>, pair: (Method, Method?)): nat {
    if run == [] then 0
    else
      var (id, op) := Last(run);
      var caller := TopOf(StackAfter(OpsOf(Init(run), id)));
      CallsOfPair(Init(run), pair) + if op.Enter? && (op.m, caller) == pair then 1 else 0
  }

  /** The threads share one count a pair: the number of such calls in all of them; in Full mode nothing is counted. */
  lemma {:induction false} PairsCountCalls(kind: ExecMode, run: seq<(nat, Op)>, pair: (Method, Method?))
    ensures CountIn(PairsAfter(kind, run), pair) == if kind == Full then 0 else CallsOfPair(run, pair)
  {
    if run != [] {
      PairsCountCalls(kind, Init(run), pair);
      ThreadsAreIndependent(kind, Init(run), Last(run).0);
    }
  }

  // ----- The tree is canonical -----

  /** A node stands for one way from the root, and each way for one node: the same node means the same ids called. */
  lemma NodesAreWays(t: Thread, a: CCNode, p: Path, b: CCNode, q: Path)
    requires t.Valid() && t.HasNode(a, p) && t.HasNode(b, q)
    ensures a == b <==> p == q
  {
    assert t.NodeOk(p) && t.NodeOk(q);
  }

  predicate Spells(m: Method?, id: nat) {
    m != null && m.id == id
  }

  lemma {:induction false} TreeIsRooted(t: Thread, p: Path)
    requires t.Valid() && p in t.tree
    ensures t.tree[p].Rooted() && |t.tree[p].Chain()| == |p| + 1
    ensures forall i {:trigger p[i]} :: 0 <= i < |p| ==> Spells(t.tree[p].Chain()[i + 1], p[i])
    decreases |p|
  {
    assert t.NodeOk(p);
    if p != [] {
      assert t.NodeOk(Init(p));
      TreeIsRooted(t, Init(p));
      forall i | 0 <= i < |p| ensures Spells(t.tree[p].Chain()[i + 1], p[i]) {
        if i < |p| - 1 {
          assert Init(p)[i] == p[i];
        }
      }
    }
  }

  /** Walking from a node up its parents to the root meets the methods the tree holds on the way to it. */
  lemma {:induction false} ChainIsMethodsTo(t: Thread, p: Path)
    requires t.Valid() && p in t.tree
    ensures t.tree[p].Rooted() && TreeOk(t.Abs().nodes) && (p == [] || p in t.Abs().nodes)
    ensures t.tree[p].Chain() == [null] + MethodsTo(t.Abs().nodes, p)
    decreases |p|
  {
    TreeIsOk(t);
    TreeIsRooted(t, p);
    assert t.NodeOk(p);
    if p != [] {
      assert t.NodeOk(Init(p));
      ChainIsMethodsTo(t, Init(p));
    }
  }

  lemma TreeIsOk(t: Thread)
    requires t.Valid()
    ensures TreeOk(t.Abs().nodes)
  {
    var nodes := t.Abs().nodes;
    forall p | p in nodes ensures p != [] && nodes[p].id == Last(p) && (|p| > 1 ==> Init(p) in nodes) {
      assert t.NodeOk(p);
    }
  }

  /** On the nodes of one tree, simple_cc_equal holds for a node and itself only, unique ids or not. */
  lemma EqualContextsAreOneNode(t: Thread, p: Path, q: Path)
    requires t.Valid() && p in t.tree && q in t.tree
    ensures t.tree[p].Rooted() && t.tree[q].Rooted()
    ensures t.tree[p].SimpleCcEqual(t.tree[q]) <==> t.tree[p] == t.tree[q]
  {
    TreeIsRooted(t, p);
    TreeIsRooted(t, q);
    var a, b := t.tree[p], t.tree[q];
    if a.Chain() == b.Chain() {
      forall i | 0 <= i < |p| ensures p[i] == q[i] {
        assert Spells(a.Chain()[i + 1], p[i]) && Spells(b.Chain()[i + 1], q[i]);
      }
      assert p == q;
    }
  }
}
