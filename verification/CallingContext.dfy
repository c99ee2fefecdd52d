/** The two records of a thread's calls: a stack of methods and a position in a calling-context tree. */
module CallingContext {

  class Method {
    const id: nat
    const name: string

    constructor (id: nat, name: string)
      ensures this.id == id && this.name == name
    {
      this.id, this.name := id, name;
    }
  }

  /** One event of a thread: a call of m, or a return that names m. */
  datatype Op = Enter(m: Method) | Leave(m: Method)

  type Path = seq<nat>

  function Init<T>(s: seq<T>): seq<T>
    requires s != []
  {
    s[..|s| - 1]
  }

  function Last<T>(s: seq<T>): T
    requires s != []
  {
    s[|s| - 1]
  }

  // ----- The stack of methods -----

  function PushPop(stack: seq<Method>, op: Op): seq<Method> {
    match op
    case Enter(m) => stack + [m]
    case Leave(_) => if stack == [] then [] else Init(stack)
  }

  function StackAfter(ops: seq<Op>): seq<Method> {
    if ops == [] then [] else PushPop(StackAfter(Init(ops)), Last(ops))
  }

  function Ids(stack: seq<Method>): (p: Path)
    ensures |p| == |stack| && forall i :: 0 <= i < |p| ==> p[i] == stack[i].id
  {
    seq(|stack|, i requires 0 <= i < |stack| => stack[i].id)
  }

  // ----- The calling-context tree: the method of each node, by the ids on the way to it -----

  datatype Context = Context(nodes: map<Path, Method>, path: Path)

  /** The callee with m's id, made if it is not there yet. */
  function CallNode(c: Context, m: Method): Context {
    var p := c.path + [m.id];
    Context(if p in c.nodes then c.nodes else c.nodes[p := m], p)
  }

  function Move(c: Context, op: Op): Context {
    match op
    case Enter(m) => CallNode(c, m)
    case Leave(_) => if c.path == [] then c else c.(path := Init(c.path))
  }

  function ContextAfter(ops: seq<Op>): Context {
    if ops == [] then Context(map[], []) else Move(ContextAfter(Init(ops)), Last(ops))
  }

  /** Every way to a node of the tree is in the tree, and each node holds a method with the last id of its way. */
  ghost predicate TreeOk(nodes: map<Path, Method>) {
    forall p {:trigger p in nodes} :: p in nodes ==> p != [] && nodes[p].id == Last(p) && (|p| > 1 ==> Init(p) in nodes)
  }

  ghost predicate ContextOk(c: Context) {
    TreeOk(c.nodes) && (c.path == [] || c.path in c.nodes)
  }

  /** The methods from the root, which has none, down to the node at p. */
  function MethodsTo(nodes: map<Path, Method>, p: Path): seq<Method>
    requires TreeOk(nodes) && (p == [] || p in nodes)
    decreases |p|
  {
    if p == [] then [] else MethodsTo(nodes, Init(p)) + [nodes[p]]
  }

  lemma MoveKeepsContextOk(c: Context, op: Op)
    requires ContextOk(c)
    ensures ContextOk(Move(c, op))
  {
  }

  lemma {:induction false} ContextAfterOk(ops: seq<Op>)
    ensures ContextOk(ContextAfter(ops))
  {
    if ops != [] {
      ContextAfterOk(Init(ops));
      MoveKeepsContextOk(ContextAfter(Init(ops)), Last(ops));
    }
  }

  // ----- The two records agree -----

  /** Whatever is called and returned from, the tree position spells the ids of the methods on the stack. */
  lemma {:induction false} PathIsStackIds(ops: seq<Op>)
    ensures ContextAfter(ops).path == Ids(StackAfter(ops))
  {
    if ops != [] {
      PathIsStackIds(Init(ops));
    }
  }

  predicate Uses(methods: set<Method>, ops: seq<Op>) {
    forall i :: 0 <= i < |ops| ==> ops[i].m in methods
  }

  predicate UniqueIds(methods: set<Method>) {
    forall m, n :: m in methods && n in methods && m.id == n.id ==> m == n
  }

  /** Both records hold the same methods after ops. */
  ghost predicate Agree(ops: seq<Op>) {
    ContextAfterOk(ops);
    MethodsTo(ContextAfter(ops).nodes, ContextAfter(ops).path) == StackAfter(ops)
  }

  /** The nodes of the tree hold methods that were called. */
  lemma {:induction false} NodesUse(methods: set<Method>, ops: seq<Op>)
    requires Uses(methods, ops)
    ensures forall p :: p in ContextAfter(ops).nodes ==> ContextAfter(ops).nodes[p] in methods
  {
    if ops != [] {
      NodesUse(methods, Init(ops));
    }
  }

  lemma {:induction false} StackUses(methods: set<Method>, ops: seq<Op>)
    requires Uses(methods, ops)
    ensures forall i :: 0 <= i < |StackAfter(ops)| ==> StackAfter(ops)[i] in methods
  {
    if ops != [] {
      StackUses(methods, Init(ops));
    }
  }

  /** With unique ids, the methods on the way to a node are told by its ids. */
  lemma {:induction false} MethodsByIds(methods: set<Method>, nodes: map<Path, Method>, p: Path, stack: seq<Method>)
    requires TreeOk(nodes) && (p == [] || p in nodes) && UniqueIds(methods)
    requires forall q :: q in nodes ==> nodes[q] in methods
    requires forall i :: 0 <= i < |stack| ==> stack[i] in methods
    requires Ids(stack) == p
    ensures MethodsTo(nodes, p) == stack
    decreases |p|
  {
    if p != [] {
      assert Ids(Init(stack)) == Init(p);
      MethodsByIds(methods, nodes, Init(p), Init(stack));
      assert nodes[p] == Last(stack);
    }
  }

  lemma UniqueIdsAgree(methods: set<Method>, ops: seq<Op>)
    requires UniqueIds(methods) && Uses(methods, ops)
    ensures Agree(ops)
  {
    var c := ContextAfter(ops);
    ContextAfterOk(ops);
    PathIsStackIds(ops);
    NodesUse(methods, ops);
    StackUses(methods, ops);
    MethodsByIds(methods, c.nodes, c.path, StackAfter(ops));
  }

  /** With unique ids, two moments have the same tree position exactly when they have the same method stack. */
  lemma SamePositionSameStack(methods: set<Method>, ops: seq<Op>, more: seq<Op>)
    requires UniqueIds(methods) && Uses(methods, ops) && Uses(methods, more)
    ensures ContextAfter(ops).path == ContextAfter(more).path <==> StackAfter(ops) == StackAfter(more)
  {
    var a, b := StackAfter(ops), StackAfter(more);
    PathIsStackIds(ops);
    PathIsStackIds(more);
    StackUses(methods, ops);
    StackUses(methods, more);
    if Ids(a) == Ids(b) {
      forall i | 0 <= i < |a| ensures a[i] == b[i] {
        assert Ids(a)[i] == Ids(b)[i];
      }
    }
  }

  /** Two methods with one id: the second call lands on the node of the first. */
  lemma SharedIdDisagrees(m: Method, n: Method)
    requires m != n && m.id == n.id
    ensures !Agree([Enter(m), Leave(m), Enter(n)])
  {
    var ops1, ops2, ops3 := [Enter(m)], [Enter(m), Leave(m)], [Enter(m), Leave(m), Enter(n)];
    assert Init(ops3) == ops2 && Init(ops2) == ops1 && Init(ops1) == [];
    ContextAfterOk(ops3);
    var p := [m.id];
    assert ContextAfter(ops1) == Context(map[p := m], p) by {
      assert [] + [m.id] == p;
    }
    assert Init(p) == [];
    assert ContextAfter(ops2) == Context(map[p := m], []);
    assert [] + [n.id] == p;
    assert ContextAfter(ops3) == Context(map[p := m], p);
    assert StackAfter(ops1) == [m];
    assert StackAfter(ops2) == [];
    assert StackAfter(ops3) == [n];
    assert MethodsTo(map[p := m], p)[0] == m;
  }

  /** The records agree on every run of calls and returns exactly when no two of the methods share an id. */
  lemma RecordsAgreeIffIdsUnique(methods: set<Method>)
    ensures (forall ops {:trigger Agree(ops)} :: Uses(methods, ops) ==> Agree(ops)) <==> UniqueIds(methods)
  {
    if UniqueIds(methods) {
      forall ops | Uses(methods, ops) ensures Agree(ops) {
        UniqueIdsAgree(methods, ops);
      }
    } else {
      var m, n :| m in methods && n in methods && m.id == n.id && m != n;
      SharedIdDisagrees(m, n);
      assert Uses(methods, [Enter(m), Leave(m), Enter(n)]);
    }
  }
}
