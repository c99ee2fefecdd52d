/** Union-find over heap objects (simulator/analyze.cpp). Objects are identified by their ids. */
module DisjointSets {

  // ----- The equivalence a run of unions is meant to build -----

  type Pairs = seq<(nat, nat)>

  /** x and y are joined by the unions of `us`, taken one after the other. */
  ghost predicate Related(us: Pairs, x: nat, y: nat)
    decreases |us|
  {
    if us == [] then x == y
    else
      var rest := us[..|us| - 1];
      var (a, b) := us[|us| - 1];
      || Related(rest, x, y)
      || (Related(rest, x, a) && Related(rest, b, y))
      || (Related(rest, x, b) && Related(rest, a, y))
  }

  ghost predicate IsEquivalence(e: (nat, nat) -> bool) {
    && (forall x :: e(x, x))
    && (forall x, y :: e(x, y) ==> e(y, x))
    && (forall x, y, z :: e(x, y) && e(y, z) ==> e(x, z))
  }

  ghost predicate Contains(e: (nat, nat) -> bool, us: Pairs) {
    forall i :: 0 <= i < |us| ==> e(us[i].0, us[i].1)
  }

  lemma {:induction false} RelatedSymmetric(us: Pairs, x: nat, y: nat)
    requires Related(us, x, y)
    ensures Related(us, y, x)
    decreases |us|
  {
    if us != [] {
      var rest := us[..|us| - 1];
      var (a, b) := us[|us| - 1];
      if Related(rest, x, y) {
        RelatedSymmetric(rest, x, y);
      } else if Related(rest, x, a) && Related(rest, b, y) {
        RelatedSymmetric(rest, x, a);
        RelatedSymmetric(rest, b, y);
      } else {
        RelatedSymmetric(rest, x, b);
        RelatedSymmetric(rest, a, y);
      }
    }
  }

  lemma {:induction false} RelatedTransitive(us: Pairs, x: nat, y: nat, z: nat)
    requires Related(us, x, y) && Related(us, y, z)
    ensures Related(us, x, z)
    decreases |us|
  {
    if us != [] {
      var rest := us[..|us| - 1];
      var (a, b) := us[|us| - 1];
      forall u, v, w | u in {x, y, z, a, b} && v in {x, y, z, a, b} && w in {x, y, z, a, b}
          && Related(rest, u, v) && Related(rest, v, w)
        ensures Related(rest, u, w)
      {
        RelatedTransitive(rest, u, v, w);
      }
      forall u, v | u in {x, y, z, a, b} && v in {x, y, z, a, b} && Related(rest, u, v)
        ensures Related(rest, v, u)
      {
        RelatedSymmetric(rest, u, v);
      }
    }
  }

  lemma {:induction false} RelatedReflexive(us: Pairs, x: nat)
    ensures Related(us, x, x)
    decreases |us|
  {
    if us != [] {
      RelatedReflexive(us[..|us| - 1], x);
    }
  }

  lemma {:induction false} RelatedContains(us: Pairs, i: nat)
    requires i < |us|
    ensures Related(us, us[i].0, us[i].1)
    decreases |us|
  {
    var rest := us[..|us| - 1];
    if i < |rest| {
      RelatedContains(rest, i);
    } else {
      RelatedReflexive(rest, us[i].0);
      RelatedReflexive(rest, us[i].1);
    }
  }

  lemma {:induction false} RelatedLeast(us: Pairs, e: (nat, nat) -> bool, x: nat, y: nat)
    requires IsEquivalence(e) && Contains(e, us) && Related(us, x, y)
    ensures e(x, y)
    decreases |us|
  {
    if us != [] {
      var rest := us[..|us| - 1];
      var (a, b) := us[|us| - 1];
      assert e(a, b);
      if Related(rest, x, y) {
        RelatedLeast(rest, e, x, y);
      } else if Related(rest, x, a) && Related(rest, b, y) {
        RelatedLeast(rest, e, x, a);
        RelatedLeast(rest, e, b, y);
      } else {
        RelatedLeast(rest, e, x, b);
        RelatedLeast(rest, e, a, y);
      }
    }
  }

  ghost function Joined(us: Pairs): (nat, nat) -> bool {
    (x: nat, y: nat) => Related(us, x, y)
  }

  /** Related(us, _, _) is the equivalence closure of the pairs in `us`. */
  lemma RelatedIsEquivalenceClosure(us: Pairs)
    ensures IsEquivalence(Joined(us)) && Contains(Joined(us), us)
    ensures forall e: (nat, nat) -> bool, x, y ::
      IsEquivalence(e) && Contains(e, us) && Joined(us)(x, y) ==> e(x, y)
  {
    var r := Joined(us);
    forall x: nat ensures r(x, x) { RelatedReflexive(us, x); }
    forall x: nat, y: nat | r(x, y) ensures r(y, x) { RelatedSymmetric(us, x, y); }
    forall x: nat, y: nat, z: nat | r(x, y) && r(y, z) ensures r(x, z) { RelatedTransitive(us, x, y, z); }
    forall i: nat | i < |us| ensures r(us[i].0, us[i].1) { RelatedContains(us, i); }
    forall e: (nat, nat) -> bool, x: nat, y: nat | IsEquivalence(e) && Contains(e, us) && r(x, y)
      ensures e(x, y)
    {
      RelatedLeast(us, e, x, y);
    }
  }

  // ----- Forests of parent links -----

  function Pow2(n: nat): nat {
    if n == 0 then 1 else 2 * Pow2(n - 1)
  }

  lemma {:induction false} Pow2Monotone(m: nat, n: nat)
    requires m <= n
    ensures Pow2(m) <= Pow2(n)
    decreases n - m
  {
    if m < n {
      Pow2Monotone(m + 1, n);
    }
  }

  lemma {:induction false} Pow2Exceeds(n: nat)
    ensures n < Pow2(n)
  {
    if n > 0 {
      Pow2Exceeds(n - 1);
    }
  }

  /** What operator[] of a C++ map gives: 0 for a key that is not there. */
  function At(m: map<nat, nat>, x: nat): nat {
    if x in m then m[x] else 0
  }

  /**
   * Parent links, each element with a level. The level of an element that has a rank is its rank plus one; an element
   * that was never made has no rank, is never a root and has level 0.
   */
  datatype Forest = Forest(parent: map<nat, nat>, level: map<nat, nat>) {

    /** Levels rise strictly along parent links and are bounded by the number of elements. */
    ghost predicate Valid() {
      && level.Keys == parent.Keys
      && forall x {:trigger Sound(x)} :: x in parent ==> Sound(x)
    }

    ghost predicate Sound(x: nat)
      requires level.Keys == parent.Keys && x in parent
    {
      && parent[x] in parent
      && level[x] <= |parent|
      && if parent[x] == x then level[x] > 0 else level[x] < level[parent[x]]
    }

    ghost function Root(x: nat): (r: nat)
      requires Valid() && x in parent
      ensures r in parent && parent[r] == r && level[x] <= level[r]
      ensures r != x ==> level[x] < level[r]
      decreases |parent| - level[x]
    {
      assert Sound(x);
      if parent[x] == x then x else Root(parent[x])
    }

    /** The number of parent links from x to its root. */
    ghost function Depth(x: nat): (d: nat)
      requires Valid() && x in parent
      ensures d <= level[Root(x)] - level[x]
      decreases |parent| - level[x]
    {
      assert Sound(x);
      if parent[x] == x then 0 else 1 + Depth(parent[x])
    }

    ghost function Class(r: nat): set<nat>
      requires Valid()
    {
      set y | y in parent && Root(y) == r
    }

    /** A root of rank k has at least 2^k elements below it or at it. */
    ghost predicate Heavy()
      requires Valid()
    {
      forall r {:trigger HeavyAt(r)} :: r in parent ==> HeavyAt(r)
    }

    ghost predicate HeavyAt(r: nat)
      requires Valid() && r in parent
    {
      parent[r] == r ==> Pow2(level[r]) <= 2 * |Class(r)|
    }

    /** `size` holds, at every root, the number of elements of its tree that were made. */
    ghost predicate Sized(size: map<nat, nat>, made: set<nat>)
      requires Valid()
    {
      forall r {:trigger SizedAt(size, made, r)} :: r in parent ==> SizedAt(size, made, r)
    }

    ghost predicate SizedAt(size: map<nat, nat>, made: set<nat>, r: nat)
      requires Valid() && r in parent
    {
      parent[r] == r ==> At(size, r) == |Class(r) * made|
    }

    ghost predicate Agrees(us: Pairs, x: nat, y: nat)
      requires Valid() && x in parent && y in parent
    {
      Related(us, x, y) <==> Root(x) == Root(y)
    }

    /** Sharing a root is being related by the unions `us`. */
    ghost predicate Implements(us: Pairs)
      requires Valid()
    {
      && (forall i :: 0 <= i < |us| ==> us[i].0 in parent && us[i].1 in parent)
      && forall x, y {:trigger Agrees(us, x, y)} :: x in parent && y in parent ==> Agrees(us, x, y)
    }
  }

  ghost predicate KeepsRoot(f: Forest, f': Forest, y: nat)
    requires f.Valid() && f'.Valid() && y in f.parent && y in f'.parent
  {
    f'.Root(y) == f.Root(y)
  }

  /** f' holds the elements of f, perhaps more, each under the root it has in f. */
  ghost predicate KeepsRoots(f: Forest, f': Forest) {
    && f.Valid() && f'.Valid() && f.parent.Keys <= f'.parent.Keys
    && forall y {:trigger KeepsRoot(f, f', y)} :: y in f.parent ==> KeepsRoot(f, f', y)
  }

  ghost predicate SameRoots(f: Forest, f': Forest) {
    KeepsRoots(f, f') && f'.parent.Keys == f.parent.Keys && f'.level == f.level
  }

  lemma SameRootsReflexive(f: Forest)
    requires f.Valid()
    ensures SameRoots(f, f)
  {
  }

  lemma KeepsRootsReflexive(f: Forest)
    requires f.Valid()
    ensures KeepsRoots(f, f)
  {
  }

  lemma KeepsRootsTransitive(f: Forest, g: Forest, h: Forest)
    requires KeepsRoots(f, g) && KeepsRoots(g, h)
    ensures KeepsRoots(f, h)
  {
    forall y | y in f.parent ensures KeepsRoot(f, h, y) {
      assert KeepsRoot(f, g, y) && KeepsRoot(g, h, y);
    }
  }

  lemma SameRootsSameClass(f: Forest, f': Forest, r: nat)
    requires SameRoots(f, f') && r in f.parent
    ensures f'.Class(r) == f.Class(r) && (f'.parent[r] == r <==> f.parent[r] == r)
  {
    assert KeepsRoot(f, f', r);
    forall y | y in f.parent ensures y in f'.Class(r) <==> y in f.Class(r) {
      assert KeepsRoot(f, f', y);
    }
  }

  lemma SameRootsKeepInvariants(f: Forest, f': Forest, size: map<nat, nat>, made: set<nat>, us: Pairs)
    requires SameRoots(f, f')
    requires f.Heavy() && f.Sized(size, made) && f.Implements(us)
    ensures f'.Heavy() && f'.Sized(size, made) && f'.Implements(us)
  {
    forall r | r in f.parent ensures f'.HeavyAt(r) && f'.SizedAt(size, made, r) {
      SameRootsSameClass(f, f', r);
      assert f.HeavyAt(r) && f.SizedAt(size, made, r);
    }
    forall x, y | x in f.parent && y in f.parent ensures f'.Agrees(us, x, y) {
      assert f.Agrees(us, x, y) && KeepsRoot(f, f', x) && KeepsRoot(f, f', y);
    }
  }

  lemma SubsetSize(a: set<nat>, b: set<nat>)
    requires a <= b
    ensures |a| <= |b|
  {
    assert b == a + (b - a);
  }

  /** The recursion of `find` is at most log2 of the number of elements deep, and one deeper for an unmade element. */
  lemma DepthIsLogarithmic(f: Forest, x: nat)
    requires f.Valid() && f.Heavy() && x in f.parent
    ensures Pow2(f.Depth(x)) <= if f.level[x] > 0 then |f.parent| else 2 * |f.parent|
  {
    var r := f.Root(x);
    assert f.HeavyAt(r);
    Pow2Monotone(f.Depth(x) + if f.level[x] > 0 then 1 else 0, f.level[r]);
    SubsetSize(f.Class(r), f.parent.Keys);
  }

  /** The size stored at a root is the size of its class if and only if all of it was made; then it is at least 2^rank. */
  lemma SizeOfClass(f: Forest, size: map<nat, nat>, made: set<nat>, r: nat)
    requires f.Valid() && f.Heavy() && f.Sized(size, made) && r in f.parent && f.parent[r] == r
    ensures At(size, r) == |f.Class(r)| <==> f.Class(r) <= made
    ensures f.level[r] > 0 && (f.Class(r) <= made ==> Pow2(f.level[r] - 1) <= At(size, r))
  {
    assert f.Sound(r) && f.HeavyAt(r) && f.SizedAt(size, made, r);
    var counted := f.Class(r) * made;
    SubsetSize(counted, f.Class(r));
    if f.Class(r) <= made {
      assert counted == f.Class(r);
    } else {
      var y :| y in f.Class(r) && y !in made;
      SubsetSize(counted, f.Class(r) - {y});
    }
  }

  /** Comparing two results of `find` decides whether the unions so far have joined x and y. */
  lemma FindDecidesRelated(f: Forest, us: Pairs, x: nat, y: nat)
    requires f.Valid() && f.Implements(us) && x in f.parent && y in f.parent
    ensures f.Root(x) == f.Root(y) <==> Joined(us)(x, y)
  {
    assert f.Agrees(us, x, y);
  }

  // ----- Path compression -----

  lemma {:induction false} CompressionKeepsRoot(f: Forest, x: nat, f': Forest, y: nat)
    requires f.Valid() && x in f.parent && y in f.parent
    requires f' == Forest(f.parent[x := f.Root(x)], f.level) && f'.Valid()
    ensures f'.Root(y) == f.Root(y)
    decreases |f.parent| - f.level[y]
  {
    assert f.Sound(y) && f'.Sound(y);
    if f.parent[y] != y && y != x {
      CompressionKeepsRoot(f, x, f', f.parent[y]);
    }
  }

  lemma CompressionIsValid(f: Forest, x: nat, f': Forest)
    requires f.Valid() && x in f.parent && f' == Forest(f.parent[x := f.Root(x)], f.level)
    ensures f'.Valid() && f'.parent.Keys == f.parent.Keys
  {
    assert f'.parent.Keys == f.parent.Keys;
    forall y | y in f'.parent ensures f'.Sound(y) {
      assert f.Sound(y);
    }
  }

  /** Pointing an element straight at its root changes nobody's root. */
  lemma CompressionKeepsRoots(f: Forest, x: nat)
    requires f.Valid() && x in f.parent
    ensures SameRoots(f, Forest(f.parent[x := f.Root(x)], f.level))
  {
    var f' := Forest(f.parent[x := f.Root(x)], f.level);
    CompressionIsValid(f, x, f');
    forall y | y in f.parent ensures KeepsRoot(f, f', y) {
      CompressionKeepsRoot(f, x, f', y);
    }
  }

  // ----- A new element -----

  /** f' is f with the new element x, at its own root or as a leaf of level 0 under the root `top`. */
  ghost predicate Extended(f: Forest, f': Forest, x: nat, top: nat) {
    && f.Valid() && x !in f.parent
    && f'.parent == f.parent[x := top]
    && if top == x then f'.level == f.level[x := 1]
       else top in f.parent && f.parent[top] == top && f'.level == f.level[x := 0]
  }

  lemma ExtendedIsValid(f: Forest, f': Forest, x: nat, top: nat)
    requires Extended(f, f', x, top)
    ensures f'.Valid() && f'.parent.Keys == f.parent.Keys + {x}
  {
    assert f'.parent.Keys == f.parent.Keys + {x};
    assert |f'.parent.Keys| == |f.parent.Keys| + 1;
    forall y | y in f'.parent ensures f'.Sound(y) {
      if y == x {
        assert top != x ==> f.Sound(top);
      } else {
        assert f.Sound(y);
      }
    }
  }

  lemma {:induction false} ExtendedRoot(f: Forest, f': Forest, x: nat, top: nat, y: nat)
    requires Extended(f, f', x, top) && f'.Valid() && y in f.parent
    ensures f'.Root(y) == f.Root(y)
    decreases |f.parent| - f.level[y]
  {
    assert f.Sound(y) && f'.Sound(y);
    if f.parent[y] != y {
      ExtendedRoot(f, f', x, top, f.parent[y]);
    }
  }

  /** A new element leaves every other root alone. */
  lemma ExtendedKeepsRoots(f: Forest, f': Forest, x: nat, top: nat)
    requires Extended(f, f', x, top)
    ensures KeepsRoots(f, f') && f'.parent.Keys == f.parent.Keys + {x} && f'.Root(x) == top
  {
    ExtendedIsValid(f, f', x, top);
    assert f'.Sound(x);
    forall y | y in f.parent ensures KeepsRoot(f, f', y) {
      ExtendedRoot(f, f', x, top, y);
    }
    if top != x {
      assert f'.Root(x) == f'.Root(top);
    }
  }

  lemma ExtendedClass(f: Forest, f': Forest, x: nat, top: nat, r: nat)
    requires KeepsRoots(f, f') && x !in f.parent && f'.parent.Keys == f.parent.Keys + {x} && f'.Root(x) == top
    ensures f'.Class(r) == f.Class(r) + if r == top then {x} else {}
  {
    forall y | y in f.parent ensures y in f'.Class(r) <==> y in f.Class(r) {
      assert KeepsRoot(f, f', y);
    }
  }

  lemma ClassOfNothing(f: Forest, x: nat)
    requires f.Valid() && x !in f.parent
    ensures f.Class(x) == {}
  {
  }

  lemma ExtendedIsHeavy(f: Forest, f': Forest, x: nat, top: nat)
    requires Extended(f, f', x, top) && f.Heavy()
    ensures f'.Valid() && f'.Heavy()
  {
    ExtendedKeepsRoots(f, f', x, top);
    forall r | r in f'.parent ensures f'.HeavyAt(r) {
      ExtendedClass(f, f', x, top, r);
      SubsetSize(f.Class(r), f'.Class(r));
      if r != x {
        assert f.HeavyAt(r);
      } else if top == x {
        ClassOfNothing(f, x);
        assert Pow2(1) == 2;
      }
    }
  }

  /** The sizes still count the made elements, the new one included if it was made. */
  lemma ExtendedIsSized(f: Forest, f': Forest, x: nat, top: nat, size: map<nat, nat>, made: set<nat>, isMade: bool)
    requires Extended(f, f', x, top) && f.Sized(size, made) && (isMade ==> top == x)
    requires size.Keys <= f.parent.Keys && made <= f.parent.Keys
    ensures f'.Valid()
    ensures f'.Sized(if isMade then size[x := 1] else size, if isMade then made + {x} else made)
  {
    ExtendedKeepsRoots(f, f', x, top);
    ClassOfNothing(f, x);
    var size', made' := if isMade then size[x := 1] else size, if isMade then made + {x} else made;
    forall r | r in f'.parent ensures f'.SizedAt(size', made', r) {
      ExtendedClass(f, f', x, top, r);
      if r == x {
        assert f'.Class(x) * made' == if isMade then {x} else {};
      } else {
        assert f.SizedAt(size, made, r);
        assert f'.Class(r) * made' == f.Class(r) * made;
      }
    }
  }

  /** An element no union has mentioned is related to itself alone. */
  lemma {:induction false} FreshElementUnrelated(us: Pairs, x: nat, y: nat)
    requires forall i :: 0 <= i < |us| ==> us[i].0 != x && us[i].1 != x
    ensures Related(us, x, y) <==> x == y
    ensures Related(us, y, x) <==> x == y
    decreases |us|
  {
    if us != [] {
      var rest := us[..|us| - 1];
      var (a, b) := us[|us| - 1];
      FreshElementUnrelated(rest, x, y);
      FreshElementUnrelated(rest, x, a);
      FreshElementUnrelated(rest, x, b);
    }
  }

  /** What a new element is joined to: nothing, or the element `partner`, under whose root it hangs. */
  function JoinedTo(us: Pairs, x: nat, top: nat, partner: nat): Pairs {
    if top == x then us else us + [(partner, x)]
  }

  lemma ExtendedImplements(f: Forest, f': Forest, us: Pairs, x: nat, top: nat, partner: nat)
    requires Extended(f, f', x, top) && f.Implements(us)
    requires top != x ==> partner in f.parent && f.Root(partner) == top
    ensures f'.Valid() && f'.Implements(JoinedTo(us, x, top, partner))
  {
    ExtendedKeepsRoots(f, f', x, top);
    var us' := JoinedTo(us, x, top, partner);
    assert top != x ==> us'[..|us|] == us;
    forall y, z | y in f'.parent && z in f'.parent ensures f'.Agrees(us', y, z) {
      FreshElementUnrelated(us, x, y);
      FreshElementUnrelated(us, x, z);
      if y in f.parent {
        assert KeepsRoot(f, f', y) && f.Root(y) != x;
        assert top != x ==> f.Agrees(us, y, partner);
      }
      if z in f.parent {
        assert KeepsRoot(f, f', z) && f.Root(z) != x;
        assert top != x ==> f.Agrees(us, partner, z);
      }
      if y in f.parent && z in f.parent {
        assert f.Agrees(us, y, z);
      }
      if top != x {
        FreshElementUnrelated(us, x, partner);
      }
    }
  }

  lemma ExtendedKeepsInvariants(f: Forest, f': Forest, x: nat, top: nat, partner: nat, size: map<nat, nat>,
                                made: set<nat>, us: Pairs, isMade: bool)
    requires Extended(f, f', x, top) && f.Heavy() && f.Sized(size, made) && f.Implements(us)
    requires size.Keys <= f.parent.Keys && made <= f.parent.Keys && (isMade ==> top == x)
    requires top != x ==> partner in f.parent && f.Root(partner) == top
    ensures f'.Valid() && KeepsRoots(f, f') && f'.parent.Keys == f.parent.Keys + {x} && f'.Root(x) == top
    ensures f'.Heavy() && f'.Sized(if isMade then size[x := 1] else size, if isMade then made + {x} else made)
    ensures f'.Implements(JoinedTo(us, x, top, partner)) && (top == x ==> f'.Class(x) == {x})
  {
    hide Forest.Heavy, Forest.Sized, Forest.Implements, KeepsRoots;
    ExtendedKeepsRoots(f, f', x, top);
    ExtendedIsHeavy(f, f', x, top);
    ExtendedIsSized(f, f', x, top, size, made, isMade);
    ExtendedImplements(f, f', us, x, top, partner);
    NewClass(f, f', x, top);
  }

  lemma NewClass(f: Forest, f': Forest, x: nat, top: nat)
    requires KeepsRoots(f, f') && x !in f.parent && f'.parent.Keys == f.parent.Keys + {x} && f'.Root(x) == top
    ensures top == x ==> f'.Class(x) == {x}
  {
    ExtendedClass(f, f', x, top, x);
    ClassOfNothing(f, x);
  }

  // ----- Union by rank -----

  /** The root that stays a root when the trees of a and b are united: the one of higher rank, a's on a tie. */
  ghost function Winner(f: Forest, a: nat, b: nat): nat
    requires f.Valid() && a in f.parent && b in f.parent
  {
    if f.level[f.Root(a)] < f.level[f.Root(b)] then f.Root(b) else f.Root(a)
  }

  ghost function Loser(f: Forest, a: nat, b: nat): nat
    requires f.Valid() && a in f.parent && b in f.parent
  {
    if f.level[f.Root(a)] < f.level[f.Root(b)] then f.Root(a) else f.Root(b)
  }

  ghost predicate MovesRoot(f: Forest, f': Forest, child: nat, top: nat, y: nat)
    requires f.Valid() && f'.Valid() && y in f.parent && y in f'.parent
  {
    f'.Root(y) == if f.Root(y) == child then top else f.Root(y)
  }

  /** f' keeps every root of f except that `child` gives way to `top`. */
  ghost predicate Redirected(f: Forest, f': Forest, child: nat, top: nat) {
    && f.Valid() && f'.Valid() && f'.parent.Keys == f.parent.Keys
    && forall y {:trigger MovesRoot(f, f', child, top, y)} :: y in f.parent ==> MovesRoot(f, f', child, top, y)
  }

  /** f' is f after the union of a and b by rank. */
  ghost predicate UnitedByRank(f: Forest, f': Forest, a: nat, b: nat) {
    && f.Valid() && a in f.parent && b in f.parent
    && Redirected(f, f', Loser(f, a, b), Winner(f, a, b))
    && f'.level == (if f.Root(a) != f.Root(b) && f.level[f.Root(a)] == f.level[f.Root(b)]
                   then f.level[f.Root(a) := f.level[f.Root(a)] + 1] else f.level)
  }

  /** f' is f with the root `child` hung below the root `top`, whose rank may have grown. */
  ghost predicate Linked(f: Forest, f': Forest, child: nat, top: nat) {
    && f.Valid()
    && child in f.parent && top in f.parent && child != top
    && f.parent[child] == child && f.parent[top] == top
    && f'.parent == f.parent[child := top]
    && top in f'.level && f'.level == f.level[top := f'.level[top]]
    && f.level[child] < f'.level[top] <= |f.parent|
    && f.level[top] <= f'.level[top]
  }

  /** The new ranks stay in bounds and above the child's. */
  lemma LinkedIsValid(f: Forest, f': Forest, child: nat, top: nat)
    requires Linked(f, f', child, top)
    ensures f'.Valid() && f'.parent.Keys == f.parent.Keys
  {
    assert f'.parent.Keys == f.parent.Keys;
    forall x | x in f'.parent ensures f'.Sound(x) {
      assert f.Sound(x);
    }
  }

  lemma {:induction false} LinkRoot(f: Forest, f': Forest, child: nat, top: nat, y: nat)
    requires Linked(f, f', child, top) && f'.Valid() && y in f.parent
    ensures f'.Root(y) == if f.Root(y) == child then top else f.Root(y)
    decreases |f.parent| - f.level[y]
  {
    assert f.Sound(y) && f'.Sound(y);
    if f.parent[y] != y {
      LinkRoot(f, f', child, top, f.parent[y]);
    } else if y == child {
      assert f'.Root(child) == f'.Root(top) == top;
    }
  }

  lemma LinkRedirects(f: Forest, f': Forest, child: nat, top: nat)
    requires Linked(f, f', child, top)
    ensures Redirected(f, f', child, top)
  {
    LinkedIsValid(f, f', child, top);
    forall y | y in f.parent ensures MovesRoot(f, f', child, top, y) {
      LinkRoot(f, f', child, top, y);
    }
  }

  lemma RedirectedClass(f: Forest, f': Forest, child: nat, top: nat, r: nat)
    requires Redirected(f, f', child, top) && r != child && child != top
    ensures f'.Class(r) == f.Class(r) + if r == top then f.Class(child) else {}
    ensures f.Class(child) !! f.Class(r)
  {
    hide Forest.Valid, Forest.Sound;
    forall y | y in f.parent
      ensures y in f'.Class(r) <==> y in f.Class(r) || (r == top && y in f.Class(child))
    {
      assert MovesRoot(f, f', child, top, y);
    }
  }

  lemma LinkIsHeavy(f: Forest, f': Forest, child: nat, top: nat)
    requires Linked(f, f', child, top) && f.Heavy()
    requires Pow2(f'.level[top]) <= 2 * (|f.Class(child)| + |f.Class(top)|)
    ensures f'.Valid() && f'.Heavy()
  {
    LinkRedirects(f, f', child, top);
    forall r | r in f'.parent ensures f'.HeavyAt(r) {
      if f'.parent[r] == r {
        RedirectedClass(f, f', child, top, r);
        assert f.HeavyAt(r);
      }
    }
  }

  /** size' is size with the two sizes added up at `top`. */
  ghost predicate AddedUp(size: map<nat, nat>, size': map<nat, nat>, child: nat, top: nat) {
    && At(size', top) == At(size, top) + At(size, child)
    && forall r :: r != top && r != child ==> At(size', r) == At(size, r)
  }

  lemma CountBoth(a: set<nat>, b: set<nat>, made: set<nat>)
    requires a !! b
    ensures |(a + b) * made| == |a * made| + |b * made|
  {
    assert (a + b) * made == a * made + b * made;
  }

  lemma LinkIsSized(f: Forest, f': Forest, size: map<nat, nat>, size': map<nat, nat>, made: set<nat>,
                    child: nat, top: nat)
    requires Redirected(f, f', child, top) && f.Sized(size, made) && AddedUp(size, size', child, top) && child != top
    requires child in f.parent && f.parent[child] == child && top in f.parent && f.parent[top] == top
    requires forall r :: r in f.parent && r != child ==> (f'.parent[r] == r <==> f.parent[r] == r)
    requires f'.parent[child] != child
    ensures f'.Sized(size', made)
  {
    hide Forest.Sound, Forest.Class;
    assert f.SizedAt(size, made, child) && f.SizedAt(size, made, top);
    forall r | r in f'.parent ensures f'.SizedAt(size', made, r) {
      if f'.parent[r] == r {
        RedirectedClass(f, f', child, top, r);
        assert f.SizedAt(size, made, r);
        CountBoth(f.Class(r), f.Class(child), made);
      }
    }
  }

  lemma LinkImplements(f: Forest, f': Forest, us: Pairs, child: nat, top: nat, a: nat, b: nat)
    requires Redirected(f, f', child, top) && f.Implements(us) && child != top
    requires child in f.parent && top in f.parent
    requires a in f.parent && b in f.parent
    requires (f.Root(a) == child && f.Root(b) == top) || (f.Root(a) == top && f.Root(b) == child)
    ensures f'.Implements(us + [(a, b)])
  {
    assert (us + [(a, b)])[..|us|] == us;
    forall x, y | x in f.parent && y in f.parent ensures f'.Agrees(us + [(a, b)], x, y) {
      assert f.Agrees(us, x, y) && f.Agrees(us, x, a) && f.Agrees(us, b, y);
      assert f.Agrees(us, x, b) && f.Agrees(us, a, y);
      assert MovesRoot(f, f', child, top, x) && MovesRoot(f, f', child, top, y);
    }
  }

  lemma RedundantUnionKeepsInvariants(f: Forest, us: Pairs, a: nat, b: nat)
    requires f.Valid() && f.Implements(us)
    requires a in f.parent && b in f.parent && f.Root(a) == f.Root(b)
    ensures f.Implements(us + [(a, b)])
  {
    assert (us + [(a, b)])[..|us|] == us;
    forall x, y | x in f.parent && y in f.parent ensures f.Agrees(us + [(a, b)], x, y) {
      assert f.Agrees(us, x, y) && f.Agrees(us, x, a) && f.Agrees(us, b, y);
      assert f.Agrees(us, x, b) && f.Agrees(us, a, y);
    }
  }

  /** Two distinct roots of equal rank leave room for a rank one higher. */
  lemma TieLeavesRoom(f: Forest, a: nat, b: nat)
    requires f.Valid() && f.Heavy() && a in f.parent && b in f.parent && a != b
    requires f.parent[a] == a && f.parent[b] == b && f.level[a] == f.level[b]
    ensures f.level[a] + 1 <= |f.parent|
    ensures Pow2(f.level[a] + 1) <= 2 * (|f.Class(a)| + |f.Class(b)|)
  {
    assert f.HeavyAt(a) && f.HeavyAt(b);
    assert f.Class(a) !! f.Class(b);
    SubsetSize(f.Class(a) + f.Class(b), f.parent.Keys);
    Pow2Exceeds(f.level[a]);
  }

  /** f' is f with the root `child` hung below the root `top` of no lower rank, which grows on a tie. */
  ghost predicate LinkedByRank(f: Forest, f': Forest, child: nat, top: nat) {
    && f.Valid() && child in f.parent && top in f.parent && child != top
    && f.parent[child] == child && f.parent[top] == top && f.level[child] <= f.level[top]
    && f'.parent == f.parent[child := top]
    && f'.level == if f.level[child] == f.level[top] then f.level[top := f.level[top] + 1] else f.level
  }

  lemma UnionLinks(f: Forest, f': Forest, child: nat, top: nat)
    requires LinkedByRank(f, f', child, top) && f.Heavy()
    ensures Linked(f, f', child, top) && Pow2(f'.level[top]) <= 2 * (|f.Class(child)| + |f.Class(top)|)
  {
    assert f.Sound(child) && f.Sound(top);
    if f.level[child] == f.level[top] {
      TieLeavesRoom(f, child, top);
    } else {
      assert f.HeavyAt(top);
    }
  }

  lemma UnionIsHeavyAndSized(f: Forest, f': Forest, size: map<nat, nat>, size': map<nat, nat>, made: set<nat>,
                             child: nat, top: nat)
    requires LinkedByRank(f, f', child, top) && f.Heavy() && f.Sized(size, made) && AddedUp(size, size', child, top)
    ensures Redirected(f, f', child, top) && f'.Heavy() && f'.Sized(size', made)
  {
    hide Forest.Heavy, Forest.Sized, Forest.Class, Forest.Sound, AddedUp, Redirected;
    UnionLinks(f, f', child, top);
    LinkRedirects(f, f', child, top);
    LinkIsHeavy(f, f', child, top);
    LinkIsSized(f, f', size, size', made, child, top);
  }

  lemma UnionKeepsInvariants(f: Forest, f': Forest, size: map<nat, nat>, size': map<nat, nat>, made: set<nat>,
                             us: Pairs, a: nat, b: nat)
    requires f.Valid() && f.Heavy() && f.Sized(size, made) && f.Implements(us)
    requires a in f.parent && b in f.parent && f.Root(a) != f.Root(b)
    requires LinkedByRank(f, f', Loser(f, a, b), Winner(f, a, b))
    requires AddedUp(size, size', Loser(f, a, b), Winner(f, a, b))
    ensures f'.Valid() && UnitedByRank(f, f', a, b)
    ensures f'.Heavy() && f'.Sized(size', made) && f'.Implements(us + [(a, b)])
  {
    hide Forest.Heavy, Forest.Sized, Forest.Implements, Forest.Sound, AddedUp, Related;
    var child, top := Loser(f, a, b), Winner(f, a, b);
    UnionIsHeavyAndSized(f, f', size, size', made, child, top);
    LinkImplements(f, f', us, child, top, a, b);
  }

  lemma RedirectedAfterFinds(f: Forest, g: Forest, f': Forest, child: nat, top: nat)
    requires SameRoots(f, g) && Redirected(g, f', child, top)
    ensures Redirected(f, f', child, top)
  {
    forall y | y in f.parent ensures MovesRoot(f, f', child, top, y) {
      assert KeepsRoot(f, g, y) && MovesRoot(g, f', child, top, y);
    }
  }

  lemma UnitedAfterFinds(f: Forest, g: Forest, f': Forest, a: nat, b: nat)
    requires SameRoots(f, g) && UnitedByRank(g, f', a, b)
    ensures UnitedByRank(f, f', a, b)
  {
    assert KeepsRoot(f, g, a) && KeepsRoot(f, g, b);
    var child, top := Loser(f, a, b), Winner(f, a, b);
    assert child == Loser(g, a, b) && top == Winner(g, a, b);
    RedirectedAfterFinds(f, g, f', child, top);
  }

  /** Uniting two elements of one class changes nothing. */
  lemma RedundantUnion(f: Forest, us: Pairs, a: nat, b: nat)
    requires f.Valid() && f.Implements(us) && a in f.parent && b in f.parent && f.Root(a) == f.Root(b)
    ensures UnitedByRank(f, f, a, b) && f.Implements(us + [(a, b)])
  {
    RedundantUnionKeepsInvariants(f, us, a, b);
    var root := f.Root(a);
    forall y | y in f.parent ensures MovesRoot(f, f, root, root, y) {
    }
  }

  // ----- Grouping -----

  predicate InGroup(sets: map<nat, set<nat>>, r: nat, y: nat) {
    r in sets && y in sets[r]
  }

  /** `sets` groups the elements of `done` by root. */
  ghost predicate Grouped(f: Forest, done: set<nat>, sets: map<nat, set<nat>>) {
    && f.Valid() && done <= f.parent.Keys
    && (forall r, y {:trigger InGroup(sets, r, y)} :: InGroup(sets, r, y) <==> y in done && f.Root(y) == r)
    && {} !in sets.Values
  }

  lemma GroupedNothing(f: Forest)
    requires f.Valid()
    ensures Grouped(f, {}, map[])
  {
  }

  lemma GroupOneMore(f: Forest, g: Forest, done: set<nat>, sets: map<nat, set<nat>>, x: nat, root: nat)
    requires Grouped(f, done, sets) && SameRoots(f, g) && x in f.parent && x !in done && root == g.Root(x)
    ensures Grouped(f, done + {x}, sets[root := (if root in sets then sets[root] else {}) + {x}])
  {
    assert KeepsRoot(f, g, x);
    var sets' := sets[root := (if root in sets then sets[root] else {}) + {x}];
    forall r: nat, y: nat
      ensures InGroup(sets', r, y) <==> y in done + {x} && f.Root(y) == r
    {
      assert InGroup(sets, r, y) <==> y in done && f.Root(y) == r;
    }
  }

  /** The groups are the classes of the unions performed, as far as they are listed, each filed under its root. */
  lemma GroupsAreClasses(f: Forest, done: set<nat>, sets: map<nat, set<nat>>, us: Pairs)
    requires Grouped(f, done, sets) && f.Implements(us)
    ensures forall r :: r in sets <==> exists y :: y in done && f.Root(y) == r
    ensures forall r, y :: r in sets && y in done ==> (y in sets[r] <==> Related(us, r, y))
  {
    forall r: nat ensures r in sets <==> exists y :: y in done && f.Root(y) == r {
      if r in sets {
        assert sets[r] != {} by { assert sets[r] in sets.Values; }
        var y :| y in sets[r];
        assert InGroup(sets, r, y);
      } else {
        forall y | y in done ensures f.Root(y) != r {
          assert !InGroup(sets, r, y);
        }
      }
    }
    forall r, y | r in sets && y in done
      ensures y in sets[r] <==> Related(us, r, y)
    {
      assert sets[r] != {} by { assert sets[r] in sets.Values; }
      var z :| z in sets[r];
      assert InGroup(sets, r, z);
      assert InGroup(sets, r, y) <==> f.Root(y) == r;
      assert f.Agrees(us, r, y);
    }
  }

  // ----- The class -----

  /** The null pointer, which find enters as the parent of an element that was never made. */
  const NULL: nat := 0

  /** The pairs after find has met x: an element that is not known yet is joined to the null pointer. */
  function Met(us: Pairs, known: set<nat>, x: nat): Pairs {
    if x in known || x == NULL then us else us + [(NULL, x)]
  }

  /** The level of an element with these ranks; the null pointer always has one, 0 until it is read. */
  function LevelOf(rank: map<nat, nat>, x: nat): nat {
    if x in rank || x == NULL then At(rank, x) + 1 else 0
  }

  function Levels(elements: set<nat>, rank: map<nat, nat>): map<nat, nat> {
    map x | x in elements :: LevelOf(rank, x)
  }

  lemma LevelsWithNew(elements: set<nat>, rank: map<nat, nat>, x: nat)
    requires x !in elements && x !in rank
    ensures Levels(elements + {x}, rank[x := 0]) == Levels(elements, rank)[x := 1]
    ensures Levels(elements + {x}, rank) == Levels(elements, rank)[x := if x == NULL then 1 else 0]
  {
  }

  /** What find does: f' and us' are the trees and pairs after it has returned `root` for x. */
  ghost predicate Found(f: Forest, us: Pairs, f': Forest, us': Pairs, x: nat, root: nat) {
    && KeepsRoots(f, f') && us' == Met(us, f.parent.Keys, x)
    && x in f'.parent && root == f'.Root(x) == f'.parent[x]
    && if x in f.parent then SameRoots(f, f')
       else f'.parent.Keys == f.parent.Keys + {NULL, x} && root == f'.Root(NULL)
  }

  lemma FoundExisting(f: Forest, us: Pairs, f': Forest, x: nat, root: nat)
    requires x in f.parent && SameRoots(f, f') && root == f'.Root(x) == f'.parent[x]
    ensures Found(f, us, f', us, x, root)
  {
  }

  lemma FoundAgain(f: Forest, us: Pairs, f': Forest, x: nat, root: nat)
    requires x in f.parent && Found(f, us, f', us, x, root)
    ensures KeepsRoots(f, f') && f'.parent.Keys == f.parent.Keys && root == f'.Root(x) == f'.parent[x]
  {
  }

  lemma FoundSame(f: Forest, g: Forest, us: Pairs, h: Forest, x: nat, root: nat)
    requires SameRoots(f, g) && x in g.parent && Found(g, us, h, us, x, root)
    ensures SameRoots(f, h) && root == h.Root(x)
  {
    KeepsRootsTransitive(f, g, h);
  }

  lemma FoundNew(f: Forest, us: Pairs, f': Forest, x: nat, root: nat)
    requires x !in f.parent && KeepsRoots(f, f') && f'.parent.Keys == f.parent.Keys + {NULL} + {x}
    requires root == f'.Root(x) == f'.parent[x] && root == f'.Root(NULL)
    ensures Found(f, us, f', Met(us, f.parent.Keys, x), x, root)
  {
  }

  function Known(known: set<nat>, x: nat): set<nat> {
    if x in known then known else known + {NULL, x}
  }

  /** What two finds do, one after the other. */
  ghost predicate FoundBoth(f: Forest, us: Pairs, f': Forest, us': Pairs, a: nat, b: nat) {
    && KeepsRoots(f, f') && us' == Met(Met(us, f.parent.Keys, a), Known(f.parent.Keys, a), b)
    && f'.parent.Keys == Known(Known(f.parent.Keys, a), b)
    && (a in f.parent && b in f.parent ==> SameRoots(f, f'))
  }

  lemma UnitedFromKnown(f: Forest, us: Pairs, g: Forest, us': Pairs, h: Forest, a: nat, b: nat)
    requires FoundBoth(f, us, g, us', a, b) && UnitedByRank(g, h, a, b) && a in f.parent && b in f.parent
    ensures UnitedByRank(f, h, a, b)
  {
    UnitedAfterFinds(f, g, h, a, b);
  }

  lemma FoundTwice(f: Forest, us: Pairs, g: Forest, us1: Pairs, h: Forest, us2: Pairs, a: nat, aRoot: nat,
                   b: nat, bRoot: nat)
    requires Found(f, us, g, us1, a, aRoot) && Found(g, us1, h, us2, b, bRoot)
    ensures FoundBoth(f, us, h, us2, a, b)
    ensures a in h.parent && b in h.parent && aRoot == h.Root(a) && bRoot == h.Root(b)
  {
    KeepsRootsTransitive(f, g, h);
    assert KeepsRoot(g, h, a);
    assert g.parent.Keys == Known(f.parent.Keys, a);
  }

  lemma LevelsAfterReading(elements: set<nat>, rank: map<nat, nat>, x: nat)
    requires x in rank || x == NULL
    ensures Levels(elements, rank[x := At(rank, x)]) == Levels(elements, rank)
  {
  }

  lemma LevelOfRanked(elements: set<nat>, rank: map<nat, nat>, x: nat)
    requires x in elements && x in rank
    ensures x in Levels(elements, rank) && Levels(elements, rank)[x] == rank[x] + 1
  {
  }

  lemma LevelsAfterTie(elements: set<nat>, rank: map<nat, nat>, x: nat)
    requires x in rank && x in elements
    ensures Levels(elements, rank[x := rank[x] + 1]) == Levels(elements, rank)[x := Levels(elements, rank)[x] + 1]
  {
  }

  lemma SizesAfterReading(f: Forest, size: map<nat, nat>, size': map<nat, nat>, made: set<nat>)
    requires f.Valid() && f.Sized(size, made) && forall x :: At(size', x) == At(size, x)
    ensures f.Sized(size', made)
  {
    forall r | r in f.parent ensures f.SizedAt(size', made, r) {
      assert f.SizedAt(size, made, r);
    }
  }

  class DisjointSets {
    var parent: map<nat, nat>
    var rank: map<nat, nat>
    var setSize: map<nat, nat>
    ghost var made: set<nat>  // the arguments of MakeSet that were new
    ghost var unions: Pairs   // the arguments of every SetUnion, and NULL with each element that Find entered

    ghost function Trees(): Forest
      reads this`parent, this`rank
    {
      Forest(parent, Levels(parent.Keys, rank))
    }

    ghost predicate Valid()
      reads this
    {
      && rank.Keys == setSize.Keys && rank.Keys <= parent.Keys && made <= rank.Keys <= made + {NULL}
      && Trees().Valid()
      && Trees().Heavy() && Trees().Sized(setSize, made)
      && Trees().Implements(unions)
    }

    constructor ()
      ensures Valid() && parent == map[] && made == {} && unions == []
    {
      parent, rank, setSize, made, unions := map[], map[], map[], {}, [];
    }

    method IsRoot(x: nat) returns (b: bool)
      requires Valid()
      ensures b <==> x in parent && Trees().Root(x) == x
    {
      assert x in parent ==> Trees().Sound(x);
      b := x in parent && parent[x] == x;
    }

    method MakeSet(x: nat)
      requires Valid()
      modifies this
      ensures Valid() && unions == old(unions) && KeepsRoots(old(Trees()), Trees())
      ensures x in old(parent) ==> Trees() == old(Trees()) && setSize == old(setSize) && made == old(made)
      ensures x !in old(parent) ==>
        && parent == old(parent)[x := x] && Trees().Class(x) == {x}
        && rank == old(rank)[x := 0] && setSize == old(setSize)[x := 1] && made == old(made) + {x}
    {
      hide Forest.Valid, Forest.Heavy, Forest.Sized, Forest.Implements, KeepsRoots, Levels;
      if x in parent {
        KeepsRootsReflexive(Trees());
      } else {
        ghost var f := Trees();
        LevelsWithNew(parent.Keys, rank, x);
        assert parent[x := x].Keys == parent.Keys + {x};
        parent := parent[x := x];
        rank := rank[x := 0];
        ExtendedKeepsInvariants(f, Trees(), x, x, x, setSize, made, unions, true);
        setSize := setSize[x := 1];
        made := made + {x};
      }
    }

    /** The root of an element that is entered and, as `depth`, how many calls it takes after the first. */
    method FindKnown(x: nat) returns (root: nat, ghost depth: nat)
      requires Valid() && x in parent
      modifies this`parent
      ensures Valid() && SameRoots(old(Trees()), Trees())
      ensures root == old(Trees().Root(x)) && parent[x] == root
      ensures depth == old(Trees().Depth(x))
      decreases |parent| - LevelOf(rank, x)
    {
      ghost var f := Trees();
      assert f.Sound(x);
      var p := parent[x];
      if p == x {
        SameRootsReflexive(f);
        return x, 0;
      }
      root, depth := FindKnown(p);
      depth := depth + 1;
      Compress(x, root, f);
    }

    /** Points x at its root, after the recursive call has pointed its ancestors there. */
    method Compress(x: nat, root: nat, ghost f: Forest)
      requires Valid() && SameRoots(f, Trees()) && x in parent && root == f.Root(x)
      modifies this`parent
      ensures Valid() && SameRoots(f, Trees()) && parent == old(parent)[x := root]
    {
      ghost var g := Trees();
      assert KeepsRoot(f, g, x);
      parent := parent[x := root];
      assert Trees() == Forest(g.parent[x := g.Root(x)], g.level);
      CompressionKeepsRoots(g, x);
      SameRootsKeepInvariants(g, Trees(), setSize, made, unions);
      KeepsRootsTransitive(f, g, Trees());
    }

    /** The null pointer becomes an element, as its own root. */
    method EnterNull()
      requires Valid() && NULL !in parent
      modifies this`parent
      ensures Valid() && parent == old(parent)[NULL := NULL] && KeepsRoots(old(Trees()), Trees())
    {
      hide Forest.Valid, Forest.Heavy, Forest.Sized, Forest.Implements, KeepsRoots, Levels;
      ghost var f := Trees();
      LevelsWithNew(parent.Keys, rank, NULL);
      assert parent[NULL := NULL].Keys == parent.Keys + {NULL};
      parent := parent[NULL := NULL];
      ExtendedKeepsInvariants(f, Trees(), NULL, NULL, NULL, setSize, made, unions, false);
    }

    /** An element that was never made becomes a leaf under the root of the null pointer. */
    method EnterUnmade(x: nat, root: nat)
      requires Valid() && x !in parent && x != NULL && NULL in parent && root == Trees().Root(NULL)
      modifies this`parent, this`unions
      ensures Valid() && parent == old(parent)[x := root] && KeepsRoots(old(Trees()), Trees())
      ensures unions == old(unions) + [(NULL, x)] && Trees().Root(x) == root
    {
      hide Forest.Valid, Forest.Heavy, Forest.Sized, Forest.Implements, KeepsRoots, Levels;
      ghost var f := Trees();
      LevelsWithNew(parent.Keys, rank, x);
      assert parent[x := root].Keys == parent.Keys + {x};
      parent := parent[x := root];
      ExtendedKeepsInvariants(f, Trees(), x, root, NULL, setSize, made, unions, false);
      unions := unions + [(NULL, x)];
    }

    /**
     * Returns the root and, as `depth`, how many times it called itself. An element that is not there is entered with
     * the null pointer as its parent, and the null pointer with itself; the call on the null pointer then finds the
     * root for both.
     */
    method Find(x: nat) returns (root: nat, ghost depth: nat)
      requires Valid()
      modifies this`parent, this`unions
      ensures Valid() && Found(old(Trees()), old(unions), Trees(), unions, x, root)
      ensures Pow2(depth) <= (if x in rank || x == NULL then 1 else 2) * |parent|
    {
      hide Forest.Valid, Forest.Heavy, Forest.Sized, Forest.Implements, Found, Levels, Pow2;
      if x in parent {
        root, depth := FindExisting(x);
      } else {
        root, depth := FindNew(x);
      }
    }

    method FindExisting(x: nat) returns (root: nat, ghost depth: nat)
      requires Valid() && x in parent
      modifies this`parent
      ensures Valid() && Found(old(Trees()), unions, Trees(), unions, x, root)
      ensures Pow2(depth) <= (if x in rank || x == NULL then 1 else 2) * |parent|
    {
      hide Forest.Heavy, Forest.Sized, Forest.Implements, Found;
      ghost var f := Trees();
      DepthIsLogarithmic(f, x);
      root, depth := FindKnown(x);
      assert KeepsRoot(f, Trees(), x);
      FoundExisting(f, unions, Trees(), x, root);
    }

    method EnsureNull()
      requires Valid()
      modifies this`parent
      ensures Valid() && KeepsRoots(old(Trees()), Trees()) && parent.Keys == old(parent.Keys) + {NULL}
    {
      hide Forest.Valid, Forest.Heavy, Forest.Sized, Forest.Implements, KeepsRoots, Levels;
      if NULL !in parent {
        EnterNull();
      } else {
        KeepsRootsReflexive(Trees());
      }
    }

    /** The call on the null pointer, which enters it if need be. */
    method FindNull() returns (root: nat, ghost depth: nat)
      requires Valid()
      modifies this`parent
      ensures Valid() && KeepsRoots(old(Trees()), Trees()) && parent.Keys == old(parent.Keys) + {NULL}
      ensures root == Trees().Root(NULL) == parent[NULL] && Pow2(depth) <= |parent|
    {
      hide Forest.Valid, Forest.Heavy, Forest.Sized, Forest.Implements, KeepsRoots, Found, Levels, Pow2;
      ghost var f := Trees();
      EnsureNull();
      ghost var g := Trees();
      root, depth := FindExisting(NULL);
      FoundAgain(g, unions, Trees(), NULL, root);
      KeepsRootsTransitive(f, g, Trees());
    }

    method FindNew(x: nat) returns (root: nat, ghost depth: nat)
      requires Valid() && x !in parent
      modifies this`parent, this`unions
      ensures Valid() && Found(old(Trees()), old(unions), Trees(), unions, x, root)
      ensures Pow2(depth) <= (if x in rank || x == NULL then 1 else 2) * |parent|
    {
      hide Forest.Valid, Forest.Heavy, Forest.Sized, Forest.Implements, KeepsRoots, Found, Levels, Pow2;
      ghost var f := Trees();
      root, depth := FindNull();
      if x == NULL {
        FoundNew(f, unions, Trees(), x, root);
      } else {
        depth := EnterBelow(x, root, depth, f);
      }
    }

    method EnterBelow(x: nat, root: nat, ghost depth: nat, ghost f: Forest) returns (ghost depth': nat)
      requires Valid() && x !in parent && x != NULL && NULL in parent && root == Trees().Root(NULL)
      requires KeepsRoots(f, Trees()) && parent.Keys == f.parent.Keys + {NULL} && Pow2(depth) <= |parent|
      modifies this`parent, this`unions
      ensures Valid() && Found(f, old(unions), Trees(), unions, x, root)
      ensures depth' == depth + 1 && Pow2(depth') <= 2 * |parent|
    {
      hide Forest.Valid, Forest.Heavy, Forest.Sized, Forest.Implements, KeepsRoots, Found, Levels, Pow2;
      ghost var g, us := Trees(), unions;
      EnterUnmade(x, root);
      StillRoot(g, Trees(), NULL);
      KeepsRootsTransitive(f, g, Trees());
      FoundNew(f, us, Trees(), x, root);
      OneDeeper(depth, g.parent, parent);
      depth' := depth + 1;
    }

    // ----- Union -----

    /** The two finds that open SetUnion; the second one sees the paths the first one has compressed. */
    method FindBoth(a: nat, b: nat) returns (aRoot: nat, bRoot: nat)
      requires Valid()
      modifies this`parent, this`unions
      ensures Valid() && FoundBoth(old(Trees()), old(unions), Trees(), unions, a, b)
      ensures a in parent && b in parent && aRoot == Trees().Root(a) && bRoot == Trees().Root(b)
    {
      hide Forest.Valid, Forest.Heavy, Forest.Sized, Forest.Implements, Found, FoundBoth, Levels, Pow2;
      ghost var f, us, depth := Trees(), unions, 0;
      aRoot, depth := Find(a);
      ghost var g, us' := Trees(), unions;
      bRoot, depth := Find(b);
      FoundTwice(f, us, g, us', Trees(), unions, a, aRoot, b, bRoot);
    }

    /** operator[] enters the ranks and sizes it reads, as 0 if they are not there. */
    method ReadRanks(aRoot: nat, bRoot: nat) returns (aRank: nat, bRank: nat)
      requires Valid() && aRoot in parent && bRoot in parent && parent[aRoot] == aRoot && parent[bRoot] == bRoot
      modifies this`rank, this`setSize
      ensures Valid() && Trees() == old(Trees()) && aRoot in rank && bRoot in rank
      ensures aRank == rank[aRoot] && bRank == rank[bRoot]
      ensures forall x :: At(setSize, x) == old(At(setSize, x))
    {
      hide Forest.Heavy, Forest.Implements, Levels;
      ghost var f := Trees();
      assert f.Sound(aRoot) && f.Sound(bRoot);
      aRank, bRank := At(rank, aRoot), At(rank, bRoot);
      RankedOrNull(aRoot);
      RankedOrNull(bRoot);
      LevelsAfterReading(parent.Keys, rank, aRoot);
      LevelsAfterReading(parent.Keys, rank[aRoot := aRank], bRoot);
      SizesAfterReading(f, setSize, setSize[aRoot := At(setSize, aRoot)][bRoot := At(setSize, bRoot)], made);
      rank := rank[aRoot := aRank][bRoot := bRank];
      setSize := setSize[aRoot := At(setSize, aRoot)][bRoot := At(setSize, bRoot)];
    }

    /** The second half of SetUnion: the tree with the smaller rank becomes the child, on a tie the one of b. */
    method LinkByRank(aRoot: nat, bRoot: nat, ghost a: nat, ghost b: nat)
      requires Valid() && a in parent && b in parent
      requires aRoot == Trees().Root(a) && bRoot == Trees().Root(b) && aRoot != bRoot
      modifies this`parent, this`rank, this`setSize, this`unions
      ensures Valid() && unions == old(unions) + [(a, b)] && UnitedByRank(old(Trees()), Trees(), a, b)
    {
      hide Forest.Heavy, Forest.Sized, Forest.Implements, Levels, UnitedByRank, LinkedByRank, AddedUp;
      var aRank, bRank := ReadRanks(aRoot, bRoot);
      ghost var f, size, us := Trees(), setSize, unions;
      LevelOfRanked(parent.Keys, rank, aRoot);
      LevelOfRanked(parent.Keys, rank, bRoot);
      if aRank < bRank {
        Link(aRoot, bRoot, false);
      } else {
        Link(bRoot, aRoot, aRank == bRank);
      }
      unions := unions + [(a, b)];
      UnionKeepsInvariants(f, Trees(), size, setSize, made, us, a, b);
    }

    /** Hangs `child` below `top`, whose rank grows on a tie, and adds up the sizes. */
    method Link(child: nat, top: nat, tie: bool)
      requires Trees().Valid() && child in rank && top in rank && rank.Keys == setSize.Keys && rank.Keys <= parent.Keys
      requires parent[child] == child != top == parent[top]
      requires if tie then rank[child] == rank[top] else rank[child] < rank[top]
      modifies this`parent, this`rank, this`setSize
      ensures parent.Keys == old(parent.Keys) && rank.Keys == old(rank.Keys) && setSize.Keys == old(setSize.Keys)
      ensures LinkedByRank(old(Trees()), Trees(), child, top) && AddedUp(old(setSize), setSize, child, top)
    {
      hide Forest.Valid, Levels;
      LevelOfRanked(parent.Keys, rank, child);
      LevelOfRanked(parent.Keys, rank, top);
      LevelsAfterTie(parent.Keys, rank, top);
      parent := parent[child := top];
      assert parent.Keys == old(parent.Keys);
      if tie {
        rank := rank[top := rank[top] + 1];
      }
      setSize := setSize[top := setSize[top] + setSize[child]];
    }

    method SetUnion(a: nat, b: nat) returns (ghost g: Forest)
      requires Valid()
      modifies this
      ensures Valid() && made == old(made)
      ensures exists us :: FoundBoth(old(Trees()), old(unions), g, us, a, b) && unions == us + [(a, b)]
      ensures UnitedByRank(g, Trees(), a, b)
      ensures a in old(parent) && b in old(parent) ==> UnitedByRank(old(Trees()), Trees(), a, b)
    {
      hide Forest.Valid, Forest.Heavy, Forest.Sized, Forest.Implements, FoundBoth, UnitedByRank, Levels;
      ghost var f := Trees();
      var aRoot, bRoot := FindBoth(a, b);
      g := Trees();
      ghost var us := unions;
      if aRoot == bRoot {
        RedundantUnion(g, unions, a, b);
        unions := unions + [(a, b)];
      } else {
        LinkByRank(aRoot, bRoot, a, b);
      }
      assert unions == us + [(a, b)];
      if a in f.parent && b in f.parent {
        UnitedFromKnown(f, old(unions), g, us, Trees(), a, b);
      }
    }

    /** A root has a rank, or is the null pointer. */
    lemma RankedOrNull(x: nat)
      requires Valid() && x in parent && parent[x] == x
      ensures x in rank || x == NULL
    {
      assert Trees().Sound(x);
    }

    // ----- Grouping -----

    /** One step of GetSets: file x under its root. */
    method GroupUnderRoot(x: nat, sets: map<nat, set<nat>>, ghost f: Forest, ghost done: set<nat>)
      returns (sets': map<nat, set<nat>>)
      requires Valid() && SameRoots(f, Trees()) && Grouped(f, done, sets) && x in f.parent && x !in done
      modifies this`parent
      ensures Valid() && SameRoots(f, Trees()) && Grouped(f, done + {x}, sets')
    {
      hide Forest.Valid, Forest.Heavy, Forest.Sized, Forest.Implements, Found, Grouped, Levels, Pow2;
      ghost var g := Trees();
      var root, _ := FindExisting(x);
      FoundSame(f, g, unions, Trees(), x, root);
      GroupOneMore(f, Trees(), done, sets, x, root);
      sets' := sets[root := (if root in sets then sets[root] else {}) + {x}];
    }

    /** Groups every element with a size into the classes of the unions, each under its root. */
    method GetSets() returns (sets: map<nat, set<nat>>)
      requires Valid()
      modifies this`parent
      ensures Valid() && SameRoots(old(Trees()), Trees()) && Grouped(old(Trees()), setSize.Keys, sets)
    {
      hide Forest.Valid, Forest.Heavy, Forest.Sized, Forest.Implements, SameRoots, Grouped, Levels;
      sets := map[];
      var todo := setSize.Keys;
      ghost var f, done := Trees(), {};
      SameRootsReflexive(f);
      GroupedNothing(f);
      while todo != {}
        invariant Valid() && SameRoots(f, Trees())
        invariant todo + done == setSize.Keys && todo !! done && Grouped(f, done, sets)
        decreases todo
      {
        var x :| x in todo;
        assert x in f.parent && x !in done;
        sets := GroupUnderRoot(x, sets, f, done);
        assert (todo - {x}) + (done + {x}) == todo + done;
        todo, done := todo - {x}, done + {x};
      }
    }
  }

  lemma OneDeeper(depth: nat, before: map<nat, nat>, after: map<nat, nat>)
    requires Pow2(depth) <= |before| && before.Keys <= after.Keys
    ensures Pow2(depth + 1) <= 2 * |after|
  {
    SubsetSize(before.Keys, after.Keys);
  }

  lemma StillRoot(f: Forest, g: Forest, y: nat)
    requires KeepsRoots(f, g) && y in f.parent
    ensures y in g.parent && g.Root(y) == f.Root(y)
  {
    assert KeepsRoot(f, g, y);
  }
}
