/** Finite directed graphs over object ids, and the latest timestamp that reaches a node. */
module Reachability {

  type Graph = map<nat, set<nat>>

  /** Every edge of g ends at a node of g. */
  ghost predicate Closed(g: Graph) {
    forall x {:trigger g[x]} :: x in g ==> g[x] <= g.Keys
  }

  ghost predicate IsPath(g: Graph, p: seq<nat>) {
    && p != []
    && (forall i :: 0 <= i < |p| ==> p[i] in g)
    && forall i {:trigger g[p[i]]} :: 0 <= i < |p| - 1 ==> p[i + 1] in g[p[i]]
  }

  ghost predicate PathBetween(g: Graph, p: seq<nat>, x: nat, y: nat) {
    IsPath(g, p) && p[0] == x && p[|p| - 1] == y
  }

  ghost predicate Reaches(g: Graph, x: nat, y: nat) {
    exists p :: PathBetween(g, p, x, y)
  }

  lemma ReachesSelf(g: Graph, x: nat)
    requires x in g
    ensures Reaches(g, x, x)
  {
    assert PathBetween(g, [x], x, x);
  }

  lemma ReachesStep(g: Graph, x: nat, y: nat, z: nat)
    requires Reaches(g, x, y) && y in g && z in g[y] && z in g
    ensures Reaches(g, x, z)
  {
    var p :| PathBetween(g, p, x, y);
    assert PathBetween(g, p + [z], x, z);
  }

  lemma ReachesTransitive(g: Graph, x: nat, y: nat, z: nat)
    requires Reaches(g, x, y) && Reaches(g, y, z)
    ensures Reaches(g, x, z)
  {
    var p :| PathBetween(g, p, x, y);
    var q :| PathBetween(g, q, y, z);
    var r := p + q[1..];
    forall i | 0 <= i < |r| - 1 ensures r[i] in g && r[i + 1] in g[r[i]] {
      if i >= |p| - 1 {
        assert r[i] == q[i - (|p| - 1)] && r[i + 1] == q[i - (|p| - 1) + 1];
        assert q[i - (|p| - 1) + 1] in g[q[i - (|p| - 1)]];
      } else {
        assert r[i] == p[i] && r[i + 1] == p[i + 1] && p[i + 1] in g[p[i]];
      }
    }
    assert PathBetween(g, r, x, z);
  }

  ghost predicate ClosedSet(g: Graph, s: set<nat>) {
    s <= g.Keys && forall x {:trigger g[x]} :: x in s ==> g[x] <= s
  }

  /** A path that starts in a closed set never leaves it. */
  lemma {:induction false} PathStaysInside(g: Graph, s: set<nat>, p: seq<nat>)
    requires ClosedSet(g, s) && IsPath(g, p) && p[0] in s
    ensures p[|p| - 1] in s
    decreases |p|
  {
    if |p| > 1 {
      assert p[1] in g[p[0]];
      var q := p[1..];
      forall i | 0 <= i < |q| - 1 ensures q[i + 1] in g[q[i]] {
        assert q[i] == p[i + 1] && q[i + 1] == p[i + 2] && p[i + 2] in g[p[i + 1]];
      }
      PathStaysInside(g, s, q);
    }
  }

  lemma ReachesStaysInside(g: Graph, s: set<nat>, x: nat, y: nat)
    requires ClosedSet(g, s) && x in s && Reaches(g, x, y)
    ensures y in s
  {
    var p :| PathBetween(g, p, x, y);
    PathStaysInside(g, s, p);
  }

  // ----- The latest timestamp among the objects that reach y -----

  ghost predicate Source(g: Graph, x: nat, y: nat) {
    x in g && Reaches(g, x, y)
  }

  /** m is the maximum of t over all nodes that reach y. */
  ghost predicate IsLatest(g: Graph, t: map<nat, nat>, y: nat, m: nat)
    requires t.Keys == g.Keys
  {
    && (exists x {:trigger Source(g, x, y)} :: Source(g, x, y) && t[x] == m)
    && forall x {:trigger Source(g, x, y)} :: Source(g, x, y) ==> t[x] <= m
  }

  lemma {:induction false} MaximumExists(t: map<nat, nat>, s: set<nat>) returns (x: nat)
    requires s <= t.Keys && s != {}
    ensures x in s && forall z :: z in s ==> t[z] <= t[x]
    decreases s
  {
    x :| x in s;
    if s != {x} {
      var y := MaximumExists(t, s - {x});
      x := if t[x] < t[y] then y else x;
    }
  }

  lemma LatestExists(g: Graph, t: map<nat, nat>, y: nat)
    requires t.Keys == g.Keys && y in g
    ensures exists m :: IsLatest(g, t, y, m)
  {
    ReachesSelf(g, y);
    var s := set x | x in g && Source(g, x, y);
    assert y in s;
    var x := MaximumExists(t, s);
    assert Source(g, x, y);
    assert IsLatest(g, t, y, t[x]);
  }

  /** The death time the Merlin algorithm is meant to give y. */
  ghost function Latest(g: Graph, t: map<nat, nat>, y: nat): (m: nat)
    requires t.Keys == g.Keys && y in g
    ensures IsLatest(g, t, y, m)
  {
    LatestExists(g, t, y);
    var m :| IsLatest(g, t, y, m);
    m
  }

  /** The maximum is unique, so whatever computes it leaves nothing to sorting ties or visiting order. */
  lemma LatestUnique(g: Graph, t: map<nat, nat>, y: nat, m: nat)
    requires t.Keys == g.Keys && y in g && IsLatest(g, t, y, m)
    ensures m == Latest(g, t, y)
  {
  }

  ghost predicate CarriesLatest(g: Graph, t: map<nat, nat>, u: map<nat, nat>, y: nat)
    requires t.Keys == g.Keys && u.Keys == g.Keys && y in g
  {
    u[y] == Latest(g, t, y)
  }

  /** u maps every node to the latest timestamp, under t, that reaches it. */
  ghost predicate IsAllLatest(g: Graph, t: map<nat, nat>, u: map<nat, nat>) {
    && t.Keys == g.Keys && u.Keys == g.Keys
    && forall y {:trigger CarriesLatest(g, t, u, y)} :: y in g ==> CarriesLatest(g, t, u, y)
  }

  /** What reaches x also reaches whatever x reaches, so timestamps only grow along a path. */
  lemma LatestGrows(g: Graph, t: map<nat, nat>, x: nat, y: nat)
    requires t.Keys == g.Keys && x in g && y in g && Reaches(g, x, y)
    ensures Latest(g, t, x) <= Latest(g, t, y)
  {
    var m := Latest(g, t, x);
    assert IsLatest(g, t, x, m) && IsLatest(g, t, y, Latest(g, t, y));
    var z :| Source(g, z, x) && t[z] == m;
    ReachesTransitive(g, z, x, y);
    assert Source(g, z, y);
  }

  lemma LatestGrowsAlongEdge(g: Graph, t: map<nat, nat>, x: nat, y: nat)
    requires t.Keys == g.Keys && x in g && y in g && y in g[x]
    ensures Latest(g, t, x) <= Latest(g, t, y)
  {
    ReachesSelf(g, x);
    ReachesStep(g, x, x, y);
    LatestGrows(g, t, x, y);
  }

  /** Nodes on a common cycle share one latest timestamp. */
  lemma LatestSharedOnCycles(g: Graph, t: map<nat, nat>, x: nat, y: nat)
    requires t.Keys == g.Keys && x in g && y in g && Reaches(g, x, y) && Reaches(g, y, x)
    ensures Latest(g, t, x) == Latest(g, t, y)
  {
    LatestGrows(g, t, x, y);
    LatestGrows(g, t, y, x);
  }

  /** Once every node carries its latest timestamp, computing it again changes nothing. */
  lemma LatestIdempotent(g: Graph, t: map<nat, nat>, u: map<nat, nat>, v: map<nat, nat>)
    requires IsAllLatest(g, t, u) && IsAllLatest(g, u, v)
    ensures v == u
  {
    forall y | y in g ensures v[y] == u[y] {
      assert CarriesLatest(g, u, v, y);
      LatestOfLatest(g, t, u, y);
    }
  }

  lemma LatestOfLatest(g: Graph, t: map<nat, nat>, u: map<nat, nat>, y: nat)
    requires IsAllLatest(g, t, u) && y in g
    ensures Latest(g, u, y) == u[y]
  {
    ReachesSelf(g, y);
    assert Source(g, y, y);
    forall x | Source(g, x, y) ensures u[x] <= u[y] {
      assert CarriesLatest(g, t, u, x) && CarriesLatest(g, t, u, y);
      LatestGrows(g, t, x, y);
    }
    LatestUnique(g, u, y, u[y]);
  }

  /** A node outside the closed set `done` whose only sources are outside it too, reached from a latest such node. */
  lemma LatestFromFirst(g: Graph, t: map<nat, nat>, done: set<nat>, cur: nat, y: nat)
    requires t.Keys == g.Keys && ClosedSet(g, done) && cur in g && y in g
    requires forall x :: x in g && x !in done ==> t[x] <= t[cur]
    requires y !in done && Reaches(g, cur, y)
    ensures Latest(g, t, y) == t[cur]
  {
    assert Source(g, cur, y);
    forall x | Source(g, x, y) ensures t[x] <= t[cur] {
      if x in done {
        ReachesStaysInside(g, done, x, y);
      }
    }
    LatestUnique(g, t, y, t[cur]);
  }
}
