/** The steps of the Merlin traversal, on timestamps alone. */
module MerlinSteps {
  import opened Reachability

  type Times = map<nat, nat>

  ghost predicate SweptAt(g: Graph, t: Times, done: set<nat>, floor: nat, l: Times, d: Times, x: nat)
    requires t.Keys == g.Keys && l.Keys == g.Keys && d.Keys == g.Keys && x in g
  {
    if x in done then l[x] == d[x] == Latest(g, t, x) && floor <= l[x] else l[x] == t[x] <= floor
  }

  /**
   * Between two traversals: the objects of `done` have their final times, the others their first
   * timestamps t, and `floor` separates the two.
   */
  ghost predicate Swept(g: Graph, t: Times, done: set<nat>, floor: nat, l: Times, d: Times) {
    && Closed(g) && t.Keys == g.Keys && l.Keys == g.Keys && d.Keys == g.Keys
    && ClosedSet(g, done)
    && forall x {:trigger SweptAt(g, t, done, floor, l, d, x)} :: x in g ==> SweptAt(g, t, done, floor, l, d, x)
  }

  ghost predicate TracingAt(g: Graph, t: Times, done: set<nat>, cur: nat,
                            seen: set<nat>, pending: set<nat>, l: Times, d: Times, x: nat)
    requires t.Keys == g.Keys && l.Keys == g.Keys && d.Keys == g.Keys && x in g && cur in g
  {
    && (if x in done then l[x] == d[x] == Latest(g, t, x) && t[cur] <= l[x]
        else t[x] <= t[cur] && l[x] == if x in seen || x in pending then t[cur] else t[x])
    && (x in seen || x in pending ==> Reaches(g, cur, x))
    && (x in seen ==> d[x] == l[x] && g[x] <= seen + pending)
  }

  /** What a traversal from cur does not change. */
  ghost predicate Start(g: Graph, t: Times, done: set<nat>, cur: nat) {
    Closed(g) && t.Keys == g.Keys && ClosedSet(g, done) && cur in g && cur !in done
  }

  /** During the traversal from cur: `seen` are the labeled objects, `pending` those on the stack. */
  ghost predicate Tracing(g: Graph, t: Times, done: set<nat>, cur: nat,
                          seen: set<nat>, pending: set<nat>, l: Times, d: Times)
    requires Start(g, t, done, cur)
  {
    && l.Keys == g.Keys && d.Keys == g.Keys
    && seen + pending <= g.Keys && cur in seen + pending
    && forall x {:trigger TracingAt(g, t, done, cur, seen, pending, l, d, x)} :: x in g ==>
         TracingAt(g, t, done, cur, seen, pending, l, d, x)
  }

  /** m' is m with the entries of `targets` whose last timestamp is below `time` set to `time`. */
  ghost predicate Raised(l: Times, m: Times, m': Times, targets: set<nat>, time: nat)
    requires l.Keys == m.Keys
  {
    && m'.Keys == m.Keys
    && forall x {:trigger m'[x]} :: x in m ==> m'[x] == if x in targets && l[x] < time then time else m[x]
  }

  lemma StartTracing(g: Graph, t: Times, done: set<nat>, floor: nat, l: Times, d: Times, cur: nat)
    requires Swept(g, t, done, floor, l, d) && cur in g && cur !in done
    requires forall x :: x in g && x !in done ==> t[x] <= t[cur]
    ensures Start(g, t, done, cur) && Tracing(g, t, done, cur, {}, {cur}, l, d)
  {
    assert SweptAt(g, t, done, floor, l, d, cur);
    forall x | x in g ensures TracingAt(g, t, done, cur, {}, {cur}, l, d, x) {
      assert SweptAt(g, t, done, floor, l, d, x);
      ReachesSelf(g, cur);
    }
  }

  /** Popping an object that is labeled already. */
  lemma PopLabeled(g: Graph, t: Times, done: set<nat>, cur: nat, seen: set<nat>, pending: set<nat>,
                   l: Times, d: Times, x: nat, pending': set<nat>)
    requires Start(g, t, done, cur) && Tracing(g, t, done, cur, seen, pending, l, d)
    requires x in seen && x in pending && pending' <= pending <= pending' + {x}
    ensures Tracing(g, t, done, cur, seen + {x}, pending', l, d[x := l[x]])
    ensures done + (seen + {x}) == done + seen
  {
    assert seen + {x} == seen;
    forall y | y in g ensures TracingAt(g, t, done, cur, seen, pending', l, d[x := l[x]], y) {
      assert TracingAt(g, t, done, cur, seen, pending, l, d, y);
    }
  }

  /** Popping an object for the first time: its targets are raised to its timestamp and pushed. */
  lemma PopUnlabeled(g: Graph, t: Times, done: set<nat>, cur: nat, seen: set<nat>, pending: set<nat>,
                     l: Times, d: Times, x: nat, rest: set<nat>, l': Times, d': Times)
    requires Start(g, t, done, cur) && Tracing(g, t, done, cur, seen, pending, l, d)
    requires x !in seen && x in pending && rest <= pending <= rest + {x}
    requires Raised(l, l, l', g[x], l[x])
    requires Raised(l, d[x := l[x]], d', g[x], l[x])
    ensures Tracing(g, t, done, cur, seen + {x}, rest + g[x], l', d')
  {
    assert TracingAt(g, t, done, cur, seen, pending, l, d, x);
    assert g[x] <= g.Keys;
    forall y | y in g ensures TracingAt(g, t, done, cur, seen + {x}, rest + g[x], l', d', y) {
      assert TracingAt(g, t, done, cur, seen, pending, l, d, y);
      if y in g[x] {
        ReachesStep(g, cur, x, y);
        if x in done {
          LatestGrowsAlongEdge(g, t, x, y);
        }
      }
    }
  }

  /** Nothing final is raised any more. */
  lemma SettledTargetsStay(g: Graph, t: Times, done: set<nat>, cur: nat, seen: set<nat>, pending: set<nat>,
                           l: Times, d: Times, x: nat, y: nat)
    requires Start(g, t, done, cur) && Tracing(g, t, done, cur, seen, pending, l, d)
    requires x in pending && y in g[x] && (y in done || y in seen)
    ensures l[x] <= l[y]
  {
    assert TracingAt(g, t, done, cur, seen, pending, l, d, x);
    assert y in g && TracingAt(g, t, done, cur, seen, pending, l, d, y);
    if x in done {
      LatestGrowsAlongEdge(g, t, x, y);
    }
  }

  /** With the stack empty, everything the traversal labeled is final. */
  lemma EndTracing(g: Graph, t: Times, done: set<nat>, cur: nat, seen: set<nat>, l: Times, d: Times)
    requires Start(g, t, done, cur) && Tracing(g, t, done, cur, seen, {}, l, d)
    ensures Swept(g, t, done + seen, t[cur], l, d) && cur in seen
  {
    forall x | x in seen ensures g[x] <= seen {
      assert TracingAt(g, t, done, cur, seen, {}, l, d, x);
    }
    forall x | x in g ensures SweptAt(g, t, done + seen, t[cur], l, d, x) {
      assert TracingAt(g, t, done, cur, seen, {}, l, d, x);
      if x in seen && x !in done {
        forall y | y in g && y !in done ensures t[y] <= t[cur] {
          assert TracingAt(g, t, done, cur, seen, {}, l, d, y);
        }
        LatestFromFirst(g, t, done, cur, x);
      }
    }
  }

  /** With every object swept, all times are the latest ones. */
  lemma SweptEverything(g: Graph, t: Times, done: set<nat>, floor: nat, l: Times, d: Times)
    requires Swept(g, t, done, floor, l, d) && done == g.Keys
    ensures IsAllLatest(g, t, l) && d == l
  {
    hide IsLatest, ClosedSet, Closed;
    forall x | x in g ensures CarriesLatest(g, t, l, x) {
      assert SweptAt(g, t, done, floor, l, d, x);
    }
    forall x | x in g ensures d[x] == l[x] {
      assert SweptAt(g, t, done, floor, l, d, x);
    }
  }

  lemma SweptNothing(g: Graph, t: Times, floor: nat, d: Times)
    requires Closed(g) && t.Keys == g.Keys && d.Keys == g.Keys
    requires forall x :: x in g ==> t[x] <= floor
    ensures Swept(g, t, {}, floor, t, d)
  {
  }
}
