/**
 Priority donation in priority-scheduler/threads/thread.c: get_priority's worklist search of the
 threads that wait, directly or through other locks, for the locks a thread holds.
 */
module Donation {

  const PRI_MIN := 0
  const PRI_DEFAULT := 31
  const PRI_MAX := 63

  type Tid = nat
  type LockId = nat

  /** Base priorities, the locks each thread holds, and the threads waiting for each lock. */
  datatype Graph = Graph(base: map<Tid, int>, held: map<Tid, seq<LockId>>, waiters: map<LockId, seq<Tid>>)

  /** A lock has at most one holder and a thread waits for at most one lock, as the list elements require. */
  ghost predicate Wf(g: Graph) {
    && g.held.Keys == g.base.Keys
    && (forall t :: t in g.base ==> PRI_MIN <= g.base[t] <= PRI_MAX)
    && (forall t, i :: t in g.held && 0 <= i < |g.held[t]| ==> g.held[t][i] in g.waiters)
    && (forall l, j :: l in g.waiters && 0 <= j < |g.waiters[l]| ==> g.waiters[l][j] in g.base)
    && (forall t, i, u, j ::
          (t in g.held && u in g.held && 0 <= i < |g.held[t]| && 0 <= j < |g.held[u]| && g.held[t][i] == g.held[u][j])
          ==> t == u && i == j)
    && (forall l, i, m, j ::
          (l in g.waiters && m in g.waiters && 0 <= i < |g.waiters[l]| && 0 <= j < |g.waiters[m]|
           && g.waiters[l][i] == g.waiters[m][j])
          ==> l == m && i == j)
  }

  /** Thread w is the j-th waiter for the i-th lock t holds. */
  ghost predicate WaitsAt(g: Graph, w: Tid, t: Tid, i: int, j: int)
    requires Wf(g)
  {
    t in g.held && 0 <= i < |g.held[t]| && 0 <= j < |g.waiters[g.held[t][i]]| && g.waiters[g.held[t][i]][j] == w
  }

  /** Thread w waits for a lock that t holds. */
  ghost predicate WaitsFor(g: Graph, w: Tid, t: Tid)
    requires Wf(g)
  {
    exists i, j :: WaitsAt(g, w, t, i, j)
  }

  /** A chain of waiting: each thread of p waits for a lock held by the one before it. */
  ghost predicate Chain(g: Graph, p: seq<Tid>)
    requires Wf(g)
  {
    |p| > 0 && p[0] in g.base && forall k :: 0 <= k < |p| - 1 ==> WaitsFor(g, p[k + 1], p[k])
  }

  /** Thread u is t, or waits for t through any number of locks. */
  ghost predicate Donates(g: Graph, u: Tid, t: Tid)
    requires Wf(g)
  {
    exists p :: Chain(g, p) && p[0] == t && p[|p| - 1] == u
  }

  /** No deadlock through t: t does not wait, even indirectly, for itself. */
  ghost predicate Acyclic(g: Graph, t: Tid)
    requires Wf(g)
  {
    forall u :: Donates(g, u, t) ==> !WaitsFor(g, t, u)
  }

  /** What get_priority should return. */
  ghost predicate Effective(g: Graph, t: Tid, p: int)
    requires Wf(g)
  {
    && (exists u :: u in g.base && Donates(g, u, t) && g.base[u] == p)
    && (forall u :: u in g.base && Donates(g, u, t) ==> g.base[u] <= p)
  }

  lemma OneHolder(g: Graph, w: Tid, t: Tid, u: Tid)
    requires Wf(g) && WaitsFor(g, w, t) && WaitsFor(g, w, u)
    ensures t == u
  {
    var i, j :| WaitsAt(g, w, t, i, j);
    var k, l :| WaitsAt(g, w, u, k, l);
    assert g.held[t][i] == g.held[u][k];
  }

  lemma DonatesSelf(g: Graph, t: Tid)
    requires Wf(g) && t in g.base
    ensures Donates(g, t, t)
  {
    var p := [t];
    assert Chain(g, p) && p[0] == t && p[|p| - 1] == t;
  }

  lemma DonatesMore(g: Graph, w: Tid, u: Tid, t: Tid)
    requires Wf(g) && Donates(g, u, t) && WaitsFor(g, w, u)
    ensures Donates(g, w, t)
  {
    var p :| Chain(g, p) && p[0] == t && p[|p| - 1] == u;
    var q := p + [w];
    forall k | 0 <= k < |q| - 1 ensures WaitsFor(g, q[k + 1], q[k]) {
      if k < |p| - 1 {
        assert WaitsFor(g, p[k + 1], p[k]);
      }
    }
    assert Chain(g, q) && q[0] == t && q[|q| - 1] == w;
  }

  /** A set that holds t and is closed under waiting holds every donor of t. */
  lemma {:induction false} ClosedHoldsChain(g: Graph, s: set<Tid>, p: seq<Tid>, k: nat)
    requires Wf(g) && Chain(g, p) && p[0] in s && k < |p|
    requires forall w, u :: u in s && WaitsFor(g, w, u) ==> w in s
    ensures p[k] in s
    decreases k
  {
    if k > 0 {
      ClosedHoldsChain(g, s, p, k - 1);
      assert WaitsFor(g, p[k], p[k - 1]);
    }
  }

  lemma ClosedHoldsDonors(g: Graph, s: set<Tid>, t: Tid)
    requires Wf(g) && t in s
    requires forall w, u :: u in s && WaitsFor(g, w, u) ==> w in s
    ensures forall u :: Donates(g, u, t) ==> u in s
  {
    forall u | Donates(g, u, t) ensures u in s {
      var p :| Chain(g, p) && p[0] == t && p[|p| - 1] == u;
      ClosedHoldsChain(g, s, p, |p| - 1);
    }
  }

  // ---------------------------------------------------------------- the search

  /** The search's state: done has been popped, the list is still to do. */
  ghost predicate Searching(g: Graph, t: Tid, done: set<Tid>, list: seq<Tid>)
    requires Wf(g)
  {
    && done <= g.base.Keys
    && (forall k :: 0 <= k < |list| ==> list[k] in g.base && list[k] !in done)
    && (forall k, l :: 0 <= k < l < |list| ==> list[k] != list[l])
    && (forall u :: Seen(done, list, u) ==> Donates(g, u, t))
    && Seen(done, list, t)
    && (forall u :: Seen(done, list, u) && u != t ==> exists v :: v in done && WaitsFor(g, u, v))
  }

  ghost predicate Closed(g: Graph, done: set<Tid>, list: seq<Tid>)
    requires Wf(g)
  {
    forall w, u :: u in done && WaitsFor(g, w, u) ==> Seen(done, list, w)
  }

  ghost predicate Seen(done: set<Tid>, list: seq<Tid>, u: Tid) {
    u in done || u in list
  }

  /** The waiters of v before the j-th waiter of its i-th lock. */
  ghost predicate Before(g: Graph, v: Tid, i: int, j: int, w: Tid)
    requires Wf(g)
  {
    exists a, b :: WaitsAt(g, w, v, a, b) && (a < i || (a == i && b < j))
  }

  /** A waiter of a thread just popped has not been on the list before, so its list element is free. */
  lemma WaiterIsNew(g: Graph, t: Tid, done: set<Tid>, list: seq<Tid>, v: Tid, w: Tid)
    requires Wf(g) && Acyclic(g, t) && Searching(g, t, done, [v] + list) && WaitsFor(g, w, v)
    ensures w !in done && w != v && w !in list
  {
    assert ([v] + list)[0] == v;
    assert Seen(done, [v] + list, v);
    assert Donates(g, v, t);
    if Seen(done, [v] + list, w) {
      assert w != t;
      var u :| u in done && WaitsFor(g, w, u);
      OneHolder(g, w, u, v);
    }
    assert forall x :: x in list ==> x in [v] + list;
  }

  /**
   get_priority, in donation mode. The search ends, puts each donors_elem on the list at most once,
   and returns the largest base priority among the thread and all threads waiting for it.
   */
  method GetPriority(g: Graph, thread: Tid) returns (maxPriority: int)
    requires Wf(g) && thread in g.base && Acyclic(g, thread)
    ensures Effective(g, thread, maxPriority)
  {
    var donors := [thread];
    maxPriority := PRI_MIN;
    ghost var done: set<Tid> := {};
    DonatesSelf(g, thread);
    while donors != []
      invariant Searching(g, thread, done, donors) && Closed(g, done, donors)
      invariant forall u :: u in done ==> g.base[u] <= maxPriority
      invariant if done == {} then maxPriority == PRI_MIN else exists u :: u in done && g.base[u] == maxPriority
      decreases g.base.Keys - done
    {
      ghost var before := donors;
      var t := donors[0];
      donors := donors[1..];
      assert before == [t] + donors;
      if g.base[t] > maxPriority {
        maxPriority := g.base[t];
      }
      donors := PushWaiters(g, thread, done, t, donors);
      done := done + {t};
    }
    ClosedHoldsDonors(g, done, thread);
  }

  /** The two inner loops: every waiter for a lock held by t goes to the front of the list. */
  method PushWaiters(g: Graph, ghost thread: Tid, ghost done: set<Tid>, t: Tid, list: seq<Tid>) returns (donors: seq<Tid>)
    requires Wf(g) && Acyclic(g, thread) && t in g.held
    requires Searching(g, thread, done, [t] + list) && Closed(g, done, [t] + list)
    ensures Searching(g, thread, done + {t}, donors) && Closed(g, done + {t}, donors)
  {
    donors := list;
    assert forall k :: 0 <= k < |list| ==> list[k] == ([t] + list)[k + 1];
    var i := 0;
    while i < |g.held[t]|
      invariant 0 <= i <= |g.held[t]|
      invariant Pushed(g, t, list, donors, i, 0)
    {
      var lock := g.held[t][i];
      var j := 0;
      while j < |g.waiters[lock]|
        invariant 0 <= j <= |g.waiters[lock]|
        invariant Pushed(g, t, list, donors, i, j)
      {
        var waiter := g.waiters[lock][j];
        assert WaitsAt(g, waiter, t, i, j);
        WaiterIsNew(g, thread, done, list, t, waiter);
        PushedNext(g, t, list, donors, i, j, waiter);
        assert waiter !in donors && waiter !in done;
        donors := [waiter] + donors;
        j := j + 1;
      }
      NextLock(g, t, list, donors, i);
      i := i + 1;
    }
    AllPushed(g, thread, done, t, list, donors);
  }

  /** The list with the waiters up to (i, j) in front. */
  ghost predicate Pushed(g: Graph, t: Tid, list: seq<Tid>, donors: seq<Tid>, i: int, j: int)
    requires Wf(g)
  {
    && (forall k, l :: 0 <= k < l < |donors| ==> donors[k] != donors[l])
    && (forall u :: u in donors <==> u in list || Before(g, t, i, j, u))
  }

  /** No waiter is met twice. */
  lemma PushedNext(g: Graph, t: Tid, list: seq<Tid>, donors: seq<Tid>, i: int, j: int, w: Tid)
    requires Wf(g) && Pushed(g, t, list, donors, i, j) && WaitsAt(g, w, t, i, j) && w !in list
    ensures w !in donors && Pushed(g, t, list, [w] + donors, i, j + 1)
  {
    forall a, b | WaitsAt(g, w, t, a, b) ensures a == i && b == j {
      assert g.waiters[g.held[t][a]][b] == g.waiters[g.held[t][i]][j];
      assert g.held[t][a] == g.held[t][i];
    }
    var donors' := [w] + donors;
    forall u ensures u in donors' <==> u in list || Before(g, t, i, j + 1, u) {
      if Before(g, t, i, j + 1, u) && u != w {
        var a, b :| WaitsAt(g, u, t, a, b) && (a < i || (a == i && b < j + 1));
        assert Before(g, t, i, j, u);
      }
      if Before(g, t, i, j, u) {
        var a, b :| WaitsAt(g, u, t, a, b) && (a < i || (a == i && b < j));
        assert Before(g, t, i, j + 1, u);
      }
      assert Before(g, t, i, j + 1, w);
    }
  }

  lemma NextLock(g: Graph, t: Tid, list: seq<Tid>, donors: seq<Tid>, i: int)
    requires Wf(g) && t in g.held && 0 <= i < |g.held[t]|
    requires Pushed(g, t, list, donors, i, |g.waiters[g.held[t][i]]|)
    ensures Pushed(g, t, list, donors, i + 1, 0)
  {
    forall u ensures Before(g, t, i, |g.waiters[g.held[t][i]]|, u) <==> Before(g, t, i + 1, 0, u) {
      if Before(g, t, i + 1, 0, u) {
        var a, b :| WaitsAt(g, u, t, a, b) && (a < i + 1 || (a == i + 1 && b < 0));
        assert WaitsAt(g, u, t, a, b);
      }
    }
  }

  lemma BeforeAll(g: Graph, t: Tid, u: Tid)
    requires Wf(g) && t in g.held
    ensures Before(g, t, |g.held[t]|, 0, u) <==> WaitsFor(g, u, t)
  {
    if WaitsFor(g, u, t) {
      var i, j :| WaitsAt(g, u, t, i, j);
      assert Before(g, t, |g.held[t]|, 0, u);
    }
  }

  lemma AllPushed(g: Graph, thread: Tid, done: set<Tid>, t: Tid, list: seq<Tid>, donors: seq<Tid>)
    requires Wf(g) && Acyclic(g, thread) && t in g.held
    requires Searching(g, thread, done, [t] + list) && Closed(g, done, [t] + list)
    requires Pushed(g, t, list, donors, |g.held[t]|, 0)
    ensures Searching(g, thread, done + {t}, donors) && Closed(g, done + {t}, donors)
  {
    var was := [t] + list;
    assert was[0] == t && Seen(done, was, t);
    forall u ensures u in donors <==> u in list || WaitsFor(g, u, t) {
      BeforeAll(g, t, u);
    }
    assert forall u :: u in was <==> u == t || u in list;
    forall u | Seen(done + {t}, donors, u)
      ensures Donates(g, u, thread)
      ensures u != thread ==> exists v :: v in done + {t} && WaitsFor(g, u, v)
    {
      if Seen(done, was, u) {
        if u != thread {
          var v :| v in done && WaitsFor(g, u, v);
        }
      } else {
        DonatesMore(g, u, t, thread);
      }
    }
    forall k | 0 <= k < |donors| ensures donors[k] in g.base && donors[k] !in done + {t} {
      var w := donors[k];
      if w in list {
        NotHead(was, t, list, w);
      } else {
        WaiterIsNew(g, thread, done, list, t, w);
        var i, j :| WaitsAt(g, w, t, i, j);
      }
    }
    forall w, u | u in done + {t} && WaitsFor(g, w, u) ensures Seen(done + {t}, donors, w) {
      if u in done {
        assert Seen(done, was, w);
      }
    }
  }

  lemma NotHead(was: seq<Tid>, t: Tid, list: seq<Tid>, w: Tid)
    requires was == [t] + list && w in list
    requires forall k, l :: 0 <= k < l < |was| ==> was[k] != was[l]
    ensures w != t && w in was
  {
    var k :| 0 <= k < |list| && list[k] == w;
    assert was[0] != was[k + 1];
  }

  // ---------------------------------------------------------------- what donation is for

  lemma EffectiveIsUnique(g: Graph, t: Tid, p: int, q: int)
    requires Wf(g) && Effective(g, t, p) && Effective(g, t, q)
    ensures p == q
  {
  }

  /** Along a chain of waiting, effective priority never increases toward the waiter. */
  lemma {:induction false} DonorsAreLower(g: Graph, u: Tid, t: Tid, p: int, q: int)
    requires Wf(g) && Donates(g, u, t) && Effective(g, u, p) && Effective(g, t, q)
    ensures p <= q
  {
    var v :| v in g.base && Donates(g, v, u) && g.base[v] == p;
    DonatesTransitively(g, v, u, t);
  }

  lemma DonatesTransitively(g: Graph, v: Tid, u: Tid, t: Tid)
    requires Wf(g) && Donates(g, v, u) && Donates(g, u, t)
    ensures Donates(g, v, t)
  {
    var p :| Chain(g, p) && p[0] == u && p[|p| - 1] == v;
    AlongChain(g, p, |p| - 1, t);
  }

  lemma {:induction false} AlongChain(g: Graph, p: seq<Tid>, k: nat, t: Tid)
    requires Wf(g) && Chain(g, p) && k < |p| && Donates(g, p[0], t)
    ensures Donates(g, p[k], t)
    decreases k
  {
    if k > 0 {
      AlongChain(g, p, k - 1, t);
      DonatesMore(g, p[k], p[k - 1], t);
    }
  }

  /** No thread of the system is deadlocked. */
  ghost predicate NoDeadlock(g: Graph)
    requires Wf(g)
  {
    forall t :: t in g.base ==> Acyclic(g, t)
  }

  /** A thread that holds no lock and waits for none. */
  ghost predicate Isolated(g: Graph, t: Tid)
    requires Wf(g)
  {
    t in g.base && g.held[t] == [] && forall l, j :: l in g.waiters && 0 <= j < |g.waiters[l]| ==> g.waiters[l][j] != t
  }

  function Without(g: Graph, t: Tid): Graph {
    Graph(g.base - {t}, g.held - {t}, g.waiters)
  }

  /** Removing or adding an isolated thread changes no one else's donors, nor their effective priority. */
  lemma WithoutKeeps(g: Graph, t: Tid)
    requires Wf(g) && Isolated(g, t)
    ensures Wf(Without(g, t))
    ensures forall u, v :: v != t ==> (Donates(Without(g, t), u, v) <==> Donates(g, u, v))
    ensures NoDeadlock(g) <==> NoDeadlock(Without(g, t))
    ensures forall u, p :: u != t ==> (Effective(Without(g, t), u, p) <==> Effective(g, u, p))
  {
    var h := Without(g, t);
    assert Wf(h);
    forall u, v | WaitsFor(g, u, v) ensures u != t && v != t && WaitsFor(h, u, v) {
      var i, j :| WaitsAt(g, u, v, i, j);
      assert WaitsAt(h, u, v, i, j);
    }
    forall u, v | WaitsFor(h, u, v) ensures WaitsFor(g, u, v) {
      var i, j :| WaitsAt(h, u, v, i, j);
      assert WaitsAt(g, u, v, i, j);
    }
    forall p: seq<Tid> | |p| > 0 && p[0] != t ensures Chain(h, p) <==> Chain(g, p) {
    }
    forall u, v | v != t ensures Donates(h, u, v) <==> Donates(g, u, v) {
      SameDonates(g, h, u, v);
    }
    IsolatedDonors(g, t);
    forall u, p | u != t ensures Effective(h, u, p) <==> Effective(g, u, p) {
      DonorsAvoid(g, t, u);
    }
  }

  lemma SameDonates(g: Graph, h: Graph, u: Tid, v: Tid)
    requires Wf(g) && Wf(h)
    requires forall p: seq<Tid> :: |p| > 0 && p[0] == v ==> (Chain(h, p) <==> Chain(g, p))
    ensures Donates(h, u, v) <==> Donates(g, u, v)
  {
    if Donates(g, u, v) {
      var p :| Chain(g, p) && p[0] == v && p[|p| - 1] == u;
      assert Chain(h, p);
    }
    if Donates(h, u, v) {
      var p :| Chain(h, p) && p[0] == v && p[|p| - 1] == u;
      assert Chain(g, p);
    }
  }

  lemma IsolatedDonors(g: Graph, t: Tid)
    requires Wf(g) && Isolated(g, t)
    ensures Acyclic(g, t)
    ensures forall u :: !WaitsFor(g, t, u)
  {
    assert forall u, i, j :: !WaitsAt(g, t, u, i, j);
  }

  /** A thread that holds no lock has nobody's priority but its own. */
  lemma NewcomerPriority(g: Graph, t: Tid)
    requires Wf(g) && t in g.base && g.held[t] == []
    ensures Effective(g, t, g.base[t])
  {
    DonatesSelf(g, t);
    forall u | Donates(g, u, t) ensures u == t {
      var p :| Chain(g, p) && p[0] == t && p[|p| - 1] == u;
      assert |p| == 1 || WaitsFor(g, p[0 + 1], p[0]);
    }
  }

  /** An isolated thread donates to nobody but itself. */
  lemma DonorsAvoid(g: Graph, t: Tid, v: Tid)
    requires Wf(g) && Isolated(g, t) && v != t
    ensures !Donates(g, t, v)
  {
    IsolatedDonors(g, t);
    forall p | Chain(g, p) && p[0] == v ensures p[|p| - 1] != t {
      if |p| > 1 {
        assert WaitsFor(g, p[|p| - 2 + 1], p[|p| - 2]);
      }
    }
  }
}
