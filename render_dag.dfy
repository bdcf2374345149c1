/**
 * The render task graph: tasks registered with their dependencies, and Kahn's algorithm
 * for an order in which every task follows the tasks it depends on.
 */
module RenderGraph {
  import opened Wrappers

  /** A render step; its dependencies are the ids of the tasks it needs first. */
  datatype RenderTask = RenderTask(id: nat, dependencies: seq<nat>)

  /** An edge `(dependency, task)`. */
  type Edge = (nat, nat)

  predicate Distinct(s: seq<nat>)
  {
    forall i, j | 0 <= i < j < |s| :: s[i] != s[j]
  }

  /** The tasks an edge list leads to from `d`, in insertion order (duplicates kept). */
  function Targets(edges: seq<Edge>, d: nat): seq<nat>
  {
    if edges == [] then []
    else
      var last := edges[|edges| - 1];
      Targets(edges[..|edges| - 1], d) + (if last.0 == d then [last.1] else [])
  }

  /** The number of edges into `t` whose dependency is not in `done`. */
  function Count(edges: seq<Edge>, done: set<nat>, t: nat): nat
  {
    if edges == [] then 0
    else
      var last := edges[|edges| - 1];
      Count(edges[..|edges| - 1], done, t) + (if last.1 == t && last.0 !in done then 1 else 0)
  }

  /** The edges `addTask` records for one task: one per dependency, in order. */
  function DependencyEdges(deps: seq<nat>, t: nat): seq<Edge>
  {
    if deps == [] then [] else DependencyEdges(deps[..|deps| - 1], t) + [(deps[|deps| - 1], t)]
  }

  lemma PrefixStep(deps: seq<nat>, i: nat, t: nat)
    requires i < |deps|
    ensures DependencyEdges(deps[..i + 1], t) == DependencyEdges(deps[..i], t) + [(deps[i], t)]
    ensures Elems(deps[..i + 1]) == Elems(deps[..i]) + {deps[i]}
  {
    assert deps[..i + 1] == deps[..i] + [deps[i]];
    assert deps[..i + 1][..i] == deps[..i];
  }

  lemma AppendAssoc(a: seq<Edge>, b: seq<Edge>, e: Edge)
    ensures a + (b + [e]) == (a + b) + [e]
  {
  }

  /** Some edge starts at a task that was never registered. */
  predicate Blocked(edges: seq<Edge>, registered: set<nat>)
  {
    exists k :: 0 <= k < |edges| && edges[k].0 !in registered
  }

  /** `q` is a dependency cycle: each of its tasks depends on the next one, the last on the first. */
  predicate IsCycle(edges: seq<Edge>, q: seq<nat>)
  {
    |q| > 0 && forall k | 0 <= k < |q| :: CycleEdge(q, k) in edges
  }

  /** The edge by which `q[k]` depends on the task after it, the last task on the first. */
  function CycleEdge(q: seq<nat>, k: nat): Edge
    requires k < |q|
  {
    (q[(k + 1) % |q|], q[k])
  }

  /** In `ids`, the dependency of edge `e` comes before its task. */
  predicate Precedes(ids: seq<nat>, e: Edge)
  {
    exists i, j :: 0 <= j < i < |ids| && ids[j] == e.0 && ids[i] == e.1
  }

  /** The tasks a list names. */
  function Elems(s: seq<nat>): set<nat>
  {
    set x | x in s
  }

  function Ids(s: seq<RenderTask>): (r: seq<nat>)
    ensures |r| == |s| && forall i | 0 <= i < |s| :: r[i] == s[i].id
  {
    if s == [] then [] else Ids(s[..|s| - 1]) + [s[|s| - 1].id]
  }

  lemma {:induction false} TargetsAppend(edges: seq<Edge>, e: Edge, d: nat)
    ensures Targets(edges + [e], d) == Targets(edges, d) + (if e.0 == d then [e.1] else [])
  {
    assert (edges + [e])[..|edges|] == edges;
  }

  lemma {:induction false} CountAppend(edges: seq<Edge>, e: Edge, done: set<nat>, t: nat)
    ensures Count(edges + [e], done, t) == Count(edges, done, t) + (if e.1 == t && e.0 !in done then 1 else 0)
  {
    assert (edges + [e])[..|edges|] == edges;
  }

  /** Marking `id` done removes exactly the edges from `id`, which the adjacency list of `id` holds. */
  lemma {:induction false} CountSplit(edges: seq<Edge>, done: set<nat>, id: nat, t: nat)
    requires id !in done
    ensures Count(edges, done, t) == Count(edges, done + {id}, t) + multiset(Targets(edges, id))[t]
  {
    if edges != [] {
      CountSplit(edges[..|edges| - 1], done, id, t);
    }
  }

  /** No edge left into `t` exactly when every dependency of `t` is done. */
  lemma {:induction false} CountZero(edges: seq<Edge>, done: set<nat>, t: nat)
    ensures Count(edges, done, t) == 0 <==> forall k | 0 <= k < |edges| && edges[k].1 == t :: edges[k].0 in done
  {
    if edges != [] {
      var p := edges[..|edges| - 1];
      CountZero(p, done, t);
      assert forall k | 0 <= k < |p| :: p[k] == edges[k];
    }
  }

  /** Every target listed for `d` is the task of some edge from `d`. */
  lemma {:induction false} TargetsFrom(edges: seq<Edge>, d: nat, x: nat)
    requires x in Targets(edges, d)
    ensures exists k :: 0 <= k < |edges| && edges[k] == (d, x)
  {
    var p := edges[..|edges| - 1];
    if x in Targets(p, d) {
      TargetsFrom(p, d, x);
      var k :| 0 <= k < |p| && p[k] == (d, x);
      assert edges[k] == (d, x);
    }
  }

  /** With no edge from `d`, there is nothing to list for it. */
  lemma {:induction false} TargetsNone(edges: seq<Edge>, d: nat)
    requires forall k | 0 <= k < |edges| :: edges[k].0 != d
    ensures Targets(edges, d) == []
  {
    if edges != [] {
      var p := edges[..|edges| - 1];
      assert forall k | 0 <= k < |p| :: p[k] == edges[k];
      TargetsNone(p, d);
    }
  }

  lemma DistinctAppend(s: seq<nat>, x: nat)
    requires Distinct(s) && x !in s
    ensures Distinct(s + [x])
  {
  }

  lemma {:induction false} DistinctCard(s: seq<nat>)
    requires Distinct(s)
    ensures |Elems(s)| == |s|
  {
    if s != [] {
      var p := s[..|s| - 1];
      DistinctCard(p);
      assert Elems(s) == Elems(p) + {s[|s| - 1]};
      assert s[|s| - 1] !in Elems(p);
    }
  }

  lemma SubsetCard(a: set<nat>, b: set<nat>)
    requires a <= b
    ensures |a| <= |b|
  {
    assert b == a + (b - a);
  }

  /** A repetition-free list drawn from a set is complete exactly when it is as long as the set. */
  lemma FullWhenLong(s: seq<nat>, keys: set<nat>)
    requires Distinct(s) && Elems(s) <= keys
    ensures |s| == |keys| <==> Elems(s) == keys
  {
    DistinctCard(s);
    if Elems(s) != keys {
      assert exists x :: x in keys && x !in Elems(s);
      var x :| x in keys && x !in Elems(s);
      SubsetCard(Elems(s), keys - {x});
    }
  }

  /** The position of `x` in a repetition-free list. */
  function Pos(ids: seq<nat>, x: nat): (i: nat)
    requires x in ids
    ensures i < |ids| && ids[i] == x
  {
    if ids[0] == x then 0 else 1 + Pos(ids[1..], x)
  }

  lemma PosOf(ids: seq<nat>, i: int)
    requires Distinct(ids) && 0 <= i < |ids|
    ensures Pos(ids, ids[i]) == i
  {
  }

  /** In an order where every edge's dependency comes first, positions grow along each edge. */
  lemma EdgeOrder(edges: seq<Edge>, ids: seq<nat>, e: Edge)
    requires Distinct(ids) && e in edges
    requires forall k | 0 <= k < |edges| :: Precedes(ids, edges[k])
    ensures e.0 in ids && e.1 in ids && Pos(ids, e.0) < Pos(ids, e.1)
  {
    var m :| 0 <= m < |edges| && edges[m] == e;
    assert Precedes(ids, edges[m]);
    var i, j :| 0 <= j < i < |ids| && ids[j] == e.0 && ids[i] == e.1;
    PosOf(ids, i);
    PosOf(ids, j);
  }

  /** Going round a cycle, positions fall by at least one per edge. */
  lemma {:induction false} CycleDescends(edges: seq<Edge>, ids: seq<nat>, q: seq<nat>, k: nat)
    requires Distinct(ids) && IsCycle(edges, q) && k < |q|
    requires forall m | 0 <= m < |edges| :: Precedes(ids, edges[m])
    ensures q[k] in ids && q[0] in ids && Pos(ids, q[k]) + k <= Pos(ids, q[0])
  {
    if k == 0 {
      EdgeOrder(edges, ids, CycleEdge(q, 0));
    } else {
      CycleDescends(edges, ids, q, k - 1);
      assert k % |q| == k;
      EdgeOrder(edges, ids, CycleEdge(q, k - 1));
    }
  }

  /** An order in which every edge's dependency precedes its task admits no dependency cycle. */
  lemma NoCycle(edges: seq<Edge>, ids: seq<nat>, q: seq<nat>)
    requires Distinct(ids)
    requires forall k | 0 <= k < |edges| :: Precedes(ids, edges[k])
    ensures !IsCycle(edges, q)
  {
    if IsCycle(edges, q) {
      var n := |q|;
      CycleDescends(edges, ids, q, n - 1);
      assert n % n == 0;
      EdgeOrder(edges, ids, CycleEdge(q, n - 1));
    }
  }

  /** Some element occurs twice in `w`. */
  lemma Repeat(w: seq<nat>) returns (i: nat, j: nat)
    requires !Distinct(w)
    ensures i < j < |w| && w[i] == w[j]
  {
    i, j :| 0 <= i < j < |w| && w[i] == w[j];
  }

  /** A walk that meets itself again closes a cycle. */
  lemma CycleOfWalk(edges: seq<Edge>, w: seq<nat>, i: nat, j: nat)
    requires i < j < |w| && w[i] == w[j]
    requires forall m | 0 <= m < |w| - 1 :: (w[m + 1], w[m]) in edges
    ensures IsCycle(edges, w[i..j])
  {
    var q := w[i..j];
    var n := |q|;
    forall k | 0 <= k < n
      ensures CycleEdge(q, k) in edges
    {
      if k < n - 1 {
        assert (k + 1) % n == k + 1;
        assert q[k + 1] == w[i + k + 1] && q[k] == w[i + k];
      } else {
        assert (k + 1) % n == 0;
        assert q[0] == w[j] && q[k] == w[j - 1];
      }
    }
  }

  /**
   * Walking backwards from an unfinished task along edges whose dependency is unfinished
   * either reaches an unregistered dependency or, since there are finitely many tasks,
   * comes back to a task it passed: a cycle.
   */
  lemma {:induction false} BlockedOrCycle(edges: seq<Edge>, registered: set<nat>, done: set<nat>, w: seq<nat>)
    requires |w| > 0 && forall m | 0 <= m < |w| :: w[m] in registered - done
    requires forall m | 0 <= m < |w| - 1 :: (w[m + 1], w[m]) in edges
    requires forall u | u in registered - done :: exists k :: 0 <= k < |edges| && edges[k].1 == u && edges[k].0 !in done
    ensures Blocked(edges, registered) || exists q :: IsCycle(edges, q)
    decreases |registered - done| + 1 - |w|
  {
    if !Distinct(w) {
      var i, j := Repeat(w);
      CycleOfWalk(edges, w, i, j);
    } else {
      DistinctCard(w);
      SubsetCard(Elems(w), registered - done);
      var last := w[|w| - 1];
      var k :| 0 <= k < |edges| && edges[k].1 == last && edges[k].0 !in done;
      if edges[k].0 in registered {
        var w' := w + [edges[k].0];
        assert (w'[|w|], w'[|w| - 1]) == edges[k];
        BlockedOrCycle(edges, registered, done, w');
      }
    }
  }

  /** The first `j + 1` neighbours: one more occurrence of the `j`-th, and no more than the whole list. */
  lemma PrefixCount(neighbors: seq<nat>, j: nat)
    requires j < |neighbors|
    ensures neighbors[..j + 1] == neighbors[..j] + [neighbors[j]]
    ensures multiset(neighbors[..j + 1])[neighbors[j]] <= multiset(neighbors)[neighbors[j]]
  {
    assert neighbors == neighbors[..j + 1] + neighbors[j + 1..];
  }

  /** A task whose dependencies are all popped may join the end of the queue. */
  lemma EarlierExtend(popped: seq<nat>, queue: seq<nat>, edges: seq<Edge>, t: nat)
    requires EarlierDependencies(popped + queue, edges)
    requires forall k | 0 <= k < |edges| && edges[k].1 == t :: edges[k].0 in Elems(popped)
    ensures EarlierDependencies(popped + (queue + [t]), edges)
  {
    var seen := popped + queue;
    var seen' := popped + (queue + [t]);
    assert seen' == seen + [t];
    forall i, k | 0 <= i < |seen'| && 0 <= k < |edges| && edges[k].1 == seen'[i]
      ensures exists j :: 0 <= j < i && seen'[j] == edges[k].0
    {
      if i < |seen| {
        var j :| 0 <= j < i && seen[j] == edges[k].0;
        assert seen'[j] == seen[j];
      } else {
        var j :| 0 <= j < |popped| && popped[j] == edges[k].0;
        assert seen'[j] == popped[j];
      }
    }
  }

  /** A zero-indegree list, in whichever order the map is walked. */
  method ZeroIndegree(indegree: map<nat, int>) returns (queue: seq<nat>)
    ensures Distinct(queue)
    ensures forall x :: x in queue <==> x in indegree && indegree[x] == 0
  {
    var rest := set x | x in indegree && indegree[x] == 0;
    queue := [];
    while rest != {}
      invariant Distinct(queue)
      invariant forall x :: x in queue || x in rest <==> x in indegree && indegree[x] == 0
      invariant forall x | x in queue :: x !in rest
      decreases rest
    {
      var x :| x in rest;
      queue := queue + [x];
      rest := rest - {x};
    }
  }

  /** Every edge into a listed task has its dependency earlier in the list. */
  ghost predicate EarlierDependencies(seen: seq<nat>, edges: seq<Edge>)
  {
    forall i, k | 0 <= i < |seen| && 0 <= k < |edges| && edges[k].1 == seen[i] ::
      exists j :: 0 <= j < i && seen[j] == edges[k].0
  }

  /**
   * The state of Kahn's loop. `seen` (the popped tasks, then the queue) lists registered tasks
   * without repetition; a task is in it exactly when its remaining count is zero; every
   * dependency of a listed task is listed before it; and each remaining count is the number of
   * edges into the task from tasks not yet `done`, less those already `released`.
   */
  ghost predicate Kahn(edges: seq<Edge>, keys: set<nat>, remaining: map<nat, int>, popped: seq<nat>,
                       queue: seq<nat>, done: set<nat>, released: seq<nat>)
  {
    var seen := popped + queue;
    && Distinct(seen)
    && (forall x | x in seen :: x in keys)
    && remaining.Keys == keys
    && (forall x | x in remaining :: x in seen <==> remaining[x] == 0)
    && EarlierDependencies(seen, edges)
    && Counts(edges, remaining, done, released)
  }

  /** Each remaining count: edges into the task from tasks not `done`, less those `released`. */
  ghost predicate Counts(edges: seq<Edge>, remaining: map<nat, int>, done: set<nat>, released: seq<nat>)
  {
    forall x | x in remaining :: remaining[x] == Count(edges, done, x) - multiset(released)[x]
  }

  /** Releasing one more edge into `n` lowers its count by one and leaves the others. */
  lemma CountsRelease(edges: seq<Edge>, remaining0: map<nat, int>, done: set<nat>, released: seq<nat>, n: nat)
    requires Counts(edges, remaining0, done, released) && n in remaining0
    ensures Counts(edges, remaining0[n := remaining0[n] - 1], done, released + [n])
  {
  }

  /** The loop starts from the indegrees, with the zero-indegree tasks queued. */
  lemma KahnStart(edges: seq<Edge>, indegree: map<nat, int>, queue: seq<nat>)
    requires forall t | t in indegree :: indegree[t] == Count(edges, {}, t)
    requires Distinct(queue) && forall x :: x in queue <==> x in indegree && indegree[x] == 0
    ensures Kahn(edges, indegree.Keys, indegree, [], queue, Elems([]), [])
  {
    assert [] + queue == queue;
    assert Elems([]) == {};
    forall i, k | 0 <= i < |queue| && 0 <= k < |edges| && edges[k].1 == queue[i]
      ensures false
    {
      CountZero(edges, {}, queue[i]);
    }
  }

  /** `queue.poll()`: the head moves to the popped tasks; the listed sequence is unchanged. */
  lemma Poll(edges: seq<Edge>, keys: set<nat>, remaining: map<nat, int>, popped: seq<nat>, queue: seq<nat>)
    requires Kahn(edges, keys, remaining, popped, queue, Elems(popped), []) && queue != []
    ensures Kahn(edges, keys, remaining, popped + [queue[0]], queue[1..], Elems(popped), [])
    ensures queue[0] in keys && queue[0] !in Elems(popped)
    ensures Elems(popped + [queue[0]]) == Elems(popped) + {queue[0]}
  {
    var seen := popped + queue;
    assert (popped + [queue[0]]) + queue[1..] == seen;
    assert seen[|popped|] == queue[0];
    forall i | 0 <= i < |popped| ensures popped[i] != queue[0] {
      assert seen[i] == popped[i];
    }
  }

  /** One pass of the inner loop keeps the loop's state consistent. */
  lemma ReleaseOne(edges: seq<Edge>, keys: set<nat>, remaining0: map<nat, int>, queue0: seq<nat>,
                   remaining: map<nat, int>, queue: seq<nat>, popped: seq<nat>,
                   before: set<nat>, id: nat, neighbors: seq<nat>, j: nat)
    requires neighbors == Targets(edges, id) && id !in before && Elems(popped) == before + {id}
    requires j < |neighbors| && Kahn(edges, keys, remaining0, popped, queue0, before, neighbors[..j])
    requires neighbors[j] in remaining0 && remaining == remaining0[neighbors[j] := remaining0[neighbors[j]] - 1]
    requires queue == if remaining[neighbors[j]] == 0 then queue0 + [neighbors[j]] else queue0
    ensures Kahn(edges, keys, remaining, popped, queue, before, neighbors[..j + 1])
  {
    var neighbor := neighbors[j];
    PrefixCount(neighbors, j);
    CountSplit(edges, before, id, neighbor);
    CountsRelease(edges, remaining0, before, neighbors[..j], neighbor);
    assert neighbor !in popped + queue0;
    if remaining[neighbor] == 0 {
      CountZero(edges, Elems(popped), neighbor);
      EarlierExtend(popped, queue0, edges, neighbor);
      DistinctAppend(popped + queue0, neighbor);
      assert popped + (queue0 + [neighbor]) == (popped + queue0) + [neighbor];
    }
  }

  /** Every neighbour is a registered task, so it has a remaining count. */
  lemma NeighborRegistered(edges: seq<Edge>, keys: set<nat>, remaining: map<nat, int>, id: nat, neighbor: nat)
    requires forall k | 0 <= k < |edges| :: edges[k].1 in keys
    requires remaining.Keys == keys && neighbor in Targets(edges, id)
    ensures neighbor in remaining
  {
    TargetsFrom(edges, id, neighbor);
  }

  /** Once every neighbour is released, `id` counts as done. */
  lemma ReleaseDone(edges: seq<Edge>, keys: set<nat>, remaining: map<nat, int>, popped: seq<nat>, queue: seq<nat>,
                    before: set<nat>, id: nat)
    requires id !in before && Elems(popped) == before + {id}
    requires Kahn(edges, keys, remaining, popped, queue, before, Targets(edges, id))
    ensures Kahn(edges, keys, remaining, popped, queue, Elems(popped), [])
  {
    forall x | x in remaining ensures remaining[x] == Count(edges, Elems(popped), x) - multiset([])[x] {
      CountSplit(edges, before, id, x);
    }
    assert Counts(edges, remaining, Elems(popped), []);
  }

  /** One turn of the inner loop: the `j`-th dependent loses a dependency. */
  method ReleaseNeighbor(neighbors: seq<nat>, j: nat, remaining0: map<nat, int>, queue0: seq<nat>, ghost edges: seq<Edge>,
                         ghost keys: set<nat>, ghost popped: seq<nat>, ghost before: set<nat>, ghost id: nat)
    returns (remaining: map<nat, int>, queue: seq<nat>)
    requires neighbors == Targets(edges, id) && id !in before && Elems(popped) == before + {id}
    requires forall k | 0 <= k < |edges| :: edges[k].1 in keys
    requires j < |neighbors| && remaining0.Keys == keys
    requires Kahn(edges, keys, remaining0, popped, queue0, before, neighbors[..j])
    ensures Kahn(edges, keys, remaining, popped, queue, before, neighbors[..j + 1])
    ensures remaining.Keys == keys
  {
    var neighbor := neighbors[j];
    NeighborRegistered(edges, keys, remaining0, id, neighbor);
    remaining := remaining0[neighbor := remaining0[neighbor] - 1];
    queue := if remaining[neighbor] == 0 then queue0 + [neighbor] else queue0;
    ReleaseOne(edges, keys, remaining0, queue0, remaining, queue, popped, before, id, neighbors, j);
  }

  /**
   * The inner loop of `topologicalOrder`: each neighbour of the popped task `id` loses one
   * remaining dependency and joins the queue when none is left.
   */
  method Release(neighbors: seq<nat>, remaining0: map<nat, int>, queue0: seq<nat>, ghost edges: seq<Edge>,
                 ghost keys: set<nat>, ghost popped: seq<nat>, ghost before: set<nat>, ghost id: nat)
    returns (remaining: map<nat, int>, queue: seq<nat>)
    requires neighbors == Targets(edges, id) && id !in before && Elems(popped) == before + {id}
    requires forall k | 0 <= k < |edges| :: edges[k].1 in keys
    requires Kahn(edges, keys, remaining0, popped, queue0, before, [])
    ensures Kahn(edges, keys, remaining, popped, queue, Elems(popped), [])
  {
    remaining, queue := remaining0, queue0;
    var j := 0;
    while j < |neighbors|
      invariant 0 <= j <= |neighbors|
      invariant Kahn(edges, keys, remaining, popped, queue, before, neighbors[..j])
      invariant remaining.Keys == keys
    {
      remaining, queue := ReleaseNeighbor(neighbors, j, remaining, queue, edges, keys, popped, before, id);
      j := j + 1;
    }
    assert neighbors[..j] == neighbors;
    ReleaseDone(edges, keys, remaining, popped, queue, before, id);
  }

  /**
   * When the queue runs dry, every task was popped exactly when no edge starts at an
   * unregistered task and there is no dependency cycle; then the popped order has each
   * edge's dependency before its task.
   */
  lemma KahnOutcome(edges: seq<Edge>, keys: set<nat>, remaining: map<nat, int>, popped: seq<nat>)
    requires Kahn(edges, keys, remaining, popped, [], Elems(popped), [])
    requires forall k | 0 <= k < |edges| :: edges[k].1 in keys
    ensures Distinct(popped)
    ensures |popped| == |keys| ==> Elems(popped) == keys && forall k | 0 <= k < |edges| :: Precedes(popped, edges[k])
    ensures |popped| == |keys| <==> !Blocked(edges, keys) && forall q :: !IsCycle(edges, q)
  {
    assert popped + [] == popped;
    FullWhenLong(popped, keys);
    if |popped| == |keys| {
      forall k | 0 <= k < |edges| ensures Precedes(popped, edges[k]) && edges[k].0 in keys {
        assert edges[k].1 in Elems(popped);
        var i :| 0 <= i < |popped| && popped[i] == edges[k].1;
        var j :| 0 <= j < i && popped[j] == edges[k].0;
      }
      forall q ensures !IsCycle(edges, q) {
        NoCycle(edges, popped, q);
      }
    } else {
      assert exists x :: x in keys && x !in Elems(popped);
      var u :| u in keys && u !in Elems(popped);
      forall x | x in keys - Elems(popped)
        ensures exists k :: 0 <= k < |edges| && edges[k].1 == x && edges[k].0 !in Elems(popped)
      {
        CountZero(edges, Elems(popped), x);
      }
      BlockedOrCycle(edges, keys, Elems(popped), [u]);
    }
  }

  /** `order` holds the registered tasks `popped` names, position by position. */
  ghost predicate Listed(order: seq<RenderTask>, popped: seq<nat>, tasks: map<nat, RenderTask>)
  {
    |order| == |popped| && forall i | 0 <= i < |order| :: popped[i] in tasks && order[i] == tasks[popped[i]]
  }

  lemma ListedAppend(order: seq<RenderTask>, popped: seq<nat>, tasks: map<nat, RenderTask>, id: nat)
    requires Listed(order, popped, tasks) && id in tasks
    ensures Listed(order + [tasks[id]], popped + [id], tasks)
  {
  }

  class RenderDag {
    var tasks: map<nat, RenderTask>
    var adjacency: map<nat, seq<nat>>
    var indegree: map<nat, int>
    /** Every edge `addTask` recorded, in the order it recorded them. */
    ghost var edges: seq<Edge>

    /**
     * The three maps agree with the edges: each task carries its own id, each adjacency
     * list holds the edges from its key in order, each indegree counts the edges into
     * its task, and every edge leads to a registered task.
     */
    ghost predicate Valid()
      reads this
    {
      && indegree.Keys == tasks.Keys
      && (forall id | id in tasks :: tasks[id].id == id)
      && (forall k | 0 <= k < |edges| :: edges[k].1 in tasks && edges[k].0 in adjacency)
      && (forall d | d in adjacency :: adjacency[d] == Targets(edges, d))
      && (forall t | t in indegree :: indegree[t] == Count(edges, {}, t))
    }

    constructor ()
      ensures Valid() && tasks == map[] && adjacency == map[] && indegree == map[] && edges == []
    {
      tasks := map[];
      adjacency := map[];
      indegree := map[];
      edges := [];
    }

    /**
     * `addTask`: the task is (re-)registered, gets an adjacency list and indegree 0 if it had
     * none, and each dependency gains an edge to it and raises its indegree by one.
     */
    method AddTask(task: RenderTask)
      requires Valid()
      modifies this
      ensures Valid()
      ensures tasks == old(tasks)[task.id := task]
      ensures edges == old(edges) + DependencyEdges(task.dependencies, task.id)
      ensures adjacency.Keys == old(adjacency.Keys) + {task.id} + Elems(task.dependencies)
    {
      var t := task.id;
      Register(task);
      var deps := task.dependencies;
      var i := 0;
      while i < |deps|
        invariant 0 <= i <= |deps|
        invariant Valid()
        invariant tasks == old(tasks)[t := task]
        invariant edges == old(edges) + DependencyEdges(deps[..i], t)
        invariant adjacency.Keys == old(adjacency.Keys) + {t} + Elems(deps[..i])
      {
        PrefixStep(deps, i, t);
        ghost var recorded := DependencyEdges(deps[..i], t);
        AddEdge(deps[i], t);
        AppendAssoc(old(edges), recorded, (deps[i], t));
        i := i + 1;
      }
      assert deps[..i] == deps;
    }

    /** The start of `addTask`: the task is stored, with an empty adjacency list and indegree 0 if new. */
    method Register(task: RenderTask)
      requires Valid()
      modifies this
      ensures Valid()
      ensures tasks == old(tasks)[task.id := task] && edges == old(edges)
      ensures adjacency.Keys == old(adjacency.Keys) + {task.id}
    {
      var t := task.id;
      tasks := tasks[t := task];
      if t !in adjacency {
        TargetsNone(edges, t);
        adjacency := adjacency[t := []];
      }
      if t !in indegree {
        CountZero(edges, {}, t);
        indegree := indegree[t := 0];
      }
    }

    /** One dependency of `addTask`: `d` gains an edge to `t`, and `t` one more unit of indegree. */
    method AddEdge(d: nat, t: nat)
      requires Valid() && t in tasks
      modifies this
      ensures Valid()
      ensures tasks == old(tasks) && edges == old(edges) + [(d, t)]
      ensures adjacency.Keys == old(adjacency.Keys) + {d}
    {
      if d !in adjacency {
        TargetsNone(edges, d);
      }
      var targets := if d in adjacency then adjacency[d] else [];
      forall x ensures Targets(edges + [(d, t)], x) == Targets(edges, x) + (if x == d then [t] else []) {
        TargetsAppend(edges, (d, t), x);
      }
      forall x ensures Count(edges + [(d, t)], {}, x) == Count(edges, {}, x) + (if x == t then 1 else 0) {
        CountAppend(edges, (d, t), {}, x);
      }
      adjacency := adjacency[d := targets + [t]];
      indegree := indegree[t := indegree[t] + 1];
      edges := edges + [(d, t)];
    }

    /**
     * One turn of the loop of `topologicalOrder`: the head of the queue is polled and appended
     * to the order, and each of its dependents loses one remaining dependency, joining the queue
     * when none is left.
     */
    method Visit(queue0: seq<nat>, order0: seq<RenderTask>, ghost popped0: seq<nat>, remaining0: map<nat, nat>)
      returns (queue: seq<nat>, order: seq<RenderTask>, ghost popped: seq<nat>, remaining: map<nat, nat>)
      requires Valid() && queue0 != []
      requires Kahn(edges, tasks.Keys, remaining0, popped0, queue0, Elems(popped0), [])
      requires Listed(order0, popped0, tasks)
      ensures Kahn(edges, tasks.Keys, remaining, popped, queue, Elems(popped), [])
      ensures Listed(order, popped, tasks)
      ensures popped == popped0 + [queue0[0]] && order == order0 + [tasks[queue0[0]]]
      ensures tasks.Keys - Elems(popped) < tasks.Keys - Elems(popped0)
    {
      Poll(edges, tasks.Keys, remaining0, popped0, queue0);
      var id := queue0[0];
      ghost var before := Elems(popped0);
      queue := queue0[1..];
      ListedAppend(order0, popped0, tasks, id);
      popped := popped0 + [id];
      order := order0 + [tasks[id]];
      var neighbors := if id in adjacency then adjacency[id] else [];
      if id !in adjacency {
        TargetsNone(edges, id);
      }
      remaining, queue := Release(neighbors, remaining0, queue, edges, tasks.Keys, popped, before, id);
    }

    /**
     * `topologicalOrder`: Kahn's algorithm on a copy of the indegrees. The result lists every
     * registered task once, each after all of its dependencies; it is an `IllegalState` error
     * exactly when the graph has a dependency cycle or an edge from a task never registered,
     * whose dependents can then never be released. The graph itself is not changed.
     */
    method TopologicalOrder() returns (r: Result<seq<RenderTask>>)
      requires Valid()
      ensures r.Err? ==> r.error == IllegalState
      ensures r.Ok? ==> var ids := Ids(r.value);
        && Distinct(ids) && Elems(ids) == tasks.Keys && |r.value| == |tasks|
        && (forall i | 0 <= i < |r.value| :: r.value[i] == tasks[ids[i]])
        && (forall k | 0 <= k < |edges| :: Precedes(ids, edges[k]))
      ensures r.Err? <==> Blocked(edges, tasks.Keys) || exists q :: IsCycle(edges, q)
    {
      var queue := ZeroIndegree(indegree);
      var order: seq<RenderTask> := [];
      ghost var popped: seq<nat> := [];
      var remaining := indegree;
      KahnStart(edges, indegree, queue);
      while queue != []
        invariant Kahn(edges, tasks.Keys, remaining, popped, queue, Elems(popped), [])
        invariant Listed(order, popped, tasks)
        decreases tasks.Keys - Elems(popped)
      {
        queue, order, popped, remaining := Visit(queue, order, popped, remaining);
      }
      r := Conclude(order, popped, remaining);
    }

    /** The end of `topologicalOrder`: an order shorter than the task count means a cycle. */
    method Conclude(order: seq<RenderTask>, ghost popped: seq<nat>, remaining: map<nat, nat>) returns (r: Result<seq<RenderTask>>)
      requires Valid()
      requires Kahn(edges, tasks.Keys, remaining, popped, [], Elems(popped), [])
      requires Listed(order, popped, tasks)
      ensures r.Err? ==> r.error == IllegalState
      ensures r.Ok? ==> var ids := Ids(r.value);
        && Distinct(ids) && Elems(ids) == tasks.Keys && |r.value| == |tasks|
        && (forall i | 0 <= i < |r.value| :: r.value[i] == tasks[ids[i]])
        && (forall k | 0 <= k < |edges| :: Precedes(ids, edges[k]))
      ensures r.Err? <==> Blocked(edges, tasks.Keys) || exists q :: IsCycle(edges, q)
    {
      KahnOutcome(edges, tasks.Keys, remaining, popped);
      assert Ids(order) == popped;
      assert |tasks| == |tasks.Keys|;
      if |order| != |tasks| {
        r := Err(IllegalState);
      } else {
        r := Ok(order);
      }
    }
  }
}
