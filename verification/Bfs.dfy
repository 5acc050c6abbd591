// The shortest-path query of crates/sql/src/executor.rs: a breadth-first search
// over a list of directed edges.
module Bfs {
  datatype Option<+T> = None | Some(value: T)

  type Edge = (int, int)
  type Queue = seq<(int, nat)>

  // A walk of `n` hops along the edges.
  ghost predicate Walk(edges: seq<Edge>, n: nat, from: int, to: int)
    decreases n
  {
    if n == 0 then from == to else exists via :: Walk(edges, n - 1, from, via) && (via, to) in edges
  }

  // ---- What the search keeps ----

  // `level` is the hop count at which each visited node was queued.
  type Levels = map<int, nat>

  ghost predicate Level(edges: seq<Edge>, source: int, level: Levels, v: int) {
    v in level && Walk(edges, level[v], source, v)
  }

  ghost predicate Queued(queue: Queue, v: int) {
    exists i :: 0 <= i < |queue| && queue[i].0 == v
  }

  // Every node one hop from `v` is visited, at most one level on.
  ghost predicate Expanded(edges: seq<Edge>, level: Levels, v: int) {
    v in level && forall i | 0 <= i < |edges| && edges[i].0 == v :: AtMost(level, edges[i].1, level[v] + 1)
  }

  ghost predicate AtMost(level: Levels, v: int, n: nat) {
    v in level && level[v] <= n
  }

  // The queue holds visited nodes of level `d`, then of level `d + 1`.
  ghost predicate QueueOk(level: Levels, queue: Queue, d: nat) {
    && (forall i | 0 <= i < |queue| :: queue[i].0 in level && queue[i].1 == level[queue[i].0])
    && (forall i | 0 <= i < |queue| :: d <= queue[i].1 <= d + 1)
    && (forall i, j | 0 <= i < j < |queue| :: queue[i].1 <= queue[j].1)
    && (forall v | v in level :: AtMost(level, v, d + 1))
  }

  ghost predicate SearchOk(edges: seq<Edge>, source: int, level: Levels) {
    source in level && level[source] == 0 && forall v | v in level :: Level(edges, source, level, v)
  }

  // Visited nodes are queued, expanded, or `open`.
  ghost predicate AllExpanded(edges: seq<Edge>, level: Levels, queue: Queue, open: set<int>) {
    forall v | v in level && !Queued(queue, v) && v !in open :: Expanded(edges, level, v)
  }

  ghost predicate StageOk(edges: seq<Edge>, source: int, level: Levels, queue: Queue, d: nat, open: set<int>) {
    SearchOk(edges, source, level) && QueueOk(level, queue, d) && AllExpanded(edges, level, queue, open)
  }

  lemma QueuedIn(a: Queue, b: Queue, v: int)
    ensures Queued(a + b, v) <==> Queued(a, v) || Queued(b, v)
  {
    if i :| 0 <= i < |a| && a[i].0 == v {
      assert (a + b)[i].0 == v;
    }
    if i :| 0 <= i < |b| && b[i].0 == v {
      assert (a + b)[|a| + i].0 == v;
    }
  }

  // If every visited node of a level below `d` has been expanded, whatever is at
  // most `d` hops away has been visited.
  lemma {:induction false} WalksVisited(edges: seq<Edge>, source: int, level: Levels, d: nat, n: nat, w: int)
    requires SearchOk(edges, source, level)
    requires forall v | v in level && level[v] < d :: Expanded(edges, level, v)
    requires n <= d && Walk(edges, n, source, w)
    ensures AtMost(level, w, n)
  {
    if n > 0 {
      var via :| Walk(edges, n - 1, source, via) && (via, w) in edges;
      WalksVisited(edges, source, level, d, n - 1, via);
      assert Expanded(edges, level, via);
      var i :| 0 <= i < |edges| && edges[i] == (via, w);
      assert AtMost(level, edges[i].1, level[via] + 1);
    }
  }

  // No node of a level below the front waits.
  lemma BelowFront(edges: seq<Edge>, level: Levels, queue: Queue, d: nat, open: set<int>)
    requires QueueOk(level, queue, d) && AllExpanded(edges, level, queue, open)
    requires forall v | v in open :: v in level && level[v] >= d
    ensures forall v | v in level && level[v] < d :: Expanded(edges, level, v)
  {
    forall v | v in level && level[v] < d
      ensures !Queued(queue, v)
    {
    }
  }

  ghost predicate Unreached(edges: seq<Edge>, source: int, target: int, n: nat) {
    forall k: nat | k <= n :: !Walk(edges, k, source, target)
  }

  lemma TargetFartherThan(edges: seq<Edge>, source: int, target: int, level: Levels, d: nat)
    requires SearchOk(edges, source, level) && target !in level
    requires forall v | v in level && level[v] < d :: Expanded(edges, level, v)
    ensures Unreached(edges, source, target, d)
  {
    forall k: nat | k <= d
      ensures !Walk(edges, k, source, target)
    {
      if Walk(edges, k, source, target) {
        WalksVisited(edges, source, level, d, k, target);
      }
    }
  }

  // ---- The search ----

  // A first visit keeps what has been kept.
  lemma VisitOk(edges: seq<Edge>, source: int, level: Levels, queue: Queue, node: int, d: nat, nb: int)
    requires StageOk(edges, source, level, queue, d, {node})
    requires node in level && level[node] == d && nb !in level && (node, nb) in edges
    ensures StageOk(edges, source, level[nb := d + 1], queue + [(nb, d + 1)], d, {node})
  {
    var level', queue' := level[nb := d + 1], queue + [(nb, d + 1)];
    assert Level(edges, source, level, node);
    forall v | v in level'
      ensures Level(edges, source, level', v)
    {
      assert v != nb ==> Level(edges, source, level, v);
    }
    assert forall v | v in level :: AtMost(level, v, d + 1);
    QueuedIn(queue, [(nb, d + 1)], nb);
    assert [(nb, d + 1)][0].0 == nb;
    forall v | v in level' && !Queued(queue', v) && v !in {node}
      ensures Expanded(edges, level', v)
    {
      QueuedIn(queue, [(nb, d + 1)], v);
      assert Expanded(edges, level, v);
      forall i | 0 <= i < |edges| && edges[i].0 == v
        ensures AtMost(level', edges[i].1, level'[v] + 1)
      {
        assert AtMost(level, edges[i].1, level[v] + 1);
      }
    }
  }

  function Targets(edges: seq<Edge>): set<int> { set e | e in edges :: e.1 }

  // Go through the edges out of `node`; stop at the target.
  method Expand(edges: seq<Edge>, source: int, target: int, node: int, d: nat,
                visited: set<int>, queue: Queue, ghost level: Levels)
    returns (found: bool, visited': set<int>, queue': Queue, ghost level': Levels)
    requires visited == level.Keys && target !in visited && node in level && level[node] == d
    requires StageOk(edges, source, level, queue, d, {node})
    ensures found ==> (node, target) in edges
    ensures !found ==> visited' == level'.Keys && target !in visited'
    ensures !found ==> StageOk(edges, source, level', queue', d, {})
    ensures visited <= visited' <= visited + Targets(edges) && (visited == visited' ==> queue == queue')
  {
    found, visited', queue', level' := false, visited, queue, level;
    for i := 0 to |edges|
      invariant visited' == level'.Keys && target !in visited' && node in level' && level'[node] == d
      invariant StageOk(edges, source, level', queue', d, {node})
      invariant forall j | 0 <= j < i && edges[j].0 == node :: AtMost(level', edges[j].1, d + 1)
      invariant visited <= visited' <= visited + Targets(edges) && (visited == visited' ==> queue == queue')
    {
      assert forall v | v in level' :: AtMost(level', v, d + 1);
      if edges[i].0 == node {
        var nb := edges[i].1;
        if nb == target {
          return true, visited', queue', level';
        }
        if nb !in visited' {
          VisitOk(edges, source, level', queue', node, d, nb);
          visited', queue', level' := visited' + {nb}, queue' + [(nb, d + 1)], level'[nb := d + 1];
        }
      }
    }
  }

  // The fewest hops from source to target, or none when no walk leads there.
  method ShortestPath(edges: seq<Edge>, source: int, target: int) returns (hops: Option<nat>)
    ensures hops.Some? ==> Walk(edges, hops.value, source, target)
    ensures hops.Some? ==> forall k: nat | k < hops.value :: !Walk(edges, k, source, target)
    ensures hops.None? <==> forall n: nat :: !Walk(edges, n, source, target)
    ensures hops == Some(0) <==> source == target
  {
    if source == target {
      assert Walk(edges, 0, source, target);
      return Some(0);
    }
    var visited, queue: Queue := {source}, [(source, 0)];
    ghost var level: Levels, d := map[source := 0], 0;
    StartOk(edges, source);
    while queue != []
      invariant visited == level.Keys && target !in visited && StageOk(edges, source, level, queue, d, {})
      decreases Targets(edges) + {source} - visited, |queue|
    {
      var (node, dist) := queue[0];
      PopOk(edges, source, level, queue, d);
      FrontOk(edges, source, target, level, queue);
      ghost var before := visited;
      var found;
      d := dist;
      found, visited, queue, level := Expand(edges, source, target, node, dist, visited, queue[1..], level);
      if found {
        assert Walk(edges, dist, source, node);
        assert Walk(edges, dist + 1, source, target);
        return Some(dist + 1);
      }
    }
    NoneWaits(edges, source, target, level, d);
    hops := None;
  }

  lemma StartOk(edges: seq<Edge>, source: int)
    ensures StageOk(edges, source, map[source := 0], [(source, 0)], 0, {})
  {
    assert Walk(edges, 0, source, source);
    assert [(source, 0)][0].0 == source;
  }

  lemma PopOk(edges: seq<Edge>, source: int, level: Levels, queue: Queue, d: nat)
    requires queue != [] && StageOk(edges, source, level, queue, d, {})
    ensures StageOk(edges, source, level, queue[1..], queue[0].1, {queue[0].0})
  {
    assert queue == [queue[0]] + queue[1..];
    forall v | v in level && !Queued(queue[1..], v) && v !in {queue[0].0}
      ensures Expanded(edges, level, v)
    {
      QueuedIn([queue[0]], queue[1..], v);
    }
    forall v | v in level
      ensures AtMost(level, v, queue[0].1 + 1)
    {
      assert AtMost(level, v, d + 1);
    }
  }

  // The node popped is as near as its level says, and the target no nearer than
  // one hop on.
  lemma FrontOk(edges: seq<Edge>, source: int, target: int, level: Levels, queue: Queue)
    requires queue != [] && target !in level && queue[0].0 in level && level[queue[0].0] == queue[0].1
    requires StageOk(edges, source, level, queue[1..], queue[0].1, {queue[0].0})
    ensures Walk(edges, queue[0].1, source, queue[0].0) && Unreached(edges, source, target, queue[0].1)
  {
    BelowFront(edges, level, queue[1..], queue[0].1, {queue[0].0});
    TargetFartherThan(edges, source, target, level, queue[0].1);
    assert Level(edges, source, level, queue[0].0);
  }

  lemma NoneWaits(edges: seq<Edge>, source: int, target: int, level: Levels, d: nat)
    requires StageOk(edges, source, level, [], d, {}) && target !in level
    ensures forall n: nat :: !Walk(edges, n, source, target)
  {
    forall n: nat
      ensures !Walk(edges, n, source, target)
    {
      TargetFartherThan(edges, source, target, level, n);
    }
  }
}
