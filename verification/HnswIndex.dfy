// Insertion into and search of the layered graph of crates/storage/src/hnsw.rs.
module HnswIndex {
  import opened Hnsw

  datatype Option<+T> = None | Some(value: T)

  // `links[layer]` lists the neighbours of a node at that layer.
  datatype Node<V> = Node(vector: V, id: int, links: seq<seq<nat>>)

  function Links<V>(nodes: seq<Node<V>>, i: nat, layer: nat): seq<nat> {
    if i < |nodes| && layer < |nodes[i].links| then nodes[i].links[layer] else []
  }

  function LayerOf<V>(nodes: seq<Node<V>>, layer: nat): (g: Layer)
    ensures |g| == |nodes| && forall i | 0 <= i < |g| :: g[i] == Links(nodes, i, layer)
  {
    seq(|nodes|, (i: nat) => Links(nodes, i, layer))
  }

  // A layer holds twice as many links per node at the bottom.
  function Cap(m: nat, layer: nat): nat { if layer == 0 then 2 * m else m }

  // Node `i` of `n` has at most `cap` neighbours: other nodes, each once.
  predicate ListOk(list: seq<nat>, i: nat, n: nat, cap: nat) {
    Distinct(list) && |list| <= cap && i !in list && forall j | 0 <= j < |list| :: list[j] < n
  }

  ghost predicate LinksOk<V>(nodes: seq<Node<V>>, m: nat, i: nat, layer: nat) {
    ListOk(Links(nodes, i, layer), i, |nodes|, Cap(m, layer))
  }

  ghost predicate GraphOk<V>(nodes: seq<Node<V>>, m: nat) {
    forall i, layer | 0 <= i < |nodes| && 0 <= layer :: LinksOk(nodes, m, i, layer)
  }

  // Nothing links to node `i` at `layer`, nor from it.
  ghost predicate Isolated<V>(nodes: seq<Node<V>>, i: nat, layer: nat) {
    Links(nodes, i, layer) == [] && forall j | 0 <= j < |nodes| :: i !in Links(nodes, j, layer)
  }

  // Each neighbour of node `i` at `layer` links back to it.
  ghost predicate Mutual<V>(nodes: seq<Node<V>>, i: nat, layer: nat) {
    forall j | j in Links(nodes, i, layer) :: i in Links(nodes, j, layer)
  }

  // The same vectors under the same ids.
  ghost predicate SamePoints<V>(a: seq<Node<V>>, b: seq<Node<V>>) {
    |a| == |b| && forall i | 0 <= i < |a| :: a[i].vector == b[i].vector && a[i].id == b[i].id
  }

  ghost predicate SameLayer<V>(a: seq<Node<V>>, b: seq<Node<V>>, layer: nat) {
    forall i | 0 <= i < |a| :: Links(a, i, layer) == Links(b, i, layer)
  }

  function Dist<V>(nodes: seq<Node<V>>, metric: (V, V) -> real, query: V): Distance {
    (i: nat) => if i < |nodes| then metric(query, nodes[i].vector) else 0.0
  }

  // ---- Changing one list ----

  function Padded(links: seq<seq<nat>>, layer: nat): (padded: seq<seq<nat>>)
    ensures |padded| > layer && links <= padded
    ensures forall l | |links| <= l < |padded| :: padded[l] == []
    decreases layer + 1 - |links|
  {
    if |links| > layer then links else Padded(links + [[]], layer)
  }

  function SetLinks<V>(nodes: seq<Node<V>>, i: nat, layer: nat, list: seq<nat>): (out: seq<Node<V>>)
    requires i < |nodes|
    ensures SamePoints(nodes, out)
    ensures Links(out, i, layer) == list
    ensures forall j, l {:trigger Links(out, j, l)} | 0 <= j < |nodes| && 0 <= l && (j != i || l != layer)
      :: Links(out, j, l) == Links(nodes, j, l)
  {
    nodes[i := nodes[i].(links := Padded(nodes[i].links, layer)[layer := list])]
  }

  lemma SetLinksOk<V>(nodes: seq<Node<V>>, m: nat, i: nat, layer: nat, list: seq<nat>)
    requires GraphOk(nodes, m) && i < |nodes| && ListOk(list, i, |nodes|, Cap(m, layer))
    ensures GraphOk(SetLinks(nodes, i, layer, list), m)
  {
    var out := SetLinks(nodes, i, layer, list);
    forall j, l | 0 <= j < |out| && 0 <= l
      ensures LinksOk(out, m, j, l)
    {
      assert LinksOk(nodes, m, j, l);
    }
  }

  // What becomes of the list of a neighbour of the new node `v`: `v` is added, and if that
  // makes one too many, the farthest of the others goes.
  ghost predicate BackOk(before: seq<nat>, v: nat, after: seq<nat>, cap: nat, dist: Distance) {
    if |before| < cap then after == before + [v]
    else |after| == cap && Distinct(after) && v in after && (forall i | 0 <= i < |after| :: after[i] in before + [v])
         && Pruned(before + [v], v, after, dist)
  }

  // The list of node `j` at `layer`, when `v` has taken the neighbours `links` there.
  ghost predicate ListAfter<V>(a: seq<Node<V>>, b: seq<Node<V>>, v: nat, links: seq<nat>, j: nat, layer: nat, m: nat, metric: (V, V) -> real) {
    j < |a| && j != v ==>
      if j in links then BackOk(Links(a, j, layer), v, Links(b, j, layer), Cap(m, layer), Dist(a, metric, a[j].vector))
      else Links(b, j, layer) == Links(a, j, layer)
  }

  // Node `v` has taken the neighbours `links` at `layer`, and they it; no other layer has
  // changed.
  ghost predicate LinkedTo<V>(a: seq<Node<V>>, b: seq<Node<V>>, v: nat, links: seq<nat>, layer: nat, m: nat, metric: (V, V) -> real) {
    && SamePoints(a, b) && Links(b, v, layer) == links
    && (forall j: nat :: ListAfter(a, b, v, links, j, layer, m, metric))
    && (forall l: nat | l != layer :: SameLayer(a, b, l))
  }

  // One neighbour more.
  ghost predicate Linked<V>(a: seq<Node<V>>, b: seq<Node<V>>, v: nat, nb: nat, layer: nat, m: nat, metric: (V, V) -> real) {
    && SamePoints(a, b) && nb < |a|
    && Links(b, v, layer) == Links(a, v, layer) + [nb]
    && BackOk(Links(a, nb, layer), v, Links(b, nb, layer), Cap(m, layer), Dist(a, metric, a[nb].vector))
    && (forall j, l | 0 <= j < |a| && 0 <= l && (l != layer || (j != v && j != nb)) :: Links(b, j, l) == Links(a, j, l))
  }

  // Distances depend on the points only.
  lemma SameBack<V>(a: seq<Node<V>>, b: seq<Node<V>>, metric: (V, V) -> real, query: V, before: seq<nat>, v: nat, after: seq<nat>, cap: nat)
    requires SamePoints(a, b) && BackOk(before, v, after, cap, Dist(b, metric, query))
    ensures BackOk(before, v, after, cap, Dist(a, metric, query))
  {
    var d, e := Dist(a, metric, query), Dist(b, metric, query);
    assert forall i: nat :: d(i) == e(i);
  }

  lemma LinkedNext<V>(a: seq<Node<V>>, b: seq<Node<V>>, c: seq<Node<V>>, v: nat, links: seq<nat>, nb: nat, layer: nat, m: nat,
                      metric: (V, V) -> real)
    requires v < |a| && nb !in links && nb != v
    requires LinkedTo(a, b, v, links, layer, m, metric) && Linked(b, c, v, nb, layer, m, metric)
    ensures LinkedTo(a, c, v, links + [nb], layer, m, metric)
  {
    forall j: nat ensures ListAfter(a, c, v, links + [nb], j, layer, m, metric) {
      assert ListAfter(a, b, v, links, j, layer, m, metric);
      if j == nb {
        SameBack(a, b, metric, a[nb].vector, Links(a, nb, layer), v, Links(c, nb, layer), Cap(m, layer));
      }
    }
    forall l: nat | l != layer
      ensures SameLayer(a, c, l)
    {
      assert SameLayer(a, b, l);
    }
  }

  // Neighbours link back.
  lemma LinkedIsMutual<V>(a: seq<Node<V>>, b: seq<Node<V>>, v: nat, links: seq<nat>, layer: nat, m: nat, metric: (V, V) -> real)
    requires LinkedTo(a, b, v, links, layer, m, metric) && ListOk(links, v, |a|, Cap(m, layer))
    ensures Mutual(b, v, layer)
  {
    forall j | j in Links(b, v, layer) ensures v in Links(b, j, layer) {
      assert ListAfter(a, b, v, links, j, layer, m, metric);
    }
  }

  // ---- Pruning ----

  // Of `list`, only nodes at least as far as those kept are dropped, `keep` aside.
  ghost predicate Pruned(list: seq<nat>, keep: nat, kept: seq<nat>, dist: Distance) {
    forall w: nat | w in list && w !in kept :: forall i | 0 <= i < |kept| && kept[i] != keep :: dist(kept[i]) <= dist(w)
  }

  lemma PrunedByPrefix(list: seq<nat>, keep: nat, kept: seq<nat>, near: seq<nat>, k: nat, dist: Distance)
    requires ByDistance(near, dist) && Elements(near) == Elements(list)
    requires k <= |near| && k <= |kept| && kept[..k] == near[..k] && forall i | k <= i < |kept| :: kept[i] == keep
    ensures Pruned(list, keep, kept, dist)
  {
    forall w: nat, i | w in list && w !in kept && 0 <= i < |kept| && kept[i] != keep
      ensures dist(kept[i]) <= dist(w)
    {
      assert kept[i] == kept[..k][i] == near[i];
      assert w in Elements(list);
      assert w in near && near == near[..k] + near[k..] && w !in kept[..k];
      var j :| 0 <= j < |near[k..]| && near[k..][j] == w;
      assert near[k + j] == w;
    }
  }

  // The nearest `cap` of a list one too long, but `keep` always among them.
  method Prune(list: seq<nat>, keep: nat, cap: nat, dist: Distance) returns (kept: seq<nat>)
    requires Distinct(list) && keep in list && cap >= 1
    ensures Distinct(kept) && keep in kept && |kept| == if |list| < cap then |list| else cap
    ensures forall i | 0 <= i < |kept| :: kept[i] in list
    ensures Pruned(list, keep, kept, dist)
  {
    var near := SortedByDistance(Elements(list), dist);
    DistinctSize(list);
    forall i | 0 <= i < |near|
      ensures near[i] in list
    {
      assert near[i] in Elements(near);
    }
    assert keep in Elements(near) && |near| == |list|;
    var top := if cap < |near| then cap else |near|;
    if keep in near[..top] {
      kept := near[..top];
      PrunedByPrefix(list, keep, kept, near, top, dist);
    } else {
      kept := near[..cap - 1] + [keep];
      PrunedByPrefix(list, keep, kept, near, cap - 1, dist);
    }
  }

  // ---- Where a search may lead ----

  lemma LayerInRange<V>(nodes: seq<Node<V>>, m: nat, layer: nat)
    requires GraphOk(nodes, m)
    ensures InRange(LayerOf(nodes, layer))
  {
    forall i, j | 0 <= i < |nodes| && 0 <= j < |LayerOf(nodes, layer)[i]|
      ensures LayerOf(nodes, layer)[i][j] < |nodes|
    {
      assert LinksOk(nodes, m, i, layer);
    }
  }

  predicate Other(i: nat, v: nat) { i != v }

  // A search at a layer where node `v` is isolated does not meet it.
  lemma Unmet<V>(nodes: seq<Node<V>>, m: nat, layer: nat, v: nat, from: nat)
    requires GraphOk(nodes, m) && Isolated(nodes, v, layer) && from < |nodes| && from != v
    ensures v !in Reachable(LayerOf(nodes, layer), from)
  {
    var g := LayerOf(nodes, layer);
    var others := set i | 0 <= i < |nodes| && Other(i, v);
    LayerInRange(nodes, m, layer);
    forall i | i in others
      ensures Within(g, i, others)
    {
      forall j | 0 <= j < |g[i]|
        ensures g[i][j] in others
      {
        assert g[i] == Links(nodes, i, layer);
      }
    }
    ClosedHoldsReachable(g, others, from);
  }

  lemma PushOk<V>(nodes: seq<Node<V>>, m: nat, node: Node<V>)
    requires GraphOk(nodes, m) && forall l | 0 <= l < |node.links| :: node.links[l] == []
    ensures GraphOk(nodes + [node], m)
    ensures forall l: nat :: Isolated(nodes + [node], |nodes|, l)
  {
    var out := nodes + [node];
    forall i, l | 0 <= i < |out| && 0 <= l
      ensures LinksOk(out, m, i, l) && |nodes| !in Links(out, i, l)
    {
      assert i < |nodes| ==> LinksOk(nodes, m, i, l) && Links(out, i, l) == Links(nodes, i, l);
    }
  }

  // The new node has an empty list for each layer up to its level.
  function WithNew<V>(nodes: seq<Node<V>>, vector: V, id: int, level: nat): seq<Node<V>> {
    nodes + [Node(vector, id, seq(level + 1, _ => []))]
  }

  // What a search of a layer for `ef` nodes gives: the nearest of those visited, in order.
  // Every neighbour of a node found was visited, so none left out is nearer.
  ghost predicate Found(g: Layer, found: seq<nat>, visited: set<nat>, ef: nat, dist: Distance) {
    && Distinct(found) && ByDistance(found, dist) && Elements(found) <= visited && visited != {}
    && (ef >= 1 ==> IsNearest(Elements(found), visited, ef, dist) && forall i | 0 <= i < |found| :: Within(g, found[i], visited))
  }

  function First(found: seq<nat>, k: nat): seq<nat> { if k < |found| then found[..k] else found }

  // From `a` to `b`, node `v` has joined the layer: its neighbours are the nearest of a
  // search there, and only they have changed, each by taking it in.
  ghost predicate Joined<V>(a: seq<Node<V>>, b: seq<Node<V>>, v: nat, layer: nat, m: nat, ef: nat, metric: (V, V) -> real, vector: V) {
    exists found, visited ::
      && Found(LayerOf(a, layer), found, visited, ef, Dist(a, metric, vector)) && v !in visited
      && JoinedBy(a, b, v, First(found, Cap(m, layer)), layer, m, metric)
  }

  ghost predicate JoinedBy<V>(a: seq<Node<V>>, b: seq<Node<V>>, v: nat, links: seq<nat>, layer: nat, m: nat, metric: (V, V) -> real) {
    Links(b, v, layer) == links && Mutual(b, v, layer) && forall j: nat :: ListAfter(a, b, v, links, j, layer, m, metric)
  }

  // A node that joins a layer has a neighbour there, if links are kept at all.
  lemma JoinedHasNeighbour<V>(a: seq<Node<V>>, b: seq<Node<V>>, v: nat, layer: nat, m: nat, ef: nat, metric: (V, V) -> real, vector: V)
    requires Joined(a, b, v, layer, m, ef, metric, vector) && m >= 1 && ef >= 1
    ensures Links(b, v, layer) != []
  {
    var found, visited :|
      && Found(LayerOf(a, layer), found, visited, ef, Dist(a, metric, vector)) && v !in visited
      && JoinedBy(a, b, v, First(found, Cap(m, layer)), layer, m, metric);
    assert |visited| >= 1;
    assert found != [] by { assert found == [] ==> Elements(found) == {}; }
  }

  lemma LayerSame<V>(a: seq<Node<V>>, b: seq<Node<V>>, layer: nat)
    requires |a| == |b| && SameLayer(a, b, layer)
    ensures LayerOf(a, layer) == LayerOf(b, layer)
  {
  }

  // Other layers do not matter.
  lemma JoinedKept<V>(a: seq<Node<V>>, a': seq<Node<V>>, b: seq<Node<V>>, b': seq<Node<V>>, v: nat, layer: nat, m: nat, ef: nat,
                      metric: (V, V) -> real, vector: V)
    requires SamePoints(a, a') && SamePoints(b, b') && |a| == |b| && v < |a|
    requires SameLayer(a, a', layer) && SameLayer(b, b', layer) && Joined(a, b, v, layer, m, ef, metric, vector)
    ensures Joined(a', b', v, layer, m, ef, metric, vector)
  {
    var found, visited :|
      && Found(LayerOf(a, layer), found, visited, ef, Dist(a, metric, vector)) && v !in visited
      && JoinedBy(a, b, v, First(found, Cap(m, layer)), layer, m, metric);
    LayerSame(a, a', layer);
    FoundSame(a, a', LayerOf(a, layer), found, visited, ef, metric, vector);
    var links := First(found, Cap(m, layer));
    assert forall j: nat :: Links(b', j, layer) == Links(b, j, layer) && Links(a', j, layer) == Links(a, j, layer);
    forall j: nat ensures ListAfter(a', b', v, links, j, layer, m, metric) {
      assert ListAfter(a, b, v, links, j, layer, m, metric);
      if j < |a| && j != v && j in links {
        SameBack(a', a, metric, a[j].vector, Links(a, j, layer), v, Links(b, j, layer), Cap(m, layer));
      }
    }
    assert JoinedBy(a', b', v, links, layer, m, metric);
  }

  lemma FoundSame<V>(a: seq<Node<V>>, b: seq<Node<V>>, g: Layer, found: seq<nat>, visited: set<nat>, ef: nat, metric: (V, V) -> real, vector: V)
    requires SamePoints(a, b) && Found(g, found, visited, ef, Dist(a, metric, vector))
    ensures Found(g, found, visited, ef, Dist(b, metric, vector))
  {
    var d, e := Dist(a, metric, vector), Dist(b, metric, vector);
    assert forall i: nat :: d(i) == e(i);
    if ef >= 1 {
      forall v | v in Elements(found) ensures NoFarther(e, v, visited - Elements(found)) {
        assert NoFarther(d, v, visited - Elements(found));
      }
    }
  }

  lemma IsolatedKept<V>(a: seq<Node<V>>, b: seq<Node<V>>, v: nat, layer: nat)
    requires |a| == |b| && SameLayer(a, b, layer) && Isolated(a, v, layer) && v < |a|
    ensures Isolated(b, v, layer)
  {
    assert forall j: nat :: Links(a, j, layer) == Links(b, j, layer);
  }

  class Index<V> {
    const m: nat
    const efConstruction: nat
    const metric: (V, V) -> real
    var nodes: seq<Node<V>>
    var entry: Option<nat>
    var maxLayer: nat

    ghost predicate Valid()
      reads this
    {
      && GraphOk(nodes, m)
      && (entry.None? <==> nodes == [])
      && (entry.Some? ==> entry.value < |nodes|)
    }

    constructor (m: nat, efConstruction: nat, metric: (V, V) -> real)
      ensures Valid() && nodes == [] && entry == None
    {
      this.m := m;
      this.efConstruction := efConstruction;
      this.metric := metric;
      nodes := [];
      entry := None;
      maxLayer := 0;
    }

    function DistanceTo(query: V): Distance
      reads this
    {
      Dist(nodes, metric, query)
    }

    // Link the new node and a neighbour both ways, pruning the neighbour's list.
    method Connect(v: nat, nb: nat, layer: nat)
      requires GraphOk(nodes, m) && v < |nodes| && nb < |nodes| && v != nb
      requires nb !in Links(nodes, v, layer) && |Links(nodes, v, layer)| < Cap(m, layer)
      requires v !in Links(nodes, nb, layer)
      modifies this`nodes
      ensures GraphOk(nodes, m) && Linked(old(nodes), nodes, v, nb, layer, m, metric)
    {
      assert LinksOk(nodes, m, v, layer) && LinksOk(nodes, m, nb, layer);
      ghost var before := nodes;
      var own := Links(nodes, v, layer) + [nb];
      SetLinksOk(nodes, m, v, layer, own);
      nodes := SetLinks(nodes, v, layer, own);
      var back := Links(nodes, nb, layer) + [v];
      if |back| > Cap(m, layer) {
        ghost var full := back;
        var dist := DistanceTo(nodes[nb].vector);
        back := Prune(back, v, Cap(m, layer), dist);
        assert nb !in full;
      }
      SameBack(before, nodes, metric, nodes[nb].vector, Links(before, nb, layer), v, back, Cap(m, layer));
      SetLinksOk(nodes, m, nb, layer, back);
      nodes := SetLinks(nodes, nb, layer, back);
    }

    method ConnectAll(v: nat, neighbors: seq<nat>, layer: nat)
      requires GraphOk(nodes, m) && v < |nodes| && Isolated(nodes, v, layer)
      requires ListOk(neighbors, v, |nodes|, Cap(m, layer))
      modifies this`nodes
      ensures GraphOk(nodes, m) && LinkedTo(old(nodes), nodes, v, neighbors, layer, m, metric)
    {
      for k := 0 to |neighbors|
        invariant GraphOk(nodes, m) && LinkedTo(old(nodes), nodes, v, neighbors[..k], layer, m, metric)
      {
        ghost var before := nodes;
        assert neighbors[k] != v && neighbors[k] !in neighbors[..k];
        assert ListAfter(old(nodes), nodes, v, neighbors[..k], neighbors[k], layer, m, metric);
        Connect(v, neighbors[k], layer);
        LinkedNext(old(nodes), before, nodes, v, neighbors[..k], neighbors[k], layer, m, metric);
        assert neighbors[..k + 1] == neighbors[..k] + [neighbors[k]];
      }
      assert neighbors[..|neighbors|] == neighbors;
    }

    // One layer of the descent: the search and the nearest node it found, no farther than
    // the one it began with.
    method Descend(query: V, ep: nat, ef: nat, layer: nat) returns (found: seq<nat>, next: nat, ghost visited: set<nat>)
      requires GraphOk(nodes, m) && ep < |nodes|
      ensures Found(LayerOf(nodes, layer), found, visited, ef, DistanceTo(query))
      ensures ep in visited && visited <= Reachable(LayerOf(nodes, layer), ep)
      ensures next < |nodes| && next in visited && DistanceTo(query)(next) <= DistanceTo(query)(ep)
      ensures (ef >= 1 ==> NoFarther(DistanceTo(query), next, visited)) && (found != [] ==> next == found[0])
    {
      LayerInRange(nodes, m, layer);
      found, visited := SearchLayer(LayerOf(nodes, layer), ep, ef, DistanceTo(query));
      next := if found == [] then ep else found[0];
      FirstIsNearest(found, visited, ef, DistanceTo(query), ep, layer);
    }

    lemma FirstIsNearest(found: seq<nat>, visited: set<nat>, ef: nat, dist: Distance, ep: nat, layer: nat)
      requires Found(LayerOf(nodes, layer), found, visited, ef, dist) && ep in visited && visited <= Reachable(LayerOf(nodes, layer), ep)
      requires ef == 0 ==> Elements(found) <= {ep}
      ensures
        var next := if found == [] then ep else found[0];
        next < |nodes| && next in visited && dist(next) <= dist(ep) && (ef >= 1 ==> NoFarther(dist, next, visited))
    {
      if ef >= 1 {
        assert |visited| >= 1;
        assert found != [] by { assert found == [] ==> Elements(found) == {}; }
        var next := found[0];
        assert next in Elements(found);
        assert NoFarther(dist, next, visited - Elements(found));
        forall w | w in visited ensures dist(next) <= dist(w) {
          if w in Elements(found) {
            var i :| 0 <= i < |found| && found[i] == w;
          }
        }
      } else if found != [] {
        assert found[0] in Elements(found);
      }
    }

    // From the upper layers down to the one above `level`.
    method DescendTo(query: V, ep: nat, level: nat, ghost v: nat) returns (next: nat)
      requires GraphOk(nodes, m) && ep < |nodes| && ep != v && v < |nodes|
      requires forall l: nat :: Isolated(nodes, v, l)
      ensures next < |nodes| && next != v && DistanceTo(query)(next) <= DistanceTo(query)(ep)
    {
      next := ep;
      var layer := maxLayer;
      while layer > level
        invariant next < |nodes| && next != v && DistanceTo(query)(next) <= DistanceTo(query)(ep)
      {
        Unmet(nodes, m, layer, v, next);
        var found;
        ghost var visited;
        found, next, visited := Descend(query, next, 1, layer);
        layer := layer - 1;
      }
    }

    // Search one layer and link the new node to the nearest nodes found.
    method JoinLayer(vector: V, v: nat, ep: nat, layer: nat) returns (next: nat)
      requires GraphOk(nodes, m) && ep < |nodes| && ep != v && v < |nodes| && Isolated(nodes, v, layer)
      modifies this`nodes
      ensures GraphOk(nodes, m) && SamePoints(old(nodes), nodes) && next < |nodes| && next != v
      ensures Joined(old(nodes), nodes, v, layer, m, efConstruction, metric, vector)
      ensures forall l: nat | l != layer :: SameLayer(old(nodes), nodes, l)
    {
      Unmet(nodes, m, layer, v, ep);
      var found;
      ghost var visited;
      found, next, visited := Descend(vector, ep, efConstruction, layer);
      var neighbors := First(found, Cap(m, layer));
      forall i | 0 <= i < |neighbors|
        ensures neighbors[i] < |nodes| && neighbors[i] != v
      {
        assert neighbors[i] in Elements(found);
      }
      ConnectAll(v, neighbors, layer);
      LinkedIsMutual(old(nodes), nodes, v, neighbors, layer, m, metric);
      assert JoinedBy(old(nodes), nodes, v, First(found, Cap(m, layer)), layer, m, metric);
    }

    // `insert`, the level drawn for the new node given.
    method Insert(id: int, vector: V, level: nat)
      requires Valid()
      modifies this
      ensures Valid() && |nodes| == |old(nodes)| + 1
      ensures SamePoints(old(nodes), nodes[..|old(nodes)|])
      ensures nodes[|old(nodes)|].vector == vector && nodes[|old(nodes)|].id == id
      ensures old(nodes) == [] ==> maxLayer == level
      ensures old(nodes) != [] ==> maxLayer == (if level > old(maxLayer) then level else old(maxLayer))
      ensures entry == if old(nodes) == [] || level > old(maxLayer) then Some(|old(nodes)|) else old(entry)
      ensures old(nodes) != [] ==> forall l: nat | l <= level && l <= old(maxLayer) ::
        Joined(WithNew(old(nodes), vector, id, level), nodes, |old(nodes)|, l, m, efConstruction, metric, vector)
      ensures forall l: nat | old(nodes) == [] || l > level || l > old(maxLayer) :: SameLayer(WithNew(old(nodes), vector, id, level), nodes, l)
    {
      var v := |nodes|;
      PushOk(nodes, m, Node(vector, id, seq(level + 1, _ => [])));
      nodes := WithNew(nodes, vector, id, level);
      if entry.None? {
        entry, maxLayer := Some(v), level;
        return;
      }
      var ep := DescendTo(vector, entry.value, level, v);
      var top := if level < maxLayer then level else maxLayer;
      JoinLayers(vector, v, ep, top);
      if level > maxLayer {
        entry, maxLayer := Some(v), level;
      }
    }

    method JoinLayers(vector: V, v: nat, ep: nat, top: nat)
      requires GraphOk(nodes, m) && ep < |nodes| && ep != v && v < |nodes|
      requires forall l: nat :: Isolated(nodes, v, l)
      modifies this`nodes
      ensures GraphOk(nodes, m) && SamePoints(old(nodes), nodes)
      ensures forall l: nat | l <= top :: Joined(old(nodes), nodes, v, l, m, efConstruction, metric, vector)
      ensures forall l: nat | l > top :: SameLayer(old(nodes), nodes, l)
    {
      var layer, next: nat := top + 1, ep;
      ghost var start := nodes;
      while layer > 0
        invariant 0 <= layer <= top + 1
        invariant GraphOk(nodes, m) && SamePoints(start, nodes) && next < |nodes| && next != v
        invariant forall l: nat | l < layer || l > top :: SameLayer(start, nodes, l)
        invariant forall l: nat | layer <= l <= top :: Joined(start, nodes, v, l, m, efConstruction, metric, vector)
      {
        layer := layer - 1;
        ghost var before := nodes;
        IsolatedKept(start, nodes, v, layer);
        next := JoinLayer(vector, v, next, layer);
        forall l: nat | l < layer || l > top
          ensures SameLayer(start, nodes, l)
        {
          assert SameLayer(start, before, l) && SameLayer(before, nodes, l);
        }
        forall l: nat | layer <= l <= top
          ensures Joined(start, nodes, v, l, m, efConstruction, metric, vector)
        {
          if l == layer {
            JoinedKept(before, start, nodes, nodes, v, l, m, efConstruction, metric, vector);
          } else {
            JoinedKept(start, start, before, nodes, v, l, m, efConstruction, metric, vector);
          }
        }
      }
    }

    // `ep` is the first of the nodes a search of layer 1 found.
    ghost predicate Entered(query: V, ef: nat, ep: nat, found: seq<nat>, visited: set<nat>)
      reads this
    {
      Found(LayerOf(nodes, 1), found, visited, ef, DistanceTo(query)) && (found != [] ==> ep == found[0])
    }

    // The entry of layer 0: beams of width 1, then `ef` at layer 1.
    method Approach(query: V, ef: nat) returns (ep: nat)
      requires Valid() && nodes != []
      ensures ep < |nodes| && DistanceTo(query)(ep) <= DistanceTo(query)(entry.value)
      ensures maxLayer >= 1 ==> exists found, visited :: Entered(query, ef, ep, found, visited)
    {
      ep := entry.value;
      var layer := maxLayer;
      while layer > 0
        invariant ep < |nodes| && DistanceTo(query)(ep) <= DistanceTo(query)(entry.value)
        invariant 0 <= layer <= maxLayer
        invariant layer == 0 && maxLayer >= 1 ==> exists found, visited :: Entered(query, ef, ep, found, visited)
      {
        var found;
        ghost var visited;
        found, ep, visited := Descend(query, ep, if layer > 1 then 1 else ef, layer);
        assert layer == 1 ==> Entered(query, ef, ep, found, visited);
        layer := layer - 1;
      }
    }

    // The ids and distances of the nodes found.
    method Answers(query: V, found: seq<nat>) returns (out: seq<(int, real)>)
      requires forall i | 0 <= i < |found| :: found[i] < |nodes|
      ensures |out| == |found|
      ensures forall i | 0 <= i < |out| :: out[i] == (nodes[found[i]].id, DistanceTo(query)(found[i]))
    {
      out := [];
      for i := 0 to |found|
        invariant |out| == i
        invariant forall j | 0 <= j < i :: out[j] == (nodes[found[j]].id, DistanceTo(query)(found[j]))
      {
        out := out + [(nodes[found[i]].id, metric(query, nodes[found[i]].vector))];
      }
    }

    // `out` lists the nodes `found`, the `k` nearest of `visited`, by distance; every
    // neighbour of theirs at the bottom layer was visited.
    ghost predicate IsAnswer(query: V, k: nat, out: seq<(int, real)>, found: seq<nat>, visited: set<nat>)
      reads this
    {
      && Distinct(found) && (forall i | 0 <= i < |found| :: found[i] < |nodes|)
      && IsNearest(Elements(found), visited, k, DistanceTo(query)) && ByDistance(found, DistanceTo(query))
      && (forall i | 0 <= i < |found| :: Within(LayerOf(nodes, 0), found[i], visited))
      && |out| == |found|
      && (forall i | 0 <= i < |out| :: out[i] == (nodes[found[i]].id, DistanceTo(query)(found[i])))
    }

    // Each node reaches each other at the bottom, and the beam has room for all.
    ghost predicate Exhaustive(k: nat, ef: nat)
      reads this
    {
      Connected(LayerOf(nodes, 0)) && (|nodes| <= ef || |nodes| <= k)
    }

    // `search`: the `k` nearest of some nodes visited at the bottom layer, and of all
    // nodes when the search is exhaustive.
    method Search(query: V, k: nat, ef: nat) returns (out: seq<(int, real)>)
      requires Valid()
      ensures exists found, visited ::
        && IsAnswer(query, k, out, found, visited)
        && (Exhaustive(k, ef) ==> forall i | 0 <= i < |nodes| :: i in visited)
    {
      if nodes == [] {
        out := [];
        assert IsAnswer(query, k, out, [], {});
        return;
      }
      var ep := Approach(query, ef);
      ghost var visited;
      var found;
      found, visited := BottomSearch(query, ep, if ef > k then ef else k, k);
      out := Answers(query, found);
      assert IsAnswer(query, k, out, found, visited);
    }

    method BottomSearch(query: V, ep: nat, beam: nat, k: nat) returns (found: seq<nat>, ghost visited: set<nat>)
      requires GraphOk(nodes, m) && ep < |nodes| && k <= beam
      ensures Distinct(found) && forall i | 0 <= i < |found| :: found[i] < |nodes|
      ensures IsNearest(Elements(found), visited, k, DistanceTo(query)) && ByDistance(found, DistanceTo(query))
      ensures forall i | 0 <= i < |found| :: Within(LayerOf(nodes, 0), found[i], visited)
      ensures Connected(LayerOf(nodes, 0)) && |nodes| <= beam ==> forall i | 0 <= i < |nodes| :: i in visited
    {
      LayerInRange(nodes, m, 0);
      var g := LayerOf(nodes, 0);
      var all;
      all, visited := SearchLayer(g, ep, beam, DistanceTo(query));
      found := First(all, k);
      PrefixNearest(all, visited, beam, k, DistanceTo(query));
      FirstInRange(g, ep, all, visited, k);
      if Connected(g) {
        AllVisited(g, ep);
      }
    }
  }

  lemma FirstInRange(g: Layer, ep: nat, all: seq<nat>, visited: set<nat>, k: nat)
    requires Elements(all) <= visited <= Reachable(g, ep)
    ensures forall i | 0 <= i < |First(all, k)| :: First(all, k)[i] < |g| && First(all, k)[i] in all
  {
    forall i | 0 <= i < |First(all, k)|
      ensures First(all, k)[i] < |g|
    {
      assert First(all, k)[i] in Elements(all);
    }
  }

  ghost predicate Connected(g: Layer) {
    forall v, w | 0 <= v < |g| && 0 <= w < |g| :: Reaches(g, v, w)
  }

  lemma {:induction false} AtMost(s: set<nat>, n: nat)
    requires forall v | v in s :: v < n
    ensures |s| <= n
  {
    if n == 0 {
      assert s == {};
    } else {
      AtMost(s - {n - 1}, n - 1);
    }
  }

  lemma AllVisited(g: Layer, ep: nat)
    requires Connected(g) && ep < |g|
    ensures |Reachable(g, ep)| <= |g|
    ensures forall i | 0 <= i < |g| :: i in Reachable(g, ep)
  {
    AtMost(Reachable(g, ep), |g|);
    assert forall i | 0 <= i < |g| :: Reaches(g, ep, i);
  }

  // The first of the nearest in order are the nearest.
  lemma PrefixNearest(all: seq<nat>, visited: set<nat>, beam: nat, k: nat, dist: Distance)
    requires Distinct(all) && ByDistance(all, dist) && Elements(all) <= visited && k <= beam
    requires beam >= 1 ==> |all| == |Elements(all)| && IsNearest(Elements(all), visited, beam, dist)
    ensures IsNearest(Elements(First(all, k)), visited, k, dist)
  {
    var top := if k < |all| then k else |all|;
    var found := all[..top];
    assert First(all, k) == found;
    DistinctSize(found);
    if beam >= 1 {
      forall v, w | v in Elements(found) && w in visited - Elements(found)
        ensures dist(v) <= dist(w)
      {
        var i :| 0 <= i < |found| && found[i] == v;
        assert all[i] == v && v in Elements(all);
        if w in Elements(all) {
          assert all == found + all[top..];
          var j :| 0 <= j < |all[top..]| && all[top..][j] == w;
          assert all[top + j] == w;
        } else {
          assert NoFarther(dist, v, visited - Elements(all));
        }
      }
      assert forall v | v in found :: v in Elements(all);
    }
  }

  lemma {:induction false} DistinctSize(s: seq<nat>)
    requires Distinct(s)
    ensures |Elements(s)| == |s|
  {
    if s == [] {
      assert Elements(s) == {};
    } else {
      var init, v := s[..|s| - 1], s[|s| - 1];
      DistinctSize(init);
      assert s == init + [v];
      assert Elements(s) == Elements(init) + {v};
    }
  }
}
