// Beam search through one layer of the graph of crates/storage/src/hnsw.rs. A
// heap of entries is the set of the node indexes in it: an index is pushed once,
// and ties may pop either way. Distances from the query are any real numbers.
module Hnsw {
  type Distance = nat -> real

  // The neighbours of each node at one layer.
  type Layer = seq<seq<nat>>

  ghost predicate InRange(g: Layer) {
    forall i, j | 0 <= i < |g| && 0 <= j < |g[i]| :: g[i][j] < |g|
  }

  // ---- Reachability ----

  ghost predicate Path(g: Layer, p: seq<nat>, from: nat, to: nat) {
    && p != [] && p[0] == from && p[|p| - 1] == to
    && (forall i | 0 <= i < |p| :: p[i] < |g|)
    && (forall i | 0 <= i < |p| - 1 :: Hop(g, p, i))
  }

  ghost predicate Hop(g: Layer, p: seq<nat>, i: nat)
    requires i + 1 < |p|
  {
    p[i] < |g| && p[i + 1] in g[p[i]]
  }

  ghost predicate Reaches(g: Layer, from: nat, to: nat) {
    exists p :: Path(g, p, from, to)
  }

  ghost function Reachable(g: Layer, from: nat): set<nat> {
    set v | 0 <= v < |g| && Reaches(g, from, v)
  }

  lemma ReachesSelf(g: Layer, v: nat)
    requires v < |g|
    ensures v in Reachable(g, v)
  {
    assert Path(g, [v], v, v);
  }

  lemma ReachesNext(g: Layer, from: nat, v: nat, w: nat)
    requires v in Reachable(g, from) && w in g[v] && w < |g|
    ensures w in Reachable(g, from)
  {
    var p :| Path(g, p, from, v);
    var q := p + [w];
    forall i | 0 <= i < |q| - 1
      ensures Hop(g, q, i)
    {
      assert i < |p| - 1 ==> Hop(g, p, i);
    }
    assert Path(g, q, from, w);
  }

  // All neighbours of `v` are in `s`.
  predicate Within(g: Layer, v: nat, s: set<nat>) {
    v < |g| ==> forall j | 0 <= j < |g[v]| :: g[v][j] in s
  }

  ghost predicate Closed(g: Layer, s: set<nat>) {
    forall v | v in s :: Within(g, v, s)
  }

  lemma ReachableClosed(g: Layer, from: nat)
    requires InRange(g)
    ensures Closed(g, Reachable(g, from))
  {
    forall v, j | v in Reachable(g, from) && 0 <= j < |g[v]|
      ensures g[v][j] in Reachable(g, from)
    {
      ReachesNext(g, from, v, g[v][j]);
    }
  }

  lemma {:induction false} PathStays(g: Layer, s: set<nat>, p: seq<nat>, from: nat, to: nat, k: nat)
    requires Closed(g, s) && from in s && Path(g, p, from, to) && k < |p|
    ensures p[k] in s
  {
    if k > 0 {
      PathStays(g, s, p, from, to, k - 1);
      assert Hop(g, p, k - 1);
      assert Within(g, p[k - 1], s);
    }
  }

  lemma ClosedHoldsReachable(g: Layer, s: set<nat>, from: nat)
    requires Closed(g, s) && from in s
    ensures Reachable(g, from) <= s
  {
    forall v | v in Reachable(g, from)
      ensures v in s
    {
      var p :| Path(g, p, from, v);
      PathStays(g, s, p, from, v, |p| - 1);
    }
  }

  // ---- Heaps ----

  ghost predicate NoFarther(dist: Distance, v: nat, s: set<nat>) {
    forall w | w in s :: dist(v) <= dist(w)
  }

  ghost predicate NoNearer(dist: Distance, v: nat, s: set<nat>) {
    forall w | w in s :: dist(w) <= dist(v)
  }

  method Nearest(s: set<nat>, dist: Distance) returns (v: nat)
    requires s != {}
    ensures v in s && NoFarther(dist, v, s)
  {
    v :| v in s;
    var rest := s - {v};
    while rest != {}
      invariant v in s && rest <= s && NoFarther(dist, v, s - rest)
    {
      var w :| w in rest;
      if dist(w) < dist(v) {
        v := w;
      }
      rest := rest - {w};
    }
  }

  method Farthest(s: set<nat>, dist: Distance) returns (v: nat)
    requires s != {}
    ensures v in s && NoNearer(dist, v, s)
  {
    v := Nearest(s, (i: nat) => -dist(i));
    assert forall w | w in s :: -dist(v) <= -dist(w);
  }

  // ---- The search ----

  datatype Beam = Beam(visited: set<nat>, candidates: set<nat>, result: set<nat>)

  // `s` is the `ef` nearest of `visited`, or all of them.
  ghost predicate IsNearest(s: set<nat>, visited: set<nat>, ef: nat, dist: Distance) {
    && s <= visited
    && |s| == (if |visited| < ef then |visited| else ef)
    && forall v | v in s :: NoFarther(dist, v, visited - s)
  }

  ghost predicate BeamOk(b: Beam, ep: nat, reach: set<nat>) {
    ep in b.visited && b.visited <= reach && b.candidates <= b.visited && b.result <= b.visited
  }

  // Every kept node waits to be expanded, or has been, or is `open`, whose
  // neighbours are being looked at.
  ghost predicate Expanding(b: Beam, g: Layer, open: set<nat>) {
    forall v | v in b.result && v !in b.candidates && v !in open :: Within(g, v, b.visited)
  }

  // One more node beside the nearest: adding it and dropping the farthest keeps
  // the nearest.
  lemma NearestWith(s: set<nat>, visited: set<nat>, ef: nat, dist: Distance, v: nat)
    requires IsNearest(s, visited, ef, dist) && v !in visited && |s| < ef
    ensures IsNearest(s + {v}, visited + {v}, ef, dist)
  {
    SubsetSize(s, visited);
    assert s == visited;
  }

  lemma NearestWithout(s: set<nat>, visited: set<nat>, ef: nat, dist: Distance, v: nat, far: nat)
    requires IsNearest(s, visited, ef, dist) && v !in visited && |s| >= ef >= 1
    requires far in s && NoNearer(dist, far, s) && dist(v) >= dist(far)
    ensures IsNearest(s, visited + {v}, ef, dist)
  {
    forall w | w in s
      ensures NoFarther(dist, w, visited + {v} - s)
    {
      assert NoFarther(dist, w, visited - s);
    }
  }

  lemma NearestSwapped(s: set<nat>, visited: set<nat>, ef: nat, dist: Distance, v: nat, far: nat)
    requires IsNearest(s, visited, ef, dist) && v !in visited && |s| >= ef >= 1
    requires far in s + {v} && NoNearer(dist, far, s + {v})
    ensures IsNearest(s + {v} - {far}, visited + {v}, ef, dist)
  {
    var t := s + {v} - {far};
    forall w | w in t
      ensures NoFarther(dist, w, visited + {v} - t)
    {
      assert NoFarther(dist, far, visited - s) || far == v;
      forall x | x in visited + {v} - t
        ensures dist(w) <= dist(x)
      {
        if x != far {
          assert x in visited - s;
          assert w != v ==> NoFarther(dist, w, visited - s);
          if w == v {
            assert far in s;
            assert NoFarther(dist, far, visited - s);
          }
        }
      }
    }
  }

  lemma SubsetSize(a: set<nat>, b: set<nat>)
    requires a <= b
    ensures |a| <= |b| && (|a| == |b| ==> a == b)
  {
    assert b == a + (b - a) && |b| == |a| + |b - a|;
  }

  // A neighbour seen for the first time.
  method Visit(b: Beam, nb: nat, ef: nat, dist: Distance) returns (c: Beam)
    requires nb !in b.visited && b.result <= b.visited
    requires ef >= 1 ==> IsNearest(b.result, b.visited, ef, dist)
    ensures c.visited == b.visited + {nb}
    ensures b.candidates <= c.candidates <= b.candidates + {nb} && c.result <= b.result + {nb}
    ensures nb in c.result ==> nb in c.candidates
    ensures if ef >= 1 then IsNearest(c.result, c.visited, ef, dist) else c.result <= b.result
  {
    c := b.(visited := b.visited + {nb});
    var add := |b.result| < ef || b.result == {};
    if !add {
      var far := Farthest(b.result, dist);
      add := dist(nb) < dist(far);
      if !add {
        if ef >= 1 {
          NearestWithout(b.result, b.visited, ef, dist, nb, far);
        }
        return;
      }
    }
    if |b.result| < ef {
      NearestWith(b.result, b.visited, ef, dist, nb);
    }
    var result := b.result + {nb};
    while |result| > ef
      invariant result <= b.result + {nb}
      invariant ef >= 1 && |result| > ef ==> result == b.result + {nb} && |b.result| >= ef
      invariant ef >= 1 && |result| <= ef ==> IsNearest(result, c.visited, ef, dist)
    {
      var far := Farthest(result, dist);
      if ef >= 1 {
        NearestSwapped(b.result, b.visited, ef, dist, nb, far);
      }
      result := result - {far};
    }
    c := c.(candidates := b.candidates + {nb}, result := result);
  }

  ghost predicate Progress(b: Beam, c: Beam) {
    b.visited <= c.visited && (b.visited == c.visited ==> b.candidates == c.candidates)
  }

  // Look at all neighbours of `v`, just taken off the candidates.
  method Expand(b: Beam, g: Layer, v: nat, ep: nat, ef: nat, dist: Distance, ghost reach: set<nat>) returns (c: Beam)
    requires v < |g| && Within(g, v, reach) && BeamOk(b, ep, reach) && Expanding(b, g, {v})
    requires ef >= 1 ==> IsNearest(b.result, b.visited, ef, dist)
    ensures BeamOk(c, ep, reach) && Expanding(c, g, {}) && Progress(b, c)
    ensures if ef >= 1 then IsNearest(c.result, c.visited, ef, dist) else c.result <= b.result
  {
    c := b;
    assert Within(g, v, reach);
    for i := 0 to |g[v]|
      invariant BeamOk(c, ep, reach) && Expanding(c, g, {v}) && Progress(b, c)
      invariant if ef >= 1 then IsNearest(c.result, c.visited, ef, dist) else c.result <= b.result
      invariant forall j | 0 <= j < i :: g[v][j] in c.visited
    {
      var nb := g[v][i];
      if nb !in c.visited {
        ghost var before := c;
        c := Visit(c, nb, ef, dist);
        StillExpanding(before, c, g, v, nb);
      }
    }
  }

  lemma StillExpanding(b: Beam, c: Beam, g: Layer, v: nat, nb: nat)
    requires Expanding(b, g, {v}) && b.visited <= c.visited && b.candidates <= c.candidates
    requires c.result <= b.result + {nb} && (nb in c.result ==> nb in c.candidates)
    ensures Expanding(c, g, {v})
  {
    forall w | w in c.result && w !in c.candidates && w !in {v}
      ensures Within(g, w, c.visited)
    {
      assert Within(g, w, b.visited);
    }
  }

  // `search_layer`, up to the final sort. Every neighbour of a kept node has been
  // visited, so none that was left out is nearer than a kept one.
  method SearchBeam(g: Layer, ep: nat, ef: nat, dist: Distance) returns (b: Beam)
    requires InRange(g) && ep < |g|
    ensures BeamOk(b, ep, Reachable(g, ep))
    ensures ef >= 1 ==> IsNearest(b.result, b.visited, ef, dist) && forall v | v in b.result :: Within(g, v, b.visited)
    ensures ef == 0 ==> b.result <= {ep}
  {
    ReachesSelf(g, ep);
    ReachableClosed(g, ep);
    ghost var reach := Reachable(g, ep);
    b := Beam({ep}, {ep}, {ep});
    assert ef >= 1 ==> IsNearest(b.result, b.visited, ef, dist);
    while b.candidates != {}
      invariant BeamOk(b, ep, reach) && Expanding(b, g, {})
      invariant if ef >= 1 then IsNearest(b.result, b.visited, ef, dist) else b.result <= {ep}
      decreases reach - b.visited, b.candidates
    {
      var v := Nearest(b.candidates, dist);
      if |b.result| >= ef && b.result != {} {
        var far := Farthest(b.result, dist);
        if dist(v) > dist(far) {
          NoneWaits(b, g, dist, v, far);
          return;
        }
      }
      ghost var before := b;
      b := b.(candidates := b.candidates - {v});
      assert v in reach && Within(g, v, reach);
      b := Expand(b, g, v, ep, ef, dist, reach);
      assert before.visited != b.visited ==> reach - b.visited < reach - before.visited;
    }
  }

  // Once the nearest candidate is farther than every kept node, no kept node waits.
  lemma NoneWaits(b: Beam, g: Layer, dist: Distance, v: nat, far: nat)
    requires Expanding(b, g, {}) && NoFarther(dist, v, b.candidates) && NoNearer(dist, far, b.result)
    requires dist(v) > dist(far)
    ensures forall w | w in b.result :: Within(g, w, b.visited)
  {
    forall w | w in b.result
      ensures w !in b.candidates
    {
    }
  }

  // ---- What the caller gets ----

  predicate ByDistance(s: seq<nat>, dist: Distance) {
    forall i, j | 0 <= i < j < |s| :: dist(s[i]) <= dist(s[j])
  }

  function Elements(s: seq<nat>): set<nat> { set v | v in s }

  predicate Distinct(s: seq<nat>) {
    forall i, j | 0 <= i < j < |s| :: s[i] != s[j]
  }

  lemma NextNearest(out: seq<nat>, v: nat, rest: set<nat>, dist: Distance)
    requires Distinct(out) && ByDistance(out, dist) && Elements(out) !! rest && v in rest
    requires forall i | 0 <= i < |out| :: NoFarther(dist, out[i], rest)
    ensures Distinct(out + [v]) && ByDistance(out + [v], dist) && Elements(out + [v]) == Elements(out) + {v}
  {
    forall i | 0 <= i < |out|
      ensures out[i] != v && dist(out[i]) <= dist(v)
    {
      assert out[i] in Elements(out);
    }
  }

  method SortedByDistance(s: set<nat>, dist: Distance) returns (out: seq<nat>)
    ensures Elements(out) == s && |out| == |s| && Distinct(out) && ByDistance(out, dist)
  {
    out := [];
    var rest := s;
    while rest != {}
      invariant rest <= s && Elements(out) == s - rest && |out| == |s| - |rest|
      invariant Distinct(out) && ByDistance(out, dist)
      invariant forall i | 0 <= i < |out| :: NoFarther(dist, out[i], rest)
    {
      var v := Nearest(rest, dist);
      NextNearest(out, v, rest, dist);
      out := out + [v];
      rest := rest - {v};
    }
  }

  method SearchLayer(g: Layer, ep: nat, ef: nat, dist: Distance) returns (out: seq<nat>, ghost visited: set<nat>)
    requires InRange(g) && ep < |g|
    ensures Distinct(out) && |out| == |Elements(out)| && ByDistance(out, dist) && Elements(out) <= visited
    ensures ep in visited && visited <= Reachable(g, ep)
    ensures ef >= 1 ==> IsNearest(Elements(out), visited, ef, dist)
    ensures ef >= 1 ==> forall v | v in out :: Within(g, v, visited)
    ensures ef == 0 ==> Elements(out) <= {ep}
    ensures ef >= 1 && |Reachable(g, ep)| <= ef ==> Elements(out) == Reachable(g, ep)
  {
    var b := SearchBeam(g, ep, ef, dist);
    visited := b.visited;
    out := SortedByDistance(b.result, dist);
    if ef >= 1 && |Reachable(g, ep)| <= ef {
      AllFound(b, g, ep, ef, dist);
    }
  }

  // With room for every reachable node, nothing is dropped and nothing missed.
  lemma AllFound(b: Beam, g: Layer, ep: nat, ef: nat, dist: Distance)
    requires BeamOk(b, ep, Reachable(g, ep)) && IsNearest(b.result, b.visited, ef, dist)
    requires forall v | v in b.result :: Within(g, v, b.visited)
    requires |Reachable(g, ep)| <= ef
    ensures b.result == b.visited == Reachable(g, ep)
  {
    SubsetSize(b.visited, Reachable(g, ep));
    SubsetSize(b.result, b.visited);
    ClosedHoldsReachable(g, b.visited, ep);
  }
}
