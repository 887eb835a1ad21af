/** The endorsement graph and its shortest trust paths (origin-attest). Trust flows along valid
    Tier-2 endorsements of one capability domain. */
module TrustGraph {
  import opened Wrappers

  type Fp = string

  datatype Tier = Tier1 | Tier2

  datatype Endorsement = Endorsement(
    tier: Tier,
    endorser: Fp,
    endorsee: Fp,
    domain: string,
    confidence: real,
    validUntil: int,
    revocation: bool)
  {
    /** `validUntil` 0 means no expiry. */
    predicate IsValid(now: int) {
      !revocation && !(validUntil != 0 && now > validUntil)
    }

    predicate Carries(domain: string, now: int) {
      tier == Tier2 && this.domain == domain && IsValid(now)
    }
  }

  datatype TrustNode = TrustNode(received: seq<Endorsement>, given: seq<Endorsement>)

  datatype TrustConfig = TrustConfig(damping: real, maxHops: nat, alpha: real, beta: real)

  type Nodes = map<Fp, TrustNode>

  // ---------------------------------------------------------------- adjacency

  datatype Edge = Edge(to: Fp, confidence: real)

  type Graph = map<Fp, seq<Edge>>

  function Out(g: Graph, u: Fp): seq<Edge> {
    if u in g then g[u] else []
  }

  ghost predicate HasEdge(g: Graph, u: Fp, v: Fp) {
    exists e :: e in Out(g, u) && e.to == v
  }

  /** `u` vouches for `v` in the domain. */
  ghost predicate Vouches(nodes: Nodes, domain: string, now: int, u: Fp, v: Fp) {
    u in nodes && exists e :: e in nodes[u].given && e.Carries(domain, now) && e.endorsee == v
  }

  function EdgesOf(given: seq<Endorsement>, domain: string, now: int): seq<Edge> {
    if given == [] then []
    else
      var e := given[|given| - 1];
      EdgesOf(given[..|given| - 1], domain, now)
      + (if e.Carries(domain, now) then [Edge(e.endorsee, e.confidence)] else [])
  }

  ghost predicate IsAdjacency(g: Graph, nodes: Nodes, domain: string, now: int) {
    forall u :: Out(g, u) == if u in nodes then EdgesOf(nodes[u].given, domain, now) else []
  }

  lemma {:induction false} EdgesOfGiven(given: seq<Endorsement>, domain: string, now: int)
    ensures forall v: Fp, c: real ::
              Edge(v, c) in EdgesOf(given, domain, now)
              <==> exists e :: e in given && e.Carries(domain, now) && e.endorsee == v && e.confidence == c
  {
    if given != [] {
      var pre, last := given[..|given| - 1], given[|given| - 1];
      EdgesOfGiven(pre, domain, now);
      assert given == pre + [last];
      forall v: Fp, c: real ensures Edge(v, c) in EdgesOf(given, domain, now)
              <==> exists e :: e in given && e.Carries(domain, now) && e.endorsee == v && e.confidence == c
      {
        assert forall e :: e in given <==> e in pre || e == last;
      }
    }
  }

  lemma AdjacencyVouches(g: Graph, nodes: Nodes, domain: string, now: int, u: Fp, v: Fp)
    requires IsAdjacency(g, nodes, domain, now)
    ensures HasEdge(g, u, v) <==> Vouches(nodes, domain, now, u, v)
  {
    assert Out(g, u) == if u in nodes then EdgesOf(nodes[u].given, domain, now) else [];
    if u in nodes {
      EdgesOfGiven(nodes[u].given, domain, now);
      if HasEdge(g, u, v) {
        var e :| e in Out(g, u) && e.to == v;
        assert Edge(v, e.confidence) in EdgesOf(nodes[u].given, domain, now);
      }
      if Vouches(nodes, domain, now, u, v) {
        var e :| e in nodes[u].given && e.Carries(domain, now) && e.endorsee == v;
        assert Edge(v, e.confidence) in Out(g, u);
      }
    }
  }

  // ---------------------------------------------------------------- paths

  ghost predicate IsPath(g: Graph, p: seq<Fp>) {
    |p| > 0 && forall i :: 0 <= i < |p| - 1 ==> HasEdge(g, p[i], p[i + 1])
  }

  ghost predicate Connects(g: Graph, from: Fp, to: Fp, p: seq<Fp>) {
    IsPath(g, p) && p[0] == from && p[|p| - 1] == to
  }

  /** A trust path, told by the endorsements themselves. */
  ghost predicate IsTrustPath(nodes: Nodes, domain: string, now: int, from: Fp, to: Fp, p: seq<Fp>) {
    && |p| > 0 && p[0] == from && p[|p| - 1] == to
    && forall i :: 0 <= i < |p| - 1 ==> Vouches(nodes, domain, now, p[i], p[i + 1])
  }

  lemma TrustPathConnects(g: Graph, nodes: Nodes, domain: string, now: int, from: Fp, to: Fp, p: seq<Fp>)
    requires IsAdjacency(g, nodes, domain, now)
    ensures Connects(g, from, to, p) <==> IsTrustPath(nodes, domain, now, from, to, p)
  {
    forall i | 0 <= i < |p| - 1 ensures HasEdge(g, p[i], p[i + 1]) <==> Vouches(nodes, domain, now, p[i], p[i + 1]) {
      AdjacencyVouches(g, nodes, domain, now, p[i], p[i + 1]);
    }
  }

  // ---------------------------------------------------------------- breadth-first search

  /** Every discovered node but the start has a parent one layer closer. */
  ghost predicate ParentsSound(g: Graph, from: Fp, parent: map<Fp, Fp>, dist: map<Fp, nat>) {
    && from in dist && dist[from] == 0 && from !in parent
    && dist.Keys == parent.Keys + {from}
    && (forall v {:trigger parent[v]} :: v in parent ==>
          parent[v] in dist && HasEdge(g, parent[v], v) && dist[v] == dist[parent[v]] + 1)
  }

  /** All that `u` vouches for is discovered, at most one layer further. */
  ghost predicate Expanded(g: Graph, dist: map<Fp, nat>, u: Fp)
    requires u in dist
  {
    forall i :: 0 <= i < |Out(g, u)| ==> Out(g, u)[i].to in dist && dist[Out(g, u)[i].to] <= dist[u] + 1
  }

  /** The queue holds the undone nodes in order of layers, none of them closer than `d`. */
  ghost predicate Layered(queue: seq<Fp>, dist: map<Fp, nat>, d: nat) {
    && (forall i :: 0 <= i < |queue| ==> queue[i] in dist && d <= dist[queue[i]])
    && (forall i, j :: 0 <= i < j < |queue| ==> dist[queue[i]] <= dist[queue[j]])
  }

  ghost predicate OthersExpanded(g: Graph, dist: map<Fp, nat>, waiting: set<Fp>) {
    forall u <- dist :: u !in waiting ==> Expanded(g, dist, u)
  }

  ghost function Reachables(g: Graph, from: Fp): set<Fp> {
    {from} + set u, i | u in g && 0 <= i < |g[u]| :: g[u][i].to
  }

  lemma EdgeEndsReachable(g: Graph, from: Fp, u: Fp, i: nat)
    requires i < |Out(g, u)|
    ensures Out(g, u)[i].to in Reachables(g, from)
  {}

  /** If everything closer than layer `d` is expanded and `to` is not discovered, every path to
      `to` has more than `d` edges. */
  lemma {:induction false} UndiscoveredIsFar(g: Graph, from: Fp, to: Fp, dist: map<Fp, nat>, d: nat, p: seq<Fp>)
    requires from in dist && dist[from] == 0 && to !in dist && Connects(g, from, to, p)
    requires forall u <- dist :: dist[u] < d ==> Expanded(g, dist, u)
    ensures |p| - 1 > d
  {
    if |p| - 1 <= d {
      PrefixDiscovered(g, from, dist, d, p, |p| - 1);
    }
  }

  lemma {:induction false} PrefixDiscovered(g: Graph, from: Fp, dist: map<Fp, nat>, d: nat, p: seq<Fp>, i: nat)
    requires from in dist && dist[from] == 0 && IsPath(g, p) && p[0] == from
    requires forall u <- dist :: dist[u] < d ==> Expanded(g, dist, u)
    requires i < |p| && i <= d
    ensures p[i] in dist && dist[p[i]] <= i
  {
    if i > 0 {
      PrefixDiscovered(g, from, dist, d, p, i - 1);
      assert HasEdge(g, p[i - 1], p[i]);
    }
  }

  lemma {:induction false} ClosedHasNoWayOut(g: Graph, from: Fp, dist: map<Fp, nat>, p: seq<Fp>, i: nat)
    requires from in dist && IsPath(g, p) && p[0] == from && i < |p|
    requires forall u <- dist :: Expanded(g, dist, u)
    ensures p[i] in dist
  {
    if i > 0 {
      ClosedHasNoWayOut(g, from, dist, p, i - 1);
      assert HasEdge(g, p[i - 1], p[i]);
    }
  }

  function Reversed<T>(s: seq<T>): (r: seq<T>)
    ensures |r| == |s|
  {
    if s == [] then [] else [s[|s| - 1]] + Reversed(s[..|s| - 1])
  }

  lemma ReversedAppend<T>(s: seq<T>, x: T)
    ensures Reversed(s + [x]) == [x] + Reversed(s)
  {
    assert (s + [x])[..|s|] == s;
  }

  lemma PrependEdge(g: Graph, u: Fp, v: Fp, to: Fp, p: seq<Fp>)
    requires HasEdge(g, u, v) && Connects(g, v, to, p)
    ensures Connects(g, u, to, [u] + p)
  {
    var q := [u] + p;
    forall i | 0 <= i < |q| - 1 ensures HasEdge(g, q[i], q[i + 1]) {
      if i > 0 { assert q[i] == p[i - 1] && q[i + 1] == p[i]; }
    }
  }

  /** From `to` back along the parents: ends, ends at `from`, and has walked a path of `dist[to]`
      edges backwards. */
  method WalkBack(g: Graph, from: Fp, to: Fp, parent: map<Fp, Fp>, ghost dist: map<Fp, nat>) returns (path: seq<Fp>)
    requires ParentsSound(g, from, parent, dist) && to in dist
    ensures Connects(g, from, to, path) && |path| == dist[to] + 1
  {
    var step := to;
    var back := [step];
    while step in parent
      invariant step in dist
      invariant Connects(g, step, to, Reversed(back))
      invariant |back| == dist[to] - dist[step] + 1
      decreases dist[step]
    {
      var p := parent[step];
      PrependEdge(g, p, step, to, Reversed(back));
      ReversedAppend(back, p);
      back := back + [p];
      step := p;
    }
    path := Reversed(back);
  }

  ghost function Elements(queue: seq<Fp>): set<Fp> {
    set x | x in queue
  }

  /** The state of a search that has not found `to`: the nodes in `busy` are being expanded, those
      queued wait for it, all others are done. */
  ghost predicate Searching(g: Graph, from: Fp, to: Fp, parent: map<Fp, Fp>, dist: map<Fp, nat>,
                            queue: seq<Fp>, d: nat, busy: set<Fp>) {
    && dist.Keys <= Reachables(g, from) && to !in dist
    && (forall v <- dist :: dist[v] <= d + 1)
    && ParentsSound(g, from, parent, dist)
    && Layered(queue, dist, d)
    && OthersExpanded(g, dist, Elements(queue) + busy)
  }

  /** Discoveries still possible, plus nodes still to be expanded. */
  ghost function Room(g: Graph, from: Fp, dist: map<Fp, nat>, queue: seq<Fp>): nat {
    |Reachables(g, from) - dist.Keys| + |queue|
  }

  lemma Started(g: Graph, from: Fp, to: Fp)
    requires from != to
    ensures Searching(g, from, to, map[], map[from := 0], [from], 0, {})
  {}

  lemma Dequeued(g: Graph, from: Fp, to: Fp, parent: map<Fp, Fp>, dist: map<Fp, nat>, queue: seq<Fp>, d: nat)
    requires queue != [] && Searching(g, from, to, parent, dist, queue, d, {})
    ensures Searching(g, from, to, parent, dist, queue[1..], dist[queue[0]], {queue[0]})
  {
    assert Elements(queue) == Elements(queue[1..]) + {queue[0]};
  }

  lemma Discovered(g: Graph, from: Fp, to: Fp, parent: map<Fp, Fp>, dist: map<Fp, nat>, queue: seq<Fp>, d: nat,
                   current: Fp, v: Fp)
    requires Searching(g, from, to, parent, dist, queue, d, {current}) && current in dist && dist[current] == d
    requires v !in dist && v != to && v in Reachables(g, from) && HasEdge(g, current, v)
    ensures Searching(g, from, to, parent[v := current], dist[v := d + 1], queue + [v], d, {current})
    ensures Room(g, from, dist[v := d + 1], queue + [v]) == Room(g, from, dist, queue)
  {
    hide Layered, OthersExpanded, ParentsSound, HasEdge;
    assert Reachables(g, from) - dist.Keys == (Reachables(g, from) - dist[v := d + 1].Keys) + {v};
    assert Elements(queue + [v]) + {current} == Elements(queue) + {current} + {v};
    ParentsGrow(g, from, parent, dist, current, v);
    LayersGrow(queue, dist, d, v);
    ExpandedGrows(g, dist, v, d + 1, Elements(queue) + {current});
  }

  lemma LayersGrow(queue: seq<Fp>, dist: map<Fp, nat>, d: nat, v: Fp)
    requires Layered(queue, dist, d) && v !in dist && forall u <- dist :: dist[u] <= d + 1
    ensures Layered(queue + [v], dist[v := d + 1], d)
  {}

  lemma ExpandedGrows(g: Graph, dist: map<Fp, nat>, v: Fp, n: nat, waiting: set<Fp>)
    requires v !in dist && OthersExpanded(g, dist, waiting)
    ensures OthersExpanded(g, dist[v := n], waiting + {v})
  {
    forall u <- dist[v := n] | u !in waiting + {v} ensures Expanded(g, dist[v := n], u) {
      assert Expanded(g, dist, u);
    }
  }

  lemma Done(g: Graph, from: Fp, to: Fp, parent: map<Fp, Fp>, dist: map<Fp, nat>, queue: seq<Fp>, d: nat, current: Fp)
    requires Searching(g, from, to, parent, dist, queue, d, {current}) && current in dist && dist[current] == d
    requires forall i :: 0 <= i < |Out(g, current)| ==> Out(g, current)[i].to in dist
    ensures Searching(g, from, to, parent, dist, queue, d, {})
  {
    assert Expanded(g, dist, current);
  }

  lemma FoundIsNearest(g: Graph, from: Fp, to: Fp, parent: map<Fp, Fp>, dist: map<Fp, nat>, queue: seq<Fp>, d: nat,
                       current: Fp, p: seq<Fp>)
    requires Searching(g, from, to, parent, dist, queue, d, {current}) && current in dist && dist[current] == d
    requires Connects(g, from, to, p)
    ensures |p| >= d + 2
  {
    forall u <- dist | dist[u] < d ensures Expanded(g, dist, u) {
      assert u !in Elements(queue) + {current};
    }
    UndiscoveredIsFar(g, from, to, dist, d, p);
  }

  lemma ParentsGrow(g: Graph, from: Fp, parent: map<Fp, Fp>, dist: map<Fp, nat>, u: Fp, v: Fp)
    requires ParentsSound(g, from, parent, dist) && u in dist && v !in dist && HasEdge(g, u, v)
    ensures ParentsSound(g, from, parent[v := u], dist[v := dist[u] + 1])
  {}

  lemma NothingLeft(g: Graph, from: Fp, to: Fp, parent: map<Fp, Fp>, dist: map<Fp, nat>, d: nat)
    requires Searching(g, from, to, parent, dist, [], d, {})
    ensures forall p :: !Connects(g, from, to, p)
  {
    forall p | Connects(g, from, to, p) ensures false {
      ClosedHasNoWayOut(g, from, dist, p, |p| - 1);
    }
  }

  /** `to` has just come up as something `current` vouches for. */
  method Found(g: Graph, from: Fp, to: Fp, current: Fp, ghost d: nat,
               parent0: map<Fp, Fp>, ghost queue: seq<Fp>, ghost dist: map<Fp, nat>) returns (path: seq<Fp>)
    requires Searching(g, from, to, parent0, dist, queue, d, {current}) && current in dist && dist[current] == d
    requires HasEdge(g, current, to)
    ensures Connects(g, from, to, path)
    ensures forall p :: Connects(g, from, to, p) ==> |path| <= |p|
  {
    forall p | Connects(g, from, to, p) ensures |p| >= d + 2 {
      FoundIsNearest(g, from, to, parent0, dist, queue, d, current, p);
    }
    ParentsGrow(g, from, parent0, dist, current, to);
    var parent := parent0[to := current];
    path := WalkBack(g, from, to, parent, dist[to := d + 1]);
  }

  /** Looks at everything `current` vouches for. Returns a shortest path if `to` is among it. */
  method Expand(g: Graph, from: Fp, to: Fp, current: Fp, ghost d: nat,
                visited0: set<Fp>, parent0: map<Fp, Fp>, queue0: seq<Fp>, ghost dist0: map<Fp, nat>)
    returns (found: Option<seq<Fp>>, visited: set<Fp>, parent: map<Fp, Fp>, queue: seq<Fp>, ghost dist: map<Fp, nat>)
    requires dist0.Keys == visited0 && current in dist0 && dist0[current] == d
    requires Searching(g, from, to, parent0, dist0, queue0, d, {current})
    ensures found.Some? ==> Connects(g, from, to, found.value)
    ensures found.Some? ==> forall p :: Connects(g, from, to, p) ==> |found.value| <= |p|
    ensures found.None? ==> dist.Keys == visited && Searching(g, from, to, parent, dist, queue, d, {})
    ensures found.None? ==> Room(g, from, dist, queue) == Room(g, from, dist0, queue0)
  {
    hide Searching, Room, Reachables;
    visited, parent, queue, dist := visited0, parent0, queue0, dist0;
    var neighbors := Out(g, current);
    var k := 0;
    while k < |neighbors|
      invariant 0 <= k <= |neighbors|
      invariant dist.Keys == visited && current in dist && dist[current] == d
      invariant Searching(g, from, to, parent, dist, queue, d, {current})
      invariant forall j :: 0 <= j < k ==> neighbors[j].to in visited
      invariant Room(g, from, dist, queue) == Room(g, from, dist0, queue0)
    {
      var neighbor := neighbors[k].to;
      if neighbor !in visited {
        assert neighbors[k] in Out(g, current) && HasEdge(g, current, neighbor);
        if neighbor == to {
          var path := Found(g, from, to, current, d, parent, queue, dist);
          found := Some(path);
          return;
        }
        EdgeEndsReachable(g, from, current, k);
        Discovered(g, from, to, parent, dist, queue, d, current, neighbor);
        visited := visited + {neighbor};
        parent := parent[neighbor := current];
        dist := dist[neighbor := d + 1];
        queue := queue + [neighbor];
      }
      k := k + 1;
    }
    Done(g, from, to, parent, dist, queue, d, current);
    found := None;
  }

  /** Breadth-first search: a shortest path, or none exactly when there is none. */
  method Search(g: Graph, from: Fp, to: Fp) returns (r: Option<seq<Fp>>)
    ensures r.Some? ==> Connects(g, from, to, r.value)
    ensures r.Some? ==> forall p :: Connects(g, from, to, p) ==> |r.value| <= |p|
    ensures r.None? ==> forall p :: !Connects(g, from, to, p)
  {
    if from == to {
      return Some([from]);
    }
    var visited := {from};
    var parent: map<Fp, Fp> := map[];
    var queue := [from];
    ghost var dist: map<Fp, nat> := map[from := 0];
    ghost var d := 0;
    Started(g, from, to);
    while queue != []
      invariant dist.Keys == visited
      invariant Searching(g, from, to, parent, dist, queue, d, {})
      decreases Room(g, from, dist, queue)
    {
      Dequeued(g, from, to, parent, dist, queue, d);
      var current := queue[0];
      d := dist[current];
      var found;
      found, visited, parent, queue, dist := Expand(g, from, to, current, d, visited, parent, queue[1..], dist);
      if found.Some? {
        return found;
      }
    }
    NothingLeft(g, from, to, parent, dist, d);
    return None;
  }
}
