/**
  Directed graphs of `id_effect_graph` and Kahn's topological sort.

  - Node ids come as a sequence without duplicates, which stands for the ordered
    set in its iteration order; the sort is right for every such order.
  - A set of nodes supports itself when each member has a predecessor inside; a
    graph has a cycle exactly when some nonempty set does.
  - The sort keeps, for every node, the number of its incoming edges from nodes
    not yet in the order; what cannot be ordered is the largest such set.
 */
module Dag {
  import opened Results
  import KeyOrder

  datatype GraphError =
    | DuplicateNode(id: string)
    | MissingDependency(node: string, dependency: string)
    | ConflictingProvider(capability: string, first: string, second: string)
    | CycleDetected(nodes: seq<string>)
    | UnknownNode(id: string)

  /** An edge `(a, b)` says that `b` depends on `a`. */
  type Edge = (string, string)

  ghost predicate NoDup<T>(s: seq<T>) {
    forall i, j :: 0 <= i < j < |s| ==> s[i] != s[j]
  }

  ghost predicate Closed(nodes: seq<string>, edges: seq<Edge>) {
    forall k :: 0 <= k < |edges| ==> edges[k].0 in nodes && edges[k].1 in nodes
  }

  // ------------------------------------------------------------------
  // Independent notions: cycles, supported sets, topological orders
  // ------------------------------------------------------------------

  function Next(p: nat, n: nat): nat { if p + 1 < n then p + 1 else 0 }

  /** `p` is a closed walk along edges. */
  ghost predicate IsCycle(edges: seq<Edge>, p: seq<string>) {
    p != [] && forall i :: 0 <= i < |p| ==> (p[i], p[Next(i, |p|)]) in edges
  }

  ghost predicate Acyclic(edges: seq<Edge>) {
    forall p :: !IsCycle(edges, p)
  }

  /** Every member of `u` has a predecessor inside `u`. */
  ghost predicate Supported(edges: seq<Edge>, u: set<string>) {
    forall v {:trigger HasPredIn(edges, u, v)} :: v in u ==> HasPredIn(edges, u, v)
  }

  ghost predicate HasPredIn(edges: seq<Edge>, u: set<string>, v: string) {
    exists a :: a in u && (a, v) in edges
  }

  /** `u` is the largest supported set of nodes. */
  ghost predicate LargestSupported(nodes: seq<string>, edges: seq<Edge>, u: set<string>) {
    && (forall v :: v in u ==> v in nodes)
    && Supported(edges, u)
    && forall w: set<string> :: (forall v :: v in w ==> v in nodes) && Supported(edges, w) ==> w <= u
  }

  /** Every predecessor of every listed node is listed before it. */
  ghost predicate PredsFirst(edges: seq<Edge>, order: seq<string>) {
    forall k, a :: 0 <= k < |order| && (a, order[k]) in edges ==> a in order[..k]
  }

  ghost predicate TopologicalOrder(nodes: seq<string>, edges: seq<Edge>, order: seq<string>) {
    && multiset(order) == multiset(nodes)
    && PredsFirst(edges, order)
  }

  // ------------------------------------------------------------------
  // Counting lemmas
  // ------------------------------------------------------------------

  ghost function Elems<T>(s: seq<T>): set<T> { set x | x in s }

  lemma ElemsOfLonger<T>(t: seq<T>, last: T)
    ensures Elems(t + [last]) == Elems(t) + {last}
  {
  }

  lemma {:induction false} NoDupCard<T>(s: seq<T>)
    requires NoDup(s)
    ensures |Elems(s)| == |s|
  {
    if s != [] {
      var t, last := s[..|s| - 1], s[|s| - 1];
      NoDupCard(t);
      ElemsOfLonger(t, last);
      assert t + [last] == s;
    }
  }

  lemma SubsetCard<T>(a: set<T>, b: set<T>)
    requires a <= b
    ensures |a| <= |b|
    ensures |a| == |b| ==> a == b
  {
    assert b == a + (b - a);
  }

  lemma NoDupWithin<T>(s: seq<T>, nodes: seq<T>)
    requires NoDup(s) && NoDup(nodes)
    requires forall x :: x in s ==> x in nodes
    ensures |s| <= |nodes|
    ensures |s| == |nodes| ==> Elems(s) == Elems(nodes)
  {
    NoDupCard(s);
    NoDupCard(nodes);
    assert Elems(s) <= Elems(nodes);
    SubsetCard(Elems(s), Elems(nodes));
  }

  lemma NoDupMultiset<T>(s: seq<T>)
    requires NoDup(s)
    ensures multiset(s) == multiset(Elems(s))
  {
    forall x | x in s
      ensures multiset(s)[x] == 1
    {
      NoDupOnce(s, x);
    }
  }

  lemma {:induction false} NoDupOnce<T>(s: seq<T>, x: T)
    requires NoDup(s)
    ensures multiset(s)[x] == if x in s then 1 else 0
  {
    if s != [] {
      var t := s[..|s| - 1];
      NoDupOnce(t, x);
      assert s == t + [s[|s| - 1]];
    }
  }

  lemma {:induction false} Pigeonhole<T>(w: seq<T>, u: set<T>) returns (i: nat, j: nat)
    requires |w| > |u|
    requires forall x :: x in w ==> x in u
    ensures i < j < |w| && w[i] == w[j]
  {
    if NoDup(w) {
      NoDupCard(w);
      assert Elems(w) <= u;
      SubsetCard(Elems(w), u);
      assert false;
    }
    i, j :| 0 <= i < j < |w| && w[i] == w[j];
  }

  // ------------------------------------------------------------------
  // Cycles and supported sets are the same thing
  // ------------------------------------------------------------------

  ghost predicate IsWalk(edges: seq<Edge>, w: seq<string>) {
    forall i :: 0 <= i < |w| - 1 ==> (w[i], w[i + 1]) in edges
  }

  /** Walking backwards inside a supported set never gets stuck. */
  lemma {:induction false} BackwardWalk(edges: seq<Edge>, u: set<string>, n: nat) returns (w: seq<string>)
    requires u != {} && Supported(edges, u)
    ensures |w| == n + 1 && IsWalk(edges, w)
    ensures forall x :: x in w ==> x in u
  {
    if n == 0 {
      var v :| v in u;
      w := [v];
    } else {
      var t := BackwardWalk(edges, u, n - 1);
      assert t[0] in u && HasPredIn(edges, u, t[0]);
      var a :| a in u && (a, t[0]) in edges;
      w := [a] + t;
    }
  }

  /** A nonempty supported set contains a cycle. */
  lemma SupportedHasCycle(edges: seq<Edge>, u: set<string>) returns (p: seq<string>)
    requires u != {} && Supported(edges, u)
    ensures IsCycle(edges, p)
  {
    var w := BackwardWalk(edges, u, |u|);
    var i, j := Pigeonhole(w, u);
    p := w[i..j];
    forall k | 0 <= k < |p|
      ensures (p[k], p[Next(k, |p|)]) in edges
    {
      assert (w[i + k], w[i + k + 1]) in edges;
    }
  }

  /** The nodes of a cycle support each other. */
  lemma CycleIsSupported(edges: seq<Edge>, p: seq<string>)
    requires IsCycle(edges, p)
    ensures Supported(edges, Elems(p)) && Elems(p) != {}
  {
    assert p[0] in Elems(p);
    forall v | v in Elems(p)
      ensures HasPredIn(edges, Elems(p), v)
    {
      var i :| 0 <= i < |p| && p[i] == v;
      var h := if i == 0 then |p| - 1 else i - 1;
      assert Next(h, |p|) == i;
      assert p[h] in Elems(p) && (p[h], p[Next(h, |p|)]) in edges;
    }
  }

  /** A list that puts predecessors first never meets a supported set. */
  lemma {:induction false} OrderedAvoidsSupported(edges: seq<Edge>, order: seq<string>, w: set<string>, k: nat)
    requires PredsFirst(edges, order) && Supported(edges, w)
    requires k <= |order|
    ensures forall i :: 0 <= i < k ==> order[i] !in w
  {
    if k > 0 {
      OrderedAvoidsSupported(edges, order, w, k - 1);
      assert !HasPredIn(edges, w, order[k - 1]);
    }
  }

  /** Acyclicity, said with supported sets. */
  lemma AcyclicIffUnsupported(nodes: seq<string>, edges: seq<Edge>, u: set<string>)
    requires Closed(nodes, edges) && LargestSupported(nodes, edges, u)
    ensures Acyclic(edges) <==> u == {}
  {
    if u != {} {
      var p := SupportedHasCycle(edges, u);
    } else {
      forall p | IsCycle(edges, p)
        ensures false
      {
        CycleIsSupported(edges, p);
        forall v | v in Elems(p)
          ensures v in nodes
        {
          assert HasPredIn(edges, Elems(p), v);
          var a :| a in Elems(p) && (a, v) in edges;
        }
      }
    }
  }

  // ------------------------------------------------------------------
  // Layers
  // ------------------------------------------------------------------

  /** The length of the longest path to `s[k]` when predecessors come first in `s`. */
  ghost function Depth(edges: seq<Edge>, s: seq<string>, k: nat): nat
    requires k < |s|
    decreases k, k + 1
  {
    DepthOver(edges, s, k, k)
  }

  /** The same over the predecessors among the first `m` entries. */
  ghost function DepthOver(edges: seq<Edge>, s: seq<string>, k: nat, m: nat): nat
    requires m <= k < |s|
    decreases k, m
  {
    if m == 0 then 0
    else
      var others := DepthOver(edges, s, k, m - 1);
      if (s[m - 1], s[k]) in edges && Depth(edges, s, m - 1) + 1 > others then Depth(edges, s, m - 1) + 1 else others
  }

  /** No entry is deeper than a later one: the layers come one after the other. */
  ghost predicate Layered(edges: seq<Edge>, s: seq<string>) {
    forall i, j :: 0 <= i <= j < |s| ==> Depth(edges, s, i) <= Depth(edges, s, j)
  }

  /** Nothing is more than one layer deeper than `s[p]`. */
  ghost predicate NextLayerAtMost(edges: seq<Edge>, s: seq<string>, p: nat)
    requires p < |s|
  {
    forall i :: 0 <= i < |s| ==> Depth(edges, s, i) <= Depth(edges, s, p) + 1
  }

  lemma {:induction false} DeeperThan(edges: seq<Edge>, s: seq<string>, k: nat, m: nat, i: nat)
    requires i < m <= k < |s| && (s[i], s[k]) in edges
    ensures DepthOver(edges, s, k, m) > Depth(edges, s, i)
    decreases m
  {
    if i < m - 1 {
      DeeperThan(edges, s, k, m - 1, i);
    }
  }

  lemma {:induction false} AtMostDeep(edges: seq<Edge>, s: seq<string>, k: nat, m: nat, d: nat)
    requires m <= k < |s|
    requires forall i :: 0 <= i < m && (s[i], s[k]) in edges ==> Depth(edges, s, i) < d
    ensures DepthOver(edges, s, k, m) <= d
    decreases m
  {
    if m > 0 {
      AtMostDeep(edges, s, k, m - 1, d);
    }
  }

  /** The depth of an entry depends only on the entries up to it. */
  lemma {:induction false} DepthOfPrefix(edges: seq<Edge>, s: seq<string>, more: seq<string>, k: nat, m: nat)
    requires m <= k < |s|
    ensures DepthOver(edges, s + more, k, m) == DepthOver(edges, s, k, m)
    decreases k, m
  {
    if m > 0 {
      DepthOfPrefix(edges, s, more, k, m - 1);
      DepthOfPrefix(edges, s, more, m - 1, m - 1);
    }
  }

  lemma DepthsStay(edges: seq<Edge>, s: seq<string>, d: string, k: nat)
    requires k < |s|
    ensures Depth(edges, s + [d], k) == Depth(edges, s, k)
  {
    DepthOfPrefix(edges, s, [d], k, k);
  }

  /** A node whose last predecessor is `s[p]` is one layer deeper. */
  lemma NewDepth(edges: seq<Edge>, s: seq<string>, p: nat, d: string)
    requires p < |s| && (s[p], d) in edges
    requires forall i :: 0 <= i < |s| && (s[i], d) in edges ==> Depth(edges, s, i) <= Depth(edges, s, p)
    ensures Depth(edges, s + [d], |s|) == Depth(edges, s, p) + 1
  {
    var longer, n := s + [d], |s|;
    DepthsStay(edges, s, d, p);
    DeeperThan(edges, longer, n, n, p);
    forall i | 0 <= i < n && (longer[i], longer[n]) in edges
      ensures Depth(edges, longer, i) < Depth(edges, s, p) + 1
    {
      DepthsStay(edges, s, d, i);
      assert (s[i], d) in edges;
    }
    AtMostDeep(edges, longer, n, n, Depth(edges, s, p) + 1);
  }

  /** Such a node starts or extends the next layer. */
  lemma OneMoreLayered(edges: seq<Edge>, s: seq<string>, p: nat, d: string)
    requires p < |s| && Layered(edges, s) && NextLayerAtMost(edges, s, p)
    requires (s[p], d) in edges && forall i :: 0 <= i < |s| && (s[i], d) in edges ==> i <= p
    ensures Layered(edges, s + [d]) && NextLayerAtMost(edges, s + [d], p)
    ensures Depth(edges, s + [d], p) == Depth(edges, s, p)
  {
    NewDepth(edges, s, p, d);
    forall k | 0 <= k < |s|
      ensures Depth(edges, s + [d], k) == Depth(edges, s, k)
    {
      DepthsStay(edges, s, d, k);
    }
  }

  lemma {:induction false} NewLayer(edges: seq<Edge>, s: seq<string>, p: nat, tail: seq<string>)
    requires p < |s| && Layered(edges, s) && NextLayerAtMost(edges, s, p)
    requires NoDup(s + tail)
    requires forall d :: d in tail ==> (s[p], d) in edges && forall a :: (a, d) in edges ==> a in s[..p + 1]
    ensures Layered(edges, s + tail) && NextLayerAtMost(edges, s + tail, p)
    decreases |tail|
  {
    if tail == [] {
      assert s + tail == s;
    } else {
      var n := |tail| - 1;
      var shorter := s + tail[..n];
      assert s + tail == shorter + [tail[n]];
      NoDupPrefix(shorter, [tail[n]]);
      NewLayer(edges, s, p, tail[..n]);
      forall i | 0 <= i < |shorter| && (shorter[i], tail[n]) in edges
        ensures i <= p
      {
        var j :| 0 <= j < p + 1 && s[..p + 1][j] == shorter[i];
        assert shorter[j] == shorter[i];
      }
      OneMoreLayered(edges, shorter, p, tail[n]);
    }
  }

  /** Without edges into them, all nodes are in the first layer. */
  lemma FirstLayer(edges: seq<Edge>, s: seq<string>)
    requires forall v, a :: v in s ==> (a, v) !in edges
    ensures Layered(edges, s) && forall p :: 0 <= p < |s| ==> NextLayerAtMost(edges, s, p)
  {
    forall k | 0 <= k < |s|
      ensures Depth(edges, s, k) == 0
    {
      assert s[k] in s;
      AtMostDeep(edges, s, k, k, 0);
    }
  }

  // ------------------------------------------------------------------
  // In-degrees
  // ------------------------------------------------------------------

  /** Edges into `v` whose source is not yet in `done`. */
  function Pending(edges: seq<Edge>, v: string, done: set<string>): nat {
    if edges == [] then 0
    else
      var e := edges[|edges| - 1];
      Pending(edges[..|edges| - 1], v, done) + (if e.1 == v && e.0 !in done then 1 else 0)
  }

  /** The dependents of `a`, one entry per edge, in edge order. */
  function Targets(edges: seq<Edge>, a: string): seq<string> {
    if edges == [] then []
    else
      var e := edges[|edges| - 1];
      Targets(edges[..|edges| - 1], a) + (if e.0 == a then [e.1] else [])
  }

  lemma {:induction false} PendingZero(edges: seq<Edge>, v: string, done: set<string>)
    ensures Pending(edges, v, done) == 0 <==> forall a :: (a, v) in edges ==> a in done
  {
    if edges != [] {
      var n := |edges| - 1;
      PendingZero(edges[..n], v, done);
      assert edges == edges[..n] + [edges[n]];
      assert edges[n] == (edges[n].0, edges[n].1);
    }
  }

  /** Finishing `a` removes exactly the edges from `a`. */
  lemma {:induction false} PendingStep(edges: seq<Edge>, v: string, done: set<string>, a: string)
    requires a !in done
    ensures Pending(edges, v, done) == Pending(edges, v, done + {a}) + multiset(Targets(edges, a))[v]
  {
    if edges != [] {
      PendingStep(edges[..|edges| - 1], v, done, a);
    }
  }

  lemma {:induction false} TargetsAreNodes(nodes: seq<string>, edges: seq<Edge>, a: string)
    requires Closed(nodes, edges)
    ensures forall v :: v in Targets(edges, a) ==> v in nodes
  {
    if edges != [] {
      TargetsAreNodes(nodes, edges[..|edges| - 1], a);
    }
  }

  // ------------------------------------------------------------------
  // Kahn's algorithm
  // ------------------------------------------------------------------

  /** Exactly the nodes without pending predecessors have been scheduled, each once. */
  ghost predicate Scheduled(order: seq<string>, queue: seq<string>, indegree: map<string, nat>) {
    && NoDup(order + queue)
    && (forall v :: v in order + queue ==> v in indegree)
    && forall v :: v in indegree ==> (v in order + queue <==> indegree[v] == 0)
  }

  ghost predicate CountsPending(edges: seq<Edge>, indegree: map<string, nat>, done: set<string>) {
    forall v :: v in indegree ==> indegree[v] == Pending(edges, v, done)
  }

  ghost predicate ListsTargets(edges: seq<Edge>, adjacency: map<string, seq<string>>) {
    forall v :: v in adjacency ==> adjacency[v] == Targets(edges, v)
  }

  method BuildTables(nodes: seq<string>, edges: seq<Edge>)
    returns (indegree: map<string, nat>, adjacency: map<string, seq<string>>)
    requires Closed(nodes, edges)
    ensures indegree.Keys == adjacency.Keys == Elems(nodes)
    ensures CountsPending(edges, indegree, {}) && ListsTargets(edges, adjacency)
  {
    indegree := map v | v in nodes :: 0;
    adjacency := map v | v in nodes :: [];
    for k := 0 to |edges|
      invariant indegree.Keys == adjacency.Keys == Elems(nodes)
      invariant CountsPending(edges[..k], indegree, {})
      invariant ListsTargets(edges[..k], adjacency)
    {
      var (from, to) := edges[k];
      OneEdgeMore(edges[..k], edges[k], indegree, adjacency);
      assert edges[..k + 1] == edges[..k] + [edges[k]];
      adjacency := adjacency[from := adjacency[from] + [to]];
      indegree := indegree[to := indegree[to] + 1];
    }
    assert edges[..|edges|] == edges;
  }

  lemma OneEdgeMore(edges: seq<Edge>, e: Edge, indegree: map<string, nat>, adjacency: map<string, seq<string>>)
    requires e.0 in adjacency && e.1 in indegree
    requires CountsPending(edges, indegree, {}) && ListsTargets(edges, adjacency)
    ensures CountsPending(edges + [e], indegree[e.1 := indegree[e.1] + 1], {})
    ensures ListsTargets(edges + [e], adjacency[e.0 := adjacency[e.0] + [e.1]])
  {
    assert (edges + [e])[..|edges|] == edges;
  }

  /** The inner loop: one decrement per outgoing edge, which never underflows. */
  method Relax(dependents: seq<string>, indegree0: map<string, nat>, queue0: seq<string>, ghost order: seq<string>)
    returns (indegree: map<string, nat>, queue: seq<string>)
    requires Scheduled(order, queue0, indegree0)
    requires forall v :: v in dependents ==> v in indegree0
    requires forall v :: v in indegree0 ==> multiset(dependents)[v] <= indegree0[v]
    ensures indegree.Keys == indegree0.Keys
    ensures forall v :: v in indegree ==> indegree[v] == indegree0[v] - multiset(dependents)[v]
    ensures Scheduled(order, queue, indegree)
    ensures QueueGrows(queue0, queue, dependents)
  {
    indegree, queue := indegree0, queue0;
    assert dependents[0..] == dependents;
    for k := 0 to |dependents|
      invariant CountedDown(indegree0, indegree, dependents, k) && Scheduled(order, queue, indegree)
      invariant QueueGrows(queue0, queue, dependents)
    {
      var d := dependents[k];
      CountOneDown(indegree0, indegree, dependents, k);
      DecrementKeepsSchedule(order, queue, indegree, d);
      indegree := indegree[d := indegree[d] - 1];
      if indegree[d] == 0 {
        OneMoreQueued(queue0, queue, dependents, d);
        queue := queue + [d];
      }
    }
  }

  /** Only dependents have been queued. */
  ghost predicate QueueGrows(queue0: seq<string>, queue: seq<string>, dependents: seq<string>) {
    queue0 <= queue && forall v :: v in queue[|queue0|..] ==> v in dependents
  }

  lemma OneMoreQueued(queue0: seq<string>, queue: seq<string>, dependents: seq<string>, d: string)
    requires QueueGrows(queue0, queue, dependents) && d in dependents
    ensures QueueGrows(queue0, queue + [d], dependents)
  {
    assert (queue + [d])[|queue0|..] == queue[|queue0|..] + [d];
  }

  /** The first `k` decrements have been made. */
  ghost predicate CountedDown(indegree0: map<string, nat>, indegree: map<string, nat>, dependents: seq<string>, k: nat)
    requires k <= |dependents|
  {
    && indegree.Keys == indegree0.Keys
    && forall v :: v in indegree ==>
         indegree[v] + multiset(dependents)[v] == indegree0[v] + multiset(dependents[k..])[v]
  }

  lemma CountOneDown(indegree0: map<string, nat>, indegree: map<string, nat>, dependents: seq<string>, k: nat)
    requires k < |dependents| && dependents[k] in indegree && CountedDown(indegree0, indegree, dependents, k)
    requires forall v :: v in indegree0 ==> multiset(dependents)[v] <= indegree0[v]
    ensures indegree[dependents[k]] > 0
    ensures CountedDown(indegree0, indegree[dependents[k] := indegree[dependents[k]] - 1], dependents, k + 1)
  {
    assert dependents[k..] == [dependents[k]] + dependents[k + 1..];
  }

  /** A node that reaches zero is queued, for the first time. */
  lemma DecrementKeepsSchedule(order: seq<string>, queue: seq<string>, indegree: map<string, nat>, d: string)
    requires Scheduled(order, queue, indegree) && d in indegree && indegree[d] > 0
    ensures Scheduled(order, if indegree[d] == 1 then queue + [d] else queue, indegree[d := indegree[d] - 1])
  {
    assert d !in order + queue;
    assert order + (queue + [d]) == (order + queue) + [d];
  }

  function Positive(nodes: seq<string>, indegree: map<string, nat>): (r: seq<string>)
    requires forall v :: v in nodes ==> v in indegree
    ensures forall v :: v in r <==> v in nodes && indegree[v] > 0
  {
    if nodes == [] then []
    else (if indegree[nodes[0]] > 0 then [nodes[0]] else []) + Positive(nodes[1..], indegree)
  }

  function Zero(nodes: seq<string>, indegree: map<string, nat>): (r: seq<string>)
    requires forall v :: v in nodes ==> v in indegree
    ensures forall v :: v in r <==> v in nodes && indegree[v] == 0
  {
    if nodes == [] then []
    else (if indegree[nodes[0]] == 0 then [nodes[0]] else []) + Zero(nodes[1..], indegree)
  }

  lemma {:induction false} FiltersKeepNoDup(nodes: seq<string>, indegree: map<string, nat>)
    requires forall v :: v in nodes ==> v in indegree
    requires NoDup(nodes)
    ensures NoDup(Zero(nodes, indegree)) && NoDup(Positive(nodes, indegree))
  {
    if nodes != [] {
      FiltersKeepNoDup(nodes[1..], indegree);
      assert nodes[0] !in nodes[1..];
    }
  }

  /** The nodes in `u`, in their order. */
  ghost function Kept(nodes: seq<string>, u: set<string>): seq<string> {
    if nodes == [] then [] else (if nodes[0] in u then [nodes[0]] else []) + Kept(nodes[1..], u)
  }

  lemma {:induction false} PositiveIsKept(nodes: seq<string>, indegree: map<string, nat>, u: set<string>)
    requires forall v :: v in nodes ==> v in indegree && (v in u <==> indegree[v] > 0)
    ensures Positive(nodes, indegree) == Kept(nodes, u)
  {
    if nodes != [] {
      PositiveIsKept(nodes[1..], indegree, u);
    }
  }

  /** What a topological sort must return. */
  ghost predicate SortedExactly(nodes: seq<string>, edges: seq<Edge>, r: Result<seq<string>, GraphError>) {
    && (r.Ok? <==> Acyclic(edges))
    && (r.Ok? ==> TopologicalOrder(nodes, edges, r.value) && Layered(edges, r.value))
    && (r.Err? ==>
          && r.error.CycleDetected?
          && NoDup(r.error.nodes)
          && r.error.nodes != []
          && r.error.nodes == Kept(nodes, Elems(r.error.nodes))
          && LargestSupported(nodes, edges, Elems(r.error.nodes)))
  }

  /** The loop invariant of the sort. */
  ghost predicate Kahn(nodes: seq<string>, edges: seq<Edge>, order: seq<string>, queue: seq<string>,
                       indegree: map<string, nat>) {
    && indegree.Keys == Elems(nodes)
    && Scheduled(order, queue, indegree)
    && CountsPending(edges, indegree, Elems(order))
    && PredsFirst(edges, order)
    && Layered(edges, order + queue)
    && (queue != [] ==> NextLayerAtMost(edges, order + queue, |order|))
  }

  method VisitNext(ghost nodes: seq<string>, ghost edges: seq<Edge>, adjacency: map<string, seq<string>>,
                   order0: seq<string>, queue0: seq<string>, indegree0: map<string, nat>)
    returns (order: seq<string>, queue: seq<string>, indegree: map<string, nat>)
    requires NoDup(nodes) && Closed(nodes, edges) && queue0 != []
    requires adjacency.Keys == Elems(nodes) && ListsTargets(edges, adjacency)
    requires Kahn(nodes, edges, order0, queue0, indegree0)
    ensures Kahn(nodes, edges, order, queue, indegree)
    ensures |order| == |order0| + 1 <= |nodes|
  {
    var next := queue0[0];
    PopKeepsSchedule(nodes, edges, order0, queue0, indegree0);
    order := order0 + [next];
    indegree, queue := Relax(adjacency[next], indegree0, queue0[1..], order);
    assert Elems(order) == Elems(order0) + {next};
    ScheduledWithin(nodes, order, queue, indegree);
    QueueIsLayered(edges, order0, queue0, queue, indegree);
  }

  /** What is queued after the first of the queue has been taken belongs to the next layer. */
  lemma QueueIsLayered(edges: seq<Edge>, order: seq<string>, queue0: seq<string>, queue: seq<string>,
                       indegree: map<string, nat>)
    requires queue0 != [] && Layered(edges, order + queue0) && NextLayerAtMost(edges, order + queue0, |order|)
    requires QueueGrows(queue0[1..], queue, Targets(edges, queue0[0]))
    requires Scheduled(order + [queue0[0]], queue, indegree)
    requires CountsPending(edges, indegree, Elems(order + [queue0[0]]))
    ensures Layered(edges, order + [queue0[0]] + queue)
    ensures queue != [] ==> NextLayerAtMost(edges, order + [queue0[0]] + queue, |order| + 1)
  {
    var s, p, tail := order + queue0, |order|, queue[|queue0| - 1..];
    var all := order + [queue0[0]] + queue;
    assert all == s + tail && s[p] == queue0[0] && s[..p + 1] == order + [queue0[0]];
    forall d | d in tail
      ensures (s[p], d) in edges && forall a :: (a, d) in edges ==> a in s[..p + 1]
    {
      assert d in queue && d in order + [queue0[0]] + queue;
      TargetsAreEdges(edges, queue0[0], d);
      PendingZero(edges, d, Elems(order + [queue0[0]]));
    }
    NewLayer(edges, s, p, tail);
    if queue != [] {
      assert Depth(edges, all, p) <= Depth(edges, all, p + 1);
    }
  }

  lemma {:induction false} TargetsAreEdges(edges: seq<Edge>, a: string, v: string)
    ensures v in Targets(edges, a) <==> (a, v) in edges
  {
    if edges != [] {
      var n := |edges| - 1;
      TargetsAreEdges(edges[..n], a, v);
      assert edges == edges[..n] + [edges[n]] && edges[n] == (edges[n].0, edges[n].1);
    }
  }

  method SortExplicit(nodes: seq<string>, edges: seq<Edge>) returns (r: Result<seq<string>, GraphError>)
    requires NoDup(nodes) && Closed(nodes, edges)
    ensures SortedExactly(nodes, edges, r)
  {
    var indegree, adjacency := BuildTables(nodes, edges);
    var queue := Zero(nodes, indegree);
    FiltersKeepNoDup(nodes, indegree);
    var order: seq<string> := [];
    assert order + queue == queue;
    assert Elems(order) == {};
    StartIsLayered(nodes, edges, queue, indegree);
    while queue != []
      invariant Kahn(nodes, edges, order, queue, indegree)
      decreases |nodes| - |order|
    {
      order, queue, indegree := VisitNext(nodes, edges, adjacency, order, queue, indegree);
    }
    assert order + queue == order;
    FinishSort(nodes, edges, order, indegree);
    if |order| != |nodes| {
      PositiveIsKept(nodes, indegree, Elems(Positive(nodes, indegree)));
      r := Err(CycleDetected(Positive(nodes, indegree)));
    } else {
      r := Ok(order);
    }
  }

  lemma StartIsLayered(nodes: seq<string>, edges: seq<Edge>, queue: seq<string>, indegree: map<string, nat>)
    requires indegree.Keys == Elems(nodes) && CountsPending(edges, indegree, {})
    requires forall v :: v in queue ==> v in nodes && indegree[v] == 0
    ensures Layered(edges, queue) && (queue != [] ==> NextLayerAtMost(edges, queue, 0))
  {
    forall v, a | v in queue
      ensures (a, v) !in edges
    {
      assert v in Elems(nodes);
      PendingZero(edges, v, {});
    }
    FirstLayer(edges, queue);
  }

  /** Moving the queue's head to the order keeps the schedule, and its edges are still counted. */
  lemma PopKeepsSchedule(nodes: seq<string>, edges: seq<Edge>, order: seq<string>, queue: seq<string>,
                         indegree: map<string, nat>)
    requires Closed(nodes, edges) && indegree.Keys == Elems(nodes) && queue != []
    requires Scheduled(order, queue, indegree)
    requires CountsPending(edges, indegree, Elems(order)) && PredsFirst(edges, order)
    ensures Scheduled(order + [queue[0]], queue[1..], indegree)
    ensures PredsFirst(edges, order + [queue[0]])
    ensures queue[0] in nodes && queue[0] !in order
    ensures forall v :: v in Targets(edges, queue[0]) ==> v in indegree
    ensures forall v :: v in indegree ==>
      indegree[v] == Pending(edges, v, Elems(order) + {queue[0]}) + multiset(Targets(edges, queue[0]))[v]
  {
    var next := queue[0];
    assert order + queue == (order + [next]) + queue[1..];
    assert (order + queue)[|order|] == next;
    assert next in indegree && indegree[next] == 0;
    forall i | 0 <= i < |order|
      ensures order[i] != next
    {
      assert (order + queue)[i] == order[i];
    }
    PendingZero(edges, next, Elems(order));
    AppendKeepsPredsFirst(edges, order, next);
    forall v | v in indegree
      ensures indegree[v] == Pending(edges, v, Elems(order) + {next}) + multiset(Targets(edges, next))[v]
    {
      PendingStep(edges, v, Elems(order), next);
    }
    TargetsAreNodes(nodes, edges, next);
  }

  lemma AppendKeepsPredsFirst(edges: seq<Edge>, order: seq<string>, next: string)
    requires PredsFirst(edges, order)
    requires forall a :: (a, next) in edges ==> a in order
    ensures PredsFirst(edges, order + [next])
  {
    var longer := order + [next];
    forall k, a | 0 <= k < |longer| && (a, longer[k]) in edges
      ensures a in longer[..k]
    {
      if k < |order| {
        assert longer[k] == order[k] && longer[..k] == order[..k];
      } else {
        assert longer[..k] == order;
      }
    }
  }

  lemma ScheduledWithin(nodes: seq<string>, order: seq<string>, queue: seq<string>, indegree: map<string, nat>)
    requires NoDup(nodes) && indegree.Keys == Elems(nodes) && Scheduled(order, queue, indegree)
    ensures NoDup(order) && |order| <= |nodes|
    ensures forall v :: v in order ==> v in nodes
  {
    NoDupPrefix(order, queue);
    forall v | v in order
      ensures v in nodes
    {
      assert v in order + queue;
      assert v in indegree.Keys;
    }
    NoDupWithin(order, nodes);
  }

  lemma NoDupPrefix<T>(a: seq<T>, b: seq<T>)
    requires NoDup(a + b)
    ensures NoDup(a)
  {
    forall i, j | 0 <= i < j < |a|
      ensures a[i] != a[j]
    {
      assert (a + b)[i] == a[i] && (a + b)[j] == a[j];
    }
  }

  /** Once the queue is empty the unscheduled nodes are the largest supported set. */
  lemma UnscheduledIsLargestSupported(nodes: seq<string>, edges: seq<Edge>, order: seq<string>, rest: set<string>)
    requires Closed(nodes, edges) && PredsFirst(edges, order)
    requires forall v :: v in rest <==> v in nodes && v !in order
    requires forall v :: v in rest ==> Pending(edges, v, Elems(order)) > 0
    ensures LargestSupported(nodes, edges, rest)
  {
    forall v | v in rest
      ensures HasPredIn(edges, rest, v)
    {
      PendingZero(edges, v, Elems(order));
      var a :| (a, v) in edges && a !in Elems(order);
      assert a in rest;
    }
    forall w: set<string> | (forall v :: v in w ==> v in nodes) && Supported(edges, w)
      ensures w <= rest
    {
      OrderedAvoidsSupported(edges, order, w, |order|);
    }
  }

  lemma FinishSort(nodes: seq<string>, edges: seq<Edge>, order: seq<string>, indegree: map<string, nat>)
    requires NoDup(nodes) && Closed(nodes, edges)
    requires indegree.Keys == Elems(nodes)
    requires Scheduled(order, [], indegree) && order + [] == order
    requires CountsPending(edges, indegree, Elems(order)) && PredsFirst(edges, order)
    ensures |order| == |nodes| <==> Acyclic(edges)
    ensures |order| == |nodes| ==> multiset(order) == multiset(nodes)
    ensures NoDup(Positive(nodes, indegree))
    ensures |order| != |nodes| ==> Positive(nodes, indegree) != []
    ensures LargestSupported(nodes, edges, Elems(Positive(nodes, indegree)))
  {
    var rest := Positive(nodes, indegree);
    FiltersKeepNoDup(nodes, indegree);
    ScheduledWithin(nodes, order, [], indegree);
    UnscheduledIsLargestSupported(nodes, edges, order, Elems(rest));
    AcyclicIffUnsupported(nodes, edges, Elems(rest));
    SameLengthIffAllScheduled(nodes, order, rest);
  }

  lemma SameLengthIffAllScheduled(nodes: seq<string>, order: seq<string>, rest: seq<string>)
    requires NoDup(nodes) && NoDup(order)
    requires forall v :: v in order ==> v in nodes
    requires forall v :: v in rest <==> v in nodes && v !in order
    ensures |order| == |nodes| <==> Elems(rest) == {}
    ensures |order| == |nodes| <==> rest == []
    ensures |order| == |nodes| ==> multiset(order) == multiset(nodes)
  {
    NoDupWithin(order, nodes);
    if rest == [] {
      assert Elems(order) == Elems(nodes);
      NoDupCard(order);
      NoDupCard(nodes);
    } else {
      assert rest[0] in Elems(nodes) && rest[0] !in Elems(order);
      assert rest[0] in Elems(rest);
    }
    if |order| == |nodes| {
      NoDupMultiset(order);
      NoDupMultiset(nodes);
    }
  }

  /** Node ids are their own keys. */
  function Itself(id: string): string {
    id
  }

  lemma AscendingHasNoDup(nodes: seq<string>)
    requires KeyOrder.Ascending(nodes, Itself)
    ensures NoDup(nodes)
  {
    forall i, j | 0 <= i < j < |nodes|
      ensures nodes[i] != nodes[j]
    {
      KeyOrder.LexTotal(Itself(nodes[i]), Itself(nodes[j]));
    }
  }

  /**
    The mutable graph builder: nodes are in key order, and only registered endpoints
    and no self-edges get in, so every graph can be sorted.
   */
  class Graph {
    var nodes: seq<string>
    var edges: seq<Edge>

    ghost predicate Valid()
      reads this
    {
      KeyOrder.Ascending(nodes, Itself) && Closed(nodes, edges) && forall v :: (v, v) !in edges
    }

    constructor ()
      ensures Valid() && nodes == [] && edges == []
    {
      nodes, edges := [], [];
    }

    method AddNode(id: string) returns (r: Result<(), GraphError>)
      requires Valid()
      modifies this
      ensures Valid() && edges == old(edges)
      ensures r == if id in old(nodes) then Err(DuplicateNode(id)) else Ok(())
      ensures if id in old(nodes) then nodes == old(nodes) else Elems(nodes) == Elems(old(nodes)) + {id}
    {
      if id in nodes {
        return Err(DuplicateNode(id));
      }
      KeyOrder.PutKeepsOrder(nodes, Itself, id);
      nodes := KeyOrder.PutByKey(nodes, Itself, id);
      r := Ok(());
    }

    method AddEdge(dependency: string, dependent: string) returns (r: Result<(), GraphError>)
      requires Valid()
      modifies this
      ensures Valid() && nodes == old(nodes)
      ensures r ==
        if dependency !in nodes then Err(UnknownNode(dependency))
        else if dependent !in nodes then Err(UnknownNode(dependent))
        else Ok(())
      ensures edges ==
        if r.Ok? && dependency != dependent then old(edges) + [(dependency, dependent)] else old(edges)
    {
      if dependency !in nodes {
        return Err(UnknownNode(dependency));
      }
      if dependent !in nodes {
        return Err(UnknownNode(dependent));
      }
      if dependency != dependent {
        edges := edges + [(dependency, dependent)];
      }
      r := Ok(());
    }

    method Sort() returns (r: Result<seq<string>, GraphError>)
      requires Valid()
      ensures SortedExactly(nodes, edges, r)
    {
      AscendingHasNoDup(nodes);
      r := SortExplicit(nodes, edges);
    }
  }
}
