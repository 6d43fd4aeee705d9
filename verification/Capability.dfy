/**
  Capability planning: nodes require and provide named capabilities, and the
  planner orders every node after the providers of what it requires.
 */
module Capability {
  import opened Results
  import opened Dag

  datatype DependencyNode = DependencyNode(id: string, requirements: seq<string>, capability: string)

  ghost predicate IdsDistinct(nodes: seq<DependencyNode>) {
    forall i, j :: 0 <= i < j < |nodes| ==> nodes[i].id != nodes[j].id
  }

  ghost predicate ProvidersDistinct(nodes: seq<DependencyNode>) {
    forall i, j :: 0 <= i < j < |nodes| ==> nodes[i].capability != nodes[j].capability
  }

  ghost predicate Provided(nodes: seq<DependencyNode>, capability: string) {
    exists k :: 0 <= k < |nodes| && nodes[k].capability == capability
  }

  ghost predicate AllProvided(nodes: seq<DependencyNode>) {
    forall i, c :: 0 <= i < |nodes| && c in nodes[i].requirements ==> Provided(nodes, c)
  }

  /** Some node called `b` requires a capability that another node, called `a`, provides. */
  ghost predicate Needs(nodes: seq<DependencyNode>, a: string, b: string) {
    a != b && exists i, k ::
      0 <= i < |nodes| && 0 <= k < |nodes| && nodes[i].id == b && nodes[k].id == a
      && nodes[k].capability in nodes[i].requirements
  }

  /** A closed walk along `Needs`. */
  ghost predicate NeedsCycle(nodes: seq<DependencyNode>, p: seq<string>) {
    p != [] && forall i :: 0 <= i < |p| ==> Needs(nodes, p[i], p[Next(i, |p|)])
  }

  ghost predicate Plannable(nodes: seq<DependencyNode>) {
    && IdsDistinct(nodes)
    && ProvidersDistinct(nodes)
    && AllProvided(nodes)
    && forall p :: !NeedsCycle(nodes, p)
  }

  ghost function Ids(nodes: seq<DependencyNode>): seq<string> {
    seq(|nodes|, i requires 0 <= i < |nodes| => nodes[i].id)
  }

  /** Which error is due, checked in the order of the source: ids, providers, requirements, cycles. */
  ghost predicate ErrorDue(nodes: seq<DependencyNode>, e: GraphError) {
    match e
    case DuplicateNode(id) =>
      exists i, j :: 0 <= i < j < |nodes| && IdsDistinct(nodes[..j]) && nodes[i].id == id == nodes[j].id
    case ConflictingProvider(c, first, second) =>
      && IdsDistinct(nodes)
      && (exists i, j ::
            && 0 <= i < j < |nodes|
            && ProvidersDistinct(nodes[..j])
            && nodes[i].capability == c == nodes[j].capability
            && nodes[i].id == first
            && nodes[j].id == second)
    case MissingDependency(n, c) =>
      && IdsDistinct(nodes)
      && ProvidersDistinct(nodes)
      && !Provided(nodes, c)
      && (exists i ::
            && 0 <= i < |nodes|
            && AllMet(nodes, i)
            && nodes[i].id == n
            && c in nodes[i].requirements)
    case CycleDetected(cycle) =>
      && IdsDistinct(nodes)
      && ProvidersDistinct(nodes)
      && AllProvided(nodes)
      && NoDup(cycle)
      && LargestNeedy(nodes, Elems(cycle))
    case UnknownNode(_) => false
  }

  /** Each member needs another member, and every such set of ids is included. */
  ghost predicate LargestNeedy(nodes: seq<DependencyNode>, u: set<string>) {
    && Needy(nodes, u)
    && forall w: set<string> :: Needy(nodes, w) ==> w <= u
  }

  ghost predicate Needy(nodes: seq<DependencyNode>, u: set<string>) {
    forall v {:trigger NeedsWithin(nodes, u, v)} :: v in u ==> NeedsWithin(nodes, u, v)
  }

  ghost predicate NeedsWithin(nodes: seq<DependencyNode>, u: set<string>, v: string) {
    exists a :: a in u && Needs(nodes, a, v)
  }

  method CheckIds(nodes: seq<DependencyNode>) returns (r: Result<seq<string>, GraphError>)
    ensures r.Ok? <==> IdsDistinct(nodes)
    ensures r.Ok? ==> r.value == Ids(nodes)
    ensures r.Err? ==> r.error.DuplicateNode? && ErrorDue(nodes, r.error)
  {
    var ids: seq<string> := [];
    for j := 0 to |nodes|
      invariant IdsDistinct(nodes[..j])
      invariant ids == Ids(nodes[..j])
    {
      if nodes[j].id in ids {
        ghost var i :| 0 <= i < j && ids[i] == nodes[j].id;
        assert nodes[i].id == nodes[j].id;
        return Err(DuplicateNode(nodes[j].id));
      }
      assert forall i :: 0 <= i < j ==> nodes[i].id == ids[i] && ids[i] in ids;
      ids := ids + [nodes[j].id];
    }
    assert nodes[..|nodes|] == nodes;
    r := Ok(ids);
  }

  /** `m` maps every capability provided by `nodes` to the id of its provider. */
  ghost predicate ProviderMap(nodes: seq<DependencyNode>, m: map<string, string>) {
    && (forall k :: 0 <= k < |nodes| ==> nodes[k].capability in m && m[nodes[k].capability] == nodes[k].id)
    && forall c :: c in m ==> Provided(nodes, c)
  }

  method CheckProviders(nodes: seq<DependencyNode>) returns (r: Result<map<string, string>, GraphError>)
    requires IdsDistinct(nodes)
    ensures r.Ok? <==> ProvidersDistinct(nodes)
    ensures r.Ok? ==> ProviderMap(nodes, r.value)
    ensures r.Err? ==> r.error.ConflictingProvider? && ErrorDue(nodes, r.error)
  {
    var m: map<string, string> := map[];
    for j := 0 to |nodes|
      invariant ProvidersDistinct(nodes[..j])
      invariant ProviderMap(nodes[..j], m)
    {
      var n := nodes[j];
      if n.capability in m {
        ghost var i :| 0 <= i < j && nodes[..j][i].capability == n.capability;
        assert nodes[i].capability == n.capability && m[n.capability] == nodes[i].id;
        return Err(ConflictingProvider(n.capability, m[n.capability], n.id));
      }
      ExtendProviderMap(nodes[..j], n, m);
      assert nodes[..j] + [n] == nodes[..j + 1];
      m := m[n.capability := n.id];
    }
    assert nodes[..|nodes|] == nodes;
    r := Ok(m);
  }

  lemma ExtendProviderMap(nodes: seq<DependencyNode>, n: DependencyNode, m: map<string, string>)
    requires ProviderMap(nodes, m) && ProvidersDistinct(nodes) && n.capability !in m
    ensures ProviderMap(nodes + [n], m[n.capability := n.id]) && ProvidersDistinct(nodes + [n])
  {
    var longer := nodes + [n];
    forall c | c in m[n.capability := n.id]
      ensures Provided(longer, c)
    {
      if c == n.capability {
        assert longer[|nodes|].capability == c;
      } else {
        var k :| 0 <= k < |nodes| && nodes[k].capability == c;
        assert longer[k].capability == c;
      }
    }
  }

  /** Every provider of one of `required`, other than `n` itself, has an edge to `n`. */
  ghost predicate Covered(nodes: seq<DependencyNode>, n: DependencyNode, required: seq<string>, edges: seq<Edge>) {
    forall k :: 0 <= k < |nodes| && nodes[k].capability in required && nodes[k].id != n.id ==>
      (nodes[k].id, n.id) in edges
  }

  ghost predicate OnlyNeeds(nodes: seq<DependencyNode>, edges: seq<Edge>) {
    forall e :: e in edges ==> Needs(nodes, e.0, e.1)
  }

  ghost predicate RequirementsMet(nodes: seq<DependencyNode>, required: seq<string>) {
    forall c :: c in required ==> Provided(nodes, c)
  }

  /** The edges of node `i`: one per requirement met by another node. */
  method AddEdgesOf(nodes: seq<DependencyNode>, i: nat, providers: map<string, string>, edges0: seq<Edge>)
    returns (r: Result<seq<Edge>, GraphError>)
    requires i < |nodes| && ProviderMap(nodes, providers) && OnlyNeeds(nodes, edges0)
    ensures r.Ok? <==> RequirementsMet(nodes, nodes[i].requirements)
    ensures r.Ok? ==> edges0 <= r.value && OnlyNeeds(nodes, r.value)
    ensures r.Ok? ==> Covered(nodes, nodes[i], nodes[i].requirements, r.value)
    ensures r.Err? ==> exists c ::
      r.error == MissingDependency(nodes[i].id, c) && c in nodes[i].requirements && !Provided(nodes, c)
  {
    var n, edges := nodes[i], edges0;
    for q := 0 to |n.requirements|
      invariant edges0 <= edges && OnlyNeeds(nodes, edges)
      invariant Covered(nodes, n, n.requirements[..q], edges)
      invariant RequirementsMet(nodes, n.requirements[..q])
    {
      var c := n.requirements[q];
      assert n.requirements[..q + 1] == n.requirements[..q] + [c];
      if c !in providers {
        assert !Provided(nodes, c);
        return Err(MissingDependency(n.id, c));
      }
      if providers[c] != n.id {
        NeedsProvider(nodes, i, c, providers);
        edges := edges + [(providers[c], n.id)];
      }
    }
    assert n.requirements[..|n.requirements|] == n.requirements;
    r := Ok(edges);
  }

  lemma NeedsProvider(nodes: seq<DependencyNode>, i: nat, c: string, providers: map<string, string>)
    requires i < |nodes| && c in nodes[i].requirements && ProviderMap(nodes, providers)
    requires c in providers && providers[c] != nodes[i].id
    ensures Needs(nodes, providers[c], nodes[i].id)
  {
    assert Provided(nodes, c);
    var k :| 0 <= k < |nodes| && nodes[k].capability == c;
    assert nodes[k].capability in nodes[i].requirements;
  }

  ghost predicate AllCovered(nodes: seq<DependencyNode>, i: nat, edges: seq<Edge>)
    requires i <= |nodes|
  {
    forall h :: 0 <= h < i ==> Covered(nodes, nodes[h], nodes[h].requirements, edges)
  }

  ghost predicate AllMet(nodes: seq<DependencyNode>, i: nat)
    requires i <= |nodes|
  {
    forall h :: 0 <= h < i ==> RequirementsMet(nodes, nodes[h].requirements)
  }

  method BuildEdges(nodes: seq<DependencyNode>,
                    providers: map<string, string>) returns (r: Result<seq<Edge>, GraphError>)
    requires IdsDistinct(nodes) && ProvidersDistinct(nodes) && ProviderMap(nodes, providers)
    ensures r.Ok? <==> AllProvided(nodes)
    ensures r.Ok? ==> OnlyNeeds(nodes, r.value) && AllCovered(nodes, |nodes|, r.value)
    ensures r.Err? ==> r.error.MissingDependency? && ErrorDue(nodes, r.error)
  {
    var edges: seq<Edge> := [];
    for i := 0 to |nodes|
      invariant OnlyNeeds(nodes, edges) && AllCovered(nodes, i, edges) && AllMet(nodes, i)
    {
      r := AddEdgesOf(nodes, i, providers, edges);
      if r.Err? {
        assert nodes[i].id == r.error.node;
        return;
      }
      edges := r.value;
    }
    r := Ok(edges);
  }

  /** The planner: `Ok` exactly on plannable inputs, and then providers come first. */
  method TopologicalSort(nodes: seq<DependencyNode>) returns (r: Result<seq<string>, GraphError>)
    ensures r.Ok? <==> Plannable(nodes)
    ensures r.Ok? ==> multiset(r.value) == multiset(Ids(nodes))
    ensures r.Ok? ==> forall k, a :: 0 <= k < |r.value| && Needs(nodes, a, r.value[k]) ==> a in r.value[..k]
    ensures r.Err? ==> ErrorDue(nodes, r.error)
  {
    var ids := CheckIds(nodes);
    if ids.Err? {
      return Err(ids.error);
    }
    var providers := CheckProviders(nodes);
    if providers.Err? {
      return Err(providers.error);
    }
    var edges := BuildEdges(nodes, providers.value);
    if edges.Err? {
      return Err(edges.error);
    }
    EdgesAreNeeds(nodes, edges.value);
    r := SortExplicit(ids.value, edges.value);
    SortedMeansPlanned(nodes, edges.value, r);
  }

  lemma EdgesAreNeeds(nodes: seq<DependencyNode>, edges: seq<Edge>)
    requires IdsDistinct(nodes) && OnlyNeeds(nodes, edges) && AllCovered(nodes, |nodes|, edges)
    ensures forall a, b :: (a, b) in edges <==> Needs(nodes, a, b)
    ensures Closed(Ids(nodes), edges) && NoDup(Ids(nodes))
  {
    forall a, b | Needs(nodes, a, b)
      ensures (a, b) in edges
    {
      var i, k :| 0 <= i < |nodes| && 0 <= k < |nodes| && nodes[i].id == b && nodes[k].id == a
        && nodes[k].capability in nodes[i].requirements;
      assert Covered(nodes, nodes[i], nodes[i].requirements, edges);
    }
    forall k | 0 <= k < |edges|
      ensures edges[k].0 in Ids(nodes) && edges[k].1 in Ids(nodes)
    {
      assert (edges[k].0, edges[k].1) in edges;
      NeedsAreIds(nodes, edges[k].0, edges[k].1);
    }
  }

  lemma NeedsAreIds(nodes: seq<DependencyNode>, a: string, b: string)
    requires Needs(nodes, a, b)
    ensures a in Ids(nodes) && b in Ids(nodes)
  {
    var i, k :| 0 <= i < |nodes| && 0 <= k < |nodes| && nodes[i].id == b && nodes[k].id == a
      && nodes[k].capability in nodes[i].requirements;
    assert Ids(nodes)[i] == b && Ids(nodes)[k] == a;
  }

  lemma SortedMeansPlanned(nodes: seq<DependencyNode>, edges: seq<Edge>, r: Result<seq<string>, GraphError>)
    requires IdsDistinct(nodes) && ProvidersDistinct(nodes) && AllProvided(nodes)
    requires forall a, b :: (a, b) in edges <==> Needs(nodes, a, b)
    requires SortedExactly(Ids(nodes), edges, r)
    ensures r.Ok? <==> Plannable(nodes)
    ensures r.Ok? ==> forall k, a :: 0 <= k < |r.value| && Needs(nodes, a, r.value[k]) ==> a in r.value[..k]
    ensures r.Err? ==> ErrorDue(nodes, r.error)
  {
    forall p
      ensures NeedsCycle(nodes, p) <==> IsCycle(edges, p)
    {
    }
    if r.Err? {
      SupportedIsNeedy(nodes, edges, Elems(r.error.nodes));
      forall w: set<string> | Needy(nodes, w)
        ensures w <= Elems(r.error.nodes)
      {
        SupportedIsNeedy(nodes, edges, w);
        forall v | v in w
          ensures v in Ids(nodes)
        {
          assert NeedsWithin(nodes, w, v);
          var a :| a in w && Needs(nodes, a, v);
          NeedsAreIds(nodes, a, v);
        }
      }
    }
  }

  lemma SupportedIsNeedy(nodes: seq<DependencyNode>, edges: seq<Edge>, u: set<string>)
    requires forall a, b :: (a, b) in edges <==> Needs(nodes, a, b)
    ensures Supported(edges, u) <==> Needy(nodes, u)
  {
    forall v
      ensures HasPredIn(edges, u, v) <==> NeedsWithin(nodes, u, v)
    {
      if HasPredIn(edges, u, v) {
        var a :| a in u && (a, v) in edges;
        assert Needs(nodes, a, v);
      }
    }
  }
}
