/** The in-memory graph store: edges with a subject and an object index. */
module SimpleGraph {
  import opened Graph

  type Index = map<Iri, set<TripleKey>>

  function KeysAt(idx: Index, iri: Iri): set<TripleKey> {
    if iri in idx then idx[iri] else {}
  }

  ghost predicate SubjectsIndexed(edges: Triples, idx: Index) {
    && (forall iri, k :: k in KeysAt(idx, iri) <==> k in edges && k.subject == iri)
    && (forall iri :: iri in idx ==> idx[iri] != {})
  }

  /** The keys an index lists. */
  ghost function Listed(idx: Index): set<TripleKey> {
    set iri, k | iri in idx && k in idx[iri] :: k
  }

  /** Keys are listed under their object only. */
  ghost predicate ObjectsIndexed(idx: Index) {
    && (forall iri, k :: k in KeysAt(idx, iri) ==> k.obj == iri)
    && (forall iri :: iri in idx ==> idx[iri] != {})
  }

  lemma ListedUnderObject(idx: Index, iri: Iri, k: TripleKey)
    requires ObjectsIndexed(idx)
    ensures k in KeysAt(idx, iri) <==> k in Listed(idx) && k.obj == iri
  {
    if k in Listed(idx) && k.obj == iri {
      var other :| other in idx && k in idx[other];
      assert k in KeysAt(idx, other);
    }
  }

  /** `key` joins the entry of `iri` and no other. */
  ghost predicate Joined(idx: Index, idx': Index, iri: Iri, key: TripleKey) {
    && (forall other :: KeysAt(idx', other) == KeysAt(idx, other) + (if other == iri then {key} else {}))
    && ((forall other :: other in idx ==> idx[other] != {}) ==> forall other :: other in idx' ==> idx'[other] != {})
  }

  /** `key` leaves the entry of `iri` and no other, and no empty entry stays. */
  ghost predicate Left(idx: Index, idx': Index, iri: Iri, key: TripleKey) {
    && (forall other :: KeysAt(idx', other) == KeysAt(idx, other) - (if other == iri then {key} else {}))
    && ((forall other :: other in idx ==> idx[other] != {}) ==> forall other :: other in idx' ==> idx'[other] != {})
  }

  lemma SubjectsAfterInsert(edges: Triples, idx: Index, idx': Index, edge: GraphEdge)
    requires SubjectsIndexed(edges, idx) && Joined(idx, idx', edge.subject.iri, KeyOf(edge))
    ensures SubjectsIndexed(edges[KeyOf(edge) := edge], idx')
  {
    hide KeysAt;
  }

  lemma SubjectsAfterDelete(edges: Triples, idx: Index, idx': Index, edge: GraphEdge)
    requires SubjectsIndexed(edges, idx) && Left(idx, idx', edge.subject.iri, KeyOf(edge))
    ensures SubjectsIndexed(edges - {KeyOf(edge)}, idx')
  {
    hide KeysAt;
  }

  lemma InListed(idx: Index, k: TripleKey)
    ensures k in Listed(idx) <==> exists iri :: k in KeysAt(idx, iri)
  {
    if iri :| iri in idx && k in idx[iri] {
      assert k in KeysAt(idx, iri);
    }
  }

  lemma ObjectsAfterInsert(idx: Index, idx': Index, key: TripleKey)
    requires ObjectsIndexed(idx) && Joined(idx, idx', key.obj, key)
    ensures ObjectsIndexed(idx') && Listed(idx') == Listed(idx) + {key}
  {
    hide KeysAt, Listed;
    forall k ensures k in Listed(idx') <==> k in Listed(idx) || k == key {
      InListed(idx, k);
      InListed(idx', k);
      if iri :| k in KeysAt(idx, iri) {
        assert k in KeysAt(idx', iri);
      }
      assert key in KeysAt(idx', key.obj);
    }
  }

  lemma ObjectsAfterDelete(idx: Index, idx': Index, key: TripleKey)
    requires ObjectsIndexed(idx) && Left(idx, idx', key.obj, key)
    ensures ObjectsIndexed(idx') && Listed(idx') == Listed(idx) - {key}
  {
    hide KeysAt, Listed;
    forall k ensures k in Listed(idx') <==> k in Listed(idx) && k != key {
      InListed(idx, k);
      InListed(idx', k);
      if iri :| k in KeysAt(idx, iri) {
        assert k != key ==> k in KeysAt(idx', iri);
      }
      if iri :| k in KeysAt(idx', iri) {
        assert k in KeysAt(idx, iri);
      }
    }
  }

  class SimpleGraphStore {
    var edges: Triples
    var subjectIdx: Index
    var objectIdx: Index

    ghost function View(): Content
      reads this
    {
      Content(edges, Listed(objectIdx))
    }

    /** The subject index lists exactly the stored keys, the object index the marked ones, and neither keeps an empty entry. */
    ghost predicate Valid()
      reads this
    {
      Keyed(View()) && SubjectsIndexed(edges, subjectIdx) && ObjectsIndexed(objectIdx)
    }

    constructor ()
      ensures Valid() && View() == NOTHING
    {
      edges, subjectIdx, objectIdx := map[], map[], map[];
    }

    method Insert(edge: GraphEdge)
      requires Valid()
      modifies this
      ensures Valid() && View() == Apply(old(View()), GraphOp.Insert(edge))
    {
      hide SubjectsIndexed, ObjectsIndexed, KeysAt, Listed, Keyed;
      var key := KeyOf(edge);
      ApplyKeepsKeyed(View(), GraphOp.Insert(edge));
      ghost var was, subjects, objects := edges, subjectIdx, objectIdx;
      subjectIdx := AddToIndex(subjectIdx, edge.subject.iri, key);
      SubjectsAfterInsert(was, subjects, subjectIdx, edge);
      if edge.obj.Node? {
        objectIdx := AddToIndex(objectIdx, edge.obj.node.iri, key);
        ObjectsAfterInsert(objects, objectIdx, key);
      }
      edges := edges[key := edge];
    }

    method Delete(edge: GraphEdge)
      requires Valid()
      modifies this
      ensures Valid() && View() == Apply(old(View()), GraphOp.Delete(edge))
    {
      hide SubjectsIndexed, ObjectsIndexed, KeysAt, Listed, Keyed;
      var key := KeyOf(edge);
      ApplyKeepsKeyed(View(), GraphOp.Delete(edge));
      ghost var was, subjects, objects := edges, subjectIdx, objectIdx;
      subjectIdx := DropFromIndex(subjectIdx, edge.subject.iri, key);
      SubjectsAfterDelete(was, subjects, subjectIdx, edge);
      if edge.obj.Node? {
        objectIdx := DropFromIndex(objectIdx, edge.obj.node.iri, key);
        ObjectsAfterDelete(objects, objectIdx, key);
      }
      edges := edges - {key};
    }

    static function AddToIndex(idx: Index, iri: Iri, key: TripleKey): (idx': Index)
      ensures Joined(idx, idx', iri, key)
    {
      idx[iri := KeysAt(idx, iri) + {key}]
    }

    /** Remove `key` from an index entry, and the entry itself once empty. */
    static function DropFromIndex(idx: Index, iri: Iri, key: TripleKey): (idx': Index)
      ensures Left(idx, idx', iri, key)
    {
      if iri !in idx then idx
      else if idx[iri] - {key} == {} then idx - {iri}
      else idx[iri := idx[iri] - {key}]
    }

    method Outgoing(node: GraphNode) returns (result: seq<GraphEdge>)
      requires Valid()
      ensures Lists(result, OutgoingEdges(View(), node.iri))
    {
      result := Collect(KeysAt(subjectIdx, node.iri));
    }

    method Incoming(node: GraphNode) returns (result: seq<GraphEdge>)
      requires Valid()
      ensures Lists(result, IncomingEdges(View(), node.iri))
    {
      forall k ensures k in KeysAt(objectIdx, node.iri) <==> k in View().marks && k.obj == node.iri {
        ListedUnderObject(objectIdx, node.iri, k);
      }
      result := Collect(KeysAt(objectIdx, node.iri));
    }

    /** The stored edges for `keys`, in some order. */
    method Collect(keys: set<TripleKey>) returns (result: seq<GraphEdge>)
      requires Keyed(View())
      ensures Lists(result, set k | k in keys && k in edges :: edges[k])
    {
      result := [];
      var rest := keys;
      while rest != {}
        invariant rest <= keys
        invariant Lists(result, set k | k in keys - rest && k in edges :: edges[k])
      {
        var key :| key in rest;
        ghost var done := keys - rest;
        rest := rest - {key};
        assert keys - rest == done + {key};
        if key in edges {
          assert (set k | k in done + {key} && k in edges :: edges[k]) == (set k | k in done && k in edges :: edges[k]) + {edges[key]};
          result := result + [edges[key]];
        } else {
          assert (set k | k in done + {key} && k in edges :: edges[k]) == (set k | k in done && k in edges :: edges[k]);
        }
      }
      assert keys - rest == keys;
    }

    method Exists(edge: GraphEdge) returns (found: bool)
      requires Valid()
      ensures found <==> KeyOf(edge) in edges
    {
      found := KeyOf(edge) in edges;
    }

    /** Visit everything one hop away from `node`. */
    method Expand(node: GraphNode, visited: set<Iri>, next: seq<GraphNode>)
      returns (visited': set<Iri>, next': seq<GraphNode>)
      requires Valid()
      ensures visited' == visited + Neighbours(View())(node.iri)
      ensures Iris(next') == Iris(next) + (visited' - visited)
    {
      var outgoing := Outgoing(node);
      visited', next' := AddTargets(outgoing, OutgoingEdges(View(), node.iri), visited, next);
      var incoming := Incoming(node);
      visited', next' := AddSources(incoming, IncomingEdges(View(), node.iri), visited', next');
    }

    /** Breadth-first search along outgoing and back along incoming edges. */
    method Neighborhood(node: GraphNode, hops: nat) returns (nodes: seq<GraphNode>)
      requires Valid()
      ensures Lists(nodes, set iri | iri in Ball(Neighbours(View()), node.iri, hops) :: NewNode(iri))
    {
      hide Neighbours, Keyed, SubjectsIndexed, ObjectsIndexed, Listed;
      ghost var adj := Neighbours(View());
      var visited := {node.iri};
      var frontier := [node];
      for round := 0 to hops
        invariant visited == Ball(adj, node.iri, round)
        invariant Iris(frontier) == Sphere(adj, node.iri, round)
      {
        var next: seq<GraphNode> := [];
        for i := 0 to |frontier|
          invariant visited == Ball(adj, node.iri, round) + AdjacentToAny(adj, Iris(frontier[..i]))
          invariant Iris(next) == visited - Ball(adj, node.iri, round)
        {
          OneMoreExpanded(adj, frontier, i);
          visited, next := Expand(frontier[i], visited, next);
        }
        assert frontier[..|frontier|] == frontier;
        ExpandSphere(adj, node.iri, round);
        frontier := next;
      }
      nodes := AsNodes(visited);
    }
  }
}
