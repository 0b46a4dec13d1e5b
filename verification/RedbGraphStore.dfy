/** The persistent graph store: composite byte keys and ordered prefix scans. */
module RedbGraph {
  import opened Wrappers
  import opened Graph
  import opened OrderedKeys

  /** `subject NUL predicate NUL object`. */
  function TripleBytes(k: TripleKey): Bytes {
    k.subject + [SEP] + k.relation + [SEP] + k.obj
  }

  function IriPrefix(iri: Iri): Bytes {
    iri + [SEP]
  }

  /** `iri NUL triple-key`. */
  function IndexBytes(iri: Iri, tripleKey: Bytes): Bytes {
    IriPrefix(iri) + tripleKey
  }

  function FirstNul(s: Bytes): nat {
    if s == [] || s[0] == SEP then 0 else 1 + FirstNul(s[1..])
  }

  lemma {:induction false} FirstNulEndsField(a: Bytes, x: Bytes)
    requires NulFree(a)
    ensures FirstNul(a + [SEP] + x) == |a|
  {
    if a != [] {
      assert (a + [SEP] + x)[1..] == a[1..] + [SEP] + x;
      FirstNulEndsField(a[1..], x);
    }
  }

  function UpToNul(s: Bytes): Bytes
    requires FirstNul(s) <= |s|
  {
    s[..FirstNul(s)]
  }

  function PastNul(s: Bytes): Bytes {
    if FirstNul(s) < |s| then s[FirstNul(s) + 1..] else []
  }

  lemma FieldReadsBack(a: Bytes, x: Bytes)
    requires NulFree(a)
    ensures FirstNul(a + [SEP] + x) == |a|
    ensures UpToNul(a + [SEP] + x) == a && PastNul(a + [SEP] + x) == x
  {
    FirstNulEndsField(a, x);
    assert (a + [SEP] + x)[..|a|] == a && (a + [SEP] + x)[|a| + 1..] == x;
  }

  /** Read a composite key back: two fields ended by NUL, then the object. */
  function Parse(b: Bytes): TripleKey {
    FirstNulInRange(b);
    FirstNulInRange(PastNul(b));
    TripleKey(UpToNul(b), UpToNul(PastNul(b)), PastNul(PastNul(b)))
  }

  lemma {:induction false} FirstNulInRange(s: Bytes)
    ensures FirstNul(s) <= |s|
  {
    if s != [] {
      FirstNulInRange(s[1..]);
    }
  }

  /** The triple key behind an index key. */
  function ParseIndex(b: Bytes): TripleKey {
    Parse(PastNul(b))
  }

  /** Composite keys are injective: each can be read back. */
  lemma ParseReadsBack(k: TripleKey)
    requires NulFree(k.subject) && NulFree(k.relation)
    ensures Parse(TripleBytes(k)) == k
  {
    assert TripleBytes(k) == k.subject + [SEP] + (k.relation + [SEP] + k.obj);
    FieldReadsBack(k.subject, k.relation + [SEP] + k.obj);
    FieldReadsBack(k.relation, k.obj);
  }

  lemma ParseIndexReadsBack(iri: Iri, k: TripleKey)
    requires NulFree(iri) && NulFree(k.subject) && NulFree(k.relation)
    ensures ParseIndex(IndexBytes(iri, TripleBytes(k))) == k
  {
    FieldReadsBack(iri, TripleBytes(k));
    ParseReadsBack(k);
  }

  /** An index key starts with an IRI's prefix exactly when it was built for that IRI. */
  lemma PrefixSelectsIri(iri: Iri, owner: Iri, tripleKey: Bytes)
    requires NulFree(iri) && NulFree(owner)
    ensures IriPrefix(iri) <= IndexBytes(owner, tripleKey) <==> iri == owner
    ensures IndexBytes(owner, tripleKey)[|IriPrefix(owner)|..] == tripleKey
  {
    var key := IndexBytes(owner, tripleKey);
    FieldReadsBack(owner, tripleKey);
    if IriPrefix(iri) <= key {
      assert key == iri + [SEP] + key[|iri| + 1..];
      FieldReadsBack(iri, key[|iri| + 1..]);
    }
  }

  function SubjectKey(k: TripleKey): Bytes {
    IndexBytes(k.subject, TripleBytes(k))
  }

  /** The object part of a node-object key is the node's IRI. */
  function ObjectIndexKey(k: TripleKey): Bytes {
    IndexBytes(k.obj, TripleBytes(k))
  }

  // ---- The rows -----------------------------------------------------------------------

  /** The rows of the three tables; the index tables have keys only. */
  datatype Rows = Rows(triples: map<Bytes, GraphEdge>, subjects: set<Bytes>, objects: set<Bytes>)

  const NO_ROWS := Rows(map[], {}, {})

  function ApplyRows(r: Rows, op: GraphOp): Rows {
    var k := KeyOf(op.edge);
    match op
    case Insert(e) =>
      Rows(r.triples[TripleBytes(k) := e], r.subjects + {SubjectKey(k)}, if e.obj.Node? then r.objects + {ObjectIndexKey(k)} else r.objects)
    case Delete(e) =>
      Rows(r.triples - {TripleBytes(k)}, r.subjects - {SubjectKey(k)}, if e.obj.Node? then r.objects - {ObjectIndexKey(k)} else r.objects)
  }

  function RowsAfter(ops: seq<GraphOp>): Rows {
    if ops == [] then NO_ROWS else ApplyRows(RowsAfter(ops[..|ops| - 1]), ops[|ops| - 1])
  }

  /** Every edge stands in the row of its composite key. */
  ghost predicate InPlace(r: Rows) {
    forall b :: b in r.triples ==> TripleBytes(KeyOf(r.triples[b])) == b
  }

  ghost function OutgoingRows(r: Rows, iri: Iri): set<GraphEdge> {
    ScannedEdges(r.subjects, r.triples, iri)
  }

  ghost function IncomingRows(r: Rows, iri: Iri): set<GraphEdge> {
    ScannedEdges(r.objects, r.triples, iri)
  }

  /** Who is adjacent to whom, as the scans tell. */
  ghost function NeighbourRows(r: Rows): Adjacency {
    iri => Targets(OutgoingRows(r, iri)) + Sources(IncomingRows(r, iri))
  }

  // ---- The scan ---------------------------------------------------------------------

  /** The edges a complete scan of `rows` for `iri` has to produce. */
  ghost function ScannedEdges(rows: set<Bytes>, triples: map<Bytes, GraphEdge>, iri: Iri): set<GraphEdge> {
    set b | b in rows && IriPrefix(iri) <= b && b[|IriPrefix(iri)|..] in triples :: triples[b[|IriPrefix(iri)|..]]
  }

  /** Different keys hold different values. */
  ghost predicate DistinctRows(rows: map<Bytes, GraphEdge>) {
    forall b, c :: b in rows && c in rows && rows[b] == rows[c] ==> b == c
  }

  lemma InPlaceIsDistinct(r: Rows)
    requires InPlace(r)
    ensures DistinctRows(r.triples)
  {
  }

  /** The rows found for the scanned index keys, in order; `n` is the length of the prefix. */
  function Hits(keys: seq<Bytes>, n: nat, rows: map<Bytes, GraphEdge>): seq<GraphEdge> {
    if keys == [] then []
    else
      var before, key := Hits(keys[..|keys| - 1], n, rows), keys[|keys| - 1];
      if n <= |key| && key[n..] in rows then before + [rows[key[n..]]] else before
  }

  lemma NoHits(keys: seq<Bytes>, start: nat, n: nat, rows: map<Bytes, GraphEdge>)
    requires start <= |keys|
    ensures Hits(keys[start..start], n, rows) == []
  {
  }

  lemma OneMoreHit(keys: seq<Bytes>, start: nat, i: nat, n: nat, rows: map<Bytes, GraphEdge>)
    requires start <= i < |keys|
    ensures Hits(keys[start..i + 1], n, rows) ==
              Hits(keys[start..i], n, rows) + if n <= |keys[i]| && keys[i][n..] in rows then [rows[keys[i][n..]]] else []
  {
    assert keys[start..i + 1][..i - start] == keys[start..i];
  }

  lemma {:induction false} HitsOf(keys: seq<Bytes>, p: Bytes, rows: map<Bytes, GraphEdge>)
    requires Ascending(keys) && DistinctRows(rows) && forall i :: 0 <= i < |keys| ==> p <= keys[i]
    ensures forall e :: e in Hits(keys, |p|, rows) <==>
              exists i :: 0 <= i < |keys| && keys[i][|p|..] in rows && rows[keys[i][|p|..]] == e
    ensures forall i, j :: 0 <= i < j < |Hits(keys, |p|, rows)| ==> Hits(keys, |p|, rows)[i] != Hits(keys, |p|, rows)[j]
  {
    if keys != [] {
      var before, key := keys[..|keys| - 1], keys[|keys| - 1];
      HitsOf(before, p, rows);
      if key[|p|..] in rows && rows[key[|p|..]] in Hits(before, |p|, rows) {
        var i :| 0 <= i < |before| && before[i][|p|..] in rows && rows[before[i][|p|..]] == rows[key[|p|..]];
        LessIsTotalOrder(before[i], key);
        assert false;
      }
    }
  }

  lemma ScanListsEdges(index: Table<()>, rows: map<Bytes, GraphEdge>, iri: Iri, start: nat, stop: nat)
    requires index.Valid() && DistinctRows(rows) && start <= stop <= |index.keys|
    requires forall j :: 0 <= j < |index.keys| ==> (IriPrefix(iri) <= index.keys[j] <==> start <= j < stop)
    ensures Lists(Hits(index.keys[start..stop], |IriPrefix(iri)|, rows), ScannedEdges(index.rows.Keys, rows, iri))
  {
    var p, keys := IriPrefix(iri), index.keys[start..stop];
    HitsOf(keys, p, rows);
    forall e ensures e in Hits(keys, |p|, rows) <==> e in ScannedEdges(index.rows.Keys, rows, iri) {
      if e in ScannedEdges(index.rows.Keys, rows, iri) {
        var b :| b in index.rows.Keys && p <= b && b[|p|..] in rows && e == rows[b[|p|..]];
        var j :| 0 <= j < |index.keys| && index.keys[j] == b;
        assert keys[j - start] == b;
      }
      if e in Hits(keys, |p|, rows) {
        var i :| 0 <= i < |keys| && keys[i][|p|..] in rows && rows[keys[i][|p|..]] == e;
        assert index.keys[start + i] in index.keys;
      }
    }
  }

  class RedbGraphStore {
    var triples: Table<GraphEdge>
    var subjectIdx: Table<()>
    var objectIdx: Table<()>

    ghost function View(): Rows
      reads this
    {
      Rows(triples.rows, subjectIdx.rows.Keys, objectIdx.rows.Keys)
    }

    ghost predicate Valid()
      reads this
    {
      triples.Valid() && subjectIdx.Valid() && objectIdx.Valid() && InPlace(View())
    }

    constructor ()
      ensures Valid() && View() == NO_ROWS
    {
      triples, subjectIdx, objectIdx := Table([], map[]), EMPTY, EMPTY;
    }

    method Insert(edge: GraphEdge)
      requires Valid()
      modifies this
      ensures Valid() && View() == ApplyRows(old(View()), GraphOp.Insert(edge))
    {
      hide TripleBytes, SubjectKey, ObjectIndexKey, KeyOf;
      var tkey := TripleBytes(KeyOf(edge));
      triples := triples.Insert(tkey, edge);
      subjectIdx := subjectIdx.Insert(SubjectKey(KeyOf(edge)), ());
      if edge.obj.Node? {
        objectIdx := objectIdx.Insert(ObjectIndexKey(KeyOf(edge)), ());
      }
    }

    method Delete(edge: GraphEdge)
      requires Valid()
      modifies this
      ensures Valid() && View() == ApplyRows(old(View()), GraphOp.Delete(edge))
    {
      hide TripleBytes, SubjectKey, ObjectIndexKey, KeyOf;
      var tkey := TripleBytes(KeyOf(edge));
      triples := triples.Remove(tkey);
      subjectIdx := subjectIdx.Remove(SubjectKey(KeyOf(edge)));
      if edge.obj.Node? {
        objectIdx := objectIdx.Remove(ObjectIndexKey(KeyOf(edge)));
      }
    }

    method Exists(edge: GraphEdge) returns (found: bool)
      requires Valid()
      ensures found <==> TripleBytes(KeyOf(edge)) in View().triples
    {
      found := TripleBytes(KeyOf(edge)) in triples.rows;
    }

    /** Scan `index` upwards from the IRI's prefix, stopping at the first key without it. */
    method ScanIndexForEdges(index: Table<()>, iri: Iri) returns (edges: seq<GraphEdge>)
      requires triples.Valid() && index.Valid() && DistinctRows(triples.rows)
      ensures Lists(edges, ScannedEdges(index.rows.Keys, triples.rows, iri))
    {
      hide ScannedEdges, DistinctRows, IriPrefix, Ascending, Lists, InPlace, Hits, RangeStart;
      var p := IriPrefix(iri);
      var start := RangeStart(index.keys, p);
      var i := start;
      edges := [];
      NoHits(index.keys, start, |p|, triples.rows);
      while i < |index.keys|
        invariant start <= i <= |index.keys|
        invariant forall j :: start <= j < i ==> p <= index.keys[j]
        invariant edges == Hits(index.keys[start..i], |p|, triples.rows)
      {
        var key := index.keys[i];
        if !(p <= key) {
          break;
        }
        OneMoreHit(index.keys, start, i, |p|, triples.rows);
        var tripleKey := key[|p|..];
        if tripleKey in triples.rows {
          edges := edges + [triples.rows[tripleKey]];
        }
        i := i + 1;
      }
      ScanIsComplete(index.keys, p, i);
      ScanListsEdges(index, triples.rows, iri, start, i);
    }

    method Outgoing(node: GraphNode) returns (result: seq<GraphEdge>)
      requires Valid()
      ensures Lists(result, OutgoingRows(View(), node.iri))
    {
      InPlaceIsDistinct(View());
      result := ScanIndexForEdges(subjectIdx, node.iri);
    }

    method Incoming(node: GraphNode) returns (result: seq<GraphEdge>)
      requires Valid()
      ensures Lists(result, IncomingRows(View(), node.iri))
    {
      InPlaceIsDistinct(View());
      result := ScanIndexForEdges(objectIdx, node.iri);
    }

    /** Visit everything one hop away from `node`. */
    method Expand(node: GraphNode, visited: set<Iri>, next: seq<GraphNode>)
      returns (visited': set<Iri>, next': seq<GraphNode>)
      requires Valid()
      ensures visited' == visited + NeighbourRows(View())(node.iri)
      ensures Iris(next') == Iris(next) + (visited' - visited)
    {
      hide OutgoingRows, IncomingRows, Lists, Targets, Sources, Iris, InPlace;
      var outgoing := Outgoing(node);
      visited', next' := AddTargets(outgoing, OutgoingRows(View(), node.iri), visited, next);
      var incoming := Incoming(node);
      visited', next' := AddSources(incoming, IncomingRows(View(), node.iri), visited', next');
    }

    /** The same search as the in-memory store's, over the scans. */
    method Neighborhood(node: GraphNode, hops: nat) returns (nodes: seq<GraphNode>)
      requires Valid()
      ensures Lists(nodes, set iri | iri in Ball(NeighbourRows(View()), node.iri, hops) :: NewNode(iri))
    {
      hide NeighbourRows, InPlace;
      ghost var adj := NeighbourRows(View());
      var visited := {node.iri};
      var frontier := [node];
      for round := 0 to hops
        invariant visited == Ball(adj, node.iri, round)
        invariant Iris(frontier) == Sphere(adj, node.iri, round)
      {
        var next: seq<GraphNode> := [];
        for i := 0 to |frontier|
          invariant visited == Ball(adj, node.iri, round) + AdjacentToAny(adj, Iris(frontier[..i]))
          invariant Iris(next) == visited - Ball(adj, node.iri, round)
        {
          OneMoreExpanded(adj, frontier, i);
          visited, next := Expand(frontier[i], visited, next);
        }
        assert frontier[..|frontier|] == frontier;
        ExpandSphere(adj, node.iri, round);
        frontier := next;
      }
      nodes := AsNodes(visited);
    }
  }
}
