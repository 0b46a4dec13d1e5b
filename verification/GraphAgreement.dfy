/** Exactly when the in-memory and the persistent graph store answer alike. */
module GraphAgreement {
  import opened Wrappers
  import opened Graph
  import opened RedbGraph
  import SimpleGraph

  /** `nodes` contains the nodes that `edges` join. */
  ghost predicate EndsIn(edges: iset<GraphEdge>, nodes: iset<Iri>) {
    forall e :: e in edges ==> e.subject.iri in nodes && (e.obj.Node? ==> e.obj.node.iri in nodes)
  }

  ghost predicate RunOver(ops: seq<GraphOp>, edges: iset<GraphEdge>) {
    forall op :: op in ops ==> op.edge in edges
  }

  /** Both stores tell the same of which edges exist, and of what goes out of and comes into each node. */
  ghost predicate Agree(c: Content, r: Rows, edges: iset<GraphEdge>, nodes: iset<Iri>) {
    && (forall e :: e in edges ==> (KeyOf(e) in c.edges <==> TripleBytes(KeyOf(e)) in r.triples))
    && (forall n :: n in nodes ==> OutgoingEdges(c, n) == OutgoingRows(r, n) && IncomingEdges(c, n) == IncomingRows(r, n))
  }

  ghost predicate AlwaysAgree(edges: iset<GraphEdge>, nodes: iset<Iri>) {
    forall ops :: RunOver(ops, edges) ==> Agree(ApplyAll(ops), RowsAfter(ops), edges, nodes)
  }

  // ---- Keys that can be read in one way only -----------------------------------------------

  /** Different triples have different composite keys. */
  ghost predicate KeysDiffer(edges: iset<GraphEdge>) {
    forall a, b :: a in edges && b in edges && TripleBytes(KeyOf(a)) == TripleBytes(KeyOf(b)) ==> KeyOf(a) == KeyOf(b)
  }

  /** The row that lists `k` for `owner` is not one that leads from another node to an edge. */
  ghost predicate RowIsPlain(edges: iset<GraphEdge>, nodes: iset<Iri>, owner: Iri, k: TripleKey) {
    forall n, b :: n in nodes && b in edges && IndexBytes(owner, TripleBytes(k)) == IndexBytes(n, TripleBytes(KeyOf(b))) ==> n == owner
  }

  /** No composite key that `edges` give rise to can be read in two ways, as far as `nodes` are asked for. */
  ghost predicate Unambiguous(edges: iset<GraphEdge>, nodes: iset<Iri>) {
    && KeysDiffer(edges)
    && (forall a :: a in edges ==> RowIsPlain(edges, nodes, a.subject.iri, KeyOf(a)))
    && (forall a :: a in edges && a.obj.Node? ==> RowIsPlain(edges, nodes, a.obj.node.iri, KeyOf(a)))
  }

  ghost predicate KeyIn(edges: iset<GraphEdge>, k: TripleKey) {
    exists e :: e in edges && KeyOf(e) == k
  }

  ghost predicate NodeKeyIn(edges: iset<GraphEdge>, k: TripleKey) {
    exists e :: e in edges && e.obj.Node? && KeyOf(e) == k
  }

  lemma TriplesInjective(edges: iset<GraphEdge>, nodes: iset<Iri>, j: TripleKey, k: TripleKey)
    requires Unambiguous(edges, nodes) && KeyIn(edges, j) && KeyIn(edges, k) && TripleBytes(j) == TripleBytes(k)
    ensures j == k
  {
    var a :| a in edges && KeyOf(a) == j;
    var b :| b in edges && KeyOf(b) == k;
    assert TripleBytes(KeyOf(a)) == TripleBytes(KeyOf(b));
  }

  lemma IndexInjective(owner: Iri, j: Bytes, k: Bytes)
    requires IndexBytes(owner, j) == IndexBytes(owner, k)
    ensures j == k
  {
    assert IndexBytes(owner, j)[|owner| + 1..] == j && IndexBytes(owner, k)[|owner| + 1..] == k;
  }

  /** A subject row leads from a node to an edge only if it is that edge's row for that node. */
  lemma SubjectRowReads(edges: iset<GraphEdge>, nodes: iset<Iri>, j: TripleKey, n: Iri, k: TripleKey)
    requires Unambiguous(edges, nodes) && KeyIn(edges, j) && KeyIn(edges, k) && n in nodes
    requires SubjectKey(j) == IndexBytes(n, TripleBytes(k))
    ensures j == k && j.subject == n
  {
    hide IndexBytes, TripleBytes;
    var a :| a in edges && KeyOf(a) == j;
    var b :| b in edges && KeyOf(b) == k;
    assert RowIsPlain(edges, nodes, a.subject.iri, KeyOf(a));
    assert n == j.subject;
    IndexInjective(n, TripleBytes(j), TripleBytes(k));
    TriplesInjective(edges, nodes, j, k);
  }

  lemma ObjectRowReads(edges: iset<GraphEdge>, nodes: iset<Iri>, j: TripleKey, n: Iri, k: TripleKey)
    requires Unambiguous(edges, nodes) && NodeKeyIn(edges, j) && KeyIn(edges, k) && n in nodes
    requires ObjectIndexKey(j) == IndexBytes(n, TripleBytes(k))
    ensures j == k && j.obj == n
  {
    hide IndexBytes, TripleBytes;
    var a :| a in edges && a.obj.Node? && KeyOf(a) == j;
    var b :| b in edges && KeyOf(b) == k;
    assert RowIsPlain(edges, nodes, a.obj.node.iri, KeyOf(a));
    assert n == j.obj;
    IndexInjective(n, TripleBytes(j), TripleBytes(k));
    assert KeyIn(edges, j);
    TriplesInjective(edges, nodes, j, k);
  }

  // ---- What the rows stand for --------------------------------------------------------------

  /** `rows` are the encodings of `keys`. */
  ghost predicate Encodes(keys: set<TripleKey>, rows: set<Bytes>, enc: TripleKey -> Bytes) {
    && (forall k :: k in keys ==> enc(k) in rows)
    && (forall b :: b in rows ==> exists k :: k in keys && enc(k) == b)
  }

  lemma EncodesAfter(keys: set<TripleKey>, rows: set<Bytes>, enc: TripleKey -> Bytes, k: TripleKey)
    requires Encodes(keys, rows, enc) && forall j :: j in keys && enc(j) == enc(k) ==> j == k
    ensures Encodes(keys + {k}, rows + {enc(k)}, enc)
    ensures Encodes(keys - {k}, rows - {enc(k)}, enc)
  {
    forall b | b in rows + {enc(k)} ensures exists j :: j in keys + {k} && enc(j) == b {
      if b in rows {
        var j :| j in keys && enc(j) == b;
        assert j in keys + {k};
      } else {
        assert k in keys + {k};
      }
    }
    forall b | b in rows - {enc(k)} ensures exists j :: j in keys - {k} && enc(j) == b {
      var j :| j in keys && enc(j) == b;
      assert j in keys - {k};
    }
  }

  ghost predicate Over(c: Content, edges: iset<GraphEdge>) {
    && (forall k :: k in c.edges ==> c.edges[k] in edges && KeyOf(c.edges[k]) == k)
    && (forall k :: k in c.marks ==> NodeKeyIn(edges, k))
  }

  ghost predicate Represents(c: Content, r: Rows) {
    && Encodes(c.edges.Keys, r.triples.Keys, TripleBytes)
    && Encodes(c.edges.Keys, r.subjects, SubjectKey)
    && Encodes(c.marks, r.objects, ObjectIndexKey)
    && (forall k :: k in c.edges ==> r.triples[TripleBytes(k)] == c.edges[k])
  }

  /** No key of `edges` shares a row with another. */
  lemma RowsApart(edges: iset<GraphEdge>, nodes: iset<Iri>, c: Content, e: GraphEdge)
    requires Unambiguous(edges, nodes) && EndsIn(edges, nodes) && Over(c, edges) && e in edges
    ensures forall j :: j in c.edges && TripleBytes(j) == TripleBytes(KeyOf(e)) ==> j == KeyOf(e)
    ensures forall j :: j in c.edges && SubjectKey(j) == SubjectKey(KeyOf(e)) ==> j == KeyOf(e)
    ensures e.obj.Node? ==> forall j :: j in c.marks && ObjectIndexKey(j) == ObjectIndexKey(KeyOf(e)) ==> j == KeyOf(e)
  {
    hide TripleBytes, IndexBytes, Unambiguous;
    var k := KeyOf(e);
    assert KeyIn(edges, k);
    assert forall j :: j in c.edges ==> KeyIn(edges, j);
    forall j | j in c.edges && TripleBytes(j) == TripleBytes(k) ensures j == k {
      TriplesInjective(edges, nodes, j, k);
    }
    forall j | j in c.edges && SubjectKey(j) == SubjectKey(k) ensures j == k {
      SubjectRowReads(edges, nodes, j, k.subject, k);
    }
    if e.obj.Node? {
      forall j | j in c.marks && ObjectIndexKey(j) == ObjectIndexKey(k) ensures j == k {
        ObjectRowReads(edges, nodes, j, k.obj, k);
      }
    }
  }

  lemma ApplyKeepsOver(edges: iset<GraphEdge>, c: Content, op: GraphOp)
    requires Over(c, edges) && op.edge in edges
    ensures Over(Apply(c, op), edges)
  {
    hide ObjectKey;
  }

  lemma Decode(keys: set<TripleKey>, rows: set<Bytes>, enc: TripleKey -> Bytes, b: Bytes) returns (k: TripleKey)
    requires Encodes(keys, rows, enc) && b in rows
    ensures k in keys && enc(k) == b
  {
    k :| k in keys && enc(k) == b;
  }

  lemma EncodedIn(keys: set<TripleKey>, rows: set<Bytes>, enc: TripleKey -> Bytes, k: TripleKey)
    requires Encodes(keys, rows, enc) && k in keys
    ensures enc(k) in rows
  {
  }

  lemma TriplesAfter(g: Triples, rows: map<Bytes, GraphEdge>, enc: TripleKey -> Bytes, k: TripleKey, e: GraphEdge)
    requires Encodes(g.Keys, rows.Keys, enc) && (forall j :: j in g ==> rows[enc(j)] == g[j])
    requires forall j :: j in g && enc(j) == enc(k) ==> j == k
    ensures Encodes(g[k := e].Keys, rows[enc(k) := e].Keys, enc)
    ensures Encodes((g - {k}).Keys, (rows - {enc(k)}).Keys, enc)
    ensures forall j :: j in g[k := e] ==> rows[enc(k) := e][enc(j)] == g[k := e][j]
    ensures forall j :: j in g - {k} ==> (rows - {enc(k)})[enc(j)] == (g - {k})[j]
  {
    EncodesAfter(g.Keys, rows.Keys, enc, k);
    assert g[k := e].Keys == g.Keys + {k} && rows[enc(k) := e].Keys == rows.Keys + {enc(k)};
    assert (g - {k}).Keys == g.Keys - {k} && (rows - {enc(k)}).Keys == rows.Keys - {enc(k)};
  }

  lemma ApplyKeepsRepresents(edges: iset<GraphEdge>, nodes: iset<Iri>, c: Content, r: Rows, op: GraphOp)
    requires Unambiguous(edges, nodes) && EndsIn(edges, nodes) && Over(c, edges) && op.edge in edges && Represents(c, r)
    ensures Represents(Apply(c, op), ApplyRows(r, op))
  {
    hide Encodes, TripleBytes, SubjectKey, ObjectIndexKey, KeyOf, Unambiguous, EndsIn, Over;
    var (e, k) := (op.edge, KeyOf(op.edge));
    RowsApart(edges, nodes, c, e);
    TriplesAfter(c.edges, r.triples, TripleBytes, k, e);
    EncodesAfter(c.edges.Keys, r.subjects, SubjectKey, k);
    assert c.edges[k := e].Keys == c.edges.Keys + {k} && (c.edges - {k}).Keys == c.edges.Keys - {k};
    if e.obj.Node? {
      EncodesAfter(c.marks, r.objects, ObjectIndexKey, k);
    }
  }

  lemma {:induction false} RunRepresents(edges: iset<GraphEdge>, nodes: iset<Iri>, ops: seq<GraphOp>)
    requires Unambiguous(edges, nodes) && EndsIn(edges, nodes) && RunOver(ops, edges)
    ensures Over(ApplyAll(ops), edges) && Represents(ApplyAll(ops), RowsAfter(ops))
  {
    hide Unambiguous, EndsIn, Apply, ApplyRows;
    if ops != [] {
      var init, op := ops[..|ops| - 1], ops[|ops| - 1];
      assert op in ops && RunOver(init, edges);
      RunRepresents(edges, nodes, init);
      ApplyKeepsRepresents(edges, nodes, ApplyAll(init), RowsAfter(init), op);
      ApplyKeepsOver(edges, ApplyAll(init), op);
    }
  }

  // ---- Unambiguous keys make the stores agree -------------------------------------------------

  /** A row that a scan for `n` follows is `n`'s index row for some composite key. */
  lemma ScannedRow(rows: set<Bytes>, triples: map<Bytes, GraphEdge>, n: Iri, e: GraphEdge) returns (b: Bytes, t: Bytes)
    requires e in ScannedEdges(rows, triples, n)
    ensures b in rows && b == IndexBytes(n, t) && t in triples && triples[t] == e
  {
    b :| b in rows && IriPrefix(n) <= b && b[|IriPrefix(n)|..] in triples && e == triples[b[|IriPrefix(n)|..]];
    t := b[|IriPrefix(n)|..];
  }

  lemma SubjectScan(edges: iset<GraphEdge>, nodes: iset<Iri>, c: Content, r: Rows, n: Iri)
    requires Unambiguous(edges, nodes) && Over(c, edges) && Represents(c, r) && n in nodes
    ensures OutgoingEdges(c, n) == OutgoingRows(r, n)
  {
    hide Unambiguous, TripleBytes, KeyOf, Encodes, ScannedEdges, IndexBytes, NodeKeyIn;
    assert forall k :: k in c.edges ==> KeyIn(edges, k);
    forall e | e in OutgoingRows(r, n) ensures e in OutgoingEdges(c, n) {
      var b, t := ScannedRow(r.subjects, r.triples, n, e);
      var j := Decode(c.edges.Keys, r.subjects, SubjectKey, b);
      var k := Decode(c.edges.Keys, r.triples.Keys, TripleBytes, t);
      SubjectRowReads(edges, nodes, j, n, k);
    }
    forall e | e in OutgoingEdges(c, n) ensures e in OutgoingRows(r, n) {
      var k :| k in c.edges && k.subject == n && c.edges[k] == e;
      EncodedIn(c.edges.Keys, r.subjects, SubjectKey, k);
      EncodedIn(c.edges.Keys, r.triples.Keys, TripleBytes, k);
      ScanFinds(r.subjects, r.triples, n, e);
    }
  }

  lemma ObjectScan(edges: iset<GraphEdge>, nodes: iset<Iri>, c: Content, r: Rows, n: Iri)
    requires Unambiguous(edges, nodes) && Over(c, edges) && Represents(c, r) && n in nodes
    ensures IncomingEdges(c, n) == IncomingRows(r, n)
  {
    hide Unambiguous, TripleBytes, KeyOf, Encodes, ScannedEdges, IndexBytes, NodeKeyIn;
    assert forall k :: k in c.edges ==> KeyIn(edges, k);
    forall e | e in IncomingRows(r, n) ensures e in IncomingEdges(c, n) {
      var b, t := ScannedRow(r.objects, r.triples, n, e);
      var j := Decode(c.marks, r.objects, ObjectIndexKey, b);
      var k := Decode(c.edges.Keys, r.triples.Keys, TripleBytes, t);
      ObjectRowReads(edges, nodes, j, n, k);
    }
    forall e | e in IncomingEdges(c, n) ensures e in IncomingRows(r, n) {
      var k :| k in c.edges && k in c.marks && k.obj == n && c.edges[k] == e;
      EncodedIn(c.marks, r.objects, ObjectIndexKey, k);
      EncodedIn(c.edges.Keys, r.triples.Keys, TripleBytes, k);
      ScanFinds(r.objects, r.triples, n, e);
    }
  }

  lemma ExistsAgrees(edges: iset<GraphEdge>, nodes: iset<Iri>, c: Content, r: Rows, e: GraphEdge)
    requires Unambiguous(edges, nodes) && Over(c, edges) && Represents(c, r) && e in edges
    ensures KeyOf(e) in c.edges <==> TripleBytes(KeyOf(e)) in r.triples
  {
    hide Unambiguous, TripleBytes, KeyOf, Encodes, NodeKeyIn;
    assert KeyIn(edges, KeyOf(e)) && forall k :: k in c.edges ==> KeyIn(edges, k);
    if TripleBytes(KeyOf(e)) in r.triples {
      var k := Decode(c.edges.Keys, r.triples.Keys, TripleBytes, TripleBytes(KeyOf(e)));
      TriplesInjective(edges, nodes, k, KeyOf(e));
    }
    if KeyOf(e) in c.edges {
      EncodedIn(c.edges.Keys, r.triples.Keys, TripleBytes, KeyOf(e));
    }
  }

  lemma UnambiguousAgrees(edges: iset<GraphEdge>, nodes: iset<Iri>, ops: seq<GraphOp>)
    requires Unambiguous(edges, nodes) && EndsIn(edges, nodes) && RunOver(ops, edges)
    ensures Agree(ApplyAll(ops), RowsAfter(ops), edges, nodes)
  {
    hide Unambiguous, EndsIn, Over, Represents, ApplyAll, RowsAfter, OutgoingEdges, IncomingEdges, OutgoingRows, IncomingRows, TripleBytes, KeyOf;
    var c, r := ApplyAll(ops), RowsAfter(ops);
    RunRepresents(edges, nodes, ops);
    forall n | n in nodes ensures OutgoingEdges(c, n) == OutgoingRows(r, n) && IncomingEdges(c, n) == IncomingRows(r, n) {
      SubjectScan(edges, nodes, c, r, n);
      ObjectScan(edges, nodes, c, r, n);
    }
    forall e | e in edges ensures KeyOf(e) in c.edges <==> TripleBytes(KeyOf(e)) in r.triples {
      ExistsAgrees(edges, nodes, c, r, e);
    }
  }

  // ---- Ambiguous keys make them disagree --------------------------------------------------------

  lemma OneInsert(a: GraphEdge)
    ensures ApplyAll([Insert(a)]) == Apply(NOTHING, Insert(a)) && RowsAfter([Insert(a)]) == ApplyRows(NO_ROWS, Insert(a))
  {
    var ops := [Insert(a)];
    assert ops[..0] == [];
  }

  lemma TwoInserts(a: GraphEdge, b: GraphEdge)
    ensures var (c, r) := (ApplyAll([Insert(a), Insert(b)]), RowsAfter([Insert(a), Insert(b)]));
      c == Apply(Apply(NOTHING, Insert(a)), Insert(b)) && r == ApplyRows(ApplyRows(NO_ROWS, Insert(a)), Insert(b))
  {
    var ops := [Insert(a), Insert(b)];
    assert ops[..1] == [Insert(a)];
    OneInsert(a);
  }

  lemma ThenDeleted(a: GraphEdge, b: GraphEdge)
    ensures var (c, r) := (ApplyAll([Insert(a), Insert(b), Delete(a)]), RowsAfter([Insert(a), Insert(b), Delete(a)]));
      && c == Apply(Apply(Apply(NOTHING, Insert(a)), Insert(b)), Delete(a))
      && r == ApplyRows(ApplyRows(ApplyRows(NO_ROWS, Insert(a)), Insert(b)), Delete(a))
  {
    var ops := [Insert(a), Insert(b), Delete(a)];
    assert ops[..2] == [Insert(a), Insert(b)];
    TwoInserts(a, b);
  }

  /** Equal composite keys: inserting one triple makes the other exist. */
  lemma SharedBytesDisagree(edges: iset<GraphEdge>, nodes: iset<Iri>, a: GraphEdge, b: GraphEdge)
    requires a in edges && b in edges && TripleBytes(KeyOf(a)) == TripleBytes(KeyOf(b)) && KeyOf(a) != KeyOf(b)
    ensures !AlwaysAgree(edges, nodes)
  {
    OneInsert(a);
    var ops := [Insert(a)];
    assert RunOver(ops, edges);
    assert KeyOf(b) !in ApplyAll(ops).edges && TripleBytes(KeyOf(b)) in RowsAfter(ops).triples;
  }

  /** Two owners of one row read different composite keys behind it. */
  lemma OwnersDiffer(owner: Iri, n: Iri, j: Bytes, k: Bytes)
    requires IndexBytes(owner, j) == IndexBytes(n, k) && n != owner
    ensures j != k
  {
    if j == k {
      SameOwner(owner, n, j);
    }
  }

  lemma SameOwner(owner: Iri, n: Iri, k: Bytes)
    requires IndexBytes(owner, k) == IndexBytes(n, k)
    ensures owner == n
  {
    assert |owner| == |n|;
    assert IndexBytes(owner, k)[..|n|] == owner && IndexBytes(n, k)[..|n|] == n;
  }

  /** The row found under `n` leads to `b`. */
  lemma ScanFinds(rows: set<Bytes>, triples: map<Bytes, GraphEdge>, n: Iri, b: GraphEdge)
    requires IndexBytes(n, TripleBytes(KeyOf(b))) in rows
    requires TripleBytes(KeyOf(b)) in triples && triples[TripleBytes(KeyOf(b))] == b
    ensures b in ScannedEdges(rows, triples, n)
  {
    var row := IndexBytes(n, TripleBytes(KeyOf(b)));
    assert IriPrefix(n) <= row && row[|IriPrefix(n)|..] == TripleBytes(KeyOf(b));
  }

  lemma NothingToScan(triples: map<Bytes, GraphEdge>, n: Iri)
    ensures ScannedEdges({}, triples, n) == {}
  {
  }

  /** A subject row read under another node: either that node is shown an edge it has not, or deleting one edge hides the other. */
  lemma SharedSubjectRowDisagrees(edges: iset<GraphEdge>, nodes: iset<Iri>, a: GraphEdge, b: GraphEdge, n: Iri)
    requires a in edges && b in edges && n in nodes && n != a.subject.iri
    requires SubjectKey(KeyOf(a)) == IndexBytes(n, TripleBytes(KeyOf(b)))
    ensures !AlwaysAgree(edges, nodes)
  {
    hide ScannedEdges, TripleBytes, IndexBytes;
    OwnersDiffer(a.subject.iri, n, TripleBytes(KeyOf(a)), TripleBytes(KeyOf(b)));
    if b.subject.iri != n {
      TwoInserts(a, b);
      var ops := [Insert(a), Insert(b)];
      assert RunOver(ops, edges);
      var r := RowsAfter(ops);
      ScanFinds(r.subjects, r.triples, n, b);
      assert b in OutgoingRows(r, n) && b !in OutgoingEdges(ApplyAll(ops), n);
    } else {
      ThenDeleted(a, b);
      var ops := [Insert(a), Insert(b), Delete(a)];
      assert RunOver(ops, edges);
      var r := RowsAfter(ops);
      assert r.subjects == {};
      NothingToScan(r.triples, n);
      assert KeyOf(b) in ApplyAll(ops).edges && ApplyAll(ops).edges[KeyOf(b)] == b;
      assert b in OutgoingEdges(ApplyAll(ops), n);
    }
  }

  lemma SharedObjectRowDisagrees(edges: iset<GraphEdge>, nodes: iset<Iri>, a: GraphEdge, b: GraphEdge, n: Iri)
    requires a in edges && b in edges && n in nodes && a.obj.Node? && n != a.obj.node.iri
    requires ObjectIndexKey(KeyOf(a)) == IndexBytes(n, TripleBytes(KeyOf(b)))
    ensures !AlwaysAgree(edges, nodes)
  {
    hide ScannedEdges, TripleBytes, IndexBytes;
    OwnersDiffer(a.obj.node.iri, n, TripleBytes(KeyOf(a)), TripleBytes(KeyOf(b)));
    if !PointsTo(b, n) {
      TwoInserts(a, b);
      var ops := [Insert(a), Insert(b)];
      assert RunOver(ops, edges);
      var (c, r) := (ApplyAll(ops), RowsAfter(ops));
      ScanFinds(r.objects, r.triples, n, b);
      assert b in IncomingRows(r, n) && b !in IncomingEdges(c, n);
    } else {
      ThenDeleted(a, b);
      var ops := [Insert(a), Insert(b), Delete(a)];
      assert RunOver(ops, edges);
      var (c, r) := (ApplyAll(ops), RowsAfter(ops));
      assert r.objects == {};
      NothingToScan(r.triples, n);
      assert KeyOf(b) in c.edges && c.edges[KeyOf(b)] == b && KeyOf(b) in c.marks;
      assert b in IncomingEdges(c, n);
    }
  }

  lemma AmbiguousDisagrees(edges: iset<GraphEdge>, nodes: iset<Iri>)
    requires !Unambiguous(edges, nodes)
    ensures !AlwaysAgree(edges, nodes)
  {
    hide AlwaysAgree, TripleBytes, IndexBytes;
    if !KeysDiffer(edges) {
      var a, b :| a in edges && b in edges && TripleBytes(KeyOf(a)) == TripleBytes(KeyOf(b)) && KeyOf(a) != KeyOf(b);
      SharedBytesDisagree(edges, nodes, a, b);
    } else if a :| a in edges && !RowIsPlain(edges, nodes, a.subject.iri, KeyOf(a)) {
      var n, b :| n in nodes && b in edges && n != a.subject.iri && SubjectKey(KeyOf(a)) == IndexBytes(n, TripleBytes(KeyOf(b)));
      SharedSubjectRowDisagrees(edges, nodes, a, b, n);
    } else {
      var a :| a in edges && a.obj.Node? && !RowIsPlain(edges, nodes, a.obj.node.iri, KeyOf(a));
      var n, b :| n in nodes && b in edges && n != a.obj.node.iri && ObjectIndexKey(KeyOf(a)) == IndexBytes(n, TripleBytes(KeyOf(b)));
      SharedObjectRowDisagrees(edges, nodes, a, b, n);
    }
  }

  /**
   * Over any edges, and for any nodes asked about that include theirs, the two
   * stores answer alike after every run if and only if no composite key can be
   * read in two ways.
   */
  lemma AgreeExactly(edges: iset<GraphEdge>, nodes: iset<Iri>)
    requires EndsIn(edges, nodes)
    ensures AlwaysAgree(edges, nodes) <==> Unambiguous(edges, nodes)
  {
    hide Agree, Unambiguous;
    if Unambiguous(edges, nodes) {
      forall ops | RunOver(ops, edges) ensures Agree(ApplyAll(ops), RowsAfter(ops), edges, nodes) {
        UnambiguousAgrees(edges, nodes, ops);
      }
    } else {
      AmbiguousDisagrees(edges, nodes);
    }
  }

  // ---- IRIs free of NUL -------------------------------------------------------------------------

  /** Keys of NUL-free IRIs are unambiguous, whatever the literals hold. */
  lemma NulFreeIsUnambiguous(edges: iset<GraphEdge>, nodes: iset<Iri>)
    requires (forall e :: e in edges ==> NulFreeEdge(e)) && forall n :: n in nodes ==> NulFree(n)
    ensures Unambiguous(edges, nodes)
  {
    hide TripleBytes, IndexBytes, IriPrefix, NulFree;
    forall a, b | a in edges && b in edges && TripleBytes(KeyOf(a)) == TripleBytes(KeyOf(b)) ensures KeyOf(a) == KeyOf(b) {
      ParseReadsBack(KeyOf(a));
      ParseReadsBack(KeyOf(b));
    }
    forall owner, t, n, b | NulFree(owner) && n in nodes && b in edges && IndexBytes(owner, t) == IndexBytes(n, TripleBytes(KeyOf(b)))
      ensures n == owner
    {
      PrefixSelectsIri(n, owner, t);
      StartsWithPrefix(n, TripleBytes(KeyOf(b)));
    }
  }

  lemma StartsWithPrefix(n: Iri, t: Bytes)
    ensures IriPrefix(n) <= IndexBytes(n, t)
  {
  }

  /** With a NUL in an IRI they need not be: one edge inserted, another found. */
  lemma NulConfuses(s: Bytes, p: Bytes, q: Bytes, o: GraphNode)
    ensures var a := GraphEdge(GraphNode(s + [0] + p, []), GraphNode(q, []), Node(o));
      var b := GraphEdge(GraphNode(s, []), GraphNode(p + [0] + q, []), Node(o));
      && KeyOf(b) !in ApplyAll([Insert(a)]).edges && TripleBytes(KeyOf(b)) in RowsAfter([Insert(a)]).triples
  {
    var a := GraphEdge(GraphNode(s + [SEP] + p, []), GraphNode(q, []), Node(o));
    var b := GraphEdge(GraphNode(s, []), GraphNode(p + [SEP] + q, []), Node(o));
    OneInsert(a);
    assert TripleBytes(KeyOf(a)) == s + [SEP] + p + [SEP] + q + [SEP] + o.iri == TripleBytes(KeyOf(b));
    assert |KeyOf(a).subject| != |KeyOf(b).subject|;
  }

  // ---- The stores side by side -------------------------------------------------------------------

  lemma {:induction false} BallsAgree(c: Content, r: Rows, edges: iset<GraphEdge>, nodes: iset<Iri>, iri: Iri, hops: nat)
    requires Agree(c, r, edges, nodes) && Keyed(c) && Over(c, edges) && EndsIn(edges, nodes) && iri in nodes
    ensures Ball(Neighbours(c), iri, hops) == Ball(NeighbourRows(r), iri, hops)
    ensures forall n :: n in Ball(Neighbours(c), iri, hops) ==> n in nodes
  {
    hide OutgoingEdges, IncomingEdges, OutgoingRows, IncomingRows, Keyed, Over, EndsIn;
    if hops > 0 {
      BallsAgree(c, r, edges, nodes, iri, hops - 1);
      var ball := Ball(Neighbours(c), iri, hops - 1);
      forall a | a in ball ensures Neighbours(c)(a) == NeighbourRows(r)(a) {
      }
      assert AdjacentToAny(Neighbours(c), ball) == AdjacentToAny(NeighbourRows(r), ball);
      forall a, n | a in ball && n in Neighbours(c)(a) ensures n in nodes {
        AdjacentIsEnd(c, edges, nodes, a, n);
      }
    }
  }

  lemma AdjacentIsEnd(c: Content, edges: iset<GraphEdge>, nodes: iset<Iri>, a: Iri, n: Iri)
    requires Keyed(c) && Over(c, edges) && EndsIn(edges, nodes) && n in Neighbours(c)(a)
    ensures n in nodes
  {
    if n in Targets(OutgoingEdges(c, a)) {
      var k :| k in c.edges && k.subject == a && PointsTo(c.edges[k], n);
      assert c.edges[k] in edges;
    } else {
      var k :| k in c.edges && k in c.marks && k.obj == a && c.edges[k].subject.iri == n;
      assert c.edges[k] in edges;
    }
  }

  /**
   * Run on the same operations, over edges and nodes whose keys are unambiguous,
   * both stores list the same edges out of and into a node and the same nodes
   * around it.
   */
  method StoresAgree(ops: seq<GraphOp>, ghost edges: iset<GraphEdge>, ghost nodes: iset<Iri>, node: GraphNode, hops: nat)
    returns (out1: seq<GraphEdge>, out2: seq<GraphEdge>, in1: seq<GraphEdge>, in2: seq<GraphEdge>,
             near1: seq<GraphNode>, near2: seq<GraphNode>)
    requires Unambiguous(edges, nodes) && EndsIn(edges, nodes) && RunOver(ops, edges) && node.iri in nodes
    ensures Lists(out1, OutgoingEdges(ApplyAll(ops), node.iri)) && multiset(out1) == multiset(out2)
    ensures Lists(in1, IncomingEdges(ApplyAll(ops), node.iri)) && multiset(in1) == multiset(in2)
    ensures Lists(near1, set iri | iri in Ball(Neighbours(ApplyAll(ops)), node.iri, hops) :: NewNode(iri))
    ensures multiset(near1) == multiset(near2)
  {
    hide Agree, Unambiguous, EndsIn, Lists, OutgoingEdges, IncomingEdges, OutgoingRows, IncomingRows, Ball, Neighbours, NeighbourRows, Apply, ApplyRows;
    var simple := new SimpleGraph.SimpleGraphStore();
    var redb := new RedbGraphStore();
    for i := 0 to |ops|
      invariant simple.Valid() && redb.Valid()
      invariant simple.View() == ApplyAll(ops[..i]) && redb.View() == RowsAfter(ops[..i])
    {
      assert ops[..i + 1][..i] == ops[..i];
      match ops[i] {
        case Insert(e) =>
          simple.Insert(e);
          redb.Insert(e);
        case Delete(e) =>
          simple.Delete(e);
          redb.Delete(e);
      }
    }
    assert ops[..|ops|] == ops;
    out1 := simple.Outgoing(node);
    out2 := redb.Outgoing(node);
    in1 := simple.Incoming(node);
    in2 := redb.Incoming(node);
    near1 := simple.Neighborhood(node, hops);
    near2 := redb.Neighborhood(node, hops);
    AnswersAgree(ops, edges, nodes, node.iri, hops);
    ListingsArePermutations(out1, out2, OutgoingEdges(ApplyAll(ops), node.iri));
    ListingsArePermutations(in1, in2, IncomingEdges(ApplyAll(ops), node.iri));
    ListingsArePermutations(near1, near2, set iri | iri in Ball(Neighbours(ApplyAll(ops)), node.iri, hops) :: NewNode(iri));
  }

  lemma AnswersAgree(ops: seq<GraphOp>, edges: iset<GraphEdge>, nodes: iset<Iri>, iri: Iri, hops: nat)
    requires Unambiguous(edges, nodes) && EndsIn(edges, nodes) && RunOver(ops, edges) && iri in nodes
    ensures OutgoingEdges(ApplyAll(ops), iri) == OutgoingRows(RowsAfter(ops), iri)
    ensures IncomingEdges(ApplyAll(ops), iri) == IncomingRows(RowsAfter(ops), iri)
    ensures Ball(Neighbours(ApplyAll(ops)), iri, hops) == Ball(NeighbourRows(RowsAfter(ops)), iri, hops)
  {
    UnambiguousAgrees(edges, nodes, ops);
    RunsAreKeyed(ops);
    RunRepresents(edges, nodes, ops);
    BallsAgree(ApplyAll(ops), RowsAfter(ops), edges, nodes, iri, hops);
  }

  lemma ListingsArePermutations<T(!new)>(xs: seq<T>, ys: seq<T>, s: set<T>)
    requires Lists(xs, s) && Lists(ys, s)
    ensures multiset(xs) == multiset(ys)
  {
    ListingCounts(xs, s);
    ListingCounts(ys, s);
  }

  lemma {:induction false} ListingCounts<T(!new)>(xs: seq<T>, s: set<T>)
    requires Lists(xs, s)
    ensures forall x :: multiset(xs)[x] == if x in s then 1 else 0
    decreases |xs|
  {
    if xs != [] {
      var rest, last := xs[..|xs| - 1], xs[|xs| - 1];
      assert xs == rest + [last];
      ListingCounts(rest, s - {last});
    }
  }
}
