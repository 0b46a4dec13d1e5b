/** Triples, their keys, what the graph stores hold, and neighbourhoods. */
module Graph {
  import opened Wrappers

  /** An IRI as its UTF-8 bytes. */
  type Iri = Bytes

  datatype GraphNode = GraphNode(iri: Iri, localName: Bytes)

  datatype GraphObject =
    | Node(node: GraphNode)
    | Literal(value: Bytes, datatypeIri: Option<Bytes>)

  datatype GraphEdge = GraphEdge(subject: GraphNode, relation: GraphNode, obj: GraphObject)

  datatype TripleKey = TripleKey(subject: Iri, relation: Iri, obj: Bytes)

  /** One edge for each key. */
  type Triples = map<TripleKey, GraphEdge>

  const SEP: byte := 0

  /** The bytes of `literal::`. */
  const LITERAL_PREFIX: Bytes := [108, 105, 116, 101, 114, 97, 108, 58, 58]

  function ObjectKey(o: GraphObject): Bytes {
    match o
    case Node(n) => n.iri
    case Literal(value, _) => LITERAL_PREFIX + value
  }

  function KeyOf(e: GraphEdge): TripleKey {
    TripleKey(e.subject.iri, e.relation.iri, ObjectKey(e.obj))
  }

  predicate NulFree(s: Bytes) {
    0 !in s
  }

  /** The object IRI does not look like a literal's key. */
  predicate PlainEdge(e: GraphEdge) {
    e.obj.Node? ==> !(LITERAL_PREFIX <= e.obj.node.iri)
  }

  /** The IRIs hold no NUL. */
  predicate NulFreeEdge(e: GraphEdge) {
    NulFree(e.subject.iri) && NulFree(e.relation.iri) && (e.obj.Node? ==> NulFree(e.obj.node.iri))
  }

  predicate PointsTo(e: GraphEdge, iri: Iri) {
    e.obj.Node? && e.obj.node.iri == iri
  }

  /**
   * What the in-memory store holds: the edges, and the keys its object index
   * lists. Inserting a node object marks its key and deleting one unmarks it;
   * literals leave the marks alone, also under a key a node shares with them.
   */
  datatype Content = Content(edges: Triples, marks: set<TripleKey>)

  const NOTHING := Content(map[], {})

  ghost function OutgoingEdges(c: Content, iri: Iri): set<GraphEdge> {
    set k | k in c.edges && k.subject == iri :: c.edges[k]
  }

  ghost function IncomingEdges(c: Content, iri: Iri): set<GraphEdge> {
    set k | k in c.edges && k in c.marks && k.obj == iri :: c.edges[k]
  }

  /** `xs` lists the members of `s` once each. */
  ghost predicate Lists<T(!new)>(xs: seq<T>, s: set<T>) {
    && (forall i, j :: 0 <= i < j < |xs| ==> xs[i] != xs[j])
    && (forall x :: x in xs <==> x in s)
  }

  datatype GraphOp = Insert(edge: GraphEdge) | Delete(edge: GraphEdge)

  function Apply(c: Content, op: GraphOp): Content {
    var key := KeyOf(op.edge);
    match op
    case Insert(e) => Content(c.edges[key := e], if e.obj.Node? then c.marks + {key} else c.marks)
    case Delete(e) => Content(c.edges - {key}, if e.obj.Node? then c.marks - {key} else c.marks)
  }

  function ApplyAll(ops: seq<GraphOp>): Content {
    if ops == [] then NOTHING else Apply(ApplyAll(ops[..|ops| - 1]), ops[|ops| - 1])
  }

  /**
   * Two edges share a key exactly when they agree on subject, predicate and
   * object, or a node's IRI spells out the other's literal key.
   */
  lemma SharedKeyExactly(a: GraphEdge, b: GraphEdge)
    ensures KeyOf(a) == KeyOf(b) <==>
      && a.subject.iri == b.subject.iri && a.relation.iri == b.relation.iri
      && match (a.obj, b.obj)
         case (Node(m), Node(n)) => m.iri == n.iri
         case (Literal(v, _), Literal(w, _)) => v == w
         case (Node(m), Literal(w, _)) => m.iri == LITERAL_PREFIX + w
         case (Literal(v, _), Node(n)) => n.iri == LITERAL_PREFIX + v
  {
    match (a.obj, b.obj) {
      case (Literal(v, _), Literal(w, _)) =>
        assert (LITERAL_PREFIX + v)[|LITERAL_PREFIX|..] == v;
        assert (LITERAL_PREFIX + w)[|LITERAL_PREFIX|..] == w;
      case _ =>
    }
  }

  // ---- Marks ----------------------------------------------------------------------

  /** Every edge stands under its key, and a node object's key is marked. */
  ghost predicate Keyed(c: Content) {
    forall k :: k in c.edges ==> KeyOf(c.edges[k]) == k && (c.edges[k].obj.Node? ==> k in c.marks)
  }

  lemma ApplyKeepsKeyed(c: Content, op: GraphOp)
    requires Keyed(c)
    ensures Keyed(Apply(c, op))
  {
    var (e, c') := (op.edge, Apply(c, op));
    forall k | k in c'.edges ensures KeyOf(c'.edges[k]) == k && (c'.edges[k].obj.Node? ==> k in c'.marks) {
      assert k != KeyOf(e) ==> k in c.edges && c'.edges[k] == c.edges[k];
    }
  }

  lemma {:induction false} RunsAreKeyed(ops: seq<GraphOp>)
    ensures Keyed(ApplyAll(ops))
  {
    if ops != [] {
      RunsAreKeyed(ops[..|ops| - 1]);
      ApplyKeepsKeyed(ApplyAll(ops[..|ops| - 1]), ops[|ops| - 1]);
    }
  }

  /** The last operation on the key inserted `e`. */
  ghost predicate LastInserted(ops: seq<GraphOp>, key: TripleKey, e: GraphEdge) {
    exists i :: 0 <= i < |ops| && ops[i] == GraphOp.Insert(e) && KeyOf(e) == key
                && forall j :: i < j < |ops| ==> KeyOf(ops[j].edge) != key
  }

  lemma LastInsertedStep(ops: seq<GraphOp>, op: GraphOp, key: TripleKey, e: GraphEdge)
    ensures LastInserted(ops + [op], key, e) <==>
              if KeyOf(op.edge) == key then op == GraphOp.Insert(e) else LastInserted(ops, key, e)
  {
    hide KeyOf;
    var longer := ops + [op];
    assert longer[|ops|] == op;
    if KeyOf(op.edge) != key && LastInserted(ops, key, e) {
      var i :| 0 <= i < |ops| && ops[i] == GraphOp.Insert(e) && KeyOf(e) == key && forall j :: i < j < |ops| ==> KeyOf(ops[j].edge) != key;
      assert longer[i] == GraphOp.Insert(e);
    }
    if LastInserted(longer, key, e) {
      var i :| 0 <= i < |longer| && longer[i] == GraphOp.Insert(e) && KeyOf(e) == key
               && forall j :: i < j < |longer| ==> KeyOf(longer[j].edge) != key;
      assert i < |ops| ==> ops[i] == GraphOp.Insert(e);
      forall j | i < j < |ops| ensures KeyOf(ops[j].edge) != key {
        assert longer[j] == ops[j];
      }
    }
  }

  /** An edge is stored exactly when the last operation on its key inserted it: no edge less, and no edge more. */
  lemma {:induction false} StoredExactly(ops: seq<GraphOp>, key: TripleKey, e: GraphEdge)
    ensures Lookup(ApplyAll(ops).edges, key) == Some(e) <==> LastInserted(ops, key, e)
  {
    hide KeyOf, LastInserted;
    if ops == [] {
      NothingInserted(key, e);
    } else {
      var n := |ops| - 1;
      StoredExactly(ops[..n], key, e);
      assert ops == ops[..n] + [ops[n]];
      LastInsertedStep(ops[..n], ops[n], key, e);
    }
  }

  lemma NothingInserted(key: TripleKey, e: GraphEdge)
    ensures !LastInserted([], key, e)
  {
  }

  /** The edges listed as going out of a node are those with it as subject that were inserted last. */
  lemma OutgoingExactly(ops: seq<GraphOp>, iri: Iri, e: GraphEdge)
    ensures e in OutgoingEdges(ApplyAll(ops), iri) <==> e.subject.iri == iri && LastInserted(ops, KeyOf(e), e)
  {
    hide LastInserted;
    RunsAreKeyed(ops);
    StoredExactly(ops, KeyOf(e), e);
  }

  predicate Marking(op: GraphOp, key: TripleKey) {
    op.edge.obj.Node? && KeyOf(op.edge) == key
  }

  /** A node was inserted under `key` and none was deleted under it since. */
  ghost predicate MarkedIn(ops: seq<GraphOp>, key: TripleKey) {
    exists i :: 0 <= i < |ops| && ops[i].Insert? && Marking(ops[i], key) &&
                forall j :: i < j < |ops| && Marking(ops[j], key) ==> ops[j].Insert?
  }

  lemma MarkedStep(ops: seq<GraphOp>, op: GraphOp, key: TripleKey)
    ensures MarkedIn(ops + [op], key) <==> if Marking(op, key) then op.Insert? else MarkedIn(ops, key)
  {
    var all := ops + [op];
    if Marking(op, key) && op.Insert? {
      assert all[|ops|] == op;
    } else if MarkedIn(ops, key) {
      var i :| 0 <= i < |ops| && ops[i].Insert? && Marking(ops[i], key) &&
               forall j :: i < j < |ops| && Marking(ops[j], key) ==> ops[j].Insert?;
      assert all[i] == ops[i];
    }
    if MarkedIn(all, key) && !Marking(op, key) {
      var i :| 0 <= i < |all| && all[i].Insert? && Marking(all[i], key) &&
               forall j :: i < j < |all| && Marking(all[j], key) ==> all[j].Insert?;
      assert ops[i] == all[i];
      assert forall j :: 0 <= j < |ops| ==> ops[j] == all[j];
    }
  }

  lemma {:induction false} MarksExactly(ops: seq<GraphOp>, key: TripleKey)
    ensures key in ApplyAll(ops).marks <==> MarkedIn(ops, key)
  {
    if ops != [] {
      var n := |ops| - 1;
      MarksExactly(ops[..n], key);
      MarkedStep(ops[..n], ops[n], key);
      assert ops == ops[..n] + [ops[n]];
    }
  }

  /** No literal stands under a marked key. */
  ghost predicate Tidy(c: Content) {
    forall k :: k in c.edges && k in c.marks ==> c.edges[k].obj.Node?
  }

  ghost function EdgesTo(c: Content, iri: Iri): set<GraphEdge> {
    set k | k in c.edges && PointsTo(c.edges[k], iri) :: c.edges[k]
  }

  lemma TidyExactly(c: Content)
    requires Keyed(c)
    ensures (forall iri :: IncomingEdges(c, iri) == EdgesTo(c, iri)) <==> Tidy(c)
  {
    if Tidy(c) {
      forall iri ensures IncomingEdges(c, iri) == EdgesTo(c, iri) {
      }
    } else {
      var k :| k in c.edges && k in c.marks && !c.edges[k].obj.Node?;
      assert c.edges[k] in IncomingEdges(c, k.obj);
      assert c.edges[k] !in EdgesTo(c, k.obj);
    }
  }

  /**
   * After every run, the incoming edges of each node are the edges that point at
   * it if and only if no literal is stored under a key at which a node was
   * inserted and not deleted since.
   */
  lemma IncomingExactly(ops: seq<GraphOp>)
    ensures var c := ApplyAll(ops);
      (forall iri :: IncomingEdges(c, iri) == EdgesTo(c, iri)) <==>
      (forall k :: k in c.edges && MarkedIn(ops, k) ==> c.edges[k].obj.Node?)
  {
    var c := ApplyAll(ops);
    RunsAreKeyed(ops);
    TidyExactly(c);
    forall k ensures k in c.marks <==> MarkedIn(ops, k) {
      MarksExactly(ops, k);
    }
  }

  /** A run over plain edges is tidy. */
  lemma {:induction false} PlainRunsAreTidy(ops: seq<GraphOp>)
    requires forall op :: op in ops ==> PlainEdge(op.edge)
    ensures Tidy(ApplyAll(ops)) && forall k :: k in ApplyAll(ops).marks ==> !(LITERAL_PREFIX <= k.obj)
  {
    if ops != [] {
      var op := ops[|ops| - 1];
      assert op in ops;
      PlainRunsAreTidy(ops[..|ops| - 1]);
      match op.edge.obj {
        case Literal(v, _) => assert LITERAL_PREFIX <= KeyOf(op.edge).obj;
        case Node(_) =>
      }
    }
  }

  /** A literal can be listed as an incoming edge of the node that spells its key. */
  lemma LiteralListedAsIncoming(s: GraphNode, p: GraphNode, value: Bytes)
    ensures var node := GraphNode([108, 105, 116, 101, 114, 97, 108, 58, 58] + value, []);
      var ops := [GraphOp.Insert(GraphEdge(s, p, Node(node))), GraphOp.Insert(GraphEdge(s, p, Literal(value, None)))];
      GraphEdge(s, p, Literal(value, None)) in IncomingEdges(ApplyAll(ops), node.iri)
  {
    var node := GraphNode([108, 105, 116, 101, 114, 97, 108, 58, 58] + value, []);
    var a, b := GraphOp.Insert(GraphEdge(s, p, Node(node))), GraphOp.Insert(GraphEdge(s, p, Literal(value, None)));
    var ops := [a, b];
    assert ops[..1] == [a] && [a][..0] == [];
    assert ApplyAll([a]) == Apply(NOTHING, a) && ApplyAll(ops) == Apply(Apply(NOTHING, a), b);
    assert KeyOf(a.edge) == KeyOf(b.edge);
  }

  // ---- Nodes ----------------------------------------------------------------------

  /** The index just after the last occurrence of `b`, or 0. */
  function AfterLast(s: Bytes, b: byte): (i: nat)
    ensures i <= |s|
    ensures i == 0 <==> b !in s
    ensures i > 0 ==> s[i - 1] == b && b !in s[i..]
  {
    if s == [] then 0
    else if s[|s| - 1] == b then |s|
    else
      var i := AfterLast(s[..|s| - 1], b);
      assert s == s[..|s| - 1] + [s[|s| - 1]];
      assert s[i..] == s[..|s| - 1][i..] + [s[|s| - 1]];
      i
  }

  /** The local name follows the last `/`, or else the last `#`. */
  function NewNode(iri: Iri): GraphNode {
    if 47 in iri then GraphNode(iri, iri[AfterLast(iri, 47)..])
    else if 35 in iri then GraphNode(iri, iri[AfterLast(iri, 35)..])
    else GraphNode(iri, iri)
  }

  /** `name` is what follows the last `mark` of the text. */
  ghost predicate FollowsLast(text: Bytes, mark: byte, name: Bytes) {
    mark !in name && exists front :: text == front + [mark] + name
  }

  lemma {:induction false} LastStandsThere(front: Bytes, mark: byte, name: Bytes)
    requires mark !in name
    ensures AfterLast(front + [mark] + name, mark) == |front| + 1
  {
    var text := front + [mark] + name;
    if name != [] {
      var n := |name| - 1;
      LastStandsThere(front, mark, name[..n]);
      assert text[..|text| - 1] == front + [mark] + name[..n] && text[|text| - 1] == name[n];
    }
  }

  lemma AfterLastExactly(text: Bytes, mark: byte, name: Bytes)
    requires mark in text
    ensures name == text[AfterLast(text, mark)..] <==> FollowsLast(text, mark, name)
  {
    var i := AfterLast(text, mark);
    assert text == text[..i - 1] + [mark] + text[i..];
    if FollowsLast(text, mark, name) {
      var front :| text == front + [mark] + name;
      LastStandsThere(front, mark, name);
      assert text[|front| + 1..] == name;
    }
  }

  /** A node is named by what follows the last `/` of its IRI, without one the last `#`, and without either by all of it. */
  lemma NewNodeExactly(iri: Iri, n: GraphNode)
    ensures var (slash, hash) := ('/' as byte, '#' as byte);
      n == NewNode(iri) <==>
        n.iri == iri && (
          || FollowsLast(iri, slash, n.localName)
          || (slash !in iri && FollowsLast(iri, hash, n.localName))
          || (slash !in iri && hash !in iri && n.localName == iri))
  {
    if 47 in iri {
      AfterLastExactly(iri, 47, n.localName);
    } else if 35 in iri {
      AfterLastExactly(iri, 35, n.localName);
    }
  }

  // ---- Neighbourhoods -------------------------------------------------------------

  ghost function Targets(es: set<GraphEdge>): set<Iri> {
    set e | e in es && e.obj.Node? :: e.obj.node.iri
  }

  ghost function Sources(es: set<GraphEdge>): set<Iri> {
    set e | e in es :: e.subject.iri
  }

  /** The IRIs one hop away, along an outgoing or back along an incoming edge. */
  ghost function Adjacent(c: Content, iri: Iri): set<Iri> {
    Targets(OutgoingEdges(c, iri)) + Sources(IncomingEdges(c, iri))
  }

  /** Who is adjacent to whom. */
  type Adjacency = Iri -> set<Iri>

  ghost function Neighbours(c: Content): Adjacency {
    iri => Adjacent(c, iri)
  }

  ghost function AdjacentToAny(adj: Adjacency, iris: set<Iri>): set<Iri> {
    set a, b | a in iris && b in adj(a) :: b
  }

  /** Everything within `hops` hops of `iri`. */
  ghost function Ball(adj: Adjacency, iri: Iri, hops: nat): set<Iri> {
    if hops == 0 then {iri}
    else Ball(adj, iri, hops - 1) + AdjacentToAny(adj, Ball(adj, iri, hops - 1))
  }

  /** The IRIs first reached in round `hops`. */
  ghost function Sphere(adj: Adjacency, iri: Iri, hops: nat): set<Iri> {
    if hops == 0 then {iri} else Ball(adj, iri, hops) - Ball(adj, iri, hops - 1)
  }

  /** Only the last round's discoveries need expanding. */
  lemma {:induction false} ExpandSphere(adj: Adjacency, iri: Iri, hops: nat)
    ensures Ball(adj, iri, hops + 1) == Ball(adj, iri, hops) + AdjacentToAny(adj, Sphere(adj, iri, hops))
  {
    if hops > 0 {
      forall b | b in AdjacentToAny(adj, Ball(adj, iri, hops))
        ensures b in Ball(adj, iri, hops) + AdjacentToAny(adj, Sphere(adj, iri, hops))
      {
        var a :| a in Ball(adj, iri, hops) && b in adj(a);
        if a in Ball(adj, iri, hops - 1) {
          assert b in AdjacentToAny(adj, Ball(adj, iri, hops - 1));
        }
      }
    }
  }

  ghost predicate Trail(adj: Adjacency, p: seq<Iri>) {
    |p| >= 1 && forall i :: 0 <= i < |p| - 1 ==> p[i + 1] in adj(p[i])
  }

  ghost predicate WithinHops(adj: Adjacency, a: Iri, b: Iri, hops: nat) {
    exists p :: Trail(adj, p) && p[0] == a && p[|p| - 1] == b && |p| - 1 <= hops
  }

  /** One more hop: the trail grows at its far end. */
  lemma StepFurther(adj: Adjacency, a: Iri, b: Iri, hops: nat)
    ensures WithinHops(adj, a, b, hops + 1) <==>
              WithinHops(adj, a, b, hops) || exists c :: WithinHops(adj, a, c, hops) && b in adj(c)
  {
    if c :| WithinHops(adj, a, c, hops) && b in adj(c) {
      var p :| Trail(adj, p) && p[0] == a && p[|p| - 1] == c && |p| - 1 <= hops;
      var q := p + [b];
      forall i | 0 <= i < |q| - 1 ensures q[i + 1] in adj(q[i]) {
        assert q[i] == p[i];
        assert i < |p| - 1 ==> q[i + 1] == p[i + 1];
      }
      assert Trail(adj, q) && q[0] == a && q[|q| - 1] == b;
    }
    if p :| Trail(adj, p) && p[0] == a && p[|p| - 1] == b && |p| - 1 == hops + 1 {
      var q := p[..|p| - 1];
      assert Trail(adj, q) && q[0] == a && q[|q| - 1] == p[|p| - 2];
      assert p[|p| - 2 + 1] in adj(p[|p| - 2]);
    }
  }

  lemma NoHops(adj: Adjacency, a: Iri, b: Iri)
    ensures WithinHops(adj, a, b, 0) <==> a == b
  {
    assert Trail(adj, [a]) && [a][0] == a;
  }

  /** The ball is exactly what trails of at most that length reach. */
  lemma {:induction false} BallIsDistance(adj: Adjacency, a: Iri, hops: nat)
    ensures forall b :: b in Ball(adj, a, hops) <==> WithinHops(adj, a, b, hops)
    decreases hops
  {
    hide WithinHops;
    if hops > 0 {
      BallIsDistance(adj, a, hops - 1);
    }
    forall b ensures b in Ball(adj, a, hops) <==> WithinHops(adj, a, b, hops) {
      if hops == 0 {
        NoHops(adj, a, b);
      } else {
        BallStep(adj, a, b, hops - 1);
      }
    }
  }

  lemma BallGrows(adj: Adjacency, a: Iri, b: Iri, hops: nat)
    ensures b in Ball(adj, a, hops + 1) <==> b in Ball(adj, a, hops) || exists c :: c in Ball(adj, a, hops) && b in adj(c)
  {
  }

  lemma BallStep(adj: Adjacency, a: Iri, b: Iri, hops: nat)
    requires forall c :: c in Ball(adj, a, hops) <==> WithinHops(adj, a, c, hops)
    ensures b in Ball(adj, a, hops + 1) <==> WithinHops(adj, a, b, hops + 1)
  {
    StepFurther(adj, a, b, hops);
    BallGrows(adj, a, b, hops);
    hide WithinHops, Ball;
    if c :| c in Ball(adj, a, hops) && b in adj(c) {
      assert WithinHops(adj, a, c, hops);
    } else if c :| WithinHops(adj, a, c, hops) && b in adj(c) {
      assert c in Ball(adj, a, hops);
    }
  }

  /** The frontier of round `hops` is exactly what lies at that distance. */
  lemma SphereIsExactDistance(adj: Adjacency, a: Iri, b: Iri, hops: nat)
    ensures b in Sphere(adj, a, hops) <==> WithinHops(adj, a, b, hops) && (hops > 0 ==> !WithinHops(adj, a, b, hops - 1))
  {
    BallIsDistance(adj, a, hops);
    if hops > 0 {
      BallIsDistance(adj, a, hops - 1);
    }
  }

  /** A node-object edge joins `a` and `b`, in either direction. */
  predicate Joins(e: GraphEdge, a: Iri, b: Iri) {
    (e.subject.iri == a && PointsTo(e, b)) || (e.subject.iri == b && PointsTo(e, a))
  }

  /** Unless a literal stands in for a node, hops follow the node-object edges, in either direction. */
  lemma HopsAreUndirected(ops: seq<GraphOp>, a: Iri, b: Iri)
    requires Tidy(ApplyAll(ops))
    ensures b in Neighbours(ApplyAll(ops))(a) <==> exists k :: k in ApplyAll(ops).edges && Joins(ApplyAll(ops).edges[k], a, b)
  {
    var c := ApplyAll(ops);
    RunsAreKeyed(ops);
    if k :| k in c.edges && Joins(c.edges[k], a, b) {
      assert c.edges[k] in OutgoingEdges(c, a) || c.edges[k] in IncomingEdges(c, a);
    }
    if b in Sources(IncomingEdges(c, a)) {
      var k :| k in c.edges && k in c.marks && k.obj == a && c.edges[k].subject.iri == b;
      assert Joins(c.edges[k], a, b);
    }
    if b in Targets(OutgoingEdges(c, a)) {
      var k :| k in c.edges && k.subject == a && PointsTo(c.edges[k], b);
      assert Joins(c.edges[k], a, b);
    }
  }

  // ---- The body of a search round ---------------------------------------------------

  ghost function Iris(nodes: seq<GraphNode>): set<Iri> {
    set n | n in nodes :: n.iri
  }

  lemma OneMoreExpanded(adj: Adjacency, frontier: seq<GraphNode>, i: nat)
    requires i < |frontier|
    ensures AdjacentToAny(adj, Iris(frontier[..i + 1])) == AdjacentToAny(adj, Iris(frontier[..i])) + adj(frontier[i].iri)
  {
    assert frontier[..i + 1] == frontier[..i] + [frontier[i]];
    assert Iris(frontier[..i + 1]) == Iris(frontier[..i]) + {frontier[i].iri};
  }

  /** Follow outgoing edges to unvisited nodes. */
  method AddTargets(edges: seq<GraphEdge>, ghost listed: set<GraphEdge>, visited: set<Iri>, next: seq<GraphNode>)
    returns (visited': set<Iri>, next': seq<GraphNode>)
    requires Lists(edges, listed)
    ensures visited' == visited + Targets(listed)
    ensures Iris(next') == Iris(next) + (visited' - visited)
  {
    visited', next' := visited, next;
    for i := 0 to |edges|
      invariant visited' == visited + Targets(set e | e in edges[..i])
      invariant Iris(next') == Iris(next) + (visited' - visited)
    {
      assert edges[..i + 1] == edges[..i] + [edges[i]];
      if edges[i].obj.Node? {
        var n := edges[i].obj.node;
        if n.iri !in visited' {
          visited' := visited' + {n.iri};
          assert Iris(next' + [n]) == Iris(next') + {n.iri};
          next' := next' + [n];
        }
      }
    }
    assert edges[..|edges|] == edges;
    assert (set e | e in edges) == listed;
  }

  /** Follow incoming edges back to unvisited subjects. */
  method AddSources(edges: seq<GraphEdge>, ghost listed: set<GraphEdge>, visited: set<Iri>, next: seq<GraphNode>)
    returns (visited': set<Iri>, next': seq<GraphNode>)
    requires Lists(edges, listed)
    ensures visited' == visited + Sources(listed)
    ensures Iris(next') == Iris(next) + (visited' - visited)
  {
    visited', next' := visited, next;
    for i := 0 to |edges|
      invariant visited' == visited + Sources(set e | e in edges[..i])
      invariant Iris(next') == Iris(next) + (visited' - visited)
    {
      assert edges[..i + 1] == edges[..i] + [edges[i]];
      var n := edges[i].subject;
      if n.iri !in visited' {
        visited' := visited' + {n.iri};
        assert Iris(next' + [n]) == Iris(next') + {n.iri};
        next' := next' + [n];
      }
    }
    assert edges[..|edges|] == edges;
    assert (set e | e in edges) == listed;
  }

  /** The visited IRIs as nodes, in some order. */
  method AsNodes(visited: set<Iri>) returns (nodes: seq<GraphNode>)
    ensures Lists(nodes, set iri | iri in visited :: NewNode(iri))
  {
    nodes := [];
    var rest := visited;
    while rest != {}
      invariant rest <= visited
      invariant Lists(nodes, set iri | iri in visited - rest :: NewNode(iri))
    {
      var iri :| iri in rest;
      assert visited - (rest - {iri}) == (visited - rest) + {iri};
      assert (set i | i in visited - (rest - {iri}) :: NewNode(i)) == (set i | i in visited - rest :: NewNode(i)) + {NewNode(iri)};
      rest := rest - {iri};
      nodes := nodes + [NewNode(iri)];
    }
    assert visited - rest == visited;
  }
}
