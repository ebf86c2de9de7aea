/** The property graph as a value: the graph elements exchanged between the layers
    (internal/assembler/types.go) and the effect of each Cypher statement issued by
    internal/graph/neo4j.go. One physical graph holds every logical database; a node belongs to
    the database named by its `_db` property and is identified in it by its `uri` property. */
module GraphModel {
  import opened Common

  /** A property value. */
  datatype Value =
    | Null
    | Str(str: string)
    | Int(num: int)
    | Float(dec: real)
    | Bool(flag: bool)
    | StrList(strs: seq<string>)
    | AnyList(items: seq<Value>)

  type Props = map<string, Value>

  datatype Node = Node(labels: seq<string>, uri: string, props: Props) {
    function MostSpecificLabel(): string {
      if |labels| == 0 then "" else labels[|labels| - 1]
    }
  }

  datatype Relation = Relation(typ: string, from: string, to: string, props: Props)

  const DEFAULT_DB := "default"

  // ---------------------------------------------------------------- stored graph

  datatype NodeKey = NodeKey(db: string, uri: string)

  datatype NodeRec = NodeRec(labels: seq<string>, props: Props)

  datatype Edge = Edge(db: string, typ: string, from: string, to: string) {
    function Source(): NodeKey { NodeKey(db, from) }
    function Target(): NodeKey { NodeKey(db, to) }
  }

  /** How many parallel relationships join the same two nodes with the same type. */
  type Count = n: int | 1 <= n witness 1

  datatype Graph = Graph(nodes: map<NodeKey, NodeRec>, edges: map<Edge, Count>) {
    function Node(k: NodeKey): Option<NodeRec> {
      if k in nodes then Some(nodes[k]) else None
    }

    function Multiplicity(e: Edge): nat {
      if e in edges then edges[e] else 0
    }

    predicate Joins(e: Edge) {
      e.Source() in nodes && e.Target() in nodes
    }

    /** What the database guarantees of itself, and what identifies a node: both ends of a
        relationship exist, and the key of a node is what its own properties say. */
    ghost predicate Wf() {
      && (forall k :: k in nodes ==> Sound(k, nodes[k].props))
      && (forall e :: e in edges ==> Joins(e))
    }

    predicate HasData(db: string) {
      exists k :: k in nodes && k.db == db
    }
  }

  /** The properties of the node `k`; a null property is no property. */
  ghost predicate Sound(k: NodeKey, p: Props) {
    && "_db" in p && p["_db"] == Str(k.db)
    && "uri" in p && p["uri"] == Str(k.uri)
    && (forall x :: x in p ==> p[x] != Null)
  }

  /** Graphs are equal when every node and every multiplicity is. */
  lemma GraphsAgree(g: Graph, h: Graph)
    requires forall k :: g.Node(k) == h.Node(k)
    requires forall e :: g.Multiplicity(e) == h.Multiplicity(e)
    ensures g == h
  {
    forall k ensures k in g.nodes <==> k in h.nodes
      ensures k in g.nodes ==> g.nodes[k] == h.nodes[k]
    {
      assert g.Node(k) == h.Node(k);
    }
    forall e ensures e in g.edges <==> e in h.edges
      ensures e in g.edges ==> g.edges[e] == h.edges[e]
    {
      assert g.Multiplicity(e) == h.Multiplicity(e);
    }
    assert g.nodes == h.nodes;
    assert g.edges == h.edges;
  }

  /** Nothing outside logical database `db` differs between the two graphs. */
  ghost predicate SameOutside(g: Graph, h: Graph, db: string) {
    && (forall k: NodeKey :: k.db != db ==> g.Node(k) == h.Node(k))
    && (forall e: Edge :: e.db != db ==> g.Multiplicity(e) == h.Multiplicity(e))
  }

  // ---------------------------------------------------------------- node writes

  /** `SET x += q`: new keys are added, old ones overwritten, null removes. */
  function SetPlus(p: Props, q: Props): Props {
    map k | k in p.Keys + q.Keys && (k in q ==> q[k] != Null) :: if k in q then q[k] else p[k]
  }

  function ValueAt(p: Props, c: string): Option<Value> {
    if c in p then Some(p[c]) else None
  }

  /** What a property is after it was set to v. */
  function Shown(v: Value): Option<Value> {
    if v == Null then None else Some(v)
  }

  function Ident(db: string, uri: string): Props {
    map["_db" := Str(db), "uri" := Str(uri)]
  }

  /** One row of an UNWIND over nodes: `group` names the statement it is part of. */
  datatype Write = Write(group: string, uri: string, labels: seq<string>, props: Props)

  /** The record a write leaves behind, given what was there. */
  function Written(db: string, before: Option<NodeRec>, w: Write): NodeRec {
    match before
    case Some(rec) => NodeRec(rec.labels, SetPlus(rec.props, w.props))
    case None => NodeRec(w.labels, SetPlus(Ident(db, w.uri), w.props))
  }

  /** `MERGE (x {_db, uri}) ON CREATE SET labels SET x += props`; for a URI that is not there
      yet, also `CREATE (x:labels {_db, uri}) SET x += props`. */
  function WriteNode(g: Graph, db: string, w: Write): Graph {
    var k := NodeKey(db, w.uri);
    Graph(g.nodes[k := Written(db, g.Node(k), w)], g.edges)
  }

  function WriteAll(g: Graph, db: string, ws: seq<Write>): Graph
    decreases |ws|
  {
    if ws == [] then g else WriteAll(WriteNode(g, db, ws[0]), db, ws[1..])
  }

  /** What a list of writes to one URI makes of its record. */
  function WrittenAll(db: string, before: Option<NodeRec>, ws: seq<Write>): Option<NodeRec>
    decreases |ws|
  {
    if ws == [] then before else WrittenAll(db, Some(Written(db, before, ws[0])), ws[1..])
  }

  function ForUri(ws: seq<Write>, uri: string): seq<Write> {
    if ws == [] then []
    else if ws[0].uri == uri then [ws[0]] + ForUri(ws[1..], uri)
    else ForUri(ws[1..], uri)
  }

  function InGroups(ws: seq<Write>, groups: set<string>): seq<Write> {
    if ws == [] then []
    else if ws[0].group in groups then [ws[0]] + InGroups(ws[1..], groups)
    else InGroups(ws[1..], groups)
  }

  lemma {:induction false} WriteAllAt(g: Graph, db: string, ws: seq<Write>, k: NodeKey)
    ensures WriteAll(g, db, ws).edges == g.edges
    ensures WriteAll(g, db, ws).Node(k)
         == if k.db == db then WrittenAll(db, g.Node(k), ForUri(ws, k.uri)) else g.Node(k)
    decreases |ws|
  {
    if ws != [] {
      WriteAllAt(WriteNode(g, db, ws[0]), db, ws[1..], k);
      assert ([ws[0]] + ForUri(ws[1..], k.uri))[1..] == ForUri(ws[1..], k.uri);
    }
  }

  lemma {:induction false} WrittenAllConcat(db: string, before: Option<NodeRec>, a: seq<Write>, b: seq<Write>)
    ensures WrittenAll(db, before, a + b) == WrittenAll(db, WrittenAll(db, before, a), b)
    decreases |a|
  {
    if a == [] {
      assert a + b == b;
    } else {
      assert (a + b)[1..] == a[1..] + b;
      WrittenAllConcat(db, Some(Written(db, before, a[0])), a[1..], b);
    }
  }

  lemma {:induction false} WriteAllConcat(g: Graph, db: string, a: seq<Write>, b: seq<Write>)
    ensures WriteAll(g, db, a + b) == WriteAll(WriteAll(g, db, a), db, b)
    decreases |a|
  {
    if a == [] {
      assert a + b == b;
    } else {
      assert (a + b)[1..] == a[1..] + b;
      WriteAllConcat(WriteNode(g, db, a[0]), db, a[1..], b);
    }
  }

  /** The rows of one URI all belong to one statement. */
  ghost predicate UriInOneGroup(ws: seq<Write>) {
    forall i, j :: 0 <= i < |ws| && 0 <= j < |ws| && ws[i].uri == ws[j].uri ==> ws[i].group == ws[j].group
  }

  lemma {:induction false} ForUriInGroups(ws: seq<Write>, groups: set<string>, uri: string)
    ensures ForUri(InGroups(ws, groups), uri) == InGroups(ForUri(ws, uri), groups)
    decreases |ws|
  {
    if ws != [] {
      ForUriInGroups(ws[1..], groups, uri);
      assert ([ws[0]] + InGroups(ws[1..], groups))[1..] == InGroups(ws[1..], groups);
      assert ([ws[0]] + ForUri(ws[1..], uri))[1..] == ForUri(ws[1..], uri);
    }
  }

  lemma {:induction false} InGroupsAllOrNothing(ws: seq<Write>, groups: set<string>, group: string)
    requires forall i :: 0 <= i < |ws| ==> ws[i].group == group
    ensures InGroups(ws, groups) == if group in groups then ws else []
    decreases |ws|
  {
    if ws != [] {
      InGroupsAllOrNothing(ws[1..], groups, group);
    }
  }

  lemma {:induction false} ForUriOnly(ws: seq<Write>, uri: string)
    ensures forall w :: w in ForUri(ws, uri) <==> w in ws && w.uri == uri
    decreases |ws|
  {
    if ws != [] {
      ForUriOnly(ws[1..], uri);
      assert ws == [ws[0]] + ws[1..];
    }
  }

  /** Statements for different groups touch different URIs, so running one more group after the
      others is the same as one pass over the rows of all of them, in their original order. */
  lemma OneMoreGroup(g: Graph, db: string, ws: seq<Write>, done: set<string>, group: string)
    requires UriInOneGroup(ws)
    requires group !in done
    ensures WriteAll(WriteAll(g, db, InGroups(ws, done)), db, InGroups(ws, {group}))
         == WriteAll(g, db, InGroups(ws, done + {group}))
  {
    var a, b, c := InGroups(ws, done), InGroups(ws, {group}), InGroups(ws, done + {group});
    var lhs, rhs := WriteAll(WriteAll(g, db, a), db, b), WriteAll(g, db, c);
    forall k ensures lhs.Node(k) == rhs.Node(k) {
      WriteAllAt(WriteAll(g, db, a), db, b, k);
      WriteAllAt(g, db, a, k);
      WriteAllAt(g, db, c, k);
      var mine := ForUri(ws, k.uri);
      ForUriInGroups(ws, done, k.uri);
      ForUriInGroups(ws, {group}, k.uri);
      ForUriInGroups(ws, done + {group}, k.uri);
      if mine != [] {
        ForUriOnly(ws, k.uri);
        forall i | 0 <= i < |mine| ensures mine[i].group == mine[0].group {
          assert mine[i] in mine && mine[0] in mine;
        }
        InGroupsAllOrNothing(mine, done, mine[0].group);
        InGroupsAllOrNothing(mine, {group}, mine[0].group);
        InGroupsAllOrNothing(mine, done + {group}, mine[0].group);
      }
    }
    var any := NodeKey("", "");
    WriteAllAt(WriteAll(g, db, a), db, b, any);
    WriteAllAt(g, db, a, any);
    WriteAllAt(g, db, c, any);
    GraphsAgree(lhs, rhs);
  }

  lemma {:induction false} InAllGroups(ws: seq<Write>, groups: set<string>)
    requires forall w :: w in ws ==> w.group in groups
    ensures InGroups(ws, groups) == ws
    decreases |ws|
  {
    if ws != [] {
      InAllGroups(ws[1..], groups);
    }
  }

  lemma {:induction false} InNoGroup(ws: seq<Write>)
    ensures InGroups(ws, {}) == []
    decreases |ws|
  {
    if ws != [] {
      InNoGroup(ws[1..]);
    }
  }

  /** One statement per group, in the given order. */
  function WriteGroups(g: Graph, db: string, ws: seq<Write>, order: seq<string>): Graph {
    if order == [] then g
    else WriteAll(WriteGroups(g, db, ws, order[..|order| - 1]), db, InGroups(ws, {order[|order| - 1]}))
  }

  lemma {:induction false} GroupsSoFar(g: Graph, db: string, ws: seq<Write>, order: seq<string>)
    requires UriInOneGroup(ws) && NoRepeats(order)
    ensures WriteGroups(g, db, ws, order) == WriteAll(g, db, InGroups(ws, Elements(order)))
    decreases |order|
  {
    if order == [] {
      InNoGroup(ws);
      assert Elements(order) == {};
    } else {
      var init, last := order[..|order| - 1], order[|order| - 1];
      GroupsSoFar(g, db, ws, init);
      OneMoreGroup(g, db, ws, Elements(init), last);
      assert order == init + [last];
      assert Elements(order) == Elements(init) + {last};
    }
  }

  /** Whatever the order of the groups, the statements leave the graph of writing the rows one at a
      time in the order in which they were listed. */
  lemma AnyGroupOrder(g: Graph, db: string, ws: seq<Write>, order: seq<string>)
    requires UriInOneGroup(ws) && NoRepeats(order) && forall w :: w in ws ==> w.group in order
    ensures WriteGroups(g, db, ws, order) == WriteAll(g, db, ws)
  {
    GroupsSoFar(g, db, ws, order);
    InAllGroups(ws, Elements(order));
  }

  // ---------------------------------------------------------------- relationship writes

  function EdgeOf(db: string, r: Relation): Edge {
    Edge(db, r.typ, r.from, r.to)
  }

  /** The three statements over relations, row by row. */
  datatype EdgeOp = CreateEdges | MergeEdges | DeleteEdges

  /** `MATCH a MATCH b CREATE (a)-[:T]->(b)`, the same with MERGE, and `MATCH (a)-[x:T]->(b) DELETE x`. */
  function TouchEdge(g: Graph, op: EdgeOp, e: Edge): Graph {
    match op
    case CreateEdges =>
      if g.Joins(e) then Graph(g.nodes, g.edges[e := g.Multiplicity(e) + 1]) else g
    case MergeEdges =>
      if g.Joins(e) && e !in g.edges then Graph(g.nodes, g.edges[e := 1]) else g
    case DeleteEdges =>
      Graph(g.nodes, g.edges - {e})
  }

  function TouchAll(g: Graph, op: EdgeOp, db: string, rels: seq<Relation>): Graph
    decreases |rels|
  {
    if rels == [] then g else TouchAll(TouchEdge(g, op, EdgeOf(db, rels[0])), op, db, rels[1..])
  }

  function Occurrences(db: string, rels: seq<Relation>, e: Edge): nat {
    if rels == [] then 0
    else (if EdgeOf(db, rels[0]) == e then 1 else 0) + Occurrences(db, rels[1..], e)
  }

  /** The multiplicity of an edge after `n` rows of one kind asked for it. */
  function Touched(op: EdgeOp, joined: bool, m: nat, n: nat): nat {
    match op
    case CreateEdges => if joined then m + n else m
    case MergeEdges => if joined && n > 0 && m == 0 then 1 else m
    case DeleteEdges => if n > 0 then 0 else m
  }

  lemma {:induction false} TouchAllAt(g: Graph, op: EdgeOp, db: string, rels: seq<Relation>, e: Edge)
    ensures TouchAll(g, op, db, rels).nodes == g.nodes
    ensures TouchAll(g, op, db, rels).Multiplicity(e)
         == Touched(op, g.Joins(e), g.Multiplicity(e), Occurrences(db, rels, e))
    decreases |rels|
  {
    if rels != [] {
      TouchAllAt(TouchEdge(g, op, EdgeOf(db, rels[0])), op, db, rels[1..], e);
    }
  }

  function OfTypes(rels: seq<Relation>, types: set<string>): seq<Relation> {
    if rels == [] then []
    else if rels[0].typ in types then [rels[0]] + OfTypes(rels[1..], types)
    else OfTypes(rels[1..], types)
  }

  lemma {:induction false} OccurrencesOfTypes(db: string, rels: seq<Relation>, types: set<string>, e: Edge)
    ensures Occurrences(db, OfTypes(rels, types), e) == if e.typ in types then Occurrences(db, rels, e) else 0
    decreases |rels|
  {
    if rels != [] {
      OccurrencesOfTypes(db, rels[1..], types, e);
      assert ([rels[0]] + OfTypes(rels[1..], types))[1..] == OfTypes(rels[1..], types);
    }
  }

  /** Running the statement of one more relation type after the others. */
  lemma OneMoreType(g: Graph, op: EdgeOp, db: string, rels: seq<Relation>, done: set<string>, typ: string)
    requires typ !in done
    ensures TouchAll(TouchAll(g, op, db, OfTypes(rels, done)), op, db, OfTypes(rels, {typ}))
         == TouchAll(g, op, db, OfTypes(rels, done + {typ}))
  {
    var a, b, c := OfTypes(rels, done), OfTypes(rels, {typ}), OfTypes(rels, done + {typ});
    var mid := TouchAll(g, op, db, a);
    forall e ensures TouchAll(mid, op, db, b).Multiplicity(e) == TouchAll(g, op, db, c).Multiplicity(e) {
      TouchAllAt(g, op, db, a, e);
      TouchAllAt(mid, op, db, b, e);
      TouchAllAt(g, op, db, c, e);
      OccurrencesOfTypes(db, rels, done, e);
      OccurrencesOfTypes(db, rels, {typ}, e);
      OccurrencesOfTypes(db, rels, done + {typ}, e);
    }
    var any := Edge("", "", "", "");
    TouchAllAt(g, op, db, a, any);
    TouchAllAt(mid, op, db, b, any);
    TouchAllAt(g, op, db, c, any);
    GraphsAgree(TouchAll(mid, op, db, b), TouchAll(g, op, db, c));
  }

  lemma {:induction false} OfAllTypes(rels: seq<Relation>, types: set<string>)
    requires forall r :: r in rels ==> r.typ in types
    ensures OfTypes(rels, types) == rels
    decreases |rels|
  {
    if rels != [] {
      OfAllTypes(rels[1..], types);
    }
  }

  lemma {:induction false} OfNoType(rels: seq<Relation>)
    ensures OfTypes(rels, {}) == []
    decreases |rels|
  {
    if rels != [] {
      OfNoType(rels[1..]);
    }
  }

  function TouchTypes(g: Graph, op: EdgeOp, db: string, rels: seq<Relation>, order: seq<string>): Graph {
    if order == [] then g
    else TouchAll(TouchTypes(g, op, db, rels, order[..|order| - 1]), op, db, OfTypes(rels, {order[|order| - 1]}))
  }

  lemma {:induction false} TypesSoFar(g: Graph, op: EdgeOp, db: string, rels: seq<Relation>, order: seq<string>)
    requires NoRepeats(order)
    ensures TouchTypes(g, op, db, rels, order) == TouchAll(g, op, db, OfTypes(rels, Elements(order)))
    decreases |order|
  {
    if order == [] {
      OfNoType(rels);
      assert Elements(order) == {};
    } else {
      var init, last := order[..|order| - 1], order[|order| - 1];
      TypesSoFar(g, op, db, rels, init);
      OneMoreType(g, op, db, rels, Elements(init), last);
      assert order == init + [last];
      assert Elements(order) == Elements(init) + {last};
    }
  }

  /** The same for creating, merging and deleting relationships by type. */
  lemma AnyTypeOrder(g: Graph, op: EdgeOp, db: string, rels: seq<Relation>, order: seq<string>)
    requires NoRepeats(order) && forall r :: r in rels ==> r.typ in order
    ensures TouchTypes(g, op, db, rels, order) == TouchAll(g, op, db, rels)
  {
    TypesSoFar(g, op, db, rels, order);
    OfAllTypes(rels, Elements(order));
  }

  // ---------------------------------------------------------------- deletions

  /** `MATCH (n {_db}) DETACH DELETE n`. */
  function Cleared(g: Graph, db: string): Graph {
    Graph(map k | k in g.nodes && k.db != db :: g.nodes[k],
          map e | e in g.edges && e.db != db :: g.edges[e])
  }

  /** `UNWIND uris MATCH (n {_db, uri}) DETACH DELETE n`. */
  function Detached(g: Graph, db: string, uris: set<string>): Graph {
    Graph(map k | k in g.nodes && !(k.db == db && k.uri in uris) :: g.nodes[k],
          map e | e in g.edges && !(e.db == db && (e.from in uris || e.to in uris)) :: g.edges[e])
  }

  /** A row sets `_db` to the database written to, and does not give the node another URI. */
  predicate KeepsIdentity(db: string, w: Write) {
    && "_db" in w.props && w.props["_db"] == Str(db)
    && ("uri" in w.props ==> w.props["uri"] == Str(w.uri))
  }

  lemma SetPlusSound(k: NodeKey, p: Props, w: Write)
    requires w.uri == k.uri && KeepsIdentity(k.db, w)
    requires Sound(k, p) || p == Ident(k.db, k.uri)
    ensures Sound(k, SetPlus(p, w.props))
  {
  }

  lemma {:induction false} WriteAllWf(g: Graph, db: string, ws: seq<Write>)
    requires g.Wf() && forall i :: 0 <= i < |ws| ==> KeepsIdentity(db, ws[i])
    ensures WriteAll(g, db, ws).Wf()
    decreases |ws|
  {
    if ws != [] {
      var k := NodeKey(db, ws[0].uri);
      var h := WriteNode(g, db, ws[0]);
      SetPlusSound(k, if k in g.nodes then g.nodes[k].props else Ident(db, k.uri), ws[0]);
      assert Sound(k, h.nodes[k].props);
      assert h.Wf() by {
        forall e | e in h.edges ensures h.Joins(e) { assert g.Joins(e); }
      }
      WriteAllWf(h, db, ws[1..]);
    }
  }

  lemma {:induction false} TouchAllWf(g: Graph, op: EdgeOp, db: string, rels: seq<Relation>)
    requires g.Wf()
    ensures TouchAll(g, op, db, rels).Wf()
    decreases |rels|
  {
    if rels != [] {
      TouchAllWf(TouchEdge(g, op, EdgeOf(db, rels[0])), op, db, rels[1..]);
    }
  }
}
