/** Snapshots as values: what it means for a logical database to hold the contents of another or of
    an archive (internal/snapshot/manager.go). */
module SnapshotModel {
  import opened Common
  import opened GraphModel
  import opened GraphStore

  /** The nodes and relationships of a YAML archive. */
  datatype Archive = Archive(nodes: seq<Node>, rels: seq<Relation>)

  // ---------------------------------------------------------------- equal contents

  /** The node of a URI, without the name of the database it is in. */
  function NodeAt(g: Graph, db: string, uri: string): Option<NodeRec> {
    match g.Node(NodeKey(db, uri))
    case Some(rec) => Some(NodeRec(rec.labels, rec.props - {"_db"}))
    case None => None
  }

  function LinkAt(g: Graph, db: string, typ: string, from: string, to: string): nat {
    g.Multiplicity(Edge(db, typ, from, to))
  }

  /** Database a of g and database b of h hold the same nodes, labels, properties and
      relationships. */
  ghost predicate Agree(g: Graph, a: string, h: Graph, b: string) {
    && (forall u :: NodeAt(g, a, u) == NodeAt(h, b, u))
    && (forall t, f, o :: LinkAt(g, a, t, f, o) == LinkAt(h, b, t, f, o))
  }

  lemma AgreeTransitive(g: Graph, a: string, h: Graph, b: string, i: Graph, c: string)
    requires Agree(g, a, h, b) && Agree(h, b, i, c)
    ensures Agree(g, a, i, c) && Agree(h, b, g, a)
  {
    forall u ensures NodeAt(g, a, u) == NodeAt(i, c, u) {
      assert NodeAt(g, a, u) == NodeAt(h, b, u);
    }
    forall t, f, o ensures LinkAt(g, a, t, f, o) == LinkAt(i, c, t, f, o) {
      assert LinkAt(g, a, t, f, o) == LinkAt(h, b, t, f, o);
    }
  }

  lemma AgreeSymmetric(g: Graph, a: string, h: Graph, b: string)
    requires Agree(g, a, h, b)
    ensures Agree(h, b, g, a)
  {
  }

  lemma OutsideAgrees(g: Graph, h: Graph, db: string, other: string)
    requires SameOutside(g, h, db) && other != db
    ensures Agree(g, other, h, other)
    ensures g.HasData(other) <==> h.HasData(other)
  {
    forall u ensures NodeAt(g, other, u) == NodeAt(h, other, u) {
      assert g.Node(NodeKey(other, u)) == h.Node(NodeKey(other, u));
    }
    if g.HasData(other) {
      var k :| k in g.nodes && k.db == other;
      assert g.Node(k) == h.Node(k);
    }
    if h.HasData(other) {
      var k :| k in h.nodes && k.db == other;
      assert g.Node(k) == h.Node(k);
    }
  }

  // ---------------------------------------------------------------- archives

  /** Archives as Create writes them: URIs differ, every node has labels, no label contains ':',
      every relationship has a type. */
  ghost predicate ArchiveOk(ar: Archive) {
    && DistinctUris(ar.nodes)
    && (forall n :: n in ar.nodes ==> PlainLabels(n.labels))
    && (forall r :: r in ar.rels ==> r.typ != "")
  }

  const EMPTY := Graph(map[], map[])

  /** The archive as a database of its own. */
  function ArchiveGraph(ar: Archive): Graph {
    Loaded(EMPTY, Create, DEFAULT_DB, ar.nodes, ar.rels)
  }

  /** The record of an archived node once loaded. */
  function LoadedRec(ar: Archive, db: string, n: Node): NodeRec {
    NodeRec(GroupLabels(ar.nodes, n.MostSpecificLabel()), SetPlus(Ident(db, n.uri), RowProps(Create, db, n)))
  }

  lemma LoadedIndex(h: Graph, db: string, ar: Archive, i: nat)
    requires DistinctUris(ar.nodes) && !h.HasData(db) && i < |ar.nodes|
    ensures Loaded(h, Create, db, ar.nodes, ar.rels).Node(NodeKey(db, ar.nodes[i].uri)) == Some(LoadedRec(ar, db, ar.nodes[i]))
  {
    var ws := Rows(Create, db, ar.nodes, ar.nodes);
    RowAt(Create, db, ar.nodes, ar.nodes);
    assert DistinctRows(ws);
    var k := NodeKey(db, ar.nodes[i].uri);
    WriteAllAt(h, db, ws, k);
    assert ws[i] in ws && ws[i].uri == k.uri;
    OneRow(ws, ws[i]);
    assert k !in h.nodes;
    assert WrittenAll(db, None, [ws[i]]) == Some(Written(db, None, ws[i]));
    TouchAllAt(WriteAll(h, db, ws), CreateEdges, db, ar.rels, Edge(db, "", "", ""));
  }

  lemma LoadedNone(h: Graph, db: string, ar: Archive, uri: string)
    requires !h.HasData(db) && forall n :: n in ar.nodes ==> n.uri != uri
    ensures NodeKey(db, uri) !in Loaded(h, Create, db, ar.nodes, ar.rels).nodes
  {
    var ws := Rows(Create, db, ar.nodes, ar.nodes);
    RowAt(Create, db, ar.nodes, ar.nodes);
    var k := NodeKey(db, uri);
    WriteAllAt(h, db, ws, k);
    forall w | w in ws ensures w.uri != uri {
      var i :| 0 <= i < |ws| && ws[i] == w;
      assert ar.nodes[i] in ar.nodes;
    }
    NoRow(ws, uri);
    assert k !in h.nodes;
    TouchAllAt(WriteAll(h, db, ws), CreateEdges, db, ar.rels, Edge(db, "", "", ""));
  }

  ghost predicate HasUri(ar: Archive, uri: string) {
    exists n :: n in ar.nodes && n.uri == uri
  }

  lemma LoadedKeys(h: Graph, db: string, ar: Archive, uri: string)
    requires DistinctUris(ar.nodes) && !h.HasData(db)
    ensures NodeKey(db, uri) in Loaded(h, Create, db, ar.nodes, ar.rels).nodes <==> HasUri(ar, uri)
  {
    if HasUri(ar, uri) {
      var n :| n in ar.nodes && n.uri == uri;
      var i :| 0 <= i < |ar.nodes| && ar.nodes[i] == n;
      LoadedIndex(h, db, ar, i);
    } else {
      LoadedNone(h, db, ar, uri);
    }
  }

  lemma LoadedLink(h: Graph, db: string, ar: Archive, e: Edge)
    requires h.Wf() && DistinctUris(ar.nodes) && !h.HasData(db) && e.db == db
    ensures Loaded(h, Create, db, ar.nodes, ar.rels).Multiplicity(e)
         == if HasUri(ar, e.from) && HasUri(ar, e.to) then Occurrences(db, ar.rels, e) else 0
  {
    var mid := WriteAll(h, db, Rows(Create, db, ar.nodes, ar.nodes));
    WriteAllAt(h, db, Rows(Create, db, ar.nodes, ar.nodes), e.Source());
    NoData(h, db, e);
    TouchAllAt(mid, CreateEdges, db, ar.rels, e);
    LoadedKeys(h, db, ar, e.from);
    LoadedKeys(h, db, ar, e.to);
  }

  lemma {:induction false} OccursAnywhere(a: string, b: string, rels: seq<Relation>, t: string, f: string, o: string)
    ensures Occurrences(a, rels, Edge(a, t, f, o)) == Occurrences(b, rels, Edge(b, t, f, o))
    decreases |rels|
  {
    if rels != [] {
      OccursAnywhere(a, b, rels[1..], t, f, o);
    }
  }

  /** Loading an archive into an empty database gives its contents, whichever database it is and
      whatever the others hold. */
  lemma LoadedAgrees(h: Graph, db: string, ar: Archive)
    requires h.Wf() && DistinctUris(ar.nodes) && !h.HasData(db)
    ensures Agree(Loaded(h, Create, db, ar.nodes, ar.rels), db, ArchiveGraph(ar), DEFAULT_DB)
  {
    var g := Loaded(h, Create, db, ar.nodes, ar.rels);
    var own := ArchiveGraph(ar);
    forall u ensures NodeAt(g, db, u) == NodeAt(own, DEFAULT_DB, u) {
      if HasUri(ar, u) {
        var n :| n in ar.nodes && n.uri == u;
        var i :| 0 <= i < |ar.nodes| && ar.nodes[i] == n;
        LoadedIndex(h, db, ar, i);
        LoadedIndex(EMPTY, DEFAULT_DB, ar, i);
        SameRecord(ar, db, DEFAULT_DB, n);
      } else {
        LoadedNone(h, db, ar, u);
        LoadedNone(EMPTY, DEFAULT_DB, ar, u);
      }
    }
    forall t, f, o ensures LinkAt(g, db, t, f, o) == LinkAt(own, DEFAULT_DB, t, f, o) {
      LoadedLink(h, db, ar, Edge(db, t, f, o));
      LoadedLink(EMPTY, DEFAULT_DB, ar, Edge(DEFAULT_DB, t, f, o));
      OccursAnywhere(db, DEFAULT_DB, ar.rels, t, f, o);
    }
  }

  lemma SameRecord(ar: Archive, a: string, b: string, n: Node)
    ensures LoadedRec(ar, a, n).labels == LoadedRec(ar, b, n).labels
    ensures LoadedRec(ar, a, n).props - {"_db"} == LoadedRec(ar, b, n).props - {"_db"}
  {
    var p, q := LoadedRec(ar, a, n).props, LoadedRec(ar, b, n).props;
    forall x ensures x in p - {"_db"} <==> x in q - {"_db"}
      ensures x in p - {"_db"} ==> p[x] == q[x]
    {
    }
    assert p - {"_db"} == q - {"_db"};
  }

  /** An archive loaded into an empty database is there if it has nodes. */
  lemma LoadedHasData(h: Graph, db: string, ar: Archive)
    requires DistinctUris(ar.nodes) && !h.HasData(db)
    ensures Loaded(h, Create, db, ar.nodes, ar.rels).HasData(db) <==> ar.nodes != []
  {
    var g := Loaded(h, Create, db, ar.nodes, ar.rels);
    if ar.nodes != [] {
      LoadedKeys(h, db, ar, ar.nodes[0].uri);
      assert ar.nodes[0] in ar.nodes;
      assert NodeKey(db, ar.nodes[0].uri) in g.nodes;
    }
    if k :| k in g.nodes && k.db == db {
      LoadedKeys(h, db, ar, k.uri);
      assert k == NodeKey(db, k.uri);
    }
  }

  // ---------------------------------------------------------------- parts of an archive

  function LabelledIn(nodes: seq<Node>, tags: set<string>): seq<Node> {
    if nodes == [] then []
    else if nodes[0].MostSpecificLabel() in tags then [nodes[0]] + LabelledIn(nodes[1..], tags)
    else LabelledIn(nodes[1..], tags)
  }

  /** The nodes of some label groups and the relationships of some types. */
  function Portion(ar: Archive, tags: set<string>, types: set<string>): Archive {
    Archive(LabelledIn(ar.nodes, tags), OfTypes(ar.rels, types))
  }

  lemma {:induction false} LabelledInMembers(nodes: seq<Node>, tags: set<string>)
    ensures forall n :: n in LabelledIn(nodes, tags) <==> n in nodes && n.MostSpecificLabel() in tags
    ensures DistinctUris(nodes) ==> DistinctUris(LabelledIn(nodes, tags))
  {
    if nodes != [] {
      LabelledInMembers(nodes[1..], tags);
      assert nodes == [nodes[0]] + nodes[1..];
      var rest := LabelledIn(nodes[1..], tags);
      if DistinctUris(nodes) {
        forall j | 0 <= j < |rest| ensures rest[j].uri != nodes[0].uri {
          assert rest[j] in rest;
          assert rest[j] in nodes[1..];
        }
      }
    }
  }

  lemma {:induction false} LabelGroupKept(nodes: seq<Node>, tags: set<string>, tag: string)
    requires tag in tags
    ensures NodesLabelled(LabelledIn(nodes, tags), tag) == NodesLabelled(nodes, tag)
  {
    if nodes != [] {
      LabelGroupKept(nodes[1..], tags, tag);
      assert ([nodes[0]] + LabelledIn(nodes[1..], tags))[1..] == LabelledIn(nodes[1..], tags);
    }
  }

  lemma {:induction false} RowsOfPortion(mode: WriteMode, db: string, all: seq<Node>, nodes: seq<Node>, tags: set<string>)
    ensures InGroups(Rows(mode, db, all, nodes), tags) == Rows(mode, db, LabelledIn(all, tags), LabelledIn(nodes, tags))
    decreases |nodes|
  {
    if nodes != [] {
      RowsOfPortion(mode, db, all, nodes[1..], tags);
      var row := Row(mode, db, GroupLabels(all, nodes[0].MostSpecificLabel()), nodes[0]);
      assert ([row] + Rows(mode, db, all, nodes[1..]))[1..] == Rows(mode, db, all, nodes[1..]);
      if nodes[0].MostSpecificLabel() in tags {
        LabelGroupKept(all, tags, nodes[0].MostSpecificLabel());
        assert ([nodes[0]] + LabelledIn(nodes[1..], tags))[1..] == LabelledIn(nodes[1..], tags);
      }
    }
  }

  /** Some statements of the load of an archive are the load of a part of it. */
  lemma PortionIsLoad(h: Graph, db: string, ar: Archive, tags: set<string>, types: set<string>)
    ensures LoadedParts(h, Create, db, ar.nodes, ar.rels, tags, types)
         == Loaded(h, Create, db, Portion(ar, tags, types).nodes, Portion(ar, tags, types).rels)
  {
    RowsOfPortion(Create, db, ar.nodes, ar.nodes, tags);
  }

  lemma PortionOk(ar: Archive, tags: set<string>, types: set<string>)
    requires ArchiveOk(ar)
    ensures ArchiveOk(Portion(ar, tags, types))
  {
    LabelledInMembers(ar.nodes, tags);
    OfTypesMembers(ar.rels, types);
  }

  /** The statements that are missing would have done nothing: every node is there, and every
      relationship but those without two ends. */
  ghost predicate WholePortion(ar: Archive, tags: set<string>, types: set<string>) {
    && (forall n :: n in ar.nodes ==> n.MostSpecificLabel() in tags)
    && (forall r :: r in ar.rels ==> r.typ in types || !HasUri(ar, r.from) || !HasUri(ar, r.to))
  }

  lemma {:induction false} AllLabelledIn(nodes: seq<Node>, tags: set<string>)
    requires forall n :: n in nodes ==> n.MostSpecificLabel() in tags
    ensures LabelledIn(nodes, tags) == nodes
  {
    if nodes != [] {
      assert nodes[0] in nodes && forall n :: n in nodes[1..] ==> n in nodes;
      AllLabelledIn(nodes[1..], tags);
    }
  }

  /** A part of an archive has the contents of the archive if and only if nothing is missing. */
  lemma PortionExactly(ar: Archive, tags: set<string>, types: set<string>)
    requires ArchiveOk(ar)
    ensures Agree(ArchiveGraph(Portion(ar, tags, types)), DEFAULT_DB, ArchiveGraph(ar), DEFAULT_DB) <==> WholePortion(ar, tags, types)
  {
    PortionOk(ar, tags, types);
    if WholePortion(ar, tags, types) {
      WholePortionAgrees(ar, tags, types);
    }
    if Agree(ArchiveGraph(Portion(ar, tags, types)), DEFAULT_DB, ArchiveGraph(ar), DEFAULT_DB) {
      AgreeingPortionWhole(ar, tags, types);
    }
  }

  lemma WholePortionAgrees(ar: Archive, tags: set<string>, types: set<string>)
    requires ArchiveOk(ar) && WholePortion(ar, tags, types)
    ensures Agree(ArchiveGraph(Portion(ar, tags, types)), DEFAULT_DB, ArchiveGraph(ar), DEFAULT_DB)
  {
    var part := Portion(ar, tags, types);
    AllLabelledIn(ar.nodes, tags);
    forall u ensures NodeAt(ArchiveGraph(part), DEFAULT_DB, u) == NodeAt(ArchiveGraph(ar), DEFAULT_DB, u) {
      TouchAllAt(WriteAll(EMPTY, DEFAULT_DB, Rows(Create, DEFAULT_DB, ar.nodes, ar.nodes)), CreateEdges, DEFAULT_DB, ar.rels, Edge("", "", "", ""));
      TouchAllAt(WriteAll(EMPTY, DEFAULT_DB, Rows(Create, DEFAULT_DB, ar.nodes, ar.nodes)), CreateEdges, DEFAULT_DB, part.rels, Edge("", "", "", ""));
    }
    forall t, f, o ensures LinkAt(ArchiveGraph(part), DEFAULT_DB, t, f, o) == LinkAt(ArchiveGraph(ar), DEFAULT_DB, t, f, o) {
      var e := Edge(DEFAULT_DB, t, f, o);
      LoadedLink(EMPTY, DEFAULT_DB, ar, e);
      LoadedLink(EMPTY, DEFAULT_DB, part, e);
      OccurrencesOfTypes(DEFAULT_DB, ar.rels, types, e);
      if HasUri(ar, f) && HasUri(ar, o) && t !in types {
        NoneOfType(ar, types, e);
      }
    }
  }

  /** The archive without its last relationships. */
  function CutShort(ar: Archive, n: nat): Archive
    requires n <= |ar.rels|
  {
    Archive(ar.nodes, ar.rels[..n])
  }

  /** It has the contents of the whole if and only if the missing ones lack an end. */
  lemma CutExactly(ar: Archive, n: nat)
    requires ArchiveOk(ar) && n <= |ar.rels|
    ensures ArchiveOk(CutShort(ar, n))
    ensures Agree(ArchiveGraph(CutShort(ar, n)), DEFAULT_DB, ArchiveGraph(ar), DEFAULT_DB) <==>
      forall i :: n <= i < |ar.rels| ==> !HasUri(ar, ar.rels[i].from) || !HasUri(ar, ar.rels[i].to)
  {
    var short := CutShort(ar, n);
    var rest := ar.rels[n..];
    assert ar.rels == short.rels + rest;
    forall t, f, o ensures CutLink(ar, n, t, f, o) {
      CutAtLink(ar, n, t, f, o);
    }
    if forall i :: n <= i < |ar.rels| ==> !HasUri(ar, ar.rels[i].from) || !HasUri(ar, ar.rels[i].to) {
      CutAgrees(ar, n);
    }
    if i :| n <= i < |ar.rels| && HasUri(ar, ar.rels[i].from) && HasUri(ar, ar.rels[i].to) {
      var r := ar.rels[i];
      assert CutLink(ar, n, r.typ, r.from, r.to);
      assert rest[i - n] == r;
      OccursOnce(DEFAULT_DB, rest, i - n);
    }
  }

  lemma CutAgrees(ar: Archive, n: nat)
    requires ArchiveOk(ar) && n <= |ar.rels|
    requires forall i :: n <= i < |ar.rels| ==> !HasUri(ar, ar.rels[i].from) || !HasUri(ar, ar.rels[i].to)
    ensures Agree(ArchiveGraph(CutShort(ar, n)), DEFAULT_DB, ArchiveGraph(ar), DEFAULT_DB)
  {
    var short := CutShort(ar, n);
    forall u ensures NodeAt(ArchiveGraph(short), DEFAULT_DB, u) == NodeAt(ArchiveGraph(ar), DEFAULT_DB, u) {
      TouchAllAt(WriteAll(EMPTY, DEFAULT_DB, Rows(Create, DEFAULT_DB, ar.nodes, ar.nodes)), CreateEdges, DEFAULT_DB, ar.rels, Edge("", "", "", ""));
      TouchAllAt(WriteAll(EMPTY, DEFAULT_DB, Rows(Create, DEFAULT_DB, ar.nodes, ar.nodes)), CreateEdges, DEFAULT_DB,
                 short.rels, Edge("", "", "", ""));
    }
    forall t, f, o ensures LinkAt(ArchiveGraph(short), DEFAULT_DB, t, f, o) == LinkAt(ArchiveGraph(ar), DEFAULT_DB, t, f, o) {
      CutAtLink(ar, n, t, f, o);
      if HasUri(ar, f) && HasUri(ar, o) {
        NoneLinked(DEFAULT_DB, ar.rels[n..], Edge(DEFAULT_DB, t, f, o), ar);
      }
    }
  }

  lemma {:induction false} NoneLinked(db: string, rels: seq<Relation>, e: Edge, ar: Archive)
    requires HasUri(ar, e.from) && HasUri(ar, e.to)
    requires forall i :: 0 <= i < |rels| ==> !HasUri(ar, rels[i].from) || !HasUri(ar, rels[i].to)
    ensures Occurrences(db, rels, e) == 0
  {
    if rels != [] {
      NoneLinked(db, rels[1..], e, ar);
    }
  }

  lemma {:induction false} OccursOnce(db: string, rels: seq<Relation>, i: nat)
    requires i < |rels|
    ensures Occurrences(db, rels, EdgeOf(db, rels[i])) > 0
  {
    if i > 0 { OccursOnce(db, rels[1..], i - 1); }
  }

  /** The missing relationships are missing. */
  ghost predicate CutLink(ar: Archive, n: nat, t: string, f: string, o: string)
    requires n <= |ar.rels|
  {
    LinkAt(ArchiveGraph(ar), DEFAULT_DB, t, f, o) == LinkAt(ArchiveGraph(CutShort(ar, n)), DEFAULT_DB, t, f, o)
      + if HasUri(ar, f) && HasUri(ar, o) then Occurrences(DEFAULT_DB, ar.rels[n..], Edge(DEFAULT_DB, t, f, o)) else 0
  }

  lemma CutAtLink(ar: Archive, n: nat, t: string, f: string, o: string)
    requires ArchiveOk(ar) && n <= |ar.rels|
    ensures CutLink(ar, n, t, f, o)
  {
    var e := Edge(DEFAULT_DB, t, f, o);
    LoadedLink(EMPTY, DEFAULT_DB, ar, e);
    LoadedLink(EMPTY, DEFAULT_DB, CutShort(ar, n), e);
    assert ar.rels == ar.rels[..n] + ar.rels[n..];
    OccurConcat(DEFAULT_DB, ar.rels[..n], ar.rels[n..], e);
  }

  lemma {:induction false} OccurConcat(db: string, a: seq<Relation>, b: seq<Relation>, e: Edge)
    ensures Occurrences(db, a + b, e) == Occurrences(db, a, e) + Occurrences(db, b, e)
  {
    if a == [] {
      assert a + b == b;
    } else {
      assert (a + b)[1..] == a[1..] + b;
      OccurConcat(db, a[1..], b, e);
    }
  }

  lemma NoneOfType(ar: Archive, types: set<string>, e: Edge)
    requires e.db == DEFAULT_DB && HasUri(ar, e.from) && HasUri(ar, e.to) && e.typ !in types
    requires forall r :: r in ar.rels ==> r.typ in types || !HasUri(ar, r.from) || !HasUri(ar, r.to)
    ensures Occurrences(DEFAULT_DB, ar.rels, e) == 0
  {
    NoneNamed(DEFAULT_DB, ar.rels, e);
  }

  lemma {:induction false} NoneNamed(db: string, rels: seq<Relation>, e: Edge)
    requires forall r :: r in rels ==> EdgeOf(db, r) != e
    ensures Occurrences(db, rels, e) == 0
  {
    if rels != [] {
      assert rels[0] in rels && forall r :: r in rels[1..] ==> r in rels;
      NoneNamed(db, rels[1..], e);
    }
  }

  lemma {:induction false} NamedOccurs(db: string, rels: seq<Relation>, r: Relation)
    requires r in rels
    ensures Occurrences(db, rels, EdgeOf(db, r)) > 0
  {
    if rels[0] != r {
      NamedOccurs(db, rels[1..], r);
    }
  }

  lemma AgreeingPortionWhole(ar: Archive, tags: set<string>, types: set<string>)
    requires ArchiveOk(ar) && ArchiveOk(Portion(ar, tags, types))
    requires Agree(ArchiveGraph(Portion(ar, tags, types)), DEFAULT_DB, ArchiveGraph(ar), DEFAULT_DB)
    ensures WholePortion(ar, tags, types)
  {
    var part := Portion(ar, tags, types);
    LabelledInMembers(ar.nodes, tags);
    forall n | n in ar.nodes ensures n.MostSpecificLabel() in tags {
      assert NodeAt(ArchiveGraph(part), DEFAULT_DB, n.uri) == NodeAt(ArchiveGraph(ar), DEFAULT_DB, n.uri);
      LoadedKeys(EMPTY, DEFAULT_DB, ar, n.uri);
      LoadedKeys(EMPTY, DEFAULT_DB, part, n.uri);
      SameUriSameNode(ar, part, n);
    }
    AllLabelledIn(ar.nodes, tags);
    forall r | r in ar.rels && HasUri(ar, r.from) && HasUri(ar, r.to) ensures r.typ in types {
      var e := EdgeOf(DEFAULT_DB, r);
      assert LinkAt(ArchiveGraph(part), DEFAULT_DB, r.typ, r.from, r.to) == LinkAt(ArchiveGraph(ar), DEFAULT_DB, r.typ, r.from, r.to);
      LoadedLink(EMPTY, DEFAULT_DB, ar, e);
      LoadedLink(EMPTY, DEFAULT_DB, part, e);
      NamedOccurs(DEFAULT_DB, ar.rels, r);
      OccurrencesOfTypes(DEFAULT_DB, ar.rels, types, e);
    }
  }

  lemma SameUriSameNode(ar: Archive, part: Archive, n: Node)
    requires DistinctUris(ar.nodes) && n in ar.nodes && HasUri(part, n.uri) && forall x :: x in part.nodes ==> x in ar.nodes
    ensures n in part.nodes
  {
    var x :| x in part.nodes && x.uri == n.uri;
    var i :| 0 <= i < |ar.nodes| && ar.nodes[i] == n;
    var j :| 0 <= j < |ar.nodes| && ar.nodes[j] == x;
    assert i == j;
  }

  // ---------------------------------------------------------------- exports

  predicate Visible(rec: NodeRec, uri: string) {
    rec.labels != [] && uri != ""
  }

  predicate Complete(e: Edge) {
    e.typ != "" && e.from != "" && e.to != ""
  }

  /** The nodes Create exports: those with labels and a URI, each once, as they are stored. */
  ghost predicate CapturesNodes(g: Graph, db: string, nodes: seq<Node>) {
    && DistinctUris(nodes)
    && (forall n :: n in nodes ==> n.labels != [] && n.uri != "" && g.Node(NodeKey(db, n.uri)) == Some(NodeRec(n.labels, n.props)))
    && (forall k :: k in g.nodes && k.db == db && Visible(g.nodes[k], k.uri) ==>
          Node(g.nodes[k].labels, k.uri, g.nodes[k].props) in nodes)
  }

  ghost predicate CapturesRels(g: Graph, db: string, rels: seq<Relation>) {
    forall e: Edge :: e.db == db ==> Occurrences(db, rels, e) == if Complete(e) then g.Multiplicity(e) else 0
  }

  /** A database whose contents an export can carry: every node has labels and a URI, every
      relationship a type, and the most specific label of a node determines the others. */
  ghost predicate Exportable(g: Graph, db: string) {
    && (forall k :: k in g.nodes && k.db == db ==> Visible(g.nodes[k], k.uri))
    && (forall e :: e in g.edges && e.db == db ==> Complete(e))
    && (forall j, k :: j in g.nodes && k in g.nodes && j.db == db && k.db == db && LastLabel(g, j) == LastLabel(g, k) ==>
          g.nodes[j].labels == g.nodes[k].labels)
  }

  function LastLabel(g: Graph, k: NodeKey): string
    requires k in g.nodes
  {
    var labels := g.nodes[k].labels;
    if labels == [] then "" else labels[|labels| - 1]
  }

  lemma CapturedLabels(g: Graph, db: string, ar: Archive, n: Node)
    requires Exportable(g, db) && CapturesNodes(g, db, ar.nodes) && n in ar.nodes
    ensures GroupLabels(ar.nodes, n.MostSpecificLabel()) == n.labels
  {
    var l := n.MostSpecificLabel();
    NodesLabelledMembers(ar.nodes, l);
    var group := NodesLabelled(ar.nodes, l);
    assert n in group;
    var head := group[0];
    assert head in group;
    assert g.Node(NodeKey(db, head.uri)) == Some(NodeRec(head.labels, head.props));
    assert g.Node(NodeKey(db, n.uri)) == Some(NodeRec(n.labels, n.props));
    assert LastLabel(g, NodeKey(db, head.uri)) == LastLabel(g, NodeKey(db, n.uri));
  }

  lemma CapturedRecord(g: Graph, db: string, ar: Archive, n: Node)
    requires g.Wf() && Exportable(g, db) && CapturesNodes(g, db, ar.nodes) && n in ar.nodes
    ensures LoadedRec(ar, db, n) == g.nodes[NodeKey(db, n.uri)]
  {
    CapturedLabels(g, db, ar, n);
    var k := NodeKey(db, n.uri);
    assert g.Node(k) == Some(NodeRec(n.labels, n.props));
    assert Sound(k, n.props);
    SoundAsLoaded(k, n);
  }

  lemma SoundAsLoaded(k: NodeKey, n: Node)
    requires Sound(k, n.props) && n.uri == k.uri
    ensures SetPlus(Ident(k.db, n.uri), RowProps(Create, k.db, n)) == n.props
  {
    assert RowProps(Create, k.db, n) == n.props;
  }

  /** What was exported from the default database is what loading the archive gives back. */
  lemma ExportRoundTrip(g: Graph, ar: Archive)
    requires g.Wf() && Exportable(g, DEFAULT_DB)
    requires CapturesNodes(g, DEFAULT_DB, ar.nodes) && CapturesRels(g, DEFAULT_DB, ar.rels)
    ensures Agree(ArchiveGraph(ar), DEFAULT_DB, g, DEFAULT_DB)
  {
    var own := ArchiveGraph(ar);
    forall u ensures NodeAt(own, DEFAULT_DB, u) == NodeAt(g, DEFAULT_DB, u) {
      CapturedNodeAt(g, ar, u);
    }
    forall t, f, o ensures LinkAt(own, DEFAULT_DB, t, f, o) == LinkAt(g, DEFAULT_DB, t, f, o) {
      CapturedLinkAt(g, ar, Edge(DEFAULT_DB, t, f, o));
    }
  }

  lemma CapturedNodeAt(g: Graph, ar: Archive, u: string)
    requires g.Wf() && Exportable(g, DEFAULT_DB) && CapturesNodes(g, DEFAULT_DB, ar.nodes)
    ensures NodeAt(ArchiveGraph(ar), DEFAULT_DB, u) == NodeAt(g, DEFAULT_DB, u)
    ensures HasUri(ar, u) <==> NodeKey(DEFAULT_DB, u) in g.nodes
  {
    var k := NodeKey(DEFAULT_DB, u);
    if k in g.nodes {
      var n := Node(g.nodes[k].labels, k.uri, g.nodes[k].props);
      assert n in ar.nodes;
    }
    if HasUri(ar, u) {
      var n :| n in ar.nodes && n.uri == u;
      var i :| 0 <= i < |ar.nodes| && ar.nodes[i] == n;
      LoadedIndex(EMPTY, DEFAULT_DB, ar, i);
      CapturedRecord(g, DEFAULT_DB, ar, n);
      assert g.Node(k) == Some(NodeRec(n.labels, n.props));
    } else {
      LoadedNone(EMPTY, DEFAULT_DB, ar, u);
    }
  }

  lemma CapturedLinkAt(g: Graph, ar: Archive, e: Edge)
    requires g.Wf() && Exportable(g, DEFAULT_DB) && e.db == DEFAULT_DB
    requires CapturesNodes(g, DEFAULT_DB, ar.nodes) && CapturesRels(g, DEFAULT_DB, ar.rels)
    ensures ArchiveGraph(ar).Multiplicity(e) == g.Multiplicity(e)
  {
    LoadedLink(EMPTY, DEFAULT_DB, ar, e);
    CapturedNodeAt(g, ar, e.from);
    CapturedNodeAt(g, ar, e.to);
    if e in g.edges {
      assert g.Joins(e) && Complete(e);
    }
  }

  /** A clone into an empty database holds what the original holds, if every node of it has labels
      and every relationship a type. */
  lemma CopyAgrees(g: Graph, from: string, to: string)
    requires g.Wf() && from != to && !g.HasData(to)
    requires forall k :: k in g.nodes && k.db == from ==> g.nodes[k].labels != []
    requires forall e :: e in g.edges && e.db == from ==> e.typ != ""
    ensures Agree(Copied(g, from, to), to, g, from)
  {
    var h := Copied(g, from, to);
    forall u ensures NodeAt(h, to, u) == NodeAt(g, from, u) {
      CopyNodeAt(g, from, to, u);
    }
    forall t, f, o ensures LinkAt(h, to, t, f, o) == LinkAt(g, from, t, f, o) {
      CopyLinkAt(g, from, to, t, f, o);
    }
  }

  lemma CopyNodeAt(g: Graph, from: string, to: string, u: string)
    requires !g.HasData(to)
    requires forall k :: k in g.nodes && k.db == from ==> g.nodes[k].labels != []
    ensures NodeAt(Copied(g, from, to), to, u) == NodeAt(g, from, u)
  {
    var k := NodeKey(to, u);
    CopiedNodeAt(g, from, to, k);
    assert k !in g.nodes;
    if Labelled(g, NodeKey(from, u)) {
      var p := g.nodes[NodeKey(from, u)].props;
      assert p["_db" := Str(to)] - {"_db"} == p - {"_db"};
    }
  }

  lemma CopyLinkAt(g: Graph, from: string, to: string, t: string, f: string, o: string)
    requires g.Wf() && !g.HasData(to)
    requires forall k :: k in g.nodes && k.db == from ==> g.nodes[k].labels != []
    requires forall e :: e in g.edges && e.db == from ==> e.typ != ""
    ensures LinkAt(Copied(g, from, to), to, t, f, o) == LinkAt(g, from, t, f, o)
  {
    var e, src := Edge(to, t, f, o), Edge(from, t, f, o);
    CopiedEdgeAt(g, from, to, e);
    NoData(g, to, e);
    assert Back(from, e) == src;
    if src in g.edges {
      assert g.Joins(src);
      assert Labelled(g, NodeKey(from, f)) && Labelled(g, NodeKey(from, o));
    }
  }
}
