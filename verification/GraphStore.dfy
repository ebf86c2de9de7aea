/** The graph database client (internal/graph/neo4j.go): one physical property graph shared by
    all logical databases. Every statement may fail; statements are issued group by group, in
    whatever order the grouping map is iterated. */
module GraphStore {
  import opened Common
  import opened GraphModel

  // ---------------------------------------------------------------- specification of the writes

  datatype WriteMode = Create | Merge

  function NodesLabelled(nodes: seq<Node>, tag: string): seq<Node> {
    if nodes == [] then []
    else if nodes[0].MostSpecificLabel() == tag then [nodes[0]] + NodesLabelled(nodes[1..], tag)
    else NodesLabelled(nodes[1..], tag)
  }

  /** A statement takes its labels from the first node of the group. */
  function GroupLabels(nodes: seq<Node>, tag: string): seq<string> {
    var group := NodesLabelled(nodes, tag);
    if group == [] then [] else group[0].labels
  }

  /** BulkCreate sends `_db` and `uri` among the properties, Upsert sends only `_db`. */
  function RowProps(mode: WriteMode, db: string, n: Node): Props {
    match mode
    case Create => n.props["_db" := Str(db)]["uri" := Str(n.uri)]
    case Merge => n.props["_db" := Str(db)]
  }

  function Row(mode: WriteMode, db: string, labels: seq<string>, n: Node): Write {
    Write(n.MostSpecificLabel(), n.uri, labels, RowProps(mode, db, n))
  }

  /** The rows of all node statements, in the order of the list of nodes. */
  function Rows(mode: WriteMode, db: string, all: seq<Node>, nodes: seq<Node>): seq<Write>
    decreases |nodes|
  {
    if nodes == [] then []
    else [Row(mode, db, GroupLabels(all, nodes[0].MostSpecificLabel()), nodes[0])]
         + Rows(mode, db, all, nodes[1..])
  }

  function GroupRows(mode: WriteMode, db: string, labels: seq<string>, group: seq<Node>): seq<Write>
    decreases |group|
  {
    if group == [] then [] else [Row(mode, db, labels, group[0])] + GroupRows(mode, db, labels, group[1..])
  }

  /** One row at a time, in list order: what BulkCreate and Upsert come to. */
  function Loaded(g: Graph, mode: WriteMode, db: string, nodes: seq<Node>, rels: seq<Relation>): Graph {
    TouchAll(WriteAll(g, db, Rows(mode, db, nodes, nodes)), EdgesOp(mode), db, rels)
  }

  function EdgesOp(mode: WriteMode): EdgeOp { if mode.Create? then CreateEdges else MergeEdges }

  /** The statements of the label groups `tags` and of the relation types `types` only. */
  function LoadedParts(g: Graph, mode: WriteMode, db: string, nodes: seq<Node>, rels: seq<Relation>,
                       tags: set<string>, types: set<string>): Graph {
    TouchAll(WriteAll(g, db, InGroups(Rows(mode, db, nodes, nodes), tags)), EdgesOp(mode), db, OfTypes(rels, types))
  }

  /** A load that has stopped after some of its statements: relationships come after all nodes. */
  ghost predicate StoppedAt(g: Graph, mode: WriteMode, db: string, nodes: seq<Node>, rels: seq<Relation>,
                            tags: set<string>, types: set<string>, h: Graph) {
    && h == LoadedParts(g, mode, db, nodes, rels, tags, types)
    && (types != {} ==> forall n :: n in nodes ==> n.MostSpecificLabel() in tags)
  }

  ghost predicate Stopped(g: Graph, mode: WriteMode, db: string, nodes: seq<Node>, rels: seq<Relation>, h: Graph) {
    exists tags, types :: StoppedAt(g, mode, db, nodes, rels, tags, types, h)
  }

  ghost predicate DistinctUris(nodes: seq<Node>) {
    forall i, j :: 0 <= i < j < |nodes| ==> nodes[i].uri != nodes[j].uri
  }

  /** CREATE does not look for an existing node: the URIs must be new, and all different. */
  ghost predicate Fresh(g: Graph, db: string, nodes: seq<Node>) {
    && DistinctUris(nodes)
    && (forall n :: n in nodes ==> NodeKey(db, n.uri) !in g.nodes)
  }

  /** MERGE looks a node up by its most specific tag and its URI. With these it finds the node
      of that URI whenever there is one, and no row changes the URI of a node. */
  ghost predicate Mergeable(g: Graph, db: string, nodes: seq<Node>) {
    && (forall n :: n in nodes ==> n.labels != [])
    && (forall n, m :: n in nodes && m in nodes && n.uri == m.uri ==> n.MostSpecificLabel() == m.MostSpecificLabel())
    && (forall n :: n in nodes && NodeKey(db, n.uri) in g.nodes ==>
          n.MostSpecificLabel() in g.nodes[NodeKey(db, n.uri)].labels)
    && (forall n :: n in nodes && "uri" in n.props ==> n.props["uri"] == Str(n.uri))
  }

  ghost predicate Writable(g: Graph, mode: WriteMode, db: string, nodes: seq<Node>) {
    if mode.Create? then Fresh(g, db, nodes) else Mergeable(g, db, nodes)
  }

  // ---------------------------------------------------------------- what an upsert leaves, key by key

  /** Element i is the last of the URI that has key k. */
  predicate LastWith(nodes: seq<Node>, uri: string, k: string, i: int) {
    && 0 <= i < |nodes| && nodes[i].uri == uri && k in nodes[i].props
    && forall j :: i < j < |nodes| && nodes[j].uri == uri ==> k !in nodes[j].props
  }

  /** Key k has the value of the last element of the URI that has it, null meaning no value; when none
      has it, what the node had before. */
  ghost predicate KeyMerged(before: Option<NodeRec>, nodes: seq<Node>, uri: string, k: string, p: Props) {
    && (forall i :: LastWith(nodes, uri, k, i) ==> ValueAt(p, k) == Shown(nodes[i].props[k]))
    && ((forall n :: n in nodes && n.uri == uri ==> k !in n.props) ==>
          ValueAt(p, k) == if before.Some? then ValueAt(before.value.props, k) else None)
  }

  /** The labels of a new node are those of the first element with the same most specific label. */
  ghost predicate LabelsTaken(nodes: seq<Node>, uri: string, labels: seq<string>) {
    exists i, j :: 0 <= i < |nodes| && nodes[i].uri == uri && First(nodes, nodes[i].MostSpecificLabel(), j) && labels == nodes[j].labels
  }

  predicate First(nodes: seq<Node>, tag: string, j: int) {
    0 <= j < |nodes| && nodes[j].MostSpecificLabel() == tag && forall x :: 0 <= x < j ==> nodes[x].MostSpecificLabel() != tag
  }

  ghost predicate NodeMerged(db: string, before: Option<NodeRec>, nodes: seq<Node>, uri: string, after: Option<NodeRec>) {
    if forall n :: n in nodes ==> n.uri != uri then after == before
    else
      && after.Some?
      && (if before.Some? then after.value.labels == before.value.labels else LabelsTaken(nodes, uri, after.value.labels))
      && ValueAt(after.value.props, "_db") == Some(Str(db)) && ValueAt(after.value.props, "uri") == Some(Str(uri))
      && forall k :: k != "_db" && k != "uri" ==> KeyMerged(before, nodes, uri, k, after.value.props)
  }

  /** A relationship is there once if the list names it and both its ends are there; what was there stays. */
  ghost predicate LinkMerged(g: Graph, rels: seq<Relation>, h: Graph, e: Edge) {
    h.Multiplicity(e) ==
      if g.Multiplicity(e) == 0 && h.Joins(e) && exists r :: r in rels && r.typ == e.typ && r.from == e.from && r.to == e.to then 1
      else g.Multiplicity(e)
  }

  /** What an upsert of the elements makes of database db. */
  ghost predicate Merged(g: Graph, db: string, nodes: seq<Node>, rels: seq<Relation>, h: Graph) {
    && (forall uri :: NodeMerged(db, g.Node(NodeKey(db, uri)), nodes, uri, h.Node(NodeKey(db, uri))))
    && (forall e: Edge :: e.db == db ==> LinkMerged(g, rels, h, e))
    && SameOutside(g, h, db)
  }

  lemma SetPlusAt(p: Props, q: Props, k: string)
    ensures ValueAt(SetPlus(p, q), k) == if k in q then Shown(q[k]) else ValueAt(p, k)
  {
  }

  lemma WriteLast(g: Graph, db: string, ws: seq<Write>, n: nat)
    requires n < |ws|
    ensures WriteAll(g, db, ws[..n + 1]) == WriteNode(WriteAll(g, db, ws[..n]), db, ws[n])
  {
    assert ws[..n + 1] == ws[..n] + [ws[n]];
    WriteAllConcat(g, db, ws[..n], [ws[n]]);
    assert [ws[n]][1..] == [];
  }

  /** One more element, at its own URI, for one key. */
  lemma KeyStep(before: Option<NodeRec>, nodes: seq<Node>, n: Node, k: string, p: Props, q: Props)
    requires KeyMerged(before, nodes, n.uri, k, p)
    requires ValueAt(q, k) == if k in n.props then Shown(n.props[k]) else ValueAt(p, k)
    ensures KeyMerged(before, nodes + [n], n.uri, k, q)
  {
    var more := nodes + [n];
    forall i | LastWith(more, n.uri, k, i) ensures ValueAt(q, k) == Shown(more[i].props[k]) {
      assert more[|nodes|] == n;
      if i < |nodes| { LastBefore(nodes, n, n.uri, k, i); }
    }
    if forall m :: m in more && m.uri == n.uri ==> k !in m.props {
      assert n in more && forall m :: m in nodes ==> m in more;
    }
  }

  lemma LastBefore(nodes: seq<Node>, n: Node, uri: string, k: string, i: int)
    requires LastWith(nodes + [n], uri, k, i) && i < |nodes|
    ensures LastWith(nodes, uri, k, i) && nodes[i] == (nodes + [n])[i]
  {
    var more := nodes + [n];
    forall j | i < j < |nodes| && nodes[j].uri == uri ensures k !in nodes[j].props { assert more[j] == nodes[j]; }
  }

  /** One more element changes nothing for another URI. */
  lemma OtherUri(before: Option<NodeRec>, nodes: seq<Node>, n: Node, uri: string, k: string, p: Props)
    requires KeyMerged(before, nodes, uri, k, p) && n.uri != uri
    ensures KeyMerged(before, nodes + [n], uri, k, p)
  {
    var more := nodes + [n];
    forall i | LastWith(more, uri, k, i) ensures LastWith(nodes, uri, k, i) && nodes[i] == more[i] {
      assert more[|nodes|] == n;
      LastBefore(nodes, n, uri, k, i);
    }
    assert forall m :: m in nodes ==> m in more;
  }

  lemma {:induction false} LabelsOfFirst(nodes: seq<Node>, tag: string) returns (j: int)
    requires exists n :: n in nodes && n.MostSpecificLabel() == tag
    ensures First(nodes, tag, j) && GroupLabels(nodes, tag) == nodes[j].labels
  {
    if nodes[0].MostSpecificLabel() == tag {
      j := 0;
    } else {
      assert nodes == [nodes[0]] + nodes[1..];
      var i := LabelsOfFirst(nodes[1..], tag);
      j := i + 1;
      forall x | 0 <= x < j ensures nodes[x].MostSpecificLabel() != tag {
        if x > 0 { assert nodes[x] == nodes[1..][x - 1]; }
      }
    }
  }

  lemma LabelsAreTaken(nodes: seq<Node>, i: nat)
    requires i < |nodes|
    ensures LabelsTaken(nodes, nodes[i].uri, GroupLabels(nodes, nodes[i].MostSpecificLabel()))
  {
    assert nodes[i] in nodes;
    var j := LabelsOfFirst(nodes, nodes[i].MostSpecificLabel());
  }

  /** What the first n elements make of the node of a URI. */
  ghost predicate MergedSoFar(db: string, before: Option<NodeRec>, all: seq<Node>, n: nat, uri: string, after: Option<NodeRec>)
    requires n <= |all|
  {
    if forall m :: m in all[..n] ==> m.uri != uri then after == before
    else
      && after.Some?
      && (if before.Some? then after.value.labels == before.value.labels else LabelsTaken(all, uri, after.value.labels))
      && ValueAt(after.value.props, "_db") == Some(Str(db)) && ValueAt(after.value.props, "uri") == Some(Str(uri))
      && forall k :: k != "_db" && k != "uri" ==> KeyMerged(before, all[..n], uri, k, after.value.props)
  }

  lemma NothingMergedYet(before: Option<NodeRec>, nodes: seq<Node>, uri: string, k: string)
    requires forall m :: m in nodes ==> m.uri != uri
    ensures KeyMerged(before, nodes, uri, k, if before.Some? then before.value.props else map[])
  {
    forall i ensures !LastWith(nodes, uri, k, i) {
      if 0 <= i < |nodes| { assert nodes[i] in nodes; }
    }
  }

  /** The row of element n is written. */
  lemma MergedStep(db: string, before: Option<NodeRec>, all: seq<Node>, n: nat, after: Option<NodeRec>, w: Write)
    requires n < |all| && MergedSoFar(db, before, all, n, all[n].uri, after)
    requires w.uri == all[n].uri && w.labels == GroupLabels(all, all[n].MostSpecificLabel())
    requires forall k :: k != "_db" && k != "uri" ==> (k in w.props <==> k in all[n].props) && (k in w.props ==> w.props[k] == all[n].props[k])
    requires KeepsIdentity(db, w) && (before.Some? ==> Sound(NodeKey(db, w.uri), before.value.props))
    ensures MergedSoFar(db, before, all, n + 1, w.uri, Some(Written(db, after, w)))
  {
    assert all[..n + 1] == all[..n] + [all[n]];
    assert all[n] in all[..n + 1];
    LabelsAreTaken(all, n);
    var r := Written(db, after, w);
    SetPlusAt(if after.Some? then after.value.props else Ident(db, w.uri), w.props, "_db");
    SetPlusAt(if after.Some? then after.value.props else Ident(db, w.uri), w.props, "uri");
    forall k ensures k != "_db" && k != "uri" ==> KeyMerged(before, all[..n] + [all[n]], w.uri, k, r.props) {
      if k != "_db" && k != "uri" {
        MergedKeyStep(db, before, all, n, after, w, k);
      }
    }
  }

  lemma MergedKeyStep(db: string, before: Option<NodeRec>, all: seq<Node>, n: nat, after: Option<NodeRec>, w: Write, k: string)
    requires n < |all| && MergedSoFar(db, before, all, n, all[n].uri, after) && w.uri == all[n].uri && k != "_db" && k != "uri"
    requires (k in w.props <==> k in all[n].props) && (k in w.props ==> w.props[k] == all[n].props[k])
    ensures KeyMerged(before, all[..n] + [all[n]], w.uri, k, Written(db, after, w).props)
  {
    var p := if after.Some? then after.value.props else Ident(db, w.uri);
    SetPlusAt(p, w.props, k);
    if forall m :: m in all[..n] ==> m.uri != w.uri {
      var q := if before.Some? then before.value.props else map[];
      NothingMergedYet(before, all[..n], w.uri, k);
      assert ValueAt(p, k) == ValueAt(q, k);
      KeyStep(before, all[..n], all[n], k, q, Written(db, after, w).props);
    } else {
      KeyStep(before, all[..n], all[n], k, p, Written(db, after, w).props);
    }
  }

  lemma MergedOther(db: string, before: Option<NodeRec>, all: seq<Node>, n: nat, uri: string, after: Option<NodeRec>)
    requires n < |all| && MergedSoFar(db, before, all, n, uri, after) && all[n].uri != uri
    ensures MergedSoFar(db, before, all, n + 1, uri, after)
  {
    assert all[..n + 1] == all[..n] + [all[n]];
    if !(forall m :: m in all[..n] ==> m.uri != uri) {
      forall k ensures k != "_db" && k != "uri" ==> KeyMerged(before, all[..n] + [all[n]], uri, k, after.value.props) {
        if k != "_db" && k != "uri" {
          OtherUri(before, all[..n], all[n], uri, k, after.value.props);
        }
      }
    }
  }

  lemma MergeRow(g: Graph, db: string, nodes: seq<Node>, n: nat)
    requires Mergeable(g, db, nodes) && n < |nodes| == |Rows(Merge, db, nodes, nodes)|
    ensures var w := Rows(Merge, db, nodes, nodes)[n];
      && KeepsIdentity(db, w) && w.uri == nodes[n].uri && w.labels == GroupLabels(nodes, nodes[n].MostSpecificLabel())
      && forall k :: k != "_db" && k != "uri" ==>
           (k in w.props <==> k in nodes[n].props) && (k in w.props ==> w.props[k] == nodes[n].props[k])
  {
    RowAt(Merge, db, nodes, nodes);
    RowsKeepIdentity(g, Merge, db, nodes);
  }

  lemma {:induction false} MergedUpTo(g: Graph, db: string, nodes: seq<Node>, n: nat, uri: string)
    requires g.Wf() && Mergeable(g, db, nodes) && n <= |nodes| == |Rows(Merge, db, nodes, nodes)|
    ensures MergedSoFar(db, g.Node(NodeKey(db, uri)), nodes, n, uri, WriteAll(g, db, Rows(Merge, db, nodes, nodes)[..n]).Node(NodeKey(db, uri)))
    decreases n
  {
    if n > 0 {
      var p, ws := n - 1, Rows(Merge, db, nodes, nodes);
      MergedUpTo(g, db, nodes, p, uri);
      WriteLast(g, db, ws, p);
      MergeRow(g, db, nodes, p);
      var before, mid := g.Node(NodeKey(db, uri)), WriteAll(g, db, ws[..p]).Node(NodeKey(db, uri));
      if nodes[p].uri == uri {
        MergedStep(db, before, nodes, p, mid, ws[p]);
      } else {
        MergedOther(db, before, nodes, p, uri, mid);
      }
    }
  }

  lemma RowsMerge(g: Graph, db: string, nodes: seq<Node>, uri: string)
    requires g.Wf() && Mergeable(g, db, nodes)
    ensures NodeMerged(db, g.Node(NodeKey(db, uri)), nodes, uri, WriteAll(g, db, Rows(Merge, db, nodes, nodes)).Node(NodeKey(db, uri)))
  {
    var ws := Rows(Merge, db, nodes, nodes);
    RowAt(Merge, db, nodes, nodes);
    MergedUpTo(g, db, nodes, |nodes|, uri);
    assert ws[..|nodes|] == ws;
    AllMerged(db, g.Node(NodeKey(db, uri)), nodes, uri, WriteAll(g, db, ws).Node(NodeKey(db, uri)));
  }

  lemma AllMerged(db: string, before: Option<NodeRec>, nodes: seq<Node>, uri: string, after: Option<NodeRec>)
    requires MergedSoFar(db, before, nodes, |nodes|, uri, after)
    ensures NodeMerged(db, before, nodes, uri, after)
  {
    assert nodes[..|nodes|] == nodes;
  }

  /** An upsert that succeeds leaves, key by key and relationship by relationship, what was listed last. */
  lemma UpsertMerges(g: Graph, db: string, nodes: seq<Node>, rels: seq<Relation>)
    requires g.Wf() && Mergeable(g, db, nodes)
    ensures Merged(g, db, nodes, rels, Loaded(g, Merge, db, nodes, rels))
  {
    var ws := Rows(Merge, db, nodes, nodes);
    var mid, h := WriteAll(g, db, ws), Loaded(g, Merge, db, nodes, rels);
    TouchAllAt(mid, MergeEdges, db, rels, Edge("", "", "", ""));
    forall uri ensures NodeMerged(db, g.Node(NodeKey(db, uri)), nodes, uri, h.Node(NodeKey(db, uri))) {
      RowsMerge(g, db, nodes, uri);
    }
    forall e: Edge | e.db == db ensures LinkMerged(g, rels, h, e) {
      LinkIsMerged(g, db, ws, rels, e);
    }
    LoadedWf(g, Merge, db, nodes, rels);
  }

  lemma LinkIsMerged(g: Graph, db: string, ws: seq<Write>, rels: seq<Relation>, e: Edge)
    requires e.db == db
    ensures LinkMerged(g, rels, TouchAll(WriteAll(g, db, ws), MergeEdges, db, rels), e)
  {
    var mid := WriteAll(g, db, ws);
    WriteAllAt(g, db, ws, e.Source());
    TouchAllAt(mid, MergeEdges, db, rels, e);
    OccursWhenNamed(db, rels, e);
  }

  lemma {:induction false} OccursWhenNamed(db: string, rels: seq<Relation>, e: Edge)
    requires e.db == db
    ensures Occurrences(db, rels, e) > 0 <==> exists r :: r in rels && r.typ == e.typ && r.from == e.from && r.to == e.to
    decreases |rels|
  {
    if rels != [] {
      OccursWhenNamed(db, rels[1..], e);
      assert rels == [rels[0]] + rels[1..];
    }
  }

  // ---------------------------------------------------------------- lemmas about grouping

  lemma {:induction false} NodesLabelledSnoc(nodes: seq<Node>, n: Node, tag: string)
    ensures NodesLabelled(nodes + [n], tag)
         == NodesLabelled(nodes, tag) + (if n.MostSpecificLabel() == tag then [n] else [])
    decreases |nodes|
  {
    if nodes == [] {
      assert nodes + [n] == [n];
    } else {
      assert (nodes + [n])[1..] == nodes[1..] + [n];
      NodesLabelledSnoc(nodes[1..], n, tag);
    }
  }

  lemma {:induction false} NodesLabelledMembers(nodes: seq<Node>, tag: string)
    ensures forall n :: n in NodesLabelled(nodes, tag) <==> n in nodes && n.MostSpecificLabel() == tag
  {
    if nodes != [] {
      NodesLabelledMembers(nodes[1..], tag);
      assert nodes == [nodes[0]] + nodes[1..];
    }
  }

  lemma {:induction false} RowsOfGroup(mode: WriteMode, db: string, all: seq<Node>, nodes: seq<Node>, tag: string)
    ensures InGroups(Rows(mode, db, all, nodes), {tag})
         == GroupRows(mode, db, GroupLabels(all, tag), NodesLabelled(nodes, tag))
    decreases |nodes|
  {
    if nodes != [] {
      RowsOfGroup(mode, db, all, nodes[1..], tag);
      var row := Row(mode, db, GroupLabels(all, nodes[0].MostSpecificLabel()), nodes[0]);
      assert ([row] + Rows(mode, db, all, nodes[1..]))[1..] == Rows(mode, db, all, nodes[1..]);
      assert ([nodes[0]] + NodesLabelled(nodes[1..], tag))[1..] == NodesLabelled(nodes[1..], tag);
    }
  }

  lemma {:induction false} GroupRowsSnoc(mode: WriteMode, db: string, labels: seq<string>, group: seq<Node>, n: Node)
    ensures GroupRows(mode, db, labels, group + [n]) == GroupRows(mode, db, labels, group) + [Row(mode, db, labels, n)]
    decreases |group|
  {
    if group == [] {
      assert group + [n] == [n];
    } else {
      assert (group + [n])[1..] == group[1..] + [n];
      GroupRowsSnoc(mode, db, labels, group[1..], n);
    }
  }

  lemma {:induction false} RowAt(mode: WriteMode, db: string, all: seq<Node>, nodes: seq<Node>)
    ensures |Rows(mode, db, all, nodes)| == |nodes|
    ensures forall i :: 0 <= i < |nodes| ==>
      Rows(mode, db, all, nodes)[i] == Row(mode, db, GroupLabels(all, nodes[i].MostSpecificLabel()), nodes[i])
    decreases |nodes|
  {
    if nodes != [] {
      RowAt(mode, db, all, nodes[1..]);
    }
  }

  /** The rows of one URI are in one statement, whichever way they are written. */
  lemma RowsUriInOneGroup(g: Graph, mode: WriteMode, db: string, nodes: seq<Node>)
    requires Writable(g, mode, db, nodes)
    ensures UriInOneGroup(Rows(mode, db, nodes, nodes))
  {
    var ws := Rows(mode, db, nodes, nodes);
    RowAt(mode, db, nodes, nodes);
    forall i, j | 0 <= i < |ws| && 0 <= j < |ws| && ws[i].uri == ws[j].uri
      ensures ws[i].group == ws[j].group
    {
      assert nodes[i] in nodes && nodes[j] in nodes;
    }
  }

  lemma RowsKeepIdentity(g: Graph, mode: WriteMode, db: string, nodes: seq<Node>)
    requires Writable(g, mode, db, nodes)
    ensures forall i :: 0 <= i < |Rows(mode, db, nodes, nodes)| ==> KeepsIdentity(db, Rows(mode, db, nodes, nodes)[i])
  {
    var ws := Rows(mode, db, nodes, nodes);
    RowAt(mode, db, nodes, nodes);
    forall i | 0 <= i < |ws| ensures KeepsIdentity(db, ws[i]) {
      assert nodes[i] in nodes;
    }
  }

  /** Loading keeps the database well-formed and touches no other logical database. */
  lemma LoadedWf(g: Graph, mode: WriteMode, db: string, nodes: seq<Node>, rels: seq<Relation>)
    requires g.Wf() && Writable(g, mode, db, nodes)
    ensures Loaded(g, mode, db, nodes, rels).Wf()
    ensures SameOutside(g, Loaded(g, mode, db, nodes, rels), db)
  {
    var ws := Rows(mode, db, nodes, nodes);
    var op := if mode.Create? then CreateEdges else MergeEdges;
    RowsKeepIdentity(g, mode, db, nodes);
    WriteAllWf(g, db, ws);
    TouchAllWf(WriteAll(g, db, ws), op, db, rels);
    WriteAllOutside(g, db, ws);
    TouchAllOutside(WriteAll(g, db, ws), op, db, rels);
  }

  lemma WriteAllOutside(g: Graph, db: string, ws: seq<Write>)
    ensures SameOutside(g, WriteAll(g, db, ws), db)
  {
    forall k: NodeKey | k.db != db ensures g.Node(k) == WriteAll(g, db, ws).Node(k) {
      WriteAllAt(g, db, ws, k);
    }
    WriteAllAt(g, db, ws, NodeKey(db, ""));
  }

  lemma {:induction false} NoneOccur(db: string, rels: seq<Relation>, e: Edge)
    requires e.db != db
    ensures Occurrences(db, rels, e) == 0
    decreases |rels|
  {
    if rels != [] {
      NoneOccur(db, rels[1..], e);
    }
  }

  lemma TouchAllOutside(g: Graph, op: EdgeOp, db: string, rels: seq<Relation>)
    ensures SameOutside(g, TouchAll(g, op, db, rels), db)
  {
    forall e: Edge | e.db != db ensures g.Multiplicity(e) == TouchAll(g, op, db, rels).Multiplicity(e) {
      TouchAllAt(g, op, db, rels, e);
      NoneOccur(db, rels, e);
    }
    TouchAllAt(g, op, db, rels, Edge(db, "", "", ""));
  }

  lemma {:induction false} OfTypesSnoc(rels: seq<Relation>, r: Relation, typ: string)
    ensures OfTypes(rels + [r], {typ}) == OfTypes(rels, {typ}) + (if r.typ == typ then [r] else [])
    decreases |rels|
  {
    if rels == [] {
      assert rels + [r] == [r];
    } else {
      assert (rels + [r])[1..] == rels[1..] + [r];
      OfTypesSnoc(rels[1..], r, typ);
    }
  }

  lemma {:induction false} OccurrencesSnoc(db: string, rels: seq<Relation>, r: Relation, e: Edge)
    ensures Occurrences(db, rels + [r], e) == Occurrences(db, rels, e) + if EdgeOf(db, r) == e then 1 else 0
    decreases |rels|
  {
    if rels == [] {
      assert rels + [r] == [r];
    } else {
      assert (rels + [r])[1..] == rels[1..] + [r];
      OccurrencesSnoc(db, rels[1..], r, e);
    }
  }

  /** The row that stands for one of the relationships e. */
  function RelationOf(e: Edge): Relation {
    Relation(e.typ, e.from, e.to, map[])
  }

  lemma {:induction false} OccurrencesCount(db: string, rels: seq<Relation>, e: Edge)
    requires e.db == db && forall r :: r in rels ==> r.props == map[]
    ensures Occurrences(db, rels, e) == multiset(rels)[RelationOf(e)]
    decreases |rels|
  {
    if rels != [] {
      assert rels == [rels[0]] + rels[1..];
      OccurrencesCount(db, rels[1..], e);
      assert EdgeOf(db, rels[0]) == e <==> rels[0] == RelationOf(e);
    }
  }

  lemma {:induction false} InGroupsMembers(ws: seq<Write>, groups: set<string>)
    ensures forall w :: w in InGroups(ws, groups) ==> w in ws
  {
    if ws != [] {
      InGroupsMembers(ws[1..], groups);
      assert ws == [ws[0]] + ws[1..];
    }
  }

  lemma InGroupsKeepIdentity(g: Graph, db: string, ws: seq<Write>, groups: set<string>)
    requires forall i :: 0 <= i < |ws| ==> KeepsIdentity(db, ws[i])
    ensures g.Wf() ==> WriteAll(g, db, InGroups(ws, groups)).Wf()
  {
    var xs := InGroups(ws, groups);
    InGroupsMembers(ws, groups);
    forall i | 0 <= i < |xs| ensures KeepsIdentity(db, xs[i]) {
      assert xs[i] in ws;
    }
    if g.Wf() {
      WriteAllWf(g, db, xs);
    }
  }

  lemma RowsGroups(mode: WriteMode, db: string, nodes: seq<Node>, groups: set<string>)
    requires forall n :: n in nodes ==> n.MostSpecificLabel() in groups
    ensures forall w :: w in Rows(mode, db, nodes, nodes) ==> w.group in groups
  {
    RowAt(mode, db, nodes, nodes);
    var ws := Rows(mode, db, nodes, nodes);
    forall w | w in ws ensures w.group in groups {
      var i :| 0 <= i < |ws| && ws[i] == w;
      assert nodes[i] in nodes;
    }
  }

  // ---------------------------------------------------------------- CloneDB

  /** strings.Join(labels, ":"): the grouping key of CloneDB. */
  function Join(labels: seq<string>): string {
    if labels == [] then ""
    else if |labels| == 1 then labels[0]
    else labels[0] + ":" + Join(labels[1..])
  }

  /** Labels are Cypher identifiers. */
  ghost predicate PlainLabels(labels: seq<string>) {
    labels != [] && forall l :: l in labels ==> ':' !in l
  }

  /** Label lists with the same key are the same list, so a group has one tag list. */
  lemma {:induction false} JoinInjective(a: seq<string>, b: seq<string>)
    requires PlainLabels(a) && PlainLabels(b) && Join(a) == Join(b)
    ensures a == b
    decreases |a|
  {
    assert a[0] in a && b[0] in b;
    FirstPart(a);
    FirstPart(b);
    var n := |a[0]|;
    if |a[0]| < |b[0]| {
      assert false;
    } else if |b[0]| < |a[0]| {
      assert false;
    } else {
      assert a[0] == Join(a)[..n] == Join(b)[..n] == b[0];
      if |a| > 1 || |b| > 1 {
        assert |a| > 1 && |b| > 1;
        assert Join(a[1..]) == Join(a)[n + 1..] == Join(b)[n + 1..] == Join(b[1..]);
        assert PlainLabels(a[1..]) by { assert forall l :: l in a[1..] ==> l in a; }
        assert PlainLabels(b[1..]) by { assert forall l :: l in b[1..] ==> l in b; }
        JoinInjective(a[1..], b[1..]);
        assert a == [a[0]] + a[1..] && b == [b[0]] + b[1..];
      } else {
        assert a == [a[0]] && b == [b[0]];
      }
    }
  }

  lemma FirstPart(a: seq<string>)
    requires a != []
    ensures |a| == 1 ==> Join(a) == a[0]
    ensures |a| > 1 ==> |Join(a)| > |a[0]| && Join(a)[..|a[0]|] == a[0] && Join(a)[|a[0]|] == ':'
    ensures |a| > 1 ==> Join(a)[|a[0]| + 1..] == Join(a[1..])
  {
  }

  /** The copy CloneDB makes in an empty database: the nodes that have labels, with `_db` set to
      the new database, and the relationships between them. */
  function Copied(g: Graph, from: string, to: string): Graph {
    Graph(g.nodes + CopiedNodes(g, from, to), g.edges + CopiedEdges(g, from, to))
  }

  predicate Labelled(g: Graph, k: NodeKey) {
    k in g.nodes && g.nodes[k].labels != []
  }

  function Moved(rec: NodeRec, to: string): NodeRec {
    NodeRec(rec.labels, rec.props["_db" := Str(to)])
  }

  function CopiedNodes(g: Graph, from: string, to: string): map<NodeKey, NodeRec> {
    map k | k in g.nodes && k.db == from && Labelled(g, k) :: NodeKey(to, k.uri) := Moved(g.nodes[k], to)
  }

  function CopiedEdges(g: Graph, from: string, to: string): map<Edge, Count> {
    map e | e in g.edges && e.db == from && e.typ != "" && Labelled(g, e.Source()) && Labelled(g, e.Target()) ::
      Edge(to, e.typ, e.from, e.to) := g.edges[e]
  }

  /** A query lists the nodes of a database, each once, in some order. */
  ghost predicate ListsNodes(g: Graph, db: string, rows: seq<Node>) {
    && DistinctUris(rows)
    && (forall n :: n in rows ==> g.Node(NodeKey(db, n.uri)) == Some(NodeRec(n.labels, n.props)))
    && (forall k :: k in g.nodes && k.db == db ==> Node(g.nodes[k].labels, k.uri, g.nodes[k].props) in rows)
  }

  /** A query lists the relationships of a database, parallel ones as often as they occur. */
  ghost predicate ListsRels(g: Graph, db: string, rows: seq<Relation>) {
    forall e: Edge :: e.db == db ==> Occurrences(db, rows, e) == g.Multiplicity(e)
  }

  function CloneRow(to: string, labels: seq<string>, n: Node): Write {
    Write(Join(n.labels), n.uri, labels, n.props["_db" := Str(to)])
  }

  /** The rows of all CREATE statements of CloneDB. */
  function CloneRows(to: string, nodes: seq<Node>): seq<Write>
    decreases |nodes|
  {
    if nodes == [] then []
    else if nodes[0].labels == [] then CloneRows(to, nodes[1..])
    else [CloneRow(to, nodes[0].labels, nodes[0])] + CloneRows(to, nodes[1..])
  }

  function NodesJoined(nodes: seq<Node>, key: string): seq<Node> {
    if nodes == [] then []
    else if nodes[0].labels != [] && Join(nodes[0].labels) == key then [nodes[0]] + NodesJoined(nodes[1..], key)
    else NodesJoined(nodes[1..], key)
  }

  function CloneGroupRows(to: string, labels: seq<string>, group: seq<Node>): seq<Write>
    decreases |group|
  {
    if group == [] then [] else [CloneRow(to, labels, group[0])] + CloneGroupRows(to, labels, group[1..])
  }

  lemma {:induction false} NodesJoinedSnoc(nodes: seq<Node>, n: Node, key: string)
    ensures NodesJoined(nodes + [n], key)
         == NodesJoined(nodes, key) + (if n.labels != [] && Join(n.labels) == key then [n] else [])
    decreases |nodes|
  {
    if nodes == [] {
      assert nodes + [n] == [n];
    } else {
      assert (nodes + [n])[1..] == nodes[1..] + [n];
      NodesJoinedSnoc(nodes[1..], n, key);
    }
  }

  lemma {:induction false} NodesJoinedMembers(nodes: seq<Node>, key: string)
    ensures forall n :: n in NodesJoined(nodes, key) <==> n in nodes && n.labels != [] && Join(n.labels) == key
  {
    if nodes != [] {
      NodesJoinedMembers(nodes[1..], key);
      assert nodes == [nodes[0]] + nodes[1..];
    }
  }

  lemma {:induction false} CloneGroupRowsSnoc(to: string, labels: seq<string>, group: seq<Node>, n: Node)
    ensures CloneGroupRows(to, labels, group + [n]) == CloneGroupRows(to, labels, group) + [CloneRow(to, labels, n)]
    decreases |group|
  {
    if group == [] {
      assert group + [n] == [n];
    } else {
      assert (group + [n])[1..] == group[1..] + [n];
      CloneGroupRowsSnoc(to, labels, group[1..], n);
    }
  }

  /** Every node of a group has the labels of the first, because the key determines them. */
  lemma {:induction false} CloneRowsOfGroup(to: string, nodes: seq<Node>, labels: seq<string>)
    requires forall n :: n in nodes && n.labels != [] ==> PlainLabels(n.labels)
    requires PlainLabels(labels)
    ensures InGroups(CloneRows(to, nodes), {Join(labels)})
         == CloneGroupRows(to, labels, NodesJoined(nodes, Join(labels)))
    decreases |nodes|
  {
    if nodes != [] {
      assert nodes == [nodes[0]] + nodes[1..];
      CloneRowsOfGroup(to, nodes[1..], labels);
      if nodes[0].labels != [] {
        assert ([CloneRow(to, nodes[0].labels, nodes[0])] + CloneRows(to, nodes[1..]))[1..] == CloneRows(to, nodes[1..]);
        assert ([nodes[0]] + NodesJoined(nodes[1..], Join(labels)))[1..] == NodesJoined(nodes[1..], Join(labels));
        if Join(nodes[0].labels) == Join(labels) {
          JoinInjective(nodes[0].labels, labels);
        }
      }
    }
  }

  lemma {:induction false} CloneRowsMembers(to: string, nodes: seq<Node>)
    ensures forall w :: w in CloneRows(to, nodes) ==>
      exists n :: n in nodes && n.labels != [] && w == CloneRow(to, n.labels, n)
    ensures forall n :: n in nodes && n.labels != [] ==> CloneRow(to, n.labels, n) in CloneRows(to, nodes)
    decreases |nodes|
  {
    if nodes != [] {
      assert nodes == [nodes[0]] + nodes[1..];
      CloneRowsMembers(to, nodes[1..]);
    }
  }

  /** Rows for different URIs: the record of a URI is what its own row says. */
  ghost predicate DistinctRows(ws: seq<Write>) {
    forall i, j :: 0 <= i < j < |ws| ==> ws[i].uri != ws[j].uri
  }

  lemma {:induction false} OneRow(ws: seq<Write>, w: Write)
    requires DistinctRows(ws) && w in ws
    ensures ForUri(ws, w.uri) == [w]
    decreases |ws|
  {
    if ws[0] == w {
      NoRow(ws[1..], w.uri);
    } else {
      assert ws == [ws[0]] + ws[1..];
      assert ws[0].uri != w.uri by { var i :| 0 <= i < |ws| && ws[i] == w; }
      OneRow(ws[1..], w);
    }
  }

  lemma {:induction false} NoRow(ws: seq<Write>, uri: string)
    requires forall w :: w in ws ==> w.uri != uri
    ensures ForUri(ws, uri) == []
    decreases |ws|
  {
    if ws != [] {
      assert ws[0] in ws;
      assert forall w :: w in ws[1..] ==> w in ws;
      NoRow(ws[1..], uri);
    }
  }

  lemma {:induction false} CloneRowsDistinct(to: string, nodes: seq<Node>)
    requires DistinctUris(nodes)
    ensures DistinctRows(CloneRows(to, nodes))
    decreases |nodes|
  {
    if nodes != [] {
      CloneRowsDistinct(to, nodes[1..]);
      CloneRowsMembers(to, nodes[1..]);
      var rest := CloneRows(to, nodes[1..]);
      forall j | 0 <= j < |rest| ensures rest[j].uri != nodes[0].uri {
        assert rest[j] in rest;
        var n :| n in nodes[1..] && n.labels != [] && rest[j] == CloneRow(to, n.labels, n);
      }
    }
  }

  lemma CopiedNodeAt(g: Graph, from: string, to: string, k: NodeKey)
    requires k.db == to
    ensures k in CopiedNodes(g, from, to) <==> Labelled(g, NodeKey(from, k.uri))
    ensures k in CopiedNodes(g, from, to) ==> CopiedNodes(g, from, to)[k] == Moved(g.nodes[NodeKey(from, k.uri)], to)
  {
    if Labelled(g, NodeKey(from, k.uri)) {
      assert NodeKey(to, NodeKey(from, k.uri).uri) in CopiedNodes(g, from, to);
    }
  }

  function Back(from: string, e: Edge): Edge { Edge(from, e.typ, e.from, e.to) }

  lemma CopiedEdgeAt(g: Graph, from: string, to: string, e: Edge)
    requires e.db == to
    ensures e in CopiedEdges(g, from, to) <==>
      Back(from, e) in g.edges && e.typ != "" && Labelled(g, NodeKey(from, e.from)) && Labelled(g, NodeKey(from, e.to))
    ensures e in CopiedEdges(g, from, to) ==> CopiedEdges(g, from, to)[e] == g.edges[Back(from, e)]
  {
    var b := Back(from, e);
    assert b.Source() == NodeKey(from, e.from) && b.Target() == NodeKey(from, e.to);
    if b in g.edges && e.typ != "" && Labelled(g, b.Source()) && Labelled(g, b.Target()) {
      assert Edge(to, b.typ, b.from, b.to) in CopiedEdges(g, from, to);
    }
  }

  lemma CopiedOutside(g: Graph, from: string, to: string)
    ensures SameOutside(g, Copied(g, from, to), to)
  {
  }

  lemma MovedProps(src: NodeKey, p: Props, to: string)
    requires Sound(src, p)
    ensures SetPlus(Ident(to, src.uri), p["_db" := Str(to)]) == p["_db" := Str(to)]
    ensures Sound(NodeKey(to, src.uri), p["_db" := Str(to)])
  {
  }

  /** The record a copied row leaves in the empty database. */
  lemma ClonedNodeAt(g: Graph, from: string, to: string, nodes: seq<Node>, k: NodeKey)
    requires k.db == to && ListsNodes(g, from, nodes)
    requires Labelled(g, NodeKey(from, k.uri)) ==> Sound(NodeKey(from, k.uri), g.nodes[NodeKey(from, k.uri)].props)
    ensures WrittenAll(to, None, ForUri(CloneRows(to, nodes), k.uri))
         == if Labelled(g, NodeKey(from, k.uri)) then Some(Moved(g.nodes[NodeKey(from, k.uri)], to)) else None
  {
    var ws := CloneRows(to, nodes);
    var src := NodeKey(from, k.uri);
    CloneRowsDistinct(to, nodes);
    CloneRowsMembers(to, nodes);
    if Labelled(g, src) {
      var n := Node(g.nodes[src].labels, k.uri, g.nodes[src].props);
      assert n in nodes;
      var w := CloneRow(to, n.labels, n);
      OneRow(ws, w);
      MovedProps(src, n.props, to);
      assert WrittenAll(to, None, [w]) == Some(Written(to, None, w));
    } else {
      forall w | w in ws ensures w.uri != k.uri {
        var n :| n in nodes && n.labels != [] && w == CloneRow(to, n.labels, n);
      }
      NoRow(ws, k.uri);
    }
  }

  /** The rows of a clone, written into an empty database, are the copied nodes. */
  lemma ClonedNodes(g: Graph, from: string, to: string, nodes: seq<Node>)
    requires g.Wf() && from != to && !g.HasData(to) && ListsNodes(g, from, nodes)
    ensures WriteAll(g, to, CloneRows(to, nodes)) == Graph(g.nodes + CopiedNodes(g, from, to), g.edges)
  {
    var ws := CloneRows(to, nodes);
    var h, copy := WriteAll(g, to, ws), Graph(g.nodes + CopiedNodes(g, from, to), g.edges);
    forall k ensures h.Node(k) == copy.Node(k) {
      WriteAllAt(g, to, ws, k);
      if k.db == to {
        assert k !in g.nodes;
        var src := NodeKey(from, k.uri);
        assert src in g.nodes ==> Sound(src, g.nodes[src].props);
        ClonedNodeAt(g, from, to, nodes, k);
        CopiedNodeAt(g, from, to, k);
      } else {
        assert k !in CopiedNodes(g, from, to);
      }
    }
    WriteAllAt(g, to, ws, NodeKey(to, ""));
    GraphsAgree(h, copy);
  }

  lemma ListedIsThere(g: Graph, db: string, nodes: seq<Node>)
    requires ListsNodes(g, db, nodes)
    ensures nodes != [] ==> g.HasData(db)
  {
    if nodes != [] {
      assert nodes[0] in nodes;
      assert NodeKey(db, nodes[0].uri) in g.nodes;
    }
  }

  /** Nothing is listed of an empty database, and nothing is copied from it. */
  lemma NothingToClone(g: Graph, db: string, nodes: seq<Node>, rels: seq<Relation>)
    requires g.Wf() && !g.HasData(db) && ListsNodes(g, db, nodes) && ListsRels(g, db, rels)
    ensures nodes == [] && rels == []
  {
    ListedIsThere(g, db, nodes);
    if rels != [] {
      NoData(g, db, EdgeOf(db, rels[0]));
      assert false;
    }
  }

  lemma CopiedNothing(g: Graph, from: string, to: string)
    requires g.Wf() && !g.HasData(from)
    ensures Copied(g, from, to) == g
  {
    var h := Copied(g, from, to);
    forall k ensures h.Node(k) == g.Node(k) {
      if k.db == to { CopiedNodeAt(g, from, to, k); }
    }
    forall e ensures h.Multiplicity(e) == g.Multiplicity(e) {
      if e.db == to {
        CopiedEdgeAt(g, from, to, e);
        NoData(g, from, Back(from, e));
      }
    }
    GraphsAgree(h, g);
  }

  /** CloneDB skips relationships without a type. */
  function Typed(rels: seq<Relation>): seq<Relation> {
    if rels == [] then [] else if rels[0].typ != "" then [rels[0]] + Typed(rels[1..]) else Typed(rels[1..])
  }

  lemma {:induction false} TypedSnoc(rels: seq<Relation>, r: Relation)
    ensures Typed(rels + [r]) == Typed(rels) + if r.typ != "" then [r] else []
  {
    if rels == [] {
      assert rels + [r] == [r];
    } else {
      assert (rels + [r])[1..] == rels[1..] + [r];
      TypedSnoc(rels[1..], r);
    }
  }

  lemma {:induction false} OccurrencesTyped(from: string, to: string, rels: seq<Relation>, e: Edge)
    requires e.db == to
    ensures Occurrences(to, Typed(rels), e)
         == if e.typ != "" then Occurrences(from, rels, Edge(from, e.typ, e.from, e.to)) else 0
    decreases |rels|
  {
    if rels != [] {
      OccurrencesTyped(from, to, rels[1..], e);
      assert ([rels[0]] + Typed(rels[1..]))[1..] == Typed(rels[1..]);
    }
  }

  /** A database without nodes has no relationships. */
  lemma NoData(g: Graph, db: string, e: Edge)
    requires g.Wf() && !g.HasData(db) && e.db == db
    ensures e !in g.edges
  {
    assert e in g.edges ==> e.Source() in g.nodes;
  }

  lemma ClonedEdgeAt(g: Graph, from: string, to: string, rels: seq<Relation>, e: Edge)
    requires e.db == to && e !in g.edges && e.Source() !in g.nodes && e.Target() !in g.nodes && from != to
    requires ListsRels(g, from, rels)
    ensures TouchAll(Graph(g.nodes + CopiedNodes(g, from, to), g.edges), CreateEdges, to, Typed(rels)).Multiplicity(e)
         == Copied(g, from, to).Multiplicity(e)
  {
    TouchAllAt(Graph(g.nodes + CopiedNodes(g, from, to), g.edges), CreateEdges, to, Typed(rels), e);
    OccurrencesTyped(from, to, rels, e);
    CopiedEdgeAt(g, from, to, e);
    CopiedNodeAt(g, from, to, e.Source());
    CopiedNodeAt(g, from, to, e.Target());
    assert Occurrences(from, rels, Back(from, e)) == g.Multiplicity(Back(from, e));
  }

  lemma ClonedEdges(g: Graph, from: string, to: string, rels: seq<Relation>)
    requires g.Wf() && from != to && !g.HasData(to) && ListsRels(g, from, rels)
    ensures TouchAll(Graph(g.nodes + CopiedNodes(g, from, to), g.edges), CreateEdges, to, Typed(rels))
         == Copied(g, from, to)
  {
    var mid := Graph(g.nodes + CopiedNodes(g, from, to), g.edges);
    var h, copy := TouchAll(mid, CreateEdges, to, Typed(rels)), Copied(g, from, to);
    forall e ensures h.Multiplicity(e) == copy.Multiplicity(e) {
      if e.db == to {
        NoData(g, to, e);
        assert e.Source().db == to && e.Target().db == to;
        ClonedEdgeAt(g, from, to, rels, e);
      } else {
        TouchAllAt(mid, CreateEdges, to, Typed(rels), e);
        NoneOccur(to, Typed(rels), e);
        assert e !in CopiedEdges(g, from, to);
      }
    }
    TouchAllAt(mid, CreateEdges, to, Typed(rels), Edge(to, "", "", ""));
    GraphsAgree(h, copy);
  }

  /** A clone is well-formed. */
  lemma CopiedWf(g: Graph, from: string, to: string)
    requires g.Wf()
    ensures Copied(g, from, to).Wf()
  {
    var h := Copied(g, from, to);
    forall k | k in h.nodes ensures Sound(k, h.nodes[k].props) {
      if k in CopiedNodes(g, from, to) {
        var src := NodeKey(from, k.uri);
        CopiedNodeAt(g, from, to, k);
        assert Sound(src, g.nodes[src].props);
        MovedProps(src, g.nodes[src].props, to);
      }
    }
    forall e | e in h.edges ensures h.Joins(e) {
      if e in CopiedEdges(g, from, to) {
        CopiedJoins(g, from, to, e);
      } else {
        assert g.Joins(e);
      }
    }
  }

  lemma CopiedJoins(g: Graph, from: string, to: string, e: Edge)
    requires e in CopiedEdges(g, from, to)
    ensures Copied(g, from, to).Joins(e)
  {
    CopiedEdgeAt(g, from, to, e);
    CopiedNodeAt(g, from, to, e.Source());
    CopiedNodeAt(g, from, to, e.Target());
  }

  // ---------------------------------------------------------------- clones that stop half-way

  /** The node of the original is labelled, and its group is one of `keys`. */
  predicate Chosen(g: Graph, k: NodeKey, keys: set<string>) {
    Labelled(g, k) && Join(g.nodes[k].labels) in keys
  }

  /** h is g with the part of the copy that the statements of some label lists and some relation types
      make: relationships come after all nodes. */
  ghost predicate PartlyCopied(g: Graph, from: string, to: string, keys: set<string>, types: set<string>, h: Graph) {
    && SameOutside(g, h, to)
    && (forall k: NodeKey :: k.db == to ==>
          h.Node(k) == if Chosen(g, NodeKey(from, k.uri), keys) then Some(Moved(g.nodes[NodeKey(from, k.uri)], to)) else None)
    && (forall e: Edge :: e.db == to ==>
          h.Multiplicity(e) == if e in CopiedEdges(g, from, to) && e.typ in types then CopiedEdges(g, from, to)[e] else 0)
    && (types != {} ==> forall k: NodeKey :: k.db == from && Labelled(g, k) ==> Join(g.nodes[k].labels) in keys)
  }

  lemma CloneStoppedEarly(g: Graph, from: string, to: string, nodes: seq<Node>, keys: set<string>)
    requires g.Wf() && from != to && !g.HasData(to) && ListsNodes(g, from, nodes)
    ensures PartlyCopied(g, from, to, keys, {}, WriteAll(g, to, InGroups(CloneRows(to, nodes), keys)))
  {
    var ws := CloneRows(to, nodes);
    var h := WriteAll(g, to, InGroups(ws, keys));
    WriteAllOutside(g, to, InGroups(ws, keys));
    forall k: NodeKey | k.db == to
      ensures h.Node(k) == if Chosen(g, NodeKey(from, k.uri), keys) then Some(Moved(g.nodes[NodeKey(from, k.uri)], to)) else None
    {
      WriteAllAt(g, to, InGroups(ws, keys), k);
      CloneStoppedAt(g, from, to, nodes, keys, k);
    }
    forall e: Edge | e.db == to ensures h.Multiplicity(e) == 0 {
      WriteAllAt(g, to, InGroups(ws, keys), NodeKey(to, ""));
      NoData(g, to, e);
    }
  }

  lemma CloneStoppedAt(g: Graph, from: string, to: string, nodes: seq<Node>, keys: set<string>, k: NodeKey)
    requires g.Wf() && from != to && ListsNodes(g, from, nodes) && k.db == to
    ensures WrittenAll(to, None, ForUri(InGroups(CloneRows(to, nodes), keys), k.uri))
         == if Chosen(g, NodeKey(from, k.uri), keys) then Some(Moved(g.nodes[NodeKey(from, k.uri)], to)) else None
  {
    var ws, src := CloneRows(to, nodes), NodeKey(from, k.uri);
    ForUriInGroups(ws, keys, k.uri);
    assert src in g.nodes ==> Sound(src, g.nodes[src].props);
    ClonedNodeAt(g, from, to, nodes, k);
    CloneRowsDistinct(to, nodes);
    CloneRowsMembers(to, nodes);
    if Labelled(g, src) {
      var n := Node(g.nodes[src].labels, k.uri, g.nodes[src].props);
      assert n in nodes;
      OneRow(ws, CloneRow(to, n.labels, n));
      InGroupsAllOrNothing(ForUri(ws, k.uri), keys, Join(n.labels));
    } else {
      forall w | w in ws ensures w.uri != k.uri {
        var n :| n in nodes && n.labels != [] && w == CloneRow(to, n.labels, n);
      }
      NoRow(ws, k.uri);
    }
  }

  function LabelKeys(g: Graph, from: string): set<string> {
    set k | k in g.nodes && k.db == from && g.nodes[k].labels != [] :: Join(g.nodes[k].labels)
  }

  lemma CloneStoppedLate(g: Graph, from: string, to: string, rels: seq<Relation>, types: set<string>)
    requires g.Wf() && from != to && !g.HasData(to) && ListsRels(g, from, rels)
    ensures PartlyCopied(g, from, to, LabelKeys(g, from), types,
      TouchAll(Graph(g.nodes + CopiedNodes(g, from, to), g.edges), CreateEdges, to, OfTypes(Typed(rels), types)))
  {
    var mid, some := Graph(g.nodes + CopiedNodes(g, from, to), g.edges), OfTypes(Typed(rels), types);
    var h, keys := TouchAll(mid, CreateEdges, to, some), LabelKeys(g, from);
    TouchAllAt(mid, CreateEdges, to, some, Edge(to, "", "", ""));
    forall k: NodeKey | k.db == to
      ensures h.Node(k) == if Chosen(g, NodeKey(from, k.uri), keys) then Some(Moved(g.nodes[NodeKey(from, k.uri)], to)) else None
    {
      CopiedNodeAt(g, from, to, k);
      ChosenAll(g, from, NodeKey(from, k.uri));
      assert k !in g.nodes;
    }
    forall e: Edge | e.db == to
      ensures h.Multiplicity(e) == if e in CopiedEdges(g, from, to) && e.typ in types then CopiedEdges(g, from, to)[e] else 0
    {
      ClonedTypesAt(g, from, to, rels, types, e);
    }
    LateOutside(g, from, to, some);
    forall k: NodeKey | k.db == from && Labelled(g, k) ensures Join(g.nodes[k].labels) in keys {
      ChosenAll(g, from, k);
    }
  }

  lemma ChosenAll(g: Graph, from: string, k: NodeKey)
    requires k.db == from
    ensures Chosen(g, k, LabelKeys(g, from)) <==> Labelled(g, k)
  {
  }

  lemma LateOutside(g: Graph, from: string, to: string, rels: seq<Relation>)
    ensures SameOutside(g, TouchAll(Graph(g.nodes + CopiedNodes(g, from, to), g.edges), CreateEdges, to, rels), to)
  {
    var mid := Graph(g.nodes + CopiedNodes(g, from, to), g.edges);
    TouchAllAt(mid, CreateEdges, to, rels, Edge(to, "", "", ""));
    forall e: Edge | e.db != to ensures TouchAll(mid, CreateEdges, to, rels).Multiplicity(e) == g.Multiplicity(e) {
      TouchAllAt(mid, CreateEdges, to, rels, e);
      NoneOccur(to, rels, e);
    }
  }

  lemma ClonedTypesAt(g: Graph, from: string, to: string, rels: seq<Relation>, types: set<string>, e: Edge)
    requires g.Wf() && from != to && !g.HasData(to) && ListsRels(g, from, rels) && e.db == to
    ensures TouchAll(Graph(g.nodes + CopiedNodes(g, from, to), g.edges), CreateEdges, to, OfTypes(Typed(rels), types)).Multiplicity(e)
         == if e in CopiedEdges(g, from, to) && e.typ in types then CopiedEdges(g, from, to)[e] else 0
  {
    var mid := Graph(g.nodes + CopiedNodes(g, from, to), g.edges);
    NoData(g, to, e);
    assert e.Source() !in g.nodes && e.Target() !in g.nodes;
    ClonedEdgeAt(g, from, to, rels, e);
    TouchAllAt(mid, CreateEdges, to, Typed(rels), e);
    TouchAllAt(mid, CreateEdges, to, OfTypes(Typed(rels), types), e);
    OccurrencesOfTypes(to, Typed(rels), types, e);
  }

  lemma PartlyCopiedWf(g: Graph, from: string, to: string, keys: set<string>, types: set<string>, h: Graph)
    requires g.Wf() && PartlyCopied(g, from, to, keys, types, h)
    ensures h.Wf()
  {
    forall k | k in h.nodes ensures Sound(k, h.nodes[k].props) {
      var src := NodeKey(from, k.uri);
      if k.db != to {
        assert g.Node(k) == h.Node(k);
      } else {
        assert h.Node(k).Some?;
        MovedProps(src, g.nodes[src].props, to);
      }
    }
    forall e | e in h.edges ensures h.Joins(e) {
      assert h.Multiplicity(e) > 0;
      if e.db != to {
        assert g.Multiplicity(e) == h.Multiplicity(e);
        assert g.Joins(e) && g.Node(e.Source()) == h.Node(e.Source()) && g.Node(e.Target()) == h.Node(e.Target());
      } else {
        PartJoins(g, from, to, keys, types, h, e);
      }
    }
  }

  lemma PartJoins(g: Graph, from: string, to: string, keys: set<string>, types: set<string>, h: Graph, e: Edge)
    requires PartlyCopied(g, from, to, keys, types, h) && e.db == to && e in h.edges
    ensures h.Joins(e)
  {
    assert h.Multiplicity(e) > 0;
    CopiedEdgeAt(g, from, to, e);
    assert e.typ in types;
    assert Chosen(g, NodeKey(from, e.from), keys) && Chosen(g, NodeKey(from, e.to), keys);
    assert h.Node(e.Source()).Some? && h.Node(e.Target()).Some?;
  }

  lemma CopiedNot(g: Graph, from: string, to: string)
    requires !g.HasData(to) && g.Wf()
    ensures PartlyCopied(g, from, to, {}, {}, g)
  {
    forall e: Edge | e.db == to ensures g.Multiplicity(e) == 0 {
      NoData(g, to, e);
    }
  }

  lemma ClearedWf(g: Graph, db: string)
    requires g.Wf()
    ensures Cleared(g, db).Wf()
  {
    var h := Cleared(g, db);
    forall k | k in h.nodes ensures Sound(k, h.nodes[k].props) { assert k in g.nodes; }
    forall e | e in h.edges ensures h.Joins(e) {
      assert e in g.edges;
    }
  }

  lemma ClearedOutside(g: Graph, db: string)
    ensures !Cleared(g, db).HasData(db) && SameOutside(g, Cleared(g, db), db)
  {
  }

  lemma DetachedWf(g: Graph, db: string, uris: set<string>)
    requires g.Wf()
    ensures Detached(g, db, uris).Wf()
  {
    var h := Detached(g, db, uris);
    forall k | k in h.nodes ensures Sound(k, h.nodes[k].props) { assert k in g.nodes; }
    forall e | e in h.edges ensures h.Joins(e) { assert g.Joins(e); }
  }

  lemma DetachedOutside(g: Graph, db: string, uris: set<string>)
    ensures SameOutside(g, Detached(g, db, uris), db)
  {
  }

  // ---------------------------------------------------------------- steps of the loops

  ghost predicate GroupedByLabel(groups: map<string, seq<Node>>, nodes: seq<Node>) {
    && (forall l :: NodesLabelled(nodes, l) == if l in groups then groups[l] else [])
    && (forall l :: l in groups ==> groups[l] != [])
  }

  lemma GroupOneMoreNode(groups: map<string, seq<Node>>, nodes: seq<Node>, n: Node)
    requires GroupedByLabel(groups, nodes)
    ensures var l := n.MostSpecificLabel();
      GroupedByLabel(groups[l := (if l in groups then groups[l] else []) + [n]], nodes + [n])
  {
    var l := n.MostSpecificLabel();
    var next := groups[l := (if l in groups then groups[l] else []) + [n]];
    forall m ensures NodesLabelled(nodes + [n], m) == if m in next then next[m] else [] {
      NodesLabelledSnoc(nodes, n, m);
      assert NodesLabelled(nodes, m) == if m in groups then groups[m] else [];
    }
  }

  ghost predicate GroupedByType(groups: map<string, seq<Relation>>, rels: seq<Relation>) {
    && (forall t :: OfTypes(rels, {t}) == if t in groups then groups[t] else [])
    && (forall t :: t in groups ==> groups[t] != [])
  }

  lemma GroupOneMoreRel(groups: map<string, seq<Relation>>, rels: seq<Relation>, r: Relation)
    requires GroupedByType(groups, rels)
    ensures GroupedByType(groups[r.typ := (if r.typ in groups then groups[r.typ] else []) + [r]], rels + [r])
  {
    var next := groups[r.typ := (if r.typ in groups then groups[r.typ] else []) + [r]];
    forall t ensures OfTypes(rels + [r], {t}) == if t in next then next[t] else [] {
      OfTypesSnoc(rels, r, t);
      assert OfTypes(rels, {t}) == if t in groups then groups[t] else [];
    }
  }

  ghost predicate GroupedByLabels(groups: map<string, seq<Node>>, nodes: seq<Node>) {
    && (forall l :: NodesJoined(nodes, l) == if l in groups then groups[l] else [])
    && (forall l :: l in groups ==> groups[l] != [])
  }

  lemma GroupOneMoreClone(groups: map<string, seq<Node>>, nodes: seq<Node>, n: Node)
    requires GroupedByLabels(groups, nodes)
    ensures n.labels == [] ==> GroupedByLabels(groups, nodes + [n])
    ensures n.labels != [] ==> var l := Join(n.labels);
      GroupedByLabels(groups[l := (if l in groups then groups[l] else []) + [n]], nodes + [n])
  {
    var l := Join(n.labels);
    var next := if n.labels == [] then groups else groups[l := (if l in groups then groups[l] else []) + [n]];
    forall m ensures NodesJoined(nodes + [n], m) == if m in next then next[m] else [] {
      NodesJoinedSnoc(nodes, n, m);
      assert NodesJoined(nodes, m) == if m in groups then groups[m] else [];
    }
  }

  /** The statement of group `l` after those of the groups `done`. */
  lemma NextGroup(g: Graph, mode: WriteMode, db: string, nodes: seq<Node>, groups: map<string, seq<Node>>, done: set<string>, l: string)
    requires Writable(g, mode, db, nodes) && GroupedByLabel(groups, nodes) && l in groups && l !in done
    ensures groups[l] != []
    ensures WriteAll(WriteAll(g, db, InGroups(Rows(mode, db, nodes, nodes), done)), db,
                     GroupRows(mode, db, groups[l][0].labels, groups[l]))
         == WriteAll(g, db, InGroups(Rows(mode, db, nodes, nodes), done + {l}))
  {
    assert groups[l] == NodesLabelled(nodes, l);
    RowsUriInOneGroup(g, mode, db, nodes);
    RowsOfGroup(mode, db, nodes, nodes, l);
    OneMoreGroup(g, db, Rows(mode, db, nodes, nodes), done, l);
  }

  lemma PartlyWritten(g: Graph, mode: WriteMode, db: string, nodes: seq<Node>, done: set<string>)
    requires Writable(g, mode, db, nodes)
    ensures var h := WriteAll(g, db, InGroups(Rows(mode, db, nodes, nodes), done));
      SameOutside(g, h, db) && (g.Wf() ==> h.Wf())
  {
    RowsKeepIdentity(g, mode, db, nodes);
    InGroupsKeepIdentity(g, db, Rows(mode, db, nodes, nodes), done);
    WriteAllOutside(g, db, InGroups(Rows(mode, db, nodes, nodes), done));
  }

  lemma AllGroups(mode: WriteMode, db: string, nodes: seq<Node>, groups: map<string, seq<Node>>)
    requires GroupedByLabel(groups, nodes)
    ensures InGroups(Rows(mode, db, nodes, nodes), groups.Keys) == Rows(mode, db, nodes, nodes)
  {
    forall n | n in nodes ensures n.MostSpecificLabel() in groups.Keys {
      NodesLabelledMembers(nodes, n.MostSpecificLabel());
      assert n in NodesLabelled(nodes, n.MostSpecificLabel());
    }
    RowsGroups(mode, db, nodes, groups.Keys);
    InAllGroups(Rows(mode, db, nodes, nodes), groups.Keys);
  }

  lemma PartlyTouched(g: Graph, op: EdgeOp, db: string, rels: seq<Relation>, done: set<string>)
    ensures var h := TouchAll(g, op, db, OfTypes(rels, done));
      SameOutside(g, h, db) && (g.Wf() ==> h.Wf()) && h.nodes == g.nodes
  {
    TouchAllOutside(g, op, db, OfTypes(rels, done));
    TouchAllAt(g, op, db, OfTypes(rels, done), Edge("", "", "", ""));
    if g.Wf() {
      TouchAllWf(g, op, db, OfTypes(rels, done));
    }
  }

  /** After all node groups and some relation types. */
  lemma StoppedLate(g: Graph, mode: WriteMode, db: string, nodes: seq<Node>, rels: seq<Relation>, types: set<string>)
    ensures Stopped(g, mode, db, nodes, rels, TouchAll(WriteAll(g, db, Rows(mode, db, nodes, nodes)), EdgesOp(mode), db, OfTypes(rels, types)))
  {
    var tags := set n | n in nodes :: n.MostSpecificLabel();
    RowsGroups(mode, db, nodes, tags);
    InAllGroups(Rows(mode, db, nodes, nodes), tags);
    assert StoppedAt(g, mode, db, nodes, rels, tags, types, LoadedParts(g, mode, db, nodes, rels, tags, types));
  }

  lemma StoppedNodes(g: Graph, mode: WriteMode, db: string, nodes: seq<Node>, rels: seq<Relation>, h: Graph)
    requires Stopped(g, mode, db, nodes, rels, h)
    ensures exists done :: h.nodes == WriteAll(g, db, InGroups(Rows(mode, db, nodes, nodes), done)).nodes
  {
    var tags, types :| StoppedAt(g, mode, db, nodes, rels, tags, types, h);
    var mid := WriteAll(g, db, InGroups(Rows(mode, db, nodes, nodes), tags));
    TouchAllAt(mid, EdgesOp(mode), db, OfTypes(rels, types), Edge("", "", "", ""));
  }

  /** After some node groups. */
  lemma StoppedEarly(g: Graph, mode: WriteMode, db: string, nodes: seq<Node>, rels: seq<Relation>, tags: set<string>)
    ensures Stopped(g, mode, db, nodes, rels, WriteAll(g, db, InGroups(Rows(mode, db, nodes, nodes), tags)))
  {
    OfNoType(rels);
    assert StoppedAt(g, mode, db, nodes, rels, tags, {}, LoadedParts(g, mode, db, nodes, rels, tags, {}));
  }

  lemma {:induction false} OfTypesMembers(rels: seq<Relation>, types: set<string>)
    ensures forall r :: r in OfTypes(rels, types) <==> r in rels && r.typ in types
  {
    if rels != [] {
      OfTypesMembers(rels[1..], types);
      assert rels == [rels[0]] + rels[1..];
    }
  }

  lemma AllTypes(rels: seq<Relation>, groups: map<string, seq<Relation>>)
    requires GroupedByType(groups, rels)
    ensures OfTypes(rels, groups.Keys) == rels
  {
    forall r | r in rels ensures r.typ in groups.Keys {
      OfTypesMembers(rels, {r.typ});
      assert r in OfTypes(rels, {r.typ});
    }
    OfAllTypes(rels, groups.Keys);
  }

  lemma NextCloneGroup(g: Graph, to: string, nodes: seq<Node>, groups: map<string, seq<Node>>, done: set<string>, l: string)
    requires DistinctUris(nodes) && GroupedByLabels(groups, nodes) && l in groups && l !in done
    requires forall n :: n in nodes && n.labels != [] ==> PlainLabels(n.labels)
    ensures groups[l] != []
    ensures WriteAll(WriteAll(g, to, InGroups(CloneRows(to, nodes), done)), to,
                     CloneGroupRows(to, groups[l][0].labels, groups[l]))
         == WriteAll(g, to, InGroups(CloneRows(to, nodes), done + {l}))
  {
    var group := groups[l];
    assert group == NodesJoined(nodes, l);
    NodesJoinedMembers(nodes, l);
    assert group[0] in group;
    CloneRowsOfGroup(to, nodes, group[0].labels);
    var ws := CloneRows(to, nodes);
    CloneRowsDistinct(to, nodes);
    assert UriInOneGroup(ws) by {
      forall i, j | 0 <= i < |ws| && 0 <= j < |ws| && ws[i].uri == ws[j].uri ensures ws[i].group == ws[j].group {
        assert i == j;
      }
    }
    OneMoreGroup(g, to, ws, done, l);
  }

  lemma AllCloneGroups(to: string, nodes: seq<Node>, groups: map<string, seq<Node>>)
    requires GroupedByLabels(groups, nodes)
    ensures InGroups(CloneRows(to, nodes), groups.Keys) == CloneRows(to, nodes)
  {
    CloneRowsMembers(to, nodes);
    forall w | w in CloneRows(to, nodes) ensures w.group in groups.Keys {
      var n :| n in nodes && n.labels != [] && w == CloneRow(to, n.labels, n);
      NodesJoinedMembers(nodes, w.group);
      assert n in NodesJoined(nodes, w.group);
    }
    InAllGroups(CloneRows(to, nodes), groups.Keys);
  }

  // ---------------------------------------------------------------- the client

  /** A statement sent to the database. */
  datatype Statement =
    | Clear(db: string)
    | HasAny(db: string)
    | ListAll
    | ReadNodes(db: string)
    | ReadRels(db: string)
    | PutNodes(db: string, rows: seq<Write>)
    | PutRels(op: EdgeOp, db: string, rels: seq<Relation>)
    | Detach(db: string, uris: seq<string>)

  ghost predicate AllWork(works: nat -> bool, from: nat, upTo: nat) {
    forall i :: from <= i < upTo ==> works(i)
  }

  /** The log of statements has grown from before to after, and ok says whether all that came worked. */
  ghost predicate Went(works: nat -> bool, before: seq<Statement>, after: seq<Statement>, ok: bool) {
    before <= after && (ok <==> AllWork(works, |before|, |after|))
  }

  /** Only writes to the database came. */
  ghost predicate Writes(before: seq<Statement>, after: seq<Statement>, db: string) {
    before <= after && forall i :: |before| <= i < |after| ==> (after[i].PutNodes? || after[i].PutRels?) && after[i].db == db
  }

  /** Only what a clone sends came. */
  ghost predicate Clones(before: seq<Statement>, after: seq<Statement>) {
    before <= after && forall i :: |before| <= i < |after| ==>
      after[i].ReadNodes? || after[i].ReadRels? || after[i].PutNodes? || after[i].PutRels?
  }

  lemma WentOn(works: nat -> bool, a: seq<Statement>, b: seq<Statement>, c: seq<Statement>, ok: bool)
    requires Went(works, a, b, true) && Went(works, b, c, ok)
    ensures Went(works, a, c, ok)
  {
    if !ok {
      var i :| |b| <= i < |c| && !works(i);
      assert |a| <= i < |c|;
    }
  }

  lemma WentBoth(works: nat -> bool, a: seq<Statement>, b: seq<Statement>, c: seq<Statement>, first: bool, second: bool)
    requires Went(works, a, b, first) && Went(works, b, c, second)
    ensures Went(works, a, c, first && second)
  {
    if !first {
      var i :| |a| <= i < |b| && !works(i);
      assert i < |c|;
    } else {
      WentOn(works, a, b, c, second);
    }
  }

  /** The n-th statement that is issued succeeds if `works(n)`; nobody knows beforehand. */
  class Neo4jClient {
    const works: nat -> bool
    var graph: Graph
    var log: seq<Statement>

    constructor (works: nat -> bool)
      ensures this.works == works && graph == Graph(map[], map[]) && log == []
    {
      this.works, graph, log := works, Graph(map[], map[]), [];
    }

    /** Sends a statement. */
    method Issue(s: Statement) returns (ok: bool)
      modifies this`log
      ensures log == old(log) + [s] && ok == works(|old(log)|)
      ensures Went(works, old(log), log, ok)
    {
      ok := works(|log|);
      log := log + [s];
    }

    method ClearDB(db: string) returns (ok: bool)
      modifies this
      ensures log == old(log) + [Clear(db)] && ok == works(|old(log)|) && Went(works, old(log), log, ok)
      ensures graph == if ok then Cleared(old(graph), db) else old(graph)
      ensures ok ==> !graph.HasData(db)
      ensures SameOutside(old(graph), graph, db)
      ensures old(graph).Wf() ==> graph.Wf() && (ok ==> forall e :: e in graph.edges ==> e.db != db)
    {
      ok := Issue(Clear(db));
      if ok {
        if graph.Wf() { ClearedWf(graph, db); }
        ClearedOutside(graph, db);
        graph := Cleared(graph, db);
      }
    }

    /** Whether the database has any node; `ok` is false when the query fails. */
    method HasDB(db: string) returns (ok: bool, found: bool)
      modifies this`log
      ensures log == old(log) + [HasAny(db)] && ok == works(|old(log)|) && Went(works, old(log), log, ok)
      ensures ok ==> (found <==> graph.HasData(db))
    {
      ok := Issue(HasAny(db));
      found := exists k :: k in graph.nodes && k.db == db;
    }

    /** The databases with data, each once, in no particular order. */
    method ListDBs() returns (ok: bool, dbs: seq<string>)
      modifies this`log
      ensures log == old(log) + [ListAll] && ok == works(|old(log)|) && Went(works, old(log), log, ok)
      ensures ok ==> forall d :: d in dbs <==> graph.HasData(d)
      ensures ok ==> forall i, j :: 0 <= i < j < |dbs| ==> dbs[i] != dbs[j]
    {
      ok := Issue(ListAll);
      dbs := [];
      var todo := graph.nodes.Keys;
      while todo != {}
        invariant todo <= graph.nodes.Keys
        invariant forall d :: d in dbs ==> graph.HasData(d)
        invariant forall k :: k in graph.nodes && k !in todo ==> k.db in dbs
        invariant forall i, j :: 0 <= i < j < |dbs| ==> dbs[i] != dbs[j]
      {
        var k :| k in todo;
        todo := todo - {k};
        if k.db !in dbs {
          dbs := dbs + [k.db];
        }
      }
    }

    /** `MATCH (n {_db}) RETURN labels(n), n.uri, properties(n)`. */
    method QueryNodes(db: string) returns (ok: bool, rows: seq<Node>)
      modifies this`log
      ensures log == old(log) + [ReadNodes(db)] && ok == works(|old(log)|) && Went(works, old(log), log, ok)
      ensures ok ==> ListsNodes(graph, db, rows)
    {
      ok := Issue(ReadNodes(db));
      rows := [];
      var todo := set k | k in graph.nodes && k.db == db;
      while todo != {}
        invariant todo <= set k | k in graph.nodes && k.db == db
        invariant DistinctUris(rows)
        invariant forall n :: n in rows ==>
          NodeKey(db, n.uri) !in todo && graph.Node(NodeKey(db, n.uri)) == Some(NodeRec(n.labels, n.props))
        invariant forall k :: k in graph.nodes && k.db == db && k !in todo ==>
          Node(graph.nodes[k].labels, k.uri, graph.nodes[k].props) in rows
      {
        var k :| k in todo;
        todo := todo - {k};
        forall i | 0 <= i < |rows| ensures rows[i].uri != k.uri {
          assert rows[i] in rows;
          assert k == NodeKey(db, k.uri);
        }
        rows := rows + [Node(graph.nodes[k].labels, k.uri, graph.nodes[k].props)];
      }
    }

    /** `MATCH (a {_db})-[r]->(b {_db}) RETURN type(r), a.uri, b.uri`. */
    method QueryRels(db: string) returns (ok: bool, rows: seq<Relation>)
      modifies this`log
      ensures log == old(log) + [ReadRels(db)] && ok == works(|old(log)|) && Went(works, old(log), log, ok)
      ensures ok ==> ListsRels(graph, db, rows) && forall r :: r in rows ==> r.props == map[]
    {
      ok := Issue(ReadRels(db));
      rows := [];
      var todo := set e | e in graph.edges && e.db == db;
      while todo != {}
        invariant todo <= set e | e in graph.edges && e.db == db
        invariant log == old(log) + [ReadRels(db)]
        invariant forall e: Edge :: e.db == db ==>
          Occurrences(db, rows, e) == if e in todo then 0 else graph.Multiplicity(e)
        invariant forall r :: r in rows ==> r.props == map[]
      {
        var e :| e in todo;
        var n: nat := 0;
        ghost var before := rows;
        while n < graph.edges[e]
          invariant n <= graph.edges[e] && log == old(log) + [ReadRels(db)]
          invariant forall r :: r in rows ==> r.props == map[]
          invariant forall f: Edge :: f.db == db ==>
            Occurrences(db, rows, f) == Occurrences(db, before, f) + if f == e then n else 0
        {
          forall f: Edge {
            OccurrencesSnoc(db, rows, Relation(e.typ, e.from, e.to, map[]), f);
          }
          rows := rows + [Relation(e.typ, e.from, e.to, map[])];
          n := n + 1;
        }
        todo := todo - {e};
      }
    }

    /** One UNWIND over nodes: all rows or, on failure, none. */
    method RunNodes(db: string, rows: seq<Write>) returns (ok: bool)
      modifies this
      ensures log == old(log) + [PutNodes(db, rows)] && Went(works, old(log), log, ok)
      ensures graph == if ok then WriteAll(old(graph), db, rows) else old(graph)
    {
      ok := Issue(PutNodes(db, rows));
      if ok {
        graph := WriteAll(graph, db, rows);
      }
    }

    /** One UNWIND over relations. */
    method RunRels(op: EdgeOp, db: string, rels: seq<Relation>) returns (ok: bool)
      modifies this
      ensures log == old(log) + [PutRels(op, db, rels)] && Went(works, old(log), log, ok)
      ensures graph == if ok then TouchAll(old(graph), op, db, rels) else old(graph)
    {
      ok := Issue(PutRels(op, db, rels));
      if ok {
        graph := TouchAll(graph, op, db, rels);
      }
    }

    method GroupNodesByLabels(nodes: seq<Node>) returns (groups: map<string, seq<Node>>)
      ensures GroupedByLabel(groups, nodes)
    {
      groups := map[];
      for i := 0 to |nodes|
        invariant GroupedByLabel(groups, nodes[..i])
      {
        var l := nodes[i].MostSpecificLabel();
        GroupOneMoreNode(groups, nodes[..i], nodes[i]);
        assert nodes[..i + 1] == nodes[..i] + [nodes[i]];
        groups := groups[l := (if l in groups then groups[l] else []) + [nodes[i]]];
      }
      assert nodes[..|nodes|] == nodes;
    }

    method GroupRelsByType(rels: seq<Relation>) returns (groups: map<string, seq<Relation>>)
      ensures GroupedByType(groups, rels)
    {
      groups := map[];
      for i := 0 to |rels|
        invariant GroupedByType(groups, rels[..i])
      {
        var r := rels[i];
        GroupOneMoreRel(groups, rels[..i], r);
        assert rels[..i + 1] == rels[..i] + [r];
        groups := groups[r.typ := (if r.typ in groups then groups[r.typ] else []) + [r]];
      }
      assert rels[..|rels|] == rels;
    }

    /** One statement of BulkCreate or Upsert: the rows of a group, with the labels of its head. */
    method WriteGroup(mode: WriteMode, db: string, group: seq<Node>) returns (ok: bool)
      requires group != []
      modifies this
      ensures Writes(old(log), log, db) && Went(works, old(log), log, ok)
      ensures graph == if ok then WriteAll(old(graph), db, GroupRows(mode, db, group[0].labels, group)) else old(graph)
    {
      var rows: seq<Write> := [];
      for i := 0 to |group|
        invariant rows == GroupRows(mode, db, group[0].labels, group[..i])
        invariant graph == old(graph) && log == old(log)
      {
        GroupRowsSnoc(mode, db, group[0].labels, group[..i], group[i]);
        assert group[..i + 1] == group[..i] + [group[i]];
        rows := rows + [Row(mode, db, group[0].labels, group[i])];
      }
      assert group[..|group|] == group;
      ok := RunNodes(db, rows);
    }

    /** The loop over label groups of BulkCreate and Upsert. */
    method WriteNodeGroups(mode: WriteMode, db: string, nodes: seq<Node>) returns (ok: bool)
      requires Writable(graph, mode, db, nodes)
      modifies this
      ensures Writes(old(log), log, db) && Went(works, old(log), log, ok)
      ensures SameOutside(old(graph), graph, db)
      ensures old(graph).Wf() ==> graph.Wf()
      ensures ok ==> graph == WriteAll(old(graph), db, Rows(mode, db, nodes, nodes))
      ensures exists done :: graph == WriteAll(old(graph), db, InGroups(Rows(mode, db, nodes, nodes), done))
    {
      var groups := GroupNodesByLabels(nodes);
      ghost var all := Rows(mode, db, nodes, nodes);
      ghost var done: set<string> := {};
      var todo := groups.Keys;
      InNoGroup(all);
      ok := true;
      while todo != {} && ok
        invariant todo <= groups.Keys && done == groups.Keys - todo
        decreases todo, ok
        invariant graph == WriteAll(old(graph), db, InGroups(all, done))
        invariant Writes(old(log), log, db) && Went(works, old(log), log, ok)
      {
        var l :| l in todo;
        NextGroup(old(graph), mode, db, nodes, groups, done, l);
        ghost var sent := log;
        ok := WriteGroup(mode, db, groups[l]);
        WentOn(works, old(log), sent, log, ok);
        if ok {
          todo := todo - {l};
          done := done + {l};
        }
      }
      PartlyWritten(old(graph), mode, db, nodes, done);
      if ok {
        assert done == groups.Keys;
        AllGroups(mode, db, nodes, groups);
      }
    }

    /** The loop over relation types of BulkCreate, Upsert, DeleteRelations and CloneDB. */
    method TouchRelGroups(op: EdgeOp, db: string, rels: seq<Relation>) returns (ok: bool)
      modifies this
      ensures Writes(old(log), log, db) && Went(works, old(log), log, ok)
      ensures SameOutside(old(graph), graph, db)
      ensures old(graph).Wf() ==> graph.Wf()
      ensures graph.nodes == old(graph).nodes
      ensures ok ==> graph == TouchAll(old(graph), op, db, rels)
      ensures exists done :: graph == TouchAll(old(graph), op, db, OfTypes(rels, done))
    {
      var groups := GroupRelsByType(rels);
      ghost var done: set<string> := {};
      var todo := groups.Keys;
      OfNoType(rels);
      ok := true;
      while todo != {} && ok
        invariant todo <= groups.Keys && done == groups.Keys - todo
        decreases todo, ok
        invariant graph == TouchAll(old(graph), op, db, OfTypes(rels, done))
        invariant Writes(old(log), log, db) && Went(works, old(log), log, ok)
      {
        var t :| t in todo;
        OneMoreType(old(graph), op, db, rels, done, t);
        assert groups[t] == OfTypes(rels, {t});
        ghost var sent := log;
        ok := RunRels(op, db, groups[t]);
        WentOn(works, old(log), sent, log, ok);
        if ok {
          todo := todo - {t};
          done := done + {t};
        }
      }
      PartlyTouched(old(graph), op, db, rels, done);
      if ok {
        assert done == groups.Keys;
        AllTypes(rels, groups);
      }
    }

    /** Full load: CREATE of every node and relationship. On failure the statements that came
        before it have taken effect. */
    method BulkCreate(db: string, nodes: seq<Node>, rels: seq<Relation>) returns (ok: bool)
      requires Fresh(graph, db, nodes)
      modifies this
      ensures Writes(old(log), log, db) && Went(works, old(log), log, ok)
      ensures SameOutside(old(graph), graph, db)
      ensures old(graph).Wf() ==> graph.Wf()
      ensures ok ==> graph == Loaded(old(graph), Create, db, nodes, rels)
      ensures Stopped(old(graph), Create, db, nodes, rels, graph)
    {
      ok := Load(Create, db, nodes, rels);
    }

    /** Incremental load: MERGE of every node and relationship. */
    method Upsert(db: string, nodes: seq<Node>, rels: seq<Relation>) returns (ok: bool)
      requires Mergeable(graph, db, nodes)
      modifies this
      ensures Writes(old(log), log, db) && Went(works, old(log), log, ok)
      ensures SameOutside(old(graph), graph, db)
      ensures old(graph).Wf() ==> graph.Wf()
      ensures ok ==> graph == Loaded(old(graph), Merge, db, nodes, rels)
      ensures ok && old(graph).Wf() ==> Merged(old(graph), db, nodes, rels, graph)
      ensures Stopped(old(graph), Merge, db, nodes, rels, graph)
      ensures exists done :: graph.nodes == WriteAll(old(graph), db, InGroups(Rows(Merge, db, nodes, nodes), done)).nodes
    {
      ok := Load(Merge, db, nodes, rels);
      if old(graph).Wf() { UpsertMerges(old(graph), db, nodes, rels); }
      StoppedNodes(old(graph), Merge, db, nodes, rels, graph);
    }

    /** First all label groups, then all relation types. */
    method Load(mode: WriteMode, db: string, nodes: seq<Node>, rels: seq<Relation>) returns (ok: bool)
      requires Writable(graph, mode, db, nodes)
      modifies this
      ensures Writes(old(log), log, db) && Went(works, old(log), log, ok)
      ensures SameOutside(old(graph), graph, db)
      ensures old(graph).Wf() ==> graph.Wf()
      ensures ok ==> graph == Loaded(old(graph), mode, db, nodes, rels)
      ensures Stopped(old(graph), mode, db, nodes, rels, graph)
    {
      ok := WriteNodeGroups(mode, db, nodes);
      if ok {
        ghost var mid, sent := graph, log;
        ok := TouchRelGroups(EdgesOp(mode), db, rels);
        WentOn(works, old(log), sent, log, ok);
        ghost var types :| graph == TouchAll(mid, EdgesOp(mode), db, OfTypes(rels, types));
        StoppedLate(old(graph), mode, db, nodes, rels, types);
      } else {
        ghost var tags :| graph == WriteAll(old(graph), db, InGroups(Rows(mode, db, nodes, nodes), tags));
        StoppedEarly(old(graph), mode, db, nodes, rels, tags);
      }
    }

    method DeleteByURIs(db: string, uris: seq<string>) returns (ok: bool)
      modifies this
      ensures log == old(log) + [Detach(db, uris)] && Went(works, old(log), log, ok)
      ensures graph == if ok then Detached(old(graph), db, set u | u in uris) else old(graph)
      ensures ok ==> forall u :: u in uris ==> NodeKey(db, u) !in graph.nodes
      ensures forall k :: k in old(graph).nodes && !(k.db == db && k.uri in uris) ==> graph.Node(k) == old(graph).Node(k)
      ensures SameOutside(old(graph), graph, db) && (old(graph).Wf() ==> graph.Wf())
    {
      ok := Issue(Detach(db, uris));
      if ok {
        if graph.Wf() { DetachedWf(graph, db, set u | u in uris); }
        DetachedOutside(graph, db, set u | u in uris);
        graph := Detached(graph, db, set u | u in uris);
      }
    }

    method DeleteRelations(db: string, rels: seq<Relation>) returns (ok: bool)
      modifies this
      ensures Writes(old(log), log, db) && Went(works, old(log), log, ok)
      ensures SameOutside(old(graph), graph, db)
      ensures old(graph).Wf() ==> graph.Wf()
      ensures graph.nodes == old(graph).nodes
      ensures ok ==> graph == TouchAll(old(graph), DeleteEdges, db, rels)
      ensures exists done :: graph == TouchAll(old(graph), DeleteEdges, db, OfTypes(rels, done))
    {
      ok := TouchRelGroups(DeleteEdges, db, rels);
    }

    method GroupCloneNodes(nodes: seq<Node>) returns (groups: map<string, seq<Node>>)
      ensures GroupedByLabels(groups, nodes)
    {
      groups := map[];
      for i := 0 to |nodes|
        invariant GroupedByLabels(groups, nodes[..i])
      {
        GroupOneMoreClone(groups, nodes[..i], nodes[i]);
        assert nodes[..i + 1] == nodes[..i] + [nodes[i]];
        if nodes[i].labels != [] {
          var l := Join(nodes[i].labels);
          groups := groups[l := (if l in groups then groups[l] else []) + [nodes[i]]];
        }
      }
      assert nodes[..|nodes|] == nodes;
    }

    method CloneGroup(to: string, group: seq<Node>) returns (ok: bool)
      requires group != []
      modifies this
      ensures Writes(old(log), log, to) && Went(works, old(log), log, ok)
      ensures graph == if ok then WriteAll(old(graph), to, CloneGroupRows(to, group[0].labels, group)) else old(graph)
    {
      var rows: seq<Write> := [];
      for i := 0 to |group|
        invariant rows == CloneGroupRows(to, group[0].labels, group[..i])
        invariant graph == old(graph) && log == old(log)
      {
        CloneGroupRowsSnoc(to, group[0].labels, group[..i], group[i]);
        assert group[..i + 1] == group[..i] + [group[i]];
        rows := rows + [CloneRow(to, group[0].labels, group[i])];
      }
      assert group[..|group|] == group;
      ok := RunNodes(to, rows);
    }

    /** The loop over label lists of CloneDB. */
    method CloneNodeGroups(to: string, nodes: seq<Node>) returns (ok: bool)
      requires DistinctUris(nodes)
      requires forall n :: n in nodes && n.labels != [] ==> PlainLabels(n.labels)
      modifies this
      ensures Writes(old(log), log, to) && Went(works, old(log), log, ok)
      ensures SameOutside(old(graph), graph, to)
      ensures ok ==> graph == WriteAll(old(graph), to, CloneRows(to, nodes))
      ensures exists keys :: graph == WriteAll(old(graph), to, InGroups(CloneRows(to, nodes), keys))
    {
      var groups := GroupCloneNodes(nodes);
      ghost var all := CloneRows(to, nodes);
      ghost var done: set<string> := {};
      var todo := groups.Keys;
      InNoGroup(all);
      ok := true;
      while todo != {} && ok
        invariant todo <= groups.Keys && done == groups.Keys - todo
        decreases todo, ok
        invariant graph == WriteAll(old(graph), to, InGroups(all, done))
        invariant Writes(old(log), log, to) && Went(works, old(log), log, ok)
      {
        var l :| l in todo;
        NextCloneGroup(old(graph), to, nodes, groups, done, l);
        ghost var sent := log;
        ok := CloneGroup(to, groups[l]);
        WentOn(works, old(log), sent, log, ok);
        if ok {
          todo := todo - {l};
          done := done + {l};
        }
      }
      WriteAllOutside(old(graph), to, InGroups(all, done));
      if ok {
        assert done == groups.Keys;
        AllCloneGroups(to, nodes, groups);
      }
    }

    /** Copies one logical database into another, which the caller has cleared. */
    method CloneDB(from: string, to: string) returns (ok: bool)
      requires graph.Wf() && !graph.HasData(to)
      requires forall k :: k in graph.nodes && k.db == from && graph.nodes[k].labels != [] ==> PlainLabels(graph.nodes[k].labels)
      modifies this
      ensures Clones(old(log), log) && Went(works, old(log), log, ok)
      ensures SameOutside(old(graph), graph, to) && graph.Wf()
      ensures ok ==> graph == Copied(old(graph), from, to)
      ensures exists keys, types :: PartlyCopied(old(graph), from, to, keys, types, graph)
    {
      CopiedNot(graph, from, to);
      var nodes, rels;
      ok, nodes := QueryNodes(from);
      if !ok {
        return;
      }
      ghost var sent := log;
      ok, rels := QueryRels(from);
      WentOn(works, old(log), sent, log, ok);
      if !ok {
        return;
      }
      forall n | n in nodes && n.labels != [] ensures PlainLabels(n.labels) {
        assert graph.Node(NodeKey(from, n.uri)) == Some(NodeRec(n.labels, n.props));
      }
      if from == to {
        NothingToClone(graph, to, nodes, rels);
        CopiedNothing(graph, to, to);
      }
      sent := log;
      ok := CloneNodeGroups(to, nodes);
      WentOn(works, old(log), sent, log, ok);
      ghost var keys :| graph == WriteAll(old(graph), to, InGroups(CloneRows(to, nodes), keys));
      if from != to {
        CloneStoppedEarly(old(graph), from, to, nodes, keys);
        PartlyCopiedWf(old(graph), from, to, keys, {}, graph);
      }
      if !ok {
        return;
      }
      var typed := SkipUntyped(rels);
      if from != to {
        ClonedNodes(old(graph), from, to, nodes);
        ClonedEdges(old(graph), from, to, rels);
      }
      sent := log;
      ok := TouchRelGroups(CreateEdges, to, typed);
      WentOn(works, old(log), sent, log, ok);
      ghost var types :| graph == TouchAll(WriteAll(old(graph), to, CloneRows(to, nodes)), CreateEdges, to, OfTypes(typed, types));
      if from != to {
        CloneStoppedLate(old(graph), from, to, rels, types);
      }
    }

    method SkipUntyped(rels: seq<Relation>) returns (typed: seq<Relation>)
      ensures typed == Typed(rels)
    {
      typed := [];
      for i := 0 to |rels|
        invariant typed == Typed(rels[..i])
      {
        TypedSnoc(rels[..i], rels[i]);
        assert rels[..i + 1] == rels[..i] + [rels[i]];
        if rels[i].typ != "" {
          typed := typed + [rels[i]];
        }
      }
      assert rels[..|rels|] == rels;
    }
  }
}
