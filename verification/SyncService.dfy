/** Full and incremental synchronisation (internal/service/sync_service.go) and the Kafka consumer
    that drives the latter (internal/events/kafka_consumer.go). The caller holds the write lock. */
module SyncService {
  import opened Common
  import opened GraphModel
  import opened GraphStore
  import opened Schema
  import opened Inheritance
  import opened Normalizer
  import opened Assembler
  import opened Replay
  import opened SyncEvents

  // ---------------------------------------------------------------- counting

  /** The relationships of one logical database. */
  function EdgesIn(g: Graph, db: string): map<Edge, Count> {
    map e | e in g.edges && e.db == db :: g.edges[e]
  }

  ghost function Total(m: map<Edge, Count>): nat {
    if m == map[] then 0 else var e :| e in m; m[e] + Total(m - {e})
  }

  lemma {:induction false} TotalTake(m: map<Edge, Count>, e: Edge)
    requires e in m
    ensures Total(m) == m[e] + Total(m - {e})
    decreases m
  {
    var f :| f in m && Total(m) == m[f] + Total(m - {f});
    if e != f {
      TotalTake(m - {f}, e);
      TotalTake(m - {e}, f);
      assert m - {f} - {e} == m - {e} - {f};
    }
  }

  lemma TotalBump(m: map<Edge, Count>, e: Edge)
    ensures Total(m[e := (if e in m then m[e] else 0) + 1]) == Total(m) + 1
  {
    var n := m[e := (if e in m then m[e] else 0) + 1];
    TotalTake(n, e);
    assert n - {e} == m - {e};
    if e in m {
      TotalTake(m, e);
    } else {
      assert m - {e} == m;
    }
  }

  lemma {:induction false} TotalCreated(g: Graph, db: string, rels: seq<Relation>)
    requires forall r :: r in rels ==> g.Joins(EdgeOf(db, r))
    ensures Total(EdgesIn(TouchAll(g, CreateEdges, db, rels), db)) == Total(EdgesIn(g, db)) + |rels|
    decreases |rels|
  {
    if rels != [] {
      var e := EdgeOf(db, rels[0]);
      assert rels == [rels[0]] + rels[1..];
      assert g.Joins(e);
      var h := TouchEdge(g, CreateEdges, e);
      assert EdgesIn(h, db) == EdgesIn(g, db)[e := (if e in EdgesIn(g, db) then EdgesIn(g, db)[e] else 0) + 1];
      TotalBump(EdgesIn(g, db), e);
      forall r | r in rels[1..] ensures h.Joins(EdgeOf(db, r)) { assert g.Joins(EdgeOf(db, r)); }
      TotalCreated(h, db, rels[1..]);
    }
  }

  function KeysIn(g: Graph, db: string): set<NodeKey> {
    set k | k in g.nodes && k.db == db
  }

  lemma {:induction false} DistinctKeys(db: string, ns: seq<Node>)
    requires DistinctUris(ns)
    ensures |set n | n in ns :: NodeKey(db, n.uri)| == |ns|
    decreases |ns|
  {
    var keys := set n | n in ns :: NodeKey(db, n.uri);
    if ns == [] {
      assert keys == {};
    } else {
      DistinctKeys(db, ns[1..]);
      var rest := set n | n in ns[1..] :: NodeKey(db, n.uri);
      assert ns == [ns[0]] + ns[1..];
      assert keys == {NodeKey(db, ns[0].uri)} + rest;
      assert NodeKey(db, ns[0].uri) !in rest;
    }
  }

  // ---------------------------------------------------------------- what a full load leaves

  /** The node of a resource as BulkCreate stores it. */
  function StoredNode(types: Types, db: string, r: Normalized): NodeRec
    requires r.kind in types
  {
    NodeRec(Labels(types, r.kind), SetPlus(Ident(db, r.uri), RowProps(Create, db, NodeOf(types, r))))
  }

  /** Database `db` holds exactly the nodes of the batch, with exactly the relationships derived
      from it whose target is in it, each as often as it is derived. */
  ghost predicate HoldsExactly(g: Graph, o: Ontology, db: string, rs: seq<Normalized>) {
    && (forall r :: r in rs ==> r.kind in o.types)
    && (forall r :: r in rs ==> g.Node(NodeKey(db, r.uri)) == Some(StoredNode(o.types, db, r)))
    && (forall k :: k in g.nodes && k.db == db ==> k.uri in Uris(rs))
    && (forall e: Edge :: e.db == db ==>
          g.Multiplicity(e) == if e.to in Uris(rs) then Derived(o.types, o.rels, rs)[RelationOf(e)] else 0)
  }

  lemma {:induction false} OneLabelList(types: Types, rs: seq<Normalized>, i: nat)
    requires "" !in types && i < |rs| && forall r :: r in rs ==> r.kind in types
    ensures GroupLabels(NodesOf(types, rs), NodeOf(types, rs[i]).MostSpecificLabel()) == Labels(types, rs[i].kind)
  {
    var ns := NodesOf(types, rs);
    assert rs[i] in rs;
    KindIsLastLabel(types, rs[i].kind);
    var l := ns[i].MostSpecificLabel();
    NodesLabelledMembers(ns, l);
    assert ns[i] in ns && ns[i] in NodesLabelled(ns, l);
    var head := NodesLabelled(ns, l)[0];
    assert head in NodesLabelled(ns, l);
    var j :| 0 <= j < |ns| && ns[j] == head;
    assert rs[j] in rs;
    KindIsLastLabel(types, rs[j].kind);
  }

  lemma FullRow(g: Graph, types: Types, db: string, rs: seq<Normalized>, i: nat)
    requires "" !in types && i < |rs| && forall r :: r in rs ==> r.kind in types
    requires !g.HasData(db) && DistinctUris(NodesOf(types, rs))
    ensures var ns := NodesOf(types, rs);
      WriteAll(g, db, Rows(Create, db, ns, ns)).Node(NodeKey(db, rs[i].uri)) == Some(StoredNode(types, db, rs[i]))
  {
    var ns := NodesOf(types, rs);
    var ws := Rows(Create, db, ns, ns);
    RowAt(Create, db, ns, ns);
    OneLabelList(types, rs, i);
    assert DistinctRows(ws);
    var k := NodeKey(db, rs[i].uri);
    WriteAllAt(g, db, ws, k);
    assert ws[i] in ws && ws[i].uri == k.uri;
    OneRow(ws, ws[i]);
    assert k !in g.nodes;
    assert WrittenAll(db, None, [ws[i]]) == Some(Written(db, None, ws[i]));
  }

  lemma FullKeys(g: Graph, types: Types, db: string, rs: seq<Normalized>, k: NodeKey)
    requires (forall r :: r in rs ==> r.kind in types) && !g.HasData(db) && k.db == db
    requires var ns := NodesOf(types, rs); k in WriteAll(g, db, Rows(Create, db, ns, ns)).nodes
    ensures k.uri in Uris(rs)
  {
    var ns := NodesOf(types, rs);
    var ws := Rows(Create, db, ns, ns);
    RowAt(Create, db, ns, ns);
    WriteAllAt(g, db, ws, k);
    ForUriOnly(ws, k.uri);
    if ForUri(ws, k.uri) != [] {
      var w := ForUri(ws, k.uri)[0];
      assert w in ForUri(ws, k.uri);
      var i :| 0 <= i < |ws| && ws[i] == w;
      assert rs[i] in rs;
    }
  }

  /** What the assembler hands over: every derived relationship is kept or an orphan. */
  ghost predicate Split(o: Ontology, rs: seq<Normalized>, kept: seq<Relation>, orphans: seq<Relation>) {
    && (forall r :: r in rs ==> r.kind in o.types)
    && multiset(kept) + multiset(orphans) == Derived(o.types, o.rels, rs)
    && (forall x :: x in kept ==> x.to in Uris(rs))
    && (forall x :: x in orphans ==> x.to !in Uris(rs))
  }

  /** The nodes of a batch, in a database without relationships. */
  ghost predicate HoldsNodes(g: Graph, o: Ontology, db: string, rs: seq<Normalized>) {
    && (forall r :: r in rs ==> r.kind in o.types)
    && (forall r :: r in rs ==> g.Node(NodeKey(db, r.uri)) == Some(StoredNode(o.types, db, r)))
    && (forall k :: k in g.nodes && k.db == db ==> k.uri in Uris(rs))
    && (forall e: Edge :: e.db == db ==> e !in g.edges)
  }

  lemma FullNodes(g: Graph, o: Ontology, db: string, rs: seq<Normalized>)
    requires g.Wf() && "" !in o.types && forall r :: r in rs ==> r.kind in o.types
    requires !g.HasData(db) && DistinctUris(NodesOf(o.types, rs))
    ensures HoldsNodes(WriteAll(g, db, Rows(Create, db, NodesOf(o.types, rs), NodesOf(o.types, rs))), o, db, rs)
  {
    var ns := NodesOf(o.types, rs);
    var mid := WriteAll(g, db, Rows(Create, db, ns, ns));
    forall r | r in rs ensures mid.Node(NodeKey(db, r.uri)) == Some(StoredNode(o.types, db, r)) {
      var i :| 0 <= i < |rs| && rs[i] == r;
      FullRow(g, o.types, db, rs, i);
    }
    forall k | k in mid.nodes && k.db == db ensures k.uri in Uris(rs) {
      FullKeys(g, o.types, db, rs, k);
    }
    WriteAllAt(g, db, Rows(Create, db, ns, ns), NodeKey(db, ""));
    forall e: Edge | e.db == db ensures e !in mid.edges {
      NoData(g, db, e);
    }
  }

  lemma KeptJoins(mid: Graph, o: Ontology, db: string, rs: seq<Normalized>, kept: seq<Relation>, orphans: seq<Relation>)
    requires HoldsNodes(mid, o, db, rs) && Split(o, rs, kept, orphans)
    ensures forall r :: r in kept ==> mid.Joins(EdgeOf(db, r)) && r.props == map[]
  {
    forall r | r in kept ensures mid.Joins(EdgeOf(db, r)) && r.props == map[] {
      KeptExactly(o.types, o.rels, rs, kept, orphans, r);
      UriStored(mid, o, db, rs, r.from);
      UriStored(mid, o, db, rs, r.to);
    }
  }

  lemma FullEdge(mid: Graph, o: Ontology, db: string, rs: seq<Normalized>, kept: seq<Relation>, orphans: seq<Relation>, e: Edge)
    requires HoldsNodes(mid, o, db, rs) && Split(o, rs, kept, orphans) && e.db == db
    ensures TouchAll(mid, CreateEdges, db, kept).Multiplicity(e)
         == if e.to in Uris(rs) then Derived(o.types, o.rels, rs)[RelationOf(e)] else 0
  {
    KeptJoins(mid, o, db, rs, kept, orphans);
    TouchAllAt(mid, CreateEdges, db, kept, e);
    OccurrencesCount(db, kept, e);
    KeptExactly(o.types, o.rels, rs, kept, orphans, RelationOf(e));
    var x := RelationOf(e);
    assert x in kept ==> mid.Joins(EdgeOf(db, x)) && EdgeOf(db, x) == e;
  }

  lemma FullCounts(mid: Graph, o: Ontology, db: string, rs: seq<Normalized>, kept: seq<Relation>, orphans: seq<Relation>)
    requires HoldsNodes(mid, o, db, rs) && Split(o, rs, kept, orphans) && DistinctUris(NodesOf(o.types, rs))
    ensures |KeysIn(mid, db)| == |rs|
    ensures Total(EdgesIn(TouchAll(mid, CreateEdges, db, kept), db)) == |kept|
  {
    var ns := NodesOf(o.types, rs);
    forall k ensures k in KeysIn(mid, db) <==> k in set n | n in ns :: NodeKey(db, n.uri) {
      LoadedKey(mid, o, db, rs, k);
    }
    assert KeysIn(mid, db) == set n | n in ns :: NodeKey(db, n.uri);
    DistinctKeys(db, ns);
    KeptJoins(mid, o, db, rs, kept, orphans);
    assert EdgesIn(mid, db) == map[];
    TotalCreated(mid, db, kept);
  }

  /** Loading a batch of distinct URIs into an empty database. */
  lemma FullLoad(g: Graph, o: Ontology, db: string, rs: seq<Normalized>, kept: seq<Relation>, orphans: seq<Relation>)
    requires g.Wf() && "" !in o.types && Split(o, rs, kept, orphans)
    requires !g.HasData(db) && DistinctUris(NodesOf(o.types, rs))
    ensures var h := Loaded(g, Create, db, NodesOf(o.types, rs), kept);
      && HoldsExactly(h, o, db, rs)
      && |KeysIn(h, db)| == |rs|
      && Total(EdgesIn(h, db)) == |kept|
  {
    var ns := NodesOf(o.types, rs);
    var mid := WriteAll(g, db, Rows(Create, db, ns, ns));
    var h := Loaded(g, Create, db, ns, kept);
    FullNodes(g, o, db, rs);
    FullCounts(mid, o, db, rs, kept, orphans);
    FullHolds(mid, o, db, rs, kept, orphans);
    assert KeysIn(h, db) == KeysIn(mid, db);
  }

  lemma FullHolds(mid: Graph, o: Ontology, db: string, rs: seq<Normalized>, kept: seq<Relation>, orphans: seq<Relation>)
    requires HoldsNodes(mid, o, db, rs) && Split(o, rs, kept, orphans)
    ensures var h := TouchAll(mid, CreateEdges, db, kept); h.nodes == mid.nodes && HoldsExactly(h, o, db, rs)
  {
    var h := TouchAll(mid, CreateEdges, db, kept);
    TouchAllAt(mid, CreateEdges, db, kept, Edge(db, "", "", ""));
    assert h.nodes == mid.nodes;
    forall r | r in rs ensures h.Node(NodeKey(db, r.uri)) == Some(StoredNode(o.types, db, r)) {
      assert mid.Node(NodeKey(db, r.uri)) == Some(StoredNode(o.types, db, r));
    }
    forall e: Edge | e.db == db
      ensures h.Multiplicity(e) == if e.to in Uris(rs) then Derived(o.types, o.rels, rs)[RelationOf(e)] else 0
    {
      FullEdge(mid, o, db, rs, kept, orphans, e);
    }
  }

  lemma UriStored(g: Graph, o: Ontology, db: string, rs: seq<Normalized>, uri: string)
    requires forall r :: r in rs ==> r.kind in o.types
    requires forall r :: r in rs ==> g.Node(NodeKey(db, r.uri)) == Some(StoredNode(o.types, db, r))
    requires uri in Uris(rs)
    ensures NodeKey(db, uri) in g.nodes
  {
    var r :| r in rs && r.uri == uri;
    assert g.Node(NodeKey(db, r.uri)).Some?;
  }

  lemma LoadedKey(g: Graph, o: Ontology, db: string, rs: seq<Normalized>, k: NodeKey)
    requires forall r :: r in rs ==> r.kind in o.types
    requires forall r :: r in rs ==> g.Node(NodeKey(db, r.uri)) == Some(StoredNode(o.types, db, r))
    requires k in g.nodes && k.db == db ==> k.uri in Uris(rs)
    ensures k in KeysIn(g, db) <==> k in set n | n in NodesOf(o.types, rs) :: NodeKey(db, n.uri)
  {
    var ns := NodesOf(o.types, rs);
    if k in KeysIn(g, db) {
      var r :| r in rs && r.uri == k.uri;
      var i :| 0 <= i < |rs| && rs[i] == r;
      assert ns[i] in ns && ns[i].uri == k.uri;
    }
    if k in set n | n in ns :: NodeKey(db, n.uri) {
      var n :| n in ns && k == NodeKey(db, n.uri);
      var i :| 0 <= i < |ns| && ns[i] == n;
      assert rs[i] in rs;
      UriStored(g, o, db, rs, rs[i].uri);
    }
  }

  // ---------------------------------------------------------------- the service

  datatype SyncResult = SyncResult(nodesCreated: nat, relationsCreated: nat, orphanEdgesSkipped: nat)

  /** All resources of the pulls that succeeded, in order; a failed pull contributes nothing. */
  function Collected(pulls: seq<Option<seq<Resource>>>): seq<Resource> {
    if pulls == [] then []
    else Collected(pulls[..|pulls| - 1]) + match pulls[|pulls| - 1] case Some(rs) => rs case None => []
  }

  lemma {:induction false} NormalizeAllConcat(o: Ontology, a: seq<Resource>, b: seq<Resource>)
    ensures NormalizeAll(o, a + b) == NormalizeAll(o, a) + NormalizeAll(o, b)
    decreases |a|
  {
    if a == [] {
      assert a + b == b;
    } else {
      assert (a + b)[1..] == a[1..] + b;
      NormalizeAllConcat(o, a[1..], b);
    }
  }

  // ---------------------------------------------------------------- what the connectors delivered

  /** Resource i of pull j, which succeeded, normalizes to n. */
  ghost predicate Pulled(o: Ontology, pulls: seq<Option<seq<Resource>>>, j: int, i: int, n: Normalized) {
    && 0 <= j < |pulls| && pulls[j].Some? && 0 <= i < |pulls[j].value|
    && NormalizedFrom(o.types, o.show, pulls[j].value[i]) == Some(n)
  }

  /** All resources delivered that normalize, by pull and position. */
  ghost function PulledAt(o: Ontology, pulls: seq<Option<seq<Resource>>>): set<(int, int)> {
    set j, i | 0 <= j < |pulls| && pulls[j].Some? && 0 <= i < |pulls[j].value|
      && NormalizedFrom(o.types, o.show, pulls[j].value[i]).Some? :: (j, i)
  }

  /** No two of them have one URI. */
  ghost predicate PulledOnce(o: Ontology, pulls: seq<Option<seq<Resource>>>) {
    forall j, i, n, k, l, m :: Pulled(o, pulls, j, i, n) && Pulled(o, pulls, k, l, m) && n.uri == m.uri ==> j == k && i == l
  }

  ghost predicate PullsUri(o: Ontology, pulls: seq<Option<seq<Resource>>>, uri: string) {
    exists j, i, n :: Pulled(o, pulls, j, i, n) && n.uri == uri
  }

  /** The places that name e: pull, resource, relation field and position in its list. */
  ghost function Places(o: Ontology, pulls: seq<Option<seq<Resource>>>, e: Relation): set<(int, int, string, nat)> {
    set j, i, f, p: nat | 0 <= j < |pulls| && pulls[j].Some? && 0 <= i < |pulls[j].value|
      && (j, i) in PulledAt(o, pulls) && Place(o, pulls, j, i, f, p, e)
      && f in NormalizedFrom(o.types, o.show, pulls[j].value[i]).value.properties
      && p < Size(NormalizedFrom(o.types, o.show, pulls[j].value[i]).value.properties[f]) :: (j, i, f, p)
  }

  ghost predicate Place(o: Ontology, pulls: seq<Option<seq<Resource>>>, j: int, i: int, f: string, p: nat, e: Relation)
    requires (j, i) in PulledAt(o, pulls)
  {
    var n := NormalizedFrom(o.types, o.show, pulls[j].value[i]).value;
    Stands(o.types, o.rels, n, f, e) && Holds(n.properties[f], p, e.to)
  }

  /** The node of n: the labels of its kind, its identity, and of its properties those that are no
      relation fields and not null. */
  ghost predicate StoredOf(o: Ontology, db: string, n: Normalized, rec: NodeRec) {
    && rec.labels == Labels(o.types, n.kind)
    && ValueAt(rec.props, "_db") == Some(Str(db)) && ValueAt(rec.props, "uri") == Some(Str(n.uri))
    && forall k :: k != "_db" && k != "uri" ==> ValueAt(rec.props, k) == if Plain(o, n, k) then Shown(n.properties[k]) else None
  }

  /** The default database holds exactly what was delivered: its nodes, and its relationships as often
      as they are named, as far as their target was delivered. */
  ghost predicate HoldsPulled(g: Graph, o: Ontology, pulls: seq<Option<seq<Resource>>>) {
    && (forall j, i, n :: Pulled(o, pulls, j, i, n) ==>
          NodeKey(DEFAULT_DB, n.uri) in g.nodes && StoredOf(o, DEFAULT_DB, n, g.nodes[NodeKey(DEFAULT_DB, n.uri)]))
    && (forall k :: k in g.nodes && k.db == DEFAULT_DB ==> PullsUri(o, pulls, k.uri))
    && (forall e: Edge :: e.db == DEFAULT_DB ==>
          g.Multiplicity(e) == if PullsUri(o, pulls, e.to) then |Places(o, pulls, RelationOf(e))| else 0)
  }

  /** The list rs holds what was delivered, each once; `at` says which is which. */
  ghost predicate Lists(o: Ontology, pulls: seq<Option<seq<Resource>>>, rs: seq<Normalized>, at: seq<(int, int)>) {
    && |at| == |rs|
    && (forall x :: 0 <= x < |at| ==> Pulled(o, pulls, at[x].0, at[x].1, rs[x]))
    && (forall x, y :: 0 <= x < y < |at| ==> at[x] != at[y])
    && (forall j, i, n :: Pulled(o, pulls, j, i, n) ==> (j, i) in at)
  }

  lemma {:induction false} CollectedLists(o: Ontology, pulls: seq<Option<seq<Resource>>>) returns (at: seq<(int, int)>)
    ensures Lists(o, pulls, NormalizeAll(o, Collected(pulls)), at)
    decreases |pulls|
  {
    at := [];
    if pulls != [] {
      var n := |pulls| - 1;
      var init := pulls[..n];
      assert pulls == init + [pulls[n]];
      var before := CollectedLists(o, init);
      CollectedNext(o, init, pulls[n]);
      if pulls[n].Some? {
        var last := SelectedAll(o, pulls[n].value);
        at := before + InPull(n, last);
        ListsMore(o, init, pulls[n].value, NormalizeAll(o, Collected(init)), before, NormalizeAll(o, pulls[n].value), last);
      } else {
        at := before;
        ListsOn(o, init, NormalizeAll(o, Collected(init)), before);
      }
    }
  }

  lemma CollectedNext(o: Ontology, init: seq<Option<seq<Resource>>>, pull: Option<seq<Resource>>)
    ensures NormalizeAll(o, Collected(init + [pull]))
         == NormalizeAll(o, Collected(init)) + match pull case Some(rs) => NormalizeAll(o, rs) case None => []
  {
    assert (init + [pull])[..|init|] == init;
    if pull.Some? {
      NormalizeAllConcat(o, Collected(init), pull.value);
    } else {
      assert Collected(init) + [] == Collected(init);
    }
  }

  lemma ListsOn(o: Ontology, init: seq<Option<seq<Resource>>>, rs: seq<Normalized>, at: seq<(int, int)>)
    requires Lists(o, init, rs, at)
    ensures Lists(o, init + [None], rs, at)
  {
    var pulls: seq<Option<seq<Resource>>> := init + [None];
    forall j, i, n ensures Pulled(o, pulls, j, i, n) <==> Pulled(o, init, j, i, n) {
      if 0 <= j < |init| { assert pulls[j] == init[j]; }
    }
  }

  /** The positions in pull n. */
  function InPull(n: int, positions: seq<nat>): seq<(int, int)> {
    seq(|positions|, y requires 0 <= y < |positions| => (n, positions[y]))
  }

  lemma ListsMore(o: Ontology, init: seq<Option<seq<Resource>>>, last: seq<Resource>, rs: seq<Normalized>, at: seq<(int, int)>,
                  more: seq<Normalized>, positions: seq<nat>)
    requires Lists(o, init, rs, at) && Selected(o, last, more, positions)
    ensures Lists(o, init + [Some(last)], rs + more, at + InPull(|init|, positions))
  {
    MorePulled(o, init, last, rs, at, more, positions);
    MoreDistinct(o, init, last, rs, at, more, positions);
    MoreCovered(o, init, last, rs, at, more, positions);
  }

  lemma MorePulled(o: Ontology, init: seq<Option<seq<Resource>>>, last: seq<Resource>, rs: seq<Normalized>, at: seq<(int, int)>,
                   more: seq<Normalized>, positions: seq<nat>)
    requires Lists(o, init, rs, at) && Selected(o, last, more, positions)
    ensures var all := at + InPull(|init|, positions);
      |all| == |rs + more| && forall x :: 0 <= x < |all| ==> Pulled(o, init + [Some(last)], all[x].0, all[x].1, (rs + more)[x])
  {
    var all := at + InPull(|init|, positions);
    forall x | 0 <= x < |all| ensures Pulled(o, init + [Some(last)], all[x].0, all[x].1, (rs + more)[x]) {
      OneMorePulled(o, init, last, rs, at, more, positions, x);
    }
  }

  lemma OneMorePulled(o: Ontology, init: seq<Option<seq<Resource>>>, last: seq<Resource>, rs: seq<Normalized>, at: seq<(int, int)>,
                      more: seq<Normalized>, positions: seq<nat>, x: nat)
    requires Lists(o, init, rs, at) && Selected(o, last, more, positions) && x < |at| + |positions|
    ensures var z := (at + InPull(|init|, positions))[x]; Pulled(o, init + [Some(last)], z.0, z.1, (rs + more)[x])
  {
    if x < |at| {
      assert (at + InPull(|init|, positions))[x] == at[x] && (rs + more)[x] == rs[x];
      PulledStays(o, init, last, at[x].0, at[x].1, rs[x]);
    } else {
      var y := x - |at|;
      assert (at + InPull(|init|, positions))[x] == (|init|, positions[y]) && (rs + more)[x] == more[y];
      PositionPulled(o, init, last, more, positions, y);
    }
  }

  lemma PositionPulled(o: Ontology, init: seq<Option<seq<Resource>>>, last: seq<Resource>, rs: seq<Normalized>, positions: seq<nat>, y: nat)
    requires Selected(o, last, rs, positions) && y < |positions|
    ensures Pulled(o, init + [Some(last)], |init|, positions[y], rs[y])
  {
  }

  lemma MoreDistinct(o: Ontology, init: seq<Option<seq<Resource>>>, last: seq<Resource>, rs: seq<Normalized>, at: seq<(int, int)>,
                     more: seq<Normalized>, positions: seq<nat>)
    requires Lists(o, init, rs, at) && Selected(o, last, more, positions)
    ensures var all := at + InPull(|init|, positions); forall x, y :: 0 <= x < y < |all| ==> all[x] != all[y]
  {
    forall x | 0 <= x < |at| ensures at[x].0 < |init| { assert Pulled(o, init, at[x].0, at[x].1, rs[x]); }
  }

  lemma MoreCovered(o: Ontology, init: seq<Option<seq<Resource>>>, last: seq<Resource>, rs: seq<Normalized>, at: seq<(int, int)>,
                    more: seq<Normalized>, positions: seq<nat>)
    requires Lists(o, init, rs, at) && Selected(o, last, more, positions)
    ensures forall j, i, m :: Pulled(o, init + [Some(last)], j, i, m) ==> (j, i) in at + InPull(|init|, positions)
  {
    forall j, i, m | Pulled(o, init + [Some(last)], j, i, m) ensures (j, i) in at + InPull(|init|, positions) {
      if j < |init| {
        PulledStays(o, init, last, j, i, m);
        assert (j, i) in at;
      } else {
        PositionThere(o, last, more, positions, i, m, |init|);
      }
    }
  }

  lemma PulledStays(o: Ontology, init: seq<Option<seq<Resource>>>, last: seq<Resource>, j: int, i: int, n: Normalized)
    requires j < |init|
    ensures Pulled(o, init + [Some(last)], j, i, n) <==> Pulled(o, init, j, i, n)
  {
    if 0 <= j { assert (init + [Some(last)])[j] == init[j]; }
  }

  lemma PositionThere(o: Ontology, last: seq<Resource>, rs: seq<Normalized>, positions: seq<nat>, i: int, m: Normalized, n: int)
    requires Selected(o, last, rs, positions) && 0 <= i < |last| && NormalizedFrom(o.types, o.show, last[i]) == Some(m)
    ensures (n, i) in InPull(n, positions)
  {
    assert i in positions;
    var y :| 0 <= y < |positions| && positions[y] == i;
    assert InPull(n, positions)[y] == (n, i);
  }

  lemma {:induction false} SameSize<A, B>(a: set<A>, b: set<B>, f: A -> B)
    requires forall x :: x in a ==> f(x) in b
    requires forall x, y :: x in a && y in a && f(x) == f(y) ==> x == y
    requires forall z :: z in b ==> exists x :: x in a && f(x) == z
    ensures |a| == |b|
    decreases a
  {
    if a == {} {
      assert b == {};
    } else {
      var x :| x in a;
      SameSize(a - {x}, b - {f(x)}, f);
    }
  }

  lemma PulledCounted(o: Ontology, pulls: seq<Option<seq<Resource>>>, rs: seq<Normalized>, at: seq<(int, int)>)
    requires Lists(o, pulls, rs, at)
    ensures |PulledAt(o, pulls)| == |rs|
  {
    forall z ensures z in PulledAt(o, pulls) <==> z in at {
      if z in PulledAt(o, pulls) {
        assert Pulled(o, pulls, z.0, z.1, NormalizedFrom(o.types, o.show, pulls[z.0].value[z.1]).value);
      }
      if z in at {
        var x :| 0 <= x < |at| && at[x] == z;
        assert Pulled(o, pulls, at[x].0, at[x].1, rs[x]);
      }
    }
    DistinctCount(at);
    assert PulledAt(o, pulls) == set z | z in at;
  }

  lemma {:induction false} DistinctCount<T>(s: seq<T>)
    requires forall x, y :: 0 <= x < y < |s| ==> s[x] != s[y]
    ensures |set z | z in s| == |s|
  {
    if s == [] {
      assert (set z | z in s) == {};
    } else {
      var p := |s| - 1;
      DistinctCount(s[..p]);
      assert s == s[..p] + [s[p]];
      assert (set z | z in s) == (set z | z in s[..p]) + {s[p]};
    }
  }

  /** The place of a naming in the batch. */
  function PlaceAt(at: seq<(int, int)>, t: (nat, string, nat)): (int, int, string, nat) {
    if t.0 < |at| then (at[t.0].0, at[t.0].1, t.1, t.2) else (0, 0, "", 0)
  }

  lemma NamingIsPlace(o: Ontology, pulls: seq<Option<seq<Resource>>>, rs: seq<Normalized>, at: seq<(int, int)>, e: Relation, t: (nat, string, nat))
    requires Lists(o, pulls, rs, at) && t in Namings(o.types, o.rels, rs, |rs|, e)
    ensures PlaceAt(at, t) in Places(o, pulls, e)
  {
    assert Pulled(o, pulls, at[t.0].0, at[t.0].1, rs[t.0]);
    assert (at[t.0].0, at[t.0].1) in PulledAt(o, pulls);
    assert Place(o, pulls, at[t.0].0, at[t.0].1, t.1, t.2, e);
  }

  lemma PlaceIsNaming(o: Ontology, pulls: seq<Option<seq<Resource>>>, rs: seq<Normalized>, at: seq<(int, int)>,
                      e: Relation, z: (int, int, string, nat))
    returns (t: (nat, string, nat))
    requires Lists(o, pulls, rs, at) && z in Places(o, pulls, e)
    ensures t in Namings(o.types, o.rels, rs, |rs|, e) && PlaceAt(at, t) == z
  {
    var x := PulledIndex(o, pulls, rs, at, z.0, z.1, NormalizedFrom(o.types, o.show, pulls[z.0].value[z.1]).value);
    t := (x, z.2, z.3);
  }

  lemma OnePlace(at: seq<(int, int)>, u: (nat, string, nat), t: (nat, string, nat))
    requires u.0 < |at| && t.0 < |at| && PlaceAt(at, u) == PlaceAt(at, t)
    requires forall x, y :: 0 <= x < y < |at| ==> at[x] != at[y]
    ensures u == t
  {
    assert at[u.0] == at[t.0];
  }

  lemma PlacesCounted(o: Ontology, pulls: seq<Option<seq<Resource>>>, rs: seq<Normalized>, at: seq<(int, int)>, e: Relation)
    requires Lists(o, pulls, rs, at)
    ensures |Places(o, pulls, e)| == Named(o.types, o.rels, rs, e)
  {
    var names, places := Namings(o.types, o.rels, rs, |rs|, e), Places(o, pulls, e);
    var f := (t: (nat, string, nat)) => PlaceAt(at, t);
    forall t | t in names ensures f(t) in places { NamingIsPlace(o, pulls, rs, at, e, t); }
    forall z | z in places ensures exists t :: t in names && f(t) == z {
      var t := PlaceIsNaming(o, pulls, rs, at, e, z);
      assert f(t) == z;
    }
    forall u, t | u in names && t in names && f(u) == f(t) ensures u == t { OnePlace(at, u, t); }
    SameSize(names, places, f);
  }

  /** The resources of one batch, which lists what was pulled, each with a URI of its own. */
  lemma PulledDistinct(o: Ontology, pulls: seq<Option<seq<Resource>>>, rs: seq<Normalized>, at: seq<(int, int)>)
    requires Lists(o, pulls, rs, at) && PulledOnce(o, pulls) && forall r :: r in rs ==> r.kind in o.types
    ensures DistinctUris(NodesOf(o.types, rs))
  {
    forall x, y | 0 <= x < y < |rs| ensures rs[x].uri != rs[y].uri {
      assert Pulled(o, pulls, at[x].0, at[x].1, rs[x]) && Pulled(o, pulls, at[y].0, at[y].1, rs[y]);
      assert at[x] != at[y];
    }
  }

  lemma PulledUris(o: Ontology, pulls: seq<Option<seq<Resource>>>, rs: seq<Normalized>, at: seq<(int, int)>, uri: string)
    requires Lists(o, pulls, rs, at)
    ensures PullsUri(o, pulls, uri) <==> uri in Uris(rs)
  {
    if PullsUri(o, pulls, uri) {
      var j, i, n :| Pulled(o, pulls, j, i, n) && n.uri == uri;
      var x := PulledIndex(o, pulls, rs, at, j, i, n);
    }
    if uri in Uris(rs) {
      var r :| r in rs && r.uri == uri;
      var x :| 0 <= x < |rs| && rs[x] == r;
      assert Pulled(o, pulls, at[x].0, at[x].1, rs[x]);
    }
  }

  lemma PulledIndex(o: Ontology, pulls: seq<Option<seq<Resource>>>, rs: seq<Normalized>, at: seq<(int, int)>, j: int, i: int, n: Normalized)
    returns (x: nat)
    requires Lists(o, pulls, rs, at) && Pulled(o, pulls, j, i, n)
    ensures x < |rs| && at[x] == (j, i) && rs[x] == n && n in rs
  {
    assert (j, i) in at;
    x :| 0 <= x < |at| && at[x] == (j, i);
    assert Pulled(o, pulls, at[x].0, at[x].1, rs[x]);
  }

  lemma StoredIs(o: Ontology, db: string, n: Normalized)
    requires n.kind in o.types
    ensures StoredOf(o, db, n, StoredNode(o.types, db, n))
  {
    var rec := StoredNode(o.types, db, n);
    var props := RowProps(Create, db, NodeOf(o.types, n));
    SetPlusAt(Ident(db, n.uri), props, "_db");
    SetPlusAt(Ident(db, n.uri), props, "uri");
    forall k ensures k != "_db" && k != "uri" ==> ValueAt(rec.props, k) == if Plain(o, n, k) then Shown(n.properties[k]) else None {
      SetPlusAt(Ident(db, n.uri), props, k);
    }
  }

  /** A database that holds the batch holds what was pulled. */
  lemma HoldsWhatWasPulled(g: Graph, o: Ontology, pulls: seq<Option<seq<Resource>>>, rs: seq<Normalized>, at: seq<(int, int)>)
    requires Lists(o, pulls, rs, at) && HoldsExactly(g, o, DEFAULT_DB, rs)
    ensures HoldsPulled(g, o, pulls)
  {
    forall j, i, n | Pulled(o, pulls, j, i, n)
      ensures NodeKey(DEFAULT_DB, n.uri) in g.nodes && StoredOf(o, DEFAULT_DB, n, g.nodes[NodeKey(DEFAULT_DB, n.uri)])
    {
      var x := PulledIndex(o, pulls, rs, at, j, i, n);
      assert g.Node(NodeKey(DEFAULT_DB, n.uri)) == Some(StoredNode(o.types, DEFAULT_DB, n));
      StoredIs(o, DEFAULT_DB, n);
    }
    forall k | k in g.nodes && k.db == DEFAULT_DB ensures PullsUri(o, pulls, k.uri) {
      PulledUris(o, pulls, rs, at, k.uri);
    }
    forall e: Edge | e.db == DEFAULT_DB
      ensures g.Multiplicity(e) == if PullsUri(o, pulls, e.to) then |Places(o, pulls, RelationOf(e))| else 0
    {
      PulledUris(o, pulls, rs, at, e.to);
      PlacesCounted(o, pulls, rs, at, RelationOf(e));
      DerivedNamed(o.types, o.rels, rs, RelationOf(e));
    }
  }

  lemma BatchLoaded(g: Graph, o: Ontology, pulls: seq<Option<seq<Resource>>>, rs: seq<Normalized>, at: seq<(int, int)>,
                    kept: seq<Relation>, orphans: seq<Relation>, h: Graph)
    requires g.Wf() && "" !in o.types && Split(o, rs, kept, orphans) && Lists(o, pulls, rs, at) && PulledOnce(o, pulls)
    requires h == Loaded(Cleared(g, DEFAULT_DB), Create, DEFAULT_DB, NodesOf(o.types, rs), kept)
    ensures HoldsPulled(h, o, pulls) && HoldsExactly(h, o, DEFAULT_DB, rs)
    ensures |PulledAt(o, pulls)| == |rs| == |KeysIn(h, DEFAULT_DB)| && Total(EdgesIn(h, DEFAULT_DB)) == |kept|
    ensures |Derived(o.types, o.rels, rs)| == |kept| + |orphans|
  {
    ClearedWf(g, DEFAULT_DB);
    PulledDistinct(o, pulls, rs, at);
    FullLoad(Cleared(g, DEFAULT_DB), o, DEFAULT_DB, rs, kept, orphans);
    HoldsWhatWasPulled(h, o, pulls, rs, at);
    PulledCounted(o, pulls, rs, at);
    assert |multiset(kept)| == |kept| && |multiset(orphans)| == |orphans|;
  }

  /** A graph events can be applied to: its default database carries the labels of the ontology. */
  ghost predicate Ready(g: Graph, o: Ontology, kinds: set<string>) {
    g.Wf() && StoredLabels(g, DEFAULT_DB, LabelsOf(o, kinds))
  }

  /** The default database holds only what the ontology can say: nodes whose URI tells their kind,
      and relationships of its types. */
  ghost predicate Owned(g: Graph, o: Ontology, kinds: set<string>) {
    && (forall k :: k in g.nodes && k.db == DEFAULT_DB ==> HasKind(o, kinds, k.uri))
    && (forall e :: e in g.edges && e.db == DEFAULT_DB ==> e.typ in o.rels)
  }

  /** What a full synchronisation leaves is a graph events can be applied to. */
  lemma FullSyncReady(g: Graph, o: Ontology, kinds: set<string>, rs: seq<Normalized>)
    requires g.Wf() && HoldsExactly(g, o, DEFAULT_DB, rs) && WellKinded(o, kinds, rs)
    ensures Ready(g, o, kinds) && Owned(g, o, kinds)
  {
    forall k | k in g.nodes && k.db == DEFAULT_DB
      ensures g.nodes[k].labels == LabelsOf(o, kinds)(k.uri) && HasKind(o, kinds, k.uri)
    {
      var r :| r in rs && r.uri == k.uri;
      assert g.Node(NodeKey(DEFAULT_DB, r.uri)) == Some(StoredNode(o.types, DEFAULT_DB, r));
    }
    forall e | e in g.edges && e.db == DEFAULT_DB ensures e.typ in o.rels {
      assert g.Multiplicity(e) > 0;
      DerivedFrom(o.types, o.rels, rs, RelationOf(e));
    }
  }

  /** The graph g has become h, which has the labels of the ontology, the other databases of g, and
      is all the ontology's if g was. */
  ghost predicate Kept(g: Graph, h: Graph, o: Ontology, kinds: set<string>) {
    Ready(h, o, kinds) && SameOutside(g, h, DEFAULT_DB) && (Owned(g, o, kinds) ==> Owned(h, o, kinds))
  }

  lemma KeptTransitive(g: Graph, h: Graph, i: Graph, o: Ontology, kinds: set<string>)
    requires Kept(g, h, o, kinds) && Kept(h, i, o, kinds)
    ensures Kept(g, i, o, kinds)
  {
    forall k: NodeKey | k.db != DEFAULT_DB ensures g.Node(k) == i.Node(k) {
      assert g.Node(k) == h.Node(k) && h.Node(k) == i.Node(k);
    }
    forall e: Edge | e.db != DEFAULT_DB ensures g.Multiplicity(e) == i.Multiplicity(e) {
      assert g.Multiplicity(e) == h.Multiplicity(e) && h.Multiplicity(e) == i.Multiplicity(e);
    }
  }

  lemma KeptAreDerived(o: Ontology, rs: seq<Normalized>, kept: seq<Relation>, orphans: seq<Relation>)
    requires forall r :: r in rs ==> r.kind in o.types
    requires multiset(kept) + multiset(orphans) == Derived(o.types, o.rels, rs)
    ensures forall r :: r in kept ==> r in Derived(o.types, o.rels, rs)
  {
    forall r | r in kept ensures r in Derived(o.types, o.rels, rs) {
      assert r in multiset(kept) + multiset(orphans);
    }
  }

  /** What a full sync of the batch can leave when it fails after the default database was cleared: some
      label groups of it and, once these are all there, some types of relationships that are kept. */
  ghost predicate SyncStopped(g: Graph, o: Ontology, rs: seq<Normalized>, h: Graph) {
    && (forall r :: r in rs ==> r.kind in o.types)
    && exists kept :: (forall r :: r in kept ==> r in Derived(o.types, o.rels, rs) && r.to in Uris(rs))
                      && Stopped(Cleared(g, DEFAULT_DB), Create, DEFAULT_DB, NodesOf(o.types, rs), kept, h)
  }

  lemma StoppedSyncReady(g: Graph, o: Ontology, kinds: set<string>, rs: seq<Normalized>, h: Graph)
    requires h.Wf() && WellKinded(o, kinds, rs) && SyncStopped(g, o, rs, h)
    ensures Ready(h, o, kinds) && Owned(h, o, kinds)
  {
    var c := Cleared(g, DEFAULT_DB);
    var kept :| (forall r :: r in kept ==> r in Derived(o.types, o.rels, rs) && r.to in Uris(rs))
      && Stopped(c, Create, DEFAULT_DB, NodesOf(o.types, rs), kept, h);
    LoadKeepsLabels(Create, c, h, o, kinds, rs, kept);
    LoadKeepsOwned(Create, c, h, o, kinds, rs, kept);
  }

  lemma BatchStopped(g: Graph, o: Ontology, rs: seq<Normalized>, kept: seq<Relation>, orphans: seq<Relation>, h: Graph)
    requires Split(o, rs, kept, orphans) && Stopped(Cleared(g, DEFAULT_DB), Create, DEFAULT_DB, NodesOf(o.types, rs), kept, h)
    ensures SyncStopped(g, o, rs, h)
  {
    KeptAreDerived(o, rs, kept, orphans);
  }

  lemma FreshWhenCleared(g: Graph, nodes: seq<Node>)
    requires DistinctUris(nodes)
    ensures Fresh(Cleared(g, DEFAULT_DB), DEFAULT_DB, nodes)
  {
  }

  class SyncService {
    const o: Ontology
    const store: Neo4jClient

    constructor (o: Ontology, store: Neo4jClient)
      ensures this.o == o && this.store == store
    {
      this.o, this.store := o, store;
    }

    method NormalizeResources(rs: seq<Resource>) returns (ns: seq<Normalized>)
      requires forall r :: r in rs && r.kind in o.types ==> CleanMapping(o.types[r.kind].fieldMapping)
      ensures ns == NormalizeAll(o, rs)
    {
      ns := [];
      for i := 0 to |rs|
        invariant ns == NormalizeAll(o, rs[..i])
      {
        assert rs[i] in rs && rs[..i + 1] == rs[..i] + [rs[i]];
        NormalizeAllSnoc(o, rs[..i], rs[i]);
        var n := Normalize(o.types, o.show, rs[i]);
        if n.Some? {
          ns := ns + [n.value];
        }
      }
      assert rs[..|rs|] == rs;
    }

    /** Clears the default database and loads what the connectors deliver: on success it holds
        exactly that, whatever it held before. */
    method FullSync(pulls: seq<Option<seq<Resource>>>) returns (ok: bool, result: SyncResult)
      requires store.graph.Wf() && "" !in o.types
      requires forall k :: k in o.types ==> CleanMapping(o.types[k].fieldMapping)
      requires PulledOnce(o, pulls)
      modifies store
      ensures Went(store.works, old(store.log), store.log, ok)
      ensures ok ==> HoldsPulled(store.graph, o, pulls) && result.nodesCreated == |PulledAt(o, pulls)|
      ensures store.graph.Wf() && SameOutside(old(store.graph), store.graph, DEFAULT_DB)
      ensures ok ==> HoldsExactly(store.graph, o, DEFAULT_DB, NormalizeAll(o, Collected(pulls)))
      ensures ok ==> result.nodesCreated == |KeysIn(store.graph, DEFAULT_DB)|
      ensures ok ==> result.relationsCreated == Total(EdgesIn(store.graph, DEFAULT_DB))
      ensures ok ==> |Derived(o.types, o.rels, NormalizeAll(o, Collected(pulls)))|
                     == result.relationsCreated + result.orphanEdgesSkipped
      ensures !ok ==>
        store.graph == old(store.graph) || SyncStopped(old(store.graph), o, NormalizeAll(o, Collected(pulls)), store.graph)
      ensures ok || store.graph != old(store.graph) ==>
        forall kinds :: Suitable(o, kinds) && ResourcesOk(o, kinds, Collected(pulls)) ==>
          Ready(store.graph, o, kinds) && Owned(store.graph, o, kinds)
    {
      result := SyncResult(0, 0, 0);
      ClearedWf(store.graph, DEFAULT_DB);
      ClearedOutside(store.graph, DEFAULT_DB);
      ok := store.ClearDB(DEFAULT_DB);
      if !ok {
        return;
      }
      ghost var sent := store.log;
      var all: seq<Resource> := [];
      for i := 0 to |pulls|
        invariant all == Collected(pulls[..i])
        invariant store.graph == Cleared(old(store.graph), DEFAULT_DB) && store.log == sent
      {
        assert pulls[..i + 1][..i] == pulls[..i];
        if pulls[i].Some? {
          all := all + pulls[i].value;
        }
      }
      assert pulls[..|pulls|] == pulls;
      var rs := NormalizeResources(all);
      ghost var at := CollectedLists(o, pulls);
      PulledDistinct(o, pulls, rs, at);
      ghost var kept, orphans;
      ok, result, kept, orphans := CreateBatch(rs, old(store.graph));
      WentOn(store.works, old(store.log), sent, store.log, ok);
      if ok {
        BatchLoaded(old(store.graph), o, pulls, rs, at, kept, orphans, store.graph);
      }
      forall kinds | Suitable(o, kinds) && ResourcesOk(o, kinds, all)
        ensures Ready(store.graph, o, kinds) && Owned(store.graph, o, kinds)
      {
        BatchWellKinded(o, kinds, all);
        StoppedSyncReady(old(store.graph), o, kinds, rs, store.graph);
      }
    }

    /** Assembles the batch and loads it into the default database of g, which has been cleared. */
    method CreateBatch(rs: seq<Normalized>, ghost g: Graph)
      returns (ok: bool, result: SyncResult, ghost kept: seq<Relation>, ghost orphans: seq<Relation>)
      requires g.Wf() && store.graph == Cleared(g, DEFAULT_DB)
      requires (forall r :: r in rs ==> r.kind in o.types) && DistinctUris(NodesOf(o.types, rs))
      modifies store
      ensures store.graph.Wf() && SameOutside(g, store.graph, DEFAULT_DB) && SyncStopped(g, o, rs, store.graph)
      ensures Went(store.works, old(store.log), store.log, ok) && Split(o, rs, kept, orphans)
      ensures ok ==> store.graph == Loaded(Cleared(g, DEFAULT_DB), Create, DEFAULT_DB, NodesOf(o.types, rs), kept)
      ensures result == SyncResult(|rs|, |kept|, |orphans|)
    {
      ClearedWf(g, DEFAULT_DB);
      ClearedOutside(g, DEFAULT_DB);
      var model, warnings;
      ok, model, warnings, orphans := Assemble(o.types, o.rels, rs);
      kept := model.relations;
      FreshWhenCleared(g, model.nodes);
      ok := store.BulkCreate(DEFAULT_DB, model.nodes, model.relations);
      BatchStopped(g, o, rs, kept, orphans, store.graph);
      result := SyncResult(|model.nodes|, |model.relations|, |warnings|);
    }

    /** One event: what has been done of it is the whole of what it means, or, if a statement fails, a part. */
    method IncrementalSync(ev: Event, ghost kinds: set<string>) returns (ok: bool, ghost failed: bool, ghost done: Action)
      requires Suitable(o, kinds) && Admissible(o, kinds, ev) && Ready(store.graph, o, kinds)
      modifies store
      ensures store.graph == Apply(old(store.graph), DEFAULT_DB, done) && PartOf(done, Meaning(o, ev))
      ensures !failed ==> done == Meaning(o, ev) && EventDone(o, ev, old(store.graph), store.graph)
      ensures Went(store.works, old(store.log), store.log, !failed)
      ensures ok <==> !failed && ev.action in {"update", "delete", "delete_relation"}
      ensures Kept(old(store.graph), store.graph, o, kinds)
    {
      MeaningDone(o, kinds, ev, store.graph);
      if ev.action == "update" {
        ok, done := UpsertEvent(ev, kinds);
        failed := !ok;
      } else if ev.action == "delete" {
        ok, done := RemoveUris(ev.uris, kinds);
        failed := !ok;
      } else if ev.action == "delete_relation" {
        ok, done := Unlink(ev.relations, kinds);
        failed := !ok;
      } else {
        ok, failed, done := false, false, Nothing;
      }
    }

    /** Normalizer, assembler, upsert. */
    method UpsertEvent(ev: Event, ghost kinds: set<string>) returns (ok: bool, ghost done: Action)
      requires Suitable(o, kinds) && Admissible(o, kinds, ev) && Ready(store.graph, o, kinds) && ev.action == "update"
      modifies store
      ensures store.graph == Apply(old(store.graph), DEFAULT_DB, done) && PartOf(done, Meaning(o, ev))
      ensures ok ==> done == Meaning(o, ev)
      ensures Went(store.works, old(store.log), store.log, ok)
      ensures Kept(old(store.graph), store.graph, o, kinds)
    {
      var resources := BuildResources(ev);
      AdmissibleResources(o, kinds, ev);
      BatchWellKinded(o, kinds, resources);
      var rs := NormalizeResources(resources);
      ok, done := UpsertBatch(rs, kinds);
    }

    method BuildResources(ev: Event) returns (resources: seq<Resource>)
      ensures resources == EventResources(ev)
    {
      resources := [];
      for i := 0 to |ev.data|
        invariant resources == EventResources(ev)[..i]
      {
        resources := resources + [Resource(ev.entityType, ev.data[i])];
      }
    }

    method RemoveUris(uris: seq<string>, ghost kinds: set<string>) returns (ok: bool, ghost done: Action)
      requires Ready(store.graph, o, kinds)
      modifies store
      ensures done == if ok then Remove(set u | u in uris) else Nothing
      ensures store.graph == Apply(old(store.graph), DEFAULT_DB, done)
      ensures Went(store.works, old(store.log), store.log, ok)
      ensures Kept(old(store.graph), store.graph, o, kinds)
    {
      DetachedReady(store.graph, o, kinds, set u | u in uris);
      ok := store.DeleteByURIs(DEFAULT_DB, uris);
      done := if ok then Remove(set u | u in uris) else Nothing;
    }

    method Unlink(rels: seq<Relation>, ghost kinds: set<string>) returns (ok: bool, ghost done: Action)
      requires Ready(store.graph, o, kinds)
      modifies store
      ensures store.graph == Apply(old(store.graph), DEFAULT_DB, done) && PartOf(done, Action.Unlink(EdgeSet(DEFAULT_DB, rels)))
      ensures ok ==> done == Action.Unlink(EdgeSet(DEFAULT_DB, rels))
      ensures Went(store.works, old(store.log), store.log, ok)
      ensures Kept(old(store.graph), store.graph, o, kinds)
    {
      DeleteIsUnlink(store.graph, DEFAULT_DB, rels);
      ok := store.DeleteRelations(DEFAULT_DB, rels);
      ghost var types :| store.graph == TouchAll(old(store.graph), DeleteEdges, DEFAULT_DB, OfTypes(rels, types));
      DeletesOwned(old(store.graph), o, kinds, OfTypes(rels, types));
      DeleteIsUnlink(old(store.graph), DEFAULT_DB, OfTypes(rels, types));
      OfTypesMembers(rels, types);
      done := Action.Unlink(EdgeSet(DEFAULT_DB, if ok then rels else OfTypes(rels, types)));
    }

    method UpsertBatch(rs: seq<Normalized>, ghost kinds: set<string>) returns (ok: bool, ghost done: Action)
      requires WellKinded(o, kinds, rs) && Ready(store.graph, o, kinds)
      modifies store
      ensures store.graph == Apply(old(store.graph), DEFAULT_DB, done)
      ensures PartOf(done, Load(BatchRows(o, DEFAULT_DB, rs), KeptLinks(o, DEFAULT_DB, rs)))
      ensures ok ==> done == Load(BatchRows(o, DEFAULT_DB, rs), KeptLinks(o, DEFAULT_DB, rs))
      ensures Went(store.works, old(store.log), store.log, ok)
      ensures Kept(old(store.graph), store.graph, o, kinds)
    {
      var model, warnings;
      ghost var orphans;
      ok, model, warnings, orphans := Assemble(o.types, o.rels, rs);
      BatchMergeable(store.graph, o, kinds, DEFAULT_DB, rs);
      UpsertIsLoad(store.graph, o, DEFAULT_DB, rs, model.relations, orphans);
      ok := store.Upsert(DEFAULT_DB, model.nodes, model.relations);
      LoadKeepsLabels(Merge, old(store.graph), store.graph, o, kinds, rs, model.relations);
      KeptAreDerived(o, rs, model.relations, orphans);
      if Owned(old(store.graph), o, kinds) {
        LoadKeepsOwned(Merge, old(store.graph), store.graph, o, kinds, rs, model.relations);
      }
      if ok {
        done := Load(BatchRows(o, DEFAULT_DB, rs), KeptLinks(o, DEFAULT_DB, rs));
        WholeIsPart(done);
      } else {
        done := StoppedIsPart(old(store.graph), o, DEFAULT_DB, rs, model.relations, store.graph);
      }
    }
  }

  lemma DetachedReady(g: Graph, o: Ontology, kinds: set<string>, uris: set<string>)
    requires Ready(g, o, kinds)
    ensures Ready(Detached(g, DEFAULT_DB, uris), o, kinds)
    ensures Owned(g, o, kinds) ==> Owned(Detached(g, DEFAULT_DB, uris), o, kinds)
    ensures SameOutside(g, Detached(g, DEFAULT_DB, uris), DEFAULT_DB)
  {
    DetachedWf(g, DEFAULT_DB, uris);
    DetachedOutside(g, DEFAULT_DB, uris);
  }

  /** The rows of a batch carry the labels of their URI, which tells its kind. */
  lemma RowOfKind(o: Ontology, kinds: set<string>, mode: WriteMode, rs: seq<Normalized>, w: Write)
    requires WellKinded(o, kinds, rs) && w in Rows(mode, DEFAULT_DB, NodesOf(o.types, rs), NodesOf(o.types, rs))
    ensures w.labels == LabelsOf(o, kinds)(w.uri) && HasKind(o, kinds, w.uri)
  {
    var ns := NodesOf(o.types, rs);
    var rows := Rows(mode, DEFAULT_DB, ns, ns);
    RowCount(mode, DEFAULT_DB, ns, ns);
    var i :| 0 <= i < |rows| && rows[i] == w;
    BatchRow(o, kinds, mode, DEFAULT_DB, rs, i);
    assert ns[i].uri == rs[i].uri && rs[i] in rs;
  }

  /** A load of a batch, wherever it stops, keeps the labels of the ontology. */
  lemma LoadKeepsLabels(mode: WriteMode, g: Graph, h: Graph, o: Ontology, kinds: set<string>, rs: seq<Normalized>, kept: seq<Relation>)
    requires WellKinded(o, kinds, rs) && StoredLabels(g, DEFAULT_DB, LabelsOf(o, kinds))
    requires Stopped(g, mode, DEFAULT_DB, NodesOf(o.types, rs), kept, h)
    ensures StoredLabels(h, DEFAULT_DB, LabelsOf(o, kinds))
  {
    var ns := NodesOf(o.types, rs);
    var rows := Rows(mode, DEFAULT_DB, ns, ns);
    var tags, types :| StoppedAt(g, mode, DEFAULT_DB, ns, kept, tags, types, h);
    InGroupsMembers(rows, tags);
    forall w | w in InGroups(rows, tags) ensures w.labels == LabelsOf(o, kinds)(w.uri) {
      RowOfKind(o, kinds, mode, rs, w);
    }
    WritesKeepLabels(g, DEFAULT_DB, InGroups(rows, tags), LabelsOf(o, kinds));
    TouchAllAt(WriteAll(g, DEFAULT_DB, InGroups(rows, tags)), EdgesOp(mode), DEFAULT_DB, OfTypes(kept, types), Edge("", "", "", ""));
  }

  lemma {:induction false} WritesOwned(g: Graph, o: Ontology, kinds: set<string>, ws: seq<Write>)
    requires Owned(g, o, kinds) && forall w :: w in ws ==> HasKind(o, kinds, w.uri)
    ensures Owned(WriteAll(g, DEFAULT_DB, ws), o, kinds)
    decreases |ws|
  {
    if ws != [] {
      assert ws == [ws[0]] + ws[1..];
      WritesOwned(WriteNode(g, DEFAULT_DB, ws[0]), o, kinds, ws[1..]);
    }
  }

  lemma TouchesOwned(g: Graph, op: EdgeOp, o: Ontology, kinds: set<string>, rels: seq<Relation>)
    requires Owned(g, o, kinds) && forall r :: r in rels ==> r.typ in o.rels
    ensures Owned(TouchAll(g, op, DEFAULT_DB, rels), o, kinds)
  {
    var h := TouchAll(g, op, DEFAULT_DB, rels);
    TouchAllAt(g, op, DEFAULT_DB, rels, Edge("", "", "", ""));
    forall e | e in h.edges && e.db == DEFAULT_DB ensures e.typ in o.rels {
      TouchAllAt(g, op, DEFAULT_DB, rels, e);
      OccursIfNamed(DEFAULT_DB, rels, e);
      assert h.Multiplicity(e) > 0;
    }
  }

  lemma DeletesOwned(g: Graph, o: Ontology, kinds: set<string>, rels: seq<Relation>)
    ensures Owned(g, o, kinds) ==> Owned(TouchAll(g, DeleteEdges, DEFAULT_DB, rels), o, kinds)
  {
    DeleteIsUnlink(g, DEFAULT_DB, rels);
  }

  /** ... and stores nothing that is not the ontology's. */
  lemma LoadKeepsOwned(mode: WriteMode, g: Graph, h: Graph, o: Ontology, kinds: set<string>, rs: seq<Normalized>, kept: seq<Relation>)
    requires WellKinded(o, kinds, rs) && Owned(g, o, kinds) && forall r :: r in kept ==> r in Derived(o.types, o.rels, rs)
    requires Stopped(g, mode, DEFAULT_DB, NodesOf(o.types, rs), kept, h)
    ensures Owned(h, o, kinds)
  {
    var ns := NodesOf(o.types, rs);
    var rows := Rows(mode, DEFAULT_DB, ns, ns);
    var tags, types :| StoppedAt(g, mode, DEFAULT_DB, ns, kept, tags, types, h);
    InGroupsMembers(rows, tags);
    forall w | w in InGroups(rows, tags) ensures HasKind(o, kinds, w.uri) {
      RowOfKind(o, kinds, mode, rs, w);
    }
    WritesOwned(g, o, kinds, InGroups(rows, tags));
    OfTypesMembers(kept, types);
    forall r | r in OfTypes(kept, types) ensures r.typ in o.rels {
      DerivedFrom(o.types, o.rels, rs, r);
    }
    TouchesOwned(WriteAll(g, DEFAULT_DB, InGroups(rows, tags)), EdgesOp(mode), o, kinds, OfTypes(kept, types));
  }

  // ---------------------------------------------------------------- the Kafka consumer

  /** A message of a partition: not every one is valid JSON. */
  datatype Message = Malformed | Delivered(event: Event)

  /** A malformed message is skipped, and so means nothing. */
  ghost function MessageMeaning(o: Ontology, m: Message): Action {
    match m
    case Malformed => Nothing
    case Delivered(ev) => Meaning(o, ev)
  }

  ghost function MessageMeanings(o: Ontology, msgs: seq<Message>): seq<Action> {
    seq(|msgs|, i requires 0 <= i < |msgs| => MessageMeaning(o, msgs[i]))
  }

  ghost predicate AllAdmissible(o: Ontology, kinds: set<string>, msgs: seq<Message>) {
    forall m :: m in msgs && m.Delivered? ==> Admissible(o, kinds, m.event)
  }

  /** ... and a delivered one what its event asks for. */
  lemma MessageDone(o: Ontology, kinds: set<string>, m: Message, g: Graph)
    requires Suitable(o, kinds) && (m.Delivered? ==> Admissible(o, kinds, m.event)) && Ready(g, o, kinds)
    ensures var h := Apply(g, DEFAULT_DB, MessageMeaning(o, m)); if m.Delivered? then EventDone(o, m.event, g, h) else h == g
  {
    if m.Delivered? {
      MeaningDone(o, kinds, m.event, g);
    }
  }

  /** The offsets a consumer session has marked. */
  class Session {
    var marked: seq<nat>

    constructor ()
      ensures marked == []
    {
      marked := [];
    }

    method MarkMessage(offset: nat)
      modifies this
      ensures marked == old(marked) + [offset]
    {
      marked := marked + [offset];
    }
  }

  function Range(from: nat, upTo: nat): seq<nat>
    requires from <= upTo
  {
    seq(upTo - from, i requires 0 <= i < upTo - from => from + i)
  }

  /** The graph g has become h by doing `done` of the messages from `from` up to i. */
  ghost predicate Consumed(o: Ontology, kinds: set<string>, g: Graph, msgs: seq<Message>, from: nat, i: nat, done: seq<Action>, h: Graph)
    requires from <= i <= |msgs|
  {
    Kept(g, h, o, kinds) && PartsOf(done, MessageMeanings(o, msgs)[from..i]) && h == Run(g, DEFAULT_DB, done)
  }

  /** Handles the messages of one claim from offset `from` until the session ends at `upTo`. Every
      message is marked after it is handled, even if it is malformed or its handler fails; what has
      been done of each is a part of what it means, and all of it unless its handler failed. */
  method ConsumeClaim(svc: SyncService, session: Session, msgs: seq<Message>, from: nat, upTo: nat, ghost kinds: set<string>)
    returns (ghost failed: bool, ghost done: seq<Action>)
    requires from <= upTo <= |msgs|
    requires Suitable(svc.o, kinds) && AllAdmissible(svc.o, kinds, msgs) && Ready(svc.store.graph, svc.o, kinds)
    modifies session, svc.store
    ensures session.marked == old(session.marked) + Range(from, upTo)
    ensures Consumed(svc.o, kinds, old(svc.store.graph), msgs, from, upTo, done, svc.store.graph)
    ensures !failed ==> done == MessageMeanings(svc.o, msgs)[from..upTo]
    ensures Went(svc.store.works, old(svc.store.log), svc.store.log, !failed)
  {
    failed, done := false, [];
    ghost var start, sent := svc.store.graph, svc.store.log;
    for i := from to upTo
      invariant session.marked == old(session.marked) + Range(from, i)
      invariant ClaimSoFar(svc, kinds, start, sent, msgs, from, i, failed, done)
    {
      failed, done := ConsumeOne(svc, session, msgs, from, i, kinds, start, sent, failed, done);
      MarkedNext(old(session.marked), from, i);
    }
  }

  /** After the messages before i. */
  ghost predicate ClaimSoFar(svc: SyncService, kinds: set<string>, start: Graph, sent: seq<Statement>, msgs: seq<Message>,
                             from: nat, i: nat, failed: bool, done: seq<Action>)
    requires from <= i <= |msgs|
    reads svc, svc.store
  {
    && Consumed(svc.o, kinds, start, msgs, from, i, done, svc.store.graph)
    && (!failed ==> done == MessageMeanings(svc.o, msgs)[from..i])
    && Went(svc.store.works, sent, svc.store.log, !failed)
  }

  method ConsumeOne(svc: SyncService, session: Session, msgs: seq<Message>, ghost from: nat, i: nat, ghost kinds: set<string>,
                    ghost start: Graph, ghost sent: seq<Statement>, ghost before: bool, ghost did: seq<Action>)
    returns (ghost failed: bool, ghost done: seq<Action>)
    requires from <= i < |msgs| && Suitable(svc.o, kinds) && AllAdmissible(svc.o, kinds, msgs)
    requires ClaimSoFar(svc, kinds, start, sent, msgs, from, i, before, did)
    modifies session, svc.store
    ensures session.marked == old(session.marked) + [i]
    ensures ClaimSoFar(svc, kinds, start, sent, msgs, from, i + 1, failed, done)
  {
    ghost var g, so := svc.store.graph, svc.store.log;
    AdmissibleAt(svc.o, kinds, msgs, i);
    ghost var bad, act := HandleMessage(svc, session, msgs[i], i, kinds);
    ConsumedStep(svc.o, kinds, start, msgs, from, i, did, g, act, svc.store.graph);
    WentBoth(svc.store.works, sent, so, svc.store.log, !before, !bad);
    failed, done := before || bad, did + [act];
  }

  lemma AdmissibleAt(o: Ontology, kinds: set<string>, msgs: seq<Message>, i: nat)
    requires AllAdmissible(o, kinds, msgs) && i < |msgs|
    ensures msgs[i].Delivered? ==> Admissible(o, kinds, msgs[i].event)
  {
    assert msgs[i] in msgs;
  }

  lemma MarkedNext(marked: seq<nat>, from: nat, i: nat)
    requires from <= i
    ensures marked + Range(from, i) + [i] == marked + Range(from, i + 1)
  {
    assert Range(from, i + 1) == Range(from, i) + [i];
  }

  lemma ConsumedStep(o: Ontology, kinds: set<string>, g: Graph, msgs: seq<Message>, from: nat, i: nat, done: seq<Action>,
                     before: Graph, act: Action, after: Graph)
    requires from <= i < |msgs| && Consumed(o, kinds, g, msgs, from, i, done, before)
    requires Kept(before, after, o, kinds)
    requires after == Apply(before, DEFAULT_DB, act) && PartOf(act, MessageMeaning(o, msgs[i]))
    ensures Consumed(o, kinds, g, msgs, from, i + 1, done + [act], after)
    ensures MessageMeanings(o, msgs)[from..i + 1] == MessageMeanings(o, msgs)[from..i] + [MessageMeaning(o, msgs[i])]
  {
    KeptTransitive(g, before, after, o, kinds);
    OneMoreAction(g, done, act);
    NextMeaning(o, msgs, from, i);
    OneMorePart(done, MessageMeanings(o, msgs)[from..i], act, MessageMeaning(o, msgs[i]));
  }

  lemma NextMeaning(o: Ontology, msgs: seq<Message>, from: nat, i: nat)
    requires from <= i < |msgs|
    ensures MessageMeanings(o, msgs)[from..i + 1] == MessageMeanings(o, msgs)[from..i] + [MessageMeaning(o, msgs[i])]
  {
  }

  lemma OneMorePart(ps: seq<Action>, acts: seq<Action>, p: Action, a: Action)
    requires PartsOf(ps, acts) && PartOf(p, a)
    ensures PartsOf(ps + [p], acts + [a])
  {
  }

  lemma OneMoreAction(g: Graph, acts: seq<Action>, a: Action)
    ensures Run(g, DEFAULT_DB, acts + [a]) == Apply(Run(g, DEFAULT_DB, acts), DEFAULT_DB, a)
  {
    RunLast(g, DEFAULT_DB, acts + [a]);
    assert (acts + [a])[..|acts|] == acts;
  }

  method HandleMessage(svc: SyncService, session: Session, m: Message, offset: nat, ghost kinds: set<string>)
    returns (ghost failed: bool, ghost done: Action)
    requires Suitable(svc.o, kinds) && (m.Delivered? ==> Admissible(svc.o, kinds, m.event)) && Ready(svc.store.graph, svc.o, kinds)
    modifies session, svc.store
    ensures session.marked == old(session.marked) + [offset]
    ensures Kept(old(svc.store.graph), svc.store.graph, svc.o, kinds)
    ensures svc.store.graph == Apply(old(svc.store.graph), DEFAULT_DB, done) && PartOf(done, MessageMeaning(svc.o, m))
    ensures !failed ==> done == MessageMeaning(svc.o, m)
    ensures Went(svc.store.works, old(svc.store.log), svc.store.log, !failed)
  {
    failed, done := false, Nothing;
    if m.Delivered? {
      var ok;
      ok, failed, done := svc.IncrementalSync(m.event, kinds);
    }
    session.MarkMessage(offset);
  }

  lemma MessagesSelfContained(o: Ontology, kinds: set<string>, msgs: seq<Message>)
    requires Suitable(o, kinds) && AllAdmissible(o, kinds, msgs)
    ensures AllSelfContained(MessageMeanings(o, msgs), DEFAULT_DB, LabelsOf(o, kinds))
  {
    forall i | 0 <= i < |msgs| ensures SelfContained(MessageMeanings(o, msgs)[i], DEFAULT_DB, LabelsOf(o, kinds)) {
      assert msgs[i] in msgs;
      if msgs[i].Delivered? {
        MeaningSelfContained(o, kinds, msgs[i].event);
      }
    }
  }

  /** At-least-once consumption of a log through any schedule of sessions. The graph is that of handling
      every message once, in order, if no statement fails, and also if some do but redelivery has handled
      the whole log completely behind them. */
  method ConsumeAtLeastOnce(svc: SyncService, msgs: seq<Message>, passes: seq<Pass>, ghost kinds: set<string>)
    returns (ghost failed: bool, ghost dones: seq<seq<Action>>)
    requires Schedule(passes, |msgs|) && StoppedBefore(passes, |passes|) == |msgs|
    requires Suitable(svc.o, kinds) && AllAdmissible(svc.o, kinds, msgs) && Ready(svc.store.graph, svc.o, kinds)
    modifies svc.store
    ensures Kept(old(svc.store.graph), svc.store.graph, svc.o, kinds)
    ensures Handled(MessageMeanings(svc.o, msgs), passes, dones) && svc.store.graph == RunDone(old(svc.store.graph), DEFAULT_DB, dones)
    ensures CleanUpTo(MessageMeanings(svc.o, msgs), passes, dones) == |msgs| ==>
      svc.store.graph == Run(old(svc.store.graph), DEFAULT_DB, MessageMeanings(svc.o, msgs))
    ensures !failed ==> CleanUpTo(MessageMeanings(svc.o, msgs), passes, dones) == |msgs|
    ensures Went(svc.store.works, old(svc.store.log), svc.store.log, !failed)
  {
    failed, dones := false, [];
    ghost var o, start, log, sent := svc.o, svc.store.graph, MessageMeanings(svc.o, msgs), svc.store.log;
    NonePassed(o, kinds, start, msgs);
    for i := 0 to |passes|
      invariant Passed(o, kinds, start, msgs, passes[..i], dones, svc.store.graph)
      invariant !failed ==> dones == Slices(log, passes[..i])
      invariant Went(svc.store.works, sent, svc.store.log, !failed)
    {
      var session := new Session();
      ghost var before, so := svc.store.graph, svc.store.log;
      ghost var bad, done := ConsumeClaim(svc, session, msgs, passes[i].from, passes[i].upTo, kinds);
      PassedStep(o, kinds, start, msgs, passes, i, dones, before, done, svc.store.graph);
      WentBoth(svc.store.works, sent, so, svc.store.log, !failed, !bad);
      failed, dones := failed || bad, dones + [done];
    }
    assert passes[..|passes|] == passes;
    AllPassed(o, kinds, start, msgs, passes, dones, svc.store.graph);
  }

  lemma NonePassed(o: Ontology, kinds: set<string>, g: Graph, msgs: seq<Message>)
    requires Ready(g, o, kinds)
    ensures Passed(o, kinds, g, msgs, [], [], g) && Slices(MessageMeanings(o, msgs), []) == []
  {
  }

  lemma AllPassed(o: Ontology, kinds: set<string>, g: Graph, msgs: seq<Message>, passes: seq<Pass>, dones: seq<seq<Action>>, h: Graph)
    requires Schedule(passes, |msgs|) && StoppedBefore(passes, |passes|) == |msgs|
    requires Suitable(o, kinds) && AllAdmissible(o, kinds, msgs) && Passed(o, kinds, g, msgs, passes, dones, h)
    ensures var log := MessageMeanings(o, msgs);
      && (CleanUpTo(log, passes, dones) == |msgs| ==> h == Run(g, DEFAULT_DB, log))
      && (dones == Slices(log, passes) ==> CleanUpTo(log, passes, dones) == |msgs|)
  {
    var log := MessageMeanings(o, msgs);
    CleanSessions(g, DEFAULT_DB, log, passes);
    if CleanUpTo(log, passes, dones) == |msgs| {
      DeliveryHeals(o, kinds, g, msgs, passes, dones);
    }
  }

  /** The graph g has become h by what some passes over the messages have done. */
  ghost predicate Passed(o: Ontology, kinds: set<string>, g: Graph, msgs: seq<Message>, passes: seq<Pass>, dones: seq<seq<Action>>, h: Graph) {
    Kept(g, h, o, kinds) && Handled(MessageMeanings(o, msgs), passes, dones) && h == RunDone(g, DEFAULT_DB, dones)
  }

  lemma PassedStep(o: Ontology, kinds: set<string>, g: Graph, msgs: seq<Message>, passes: seq<Pass>, i: nat, dones: seq<seq<Action>>,
                   before: Graph, done: seq<Action>, after: Graph)
    requires i < |passes| && Within(passes, |msgs|)
    requires Passed(o, kinds, g, msgs, passes[..i], dones, before)
    requires Consumed(o, kinds, before, msgs, passes[i].from, passes[i].upTo, done, after)
    ensures Passed(o, kinds, g, msgs, passes[..i + 1], dones + [done], after)
    ensures Slices(MessageMeanings(o, msgs), passes[..i + 1])
         == Slices(MessageMeanings(o, msgs), passes[..i]) + [MessageMeanings(o, msgs)[passes[i].from..passes[i].upTo]]
  {
    KeptTransitive(g, before, after, o, kinds);
    OneMoreSession(g, MessageMeanings(o, msgs), passes, i, dones, done);
  }

  lemma OneMoreSession(g: Graph, log: seq<Action>, passes: seq<Pass>, i: nat, dones: seq<seq<Action>>, done: seq<Action>)
    requires i < |passes| && Within(passes, |log|) && Handled(log, passes[..i], dones)
    requires PartsOf(done, log[passes[i].from..passes[i].upTo])
    ensures Handled(log, passes[..i + 1], dones + [done])
    ensures RunDone(g, DEFAULT_DB, dones + [done]) == Run(RunDone(g, DEFAULT_DB, dones), DEFAULT_DB, done)
    ensures Slices(log, passes[..i + 1]) == Slices(log, passes[..i]) + [log[passes[i].from..passes[i].upTo]]
  {
    var next, more := passes[..i + 1], dones + [done];
    assert more[..i] == dones && next[..i] == passes[..i];
    forall j | 0 <= j < |next| ensures PartsOf(more[j], log[next[j].from..next[j].upTo]) {
      assert j < i ==> PartsOf(dones[j], log[passes[..i][j].from..passes[..i][j].upTo]);
    }
  }

  /** Failures are harmless when redelivery has handled the whole log completely behind them. */
  lemma DeliveryHeals(o: Ontology, kinds: set<string>, g: Graph, msgs: seq<Message>, passes: seq<Pass>, dones: seq<seq<Action>>)
    requires Suitable(o, kinds) && AllAdmissible(o, kinds, msgs) && Handled(MessageMeanings(o, msgs), passes, dones)
    requires CleanUpTo(MessageMeanings(o, msgs), passes, dones) == |msgs|
    ensures RunDone(g, DEFAULT_DB, dones) == Run(g, DEFAULT_DB, MessageMeanings(o, msgs))
  {
    MessagesSelfContained(o, kinds, msgs);
    FailuresHeal(g, DEFAULT_DB, MessageMeanings(o, msgs), passes, dones, LabelsOf(o, kinds));
  }

  /** A message whose handler failed and that is not redelivered leaves the graph of one pass if and only
      if the later messages hide, at every node and relationship, what is missing. */
  lemma LostMessageExactly(o: Ontology, kinds: set<string>, g: Graph, msgs: seq<Message>, j: nat, p: Action, passes: seq<Pass>,
                           dones: seq<seq<Action>>)
    requires Suitable(o, kinds) && AllAdmissible(o, kinds, msgs) && j < |msgs| && PartOf(p, MessageMeaning(o, msgs[j]))
    requires Handled(MessageMeanings(o, msgs)[j := p], passes, dones)
    requires CleanUpTo(MessageMeanings(o, msgs)[j := p], passes, dones) == |msgs|
    ensures RunDone(g, DEFAULT_DB, dones) == Run(g, DEFAULT_DB, MessageMeanings(o, msgs)) <==>
      Mended(Run(g, DEFAULT_DB, MessageMeanings(o, msgs)[..j]), DEFAULT_DB, MessageMeaning(o, msgs[j]), p,
             MessageMeanings(o, msgs)[j + 1..], LabelsOf(o, kinds))
  {
    assert msgs[j] in msgs;
    if msgs[j].Delivered? { MeaningOneGroup(o, kinds, msgs[j].event); }
    MessagesSelfContained(o, kinds, msgs);
    LostExactly(g, DEFAULT_DB, MessageMeanings(o, msgs), j, p, passes, dones, LabelsOf(o, kinds));
  }

  /** A whole log that loses its only message: a deletion whose statement fails is marked, and the node
      stays. Every graph that has the node, with whatever ontology. */
  lemma LostDeletion(o: Ontology, g: Graph, uri: string)
    requires NodeKey(DEFAULT_DB, uri) in g.nodes
    ensures var msgs := [Delivered(Event("delete", "", [], [uri], []))];
      var passes, dones := [Pass(0, 1)], [[Nothing]];
      && Schedule(passes, 1) && StoppedBefore(passes, 1) == 1 && Handled(MessageMeanings(o, msgs), passes, dones)
      && RunDone(g, DEFAULT_DB, dones) == g != Run(g, DEFAULT_DB, MessageMeanings(o, msgs))
  {
    var ev := Event("delete", "", [], [uri], []);
    var log, passes, dones := MessageMeanings(o, [Delivered(ev)]), [Pass(0, 1)], [[Nothing]];
    assert log == [Remove(set u | u in ev.uris)] && log[0..1] == log;
    assert dones[..0] == [] && RunDone(g, DEFAULT_DB, []) == g;
    OneAction(g, Nothing);
    OneAction(g, log[0]);
    assert uri in ev.uris;
  }

  /** On whatever graph, redelivery changes nothing. */
  lemma ScheduleIsHarmless(o: Ontology, kinds: set<string>, g: Graph, msgs: seq<Message>, passes: seq<Pass>)
    requires Schedule(passes, |msgs|) && StoppedBefore(passes, |passes|) == |msgs|
    requires Suitable(o, kinds) && AllAdmissible(o, kinds, msgs)
    ensures RunPasses(g, DEFAULT_DB, MessageMeanings(o, msgs), passes) == Run(g, DEFAULT_DB, MessageMeanings(o, msgs))
  {
    MessagesSelfContained(o, kinds, msgs);
    RedeliveryIsHarmless(g, DEFAULT_DB, MessageMeanings(o, msgs), passes, LabelsOf(o, kinds));
  }
}
