/** Synchronisation and snapshots together: what a full synchronisation and events leave is what an
    export can carry, and what a restore brings back is what further events can be applied to. */
module SyncedSnapshots {
  import opened Common
  import opened GraphModel
  import opened GraphStore
  import opened Schema
  import opened Inheritance
  import opened Normalizer
  import opened SnapshotModel
  import opened SnapshotManager
  import opened SnapshotRuns
  import opened SyncEvents
  import opened SyncService

  /** What names must look like for exports; all of it can be checked when loading the ontology. */
  ghost predicate Exporting(o: Ontology, kinds: set<string>) {
    && "" !in o.rels
    && (forall k :: k in kinds && k in o.types ==> Prefix(o.types[k].uriTemplate) != "")
    && (forall k :: k in o.types ==> ':' !in k && ':' !in o.types[k].base)
  }

  /** The default database has the labels of the ontology and holds only what it can say. */
  ghost predicate Synced(g: Graph, o: Ontology, kinds: set<string>) {
    Ready(g, o, kinds) && Owned(g, o, kinds)
  }

  lemma {:induction false} LabelsFromPlain(types: Types, current: string, visited: set<string>)
    requires ':' !in current && forall k :: k in types ==> ':' !in k && ':' !in types[k].base
    ensures forall l :: l in LabelsFrom(types, current, visited) ==> ':' !in l
    decreases types.Keys - visited
  {
    if current != "" && current !in visited && current in types {
      LabelsFromPlain(types, types[current].base, visited + {current});
    }
  }

  lemma LabelsPlain(types: Types, kind: string, labels: seq<string>)
    requires kind in types && kind != "" && forall k :: k in types ==> ':' !in k && ':' !in types[k].base
    requires labels == Labels(types, kind)
    ensures PlainLabels(labels) && labels == Labels(types, labels[|labels| - 1])
  {
    KindIsLastLabel(types, kind);
    LabelsFromPlain(types, kind, {});
  }

  lemma KindOwns(o: Ontology, kinds: set<string>, uri: string)
    requires Suitable(o, kinds) && Exporting(o, kinds) && HasKind(o, kinds, uri)
    ensures uri != "" && KindOf(o, kinds, uri) in o.types && KindOf(o, kinds, uri) != ""
  {
    var k := KindOf(o, kinds, uri);
    assert k in kinds && Prefix(o.types[k].uriTemplate) <= uri;
  }

  lemma OwnLabels(o: Ontology, kinds: set<string>, uri: string, labels: seq<string>)
    requires Suitable(o, kinds) && Exporting(o, kinds) && HasKind(o, kinds, uri)
    requires labels == LabelsOf(o, kinds)(uri)
    ensures uri != "" && PlainLabels(labels) && labels == Labels(o.types, labels[|labels| - 1])
  {
    KindOwns(o, kinds, uri);
    LabelsPlain(o.types, KindOf(o, kinds, uri), labels);
  }

  lemma OwnNode(g: Graph, o: Ontology, kinds: set<string>, k: NodeKey)
    requires Suitable(o, kinds) && Exporting(o, kinds) && Synced(g, o, kinds)
    requires k in g.nodes && k.db == DEFAULT_DB
    ensures Visible(g.nodes[k], k.uri) && PlainLabels(g.nodes[k].labels)
  {
    OwnLabels(o, kinds, k.uri, g.nodes[k].labels);
  }

  /** The most specific label determines the others. */
  lemma OwnLast(g: Graph, o: Ontology, kinds: set<string>, k: NodeKey)
    requires Suitable(o, kinds) && Exporting(o, kinds) && Synced(g, o, kinds)
    requires k in g.nodes && k.db == DEFAULT_DB
    ensures g.nodes[k].labels == Labels(o.types, LastLabel(g, k))
  {
    var labels := g.nodes[k].labels;
    OwnLabels(o, kinds, k.uri, labels);
    assert LastLabel(g, k) == labels[|labels| - 1];
  }

  lemma OwnEdge(g: Graph, o: Ontology, kinds: set<string>, e: Edge)
    requires Suitable(o, kinds) && Exporting(o, kinds) && Synced(g, o, kinds)
    requires e in g.edges && e.db == DEFAULT_DB
    ensures Complete(e)
  {
    assert g.Joins(e);
    OwnNode(g, o, kinds, e.Source());
    OwnNode(g, o, kinds, e.Target());
  }

  /** The default database of a full synchronisation, and of the events after it, can be exported
      without loss, and its labels can be cloned. */
  lemma SyncedIsExportable(g: Graph, o: Ontology, kinds: set<string>)
    requires Suitable(o, kinds) && Exporting(o, kinds) && Synced(g, o, kinds)
    ensures Exportable(g, DEFAULT_DB)
    ensures forall k :: k in g.nodes && k.db == DEFAULT_DB ==> PlainLabels(g.nodes[k].labels)
  {
    forall k | k in g.nodes && k.db == DEFAULT_DB
      ensures Visible(g.nodes[k], k.uri) && PlainLabels(g.nodes[k].labels)
      ensures g.nodes[k].labels == Labels(o.types, LastLabel(g, k))
    {
      OwnNode(g, o, kinds, k);
      OwnLast(g, o, kinds, k);
    }
    forall e | e in g.edges && e.db == DEFAULT_DB ensures Complete(e) {
      OwnEdge(g, o, kinds, e);
    }
  }

  /** So synchronisation is one of the steps of SnapshotRuns that leave snapshots alone. */
  lemma SyncIsStep(maxActive: nat, s: State, g: Graph, o: Ontology, kinds: set<string>)
    requires Suitable(o, kinds) && Exporting(o, kinds) && ValidState(s)
    requires Kept(s.graph, g, o, kinds) && Owned(g, o, kinds)
    ensures Step(maxActive, s, OpDefault, s.(graph := g))
  {
    StaysPlain(s.graph, g, o, kinds);
  }

  /** A full synchronisation too, wherever it stops. */
  lemma FullSyncIsStep(maxActive: nat, s: State, g: Graph, o: Ontology, kinds: set<string>, rs: seq<Normalized>)
    requires Suitable(o, kinds) && Exporting(o, kinds) && ValidState(s) && WellKinded(o, kinds, rs)
    requires g.Wf() && SameOutside(s.graph, g, DEFAULT_DB)
    requires g == s.graph || HoldsExactly(g, o, DEFAULT_DB, rs) || SyncStopped(s.graph, o, rs, g)
    ensures Step(maxActive, s, OpDefault, s.(graph := g))
    ensures g != s.graph ==> Synced(g, o, kinds) && Exportable(g, DEFAULT_DB)
  {
    if g != s.graph {
      if HoldsExactly(g, o, DEFAULT_DB, rs) {
        FullSyncReady(g, o, kinds, rs);
      } else {
        StoppedSyncReady(s.graph, o, kinds, rs, g);
      }
      SyncedIsExportable(g, o, kinds);
      SyncIsStep(maxActive, s, g, o, kinds);
    }
  }

  lemma StaysPlain(g: Graph, h: Graph, o: Ontology, kinds: set<string>)
    requires Suitable(o, kinds) && Exporting(o, kinds) && PlainGraph(g)
    requires Kept(g, h, o, kinds) && Owned(h, o, kinds)
    ensures PlainGraph(h)
  {
    forall k | k in h.nodes && h.nodes[k].labels != [] ensures PlainLabels(h.nodes[k].labels) {
      if k.db == DEFAULT_DB {
        OwnNode(h, o, kinds, k);
      } else {
        OtherPlain(g, h, k);
      }
    }
  }

  lemma OtherPlain(g: Graph, h: Graph, k: NodeKey)
    requires SameOutside(g, h, DEFAULT_DB) && PlainGraph(g) && k in h.nodes && k.db != DEFAULT_DB && h.nodes[k].labels != []
    ensures PlainLabels(h.nodes[k].labels)
  {
    assert g.Node(k) == h.Node(k);
  }

  /** A default database with the contents of a synchronised one is again one events can be applied to. */
  lemma AgreeingReady(g: Graph, h: Graph, o: Ontology, kinds: set<string>)
    requires g.Wf() && Synced(h, o, kinds)
    ensures Agree(g, DEFAULT_DB, h, DEFAULT_DB) ==> Synced(g, o, kinds)
  {
    if Agree(g, DEFAULT_DB, h, DEFAULT_DB) {
      SameContentsReady(g, h, o, kinds);
    }
  }

  lemma SameContentsReady(g: Graph, h: Graph, o: Ontology, kinds: set<string>)
    requires Agree(g, DEFAULT_DB, h, DEFAULT_DB) && g.Wf() && Synced(h, o, kinds)
    ensures Synced(g, o, kinds)
  {
    forall k | k in g.nodes && k.db == DEFAULT_DB
      ensures g.nodes[k].labels == LabelsOf(o, kinds)(k.uri) && HasKind(o, kinds, k.uri)
    {
      SameNode(g, h, k);
    }
    forall e | e in g.edges && e.db == DEFAULT_DB ensures e.typ in o.rels {
      SameLink(g, h, e);
    }
  }

  lemma SameNode(g: Graph, h: Graph, k: NodeKey)
    requires Agree(g, DEFAULT_DB, h, DEFAULT_DB) && k in g.nodes && k.db == DEFAULT_DB
    ensures k in h.nodes && h.nodes[k].labels == g.nodes[k].labels
  {
    assert NodeAt(g, DEFAULT_DB, k.uri) == NodeAt(h, DEFAULT_DB, k.uri);
    assert k == NodeKey(DEFAULT_DB, k.uri);
  }

  lemma SameLink(g: Graph, h: Graph, e: Edge)
    requires Agree(g, DEFAULT_DB, h, DEFAULT_DB) && e in g.edges && e.db == DEFAULT_DB
    ensures e in h.edges
  {
    assert LinkAt(g, DEFAULT_DB, e.typ, e.from, e.to) == LinkAt(h, DEFAULT_DB, e.typ, e.from, e.to);
    assert e == Edge(DEFAULT_DB, e.typ, e.from, e.to);
  }

  /** The export of a synchronised default database, restored at the end of any run: it is back if and
      only if the snapshot is loaded with these contents, or is not loaded and its archive has them; and
      the archive has them if no other export, failing or not, has written to it. */
  lemma SyncedRestore(o: Ontology, kinds: set<string>, maxActive: nat, states: seq<State>, ops: seq<Op>, i: nat, j: nat, name: string)
    requires Suitable(o, kinds) && Exporting(o, kinds) && IsRun(maxActive, states, ops) && maxActive >= 1
    requires i < j < |ops| && ops[i] == OpCreate(name) && ops[j] == OpRestore(name)
    requires Synced(states[i].graph, o, kinds) && CleanExport(states[i].graph, DEFAULT_DB)
    ensures Agree(states[j + 1].graph, DEFAULT_DB, states[i].graph, DEFAULT_DB) <==>
      if states[j].graph.HasData(name) then Agree(states[j].graph, name, states[i].graph, DEFAULT_DB)
      else HoldsExport(states[j], name, states[i].graph)
    ensures Unwritten(states, ops, i + 1, j, name) ==> HoldsExport(states[j], name, states[i].graph)
  {
    SyncedIsExportable(states[i].graph, o, kinds);
    RestoreBringsBack(maxActive, states, ops, i, j, name);
    if Unwritten(states, ops, i + 1, j, name) {
      ExportAt(maxActive, states, ops, i, j, name);
    }
  }

  /** ... and once it is back, the service can go on from it. */
  lemma RestoredIsSynced(o: Ontology, kinds: set<string>, maxActive: nat, states: seq<State>, ops: seq<Op>, i: nat, j: nat)
    requires IsRun(maxActive, states, ops) && i < |states| && j < |states|
    requires Synced(states[i].graph, o, kinds) && Agree(states[j].graph, DEFAULT_DB, states[i].graph, DEFAULT_DB)
    ensures Synced(states[j].graph, o, kinds)
  {
    RunWf(maxActive, states, ops, j);
    AgreeingReady(states[j].graph, states[i].graph, o, kinds);
  }

  lemma RunWf(maxActive: nat, states: seq<State>, ops: seq<Op>, i: nat)
    requires IsRun(maxActive, states, ops) && i < |states|
    ensures states[i].graph.Wf()
  {
    RunSourced(maxActive, states, ops, i);
  }
}
