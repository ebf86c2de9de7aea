/** What a sync event means for the graph: the pipeline Normalizer, Assembler, Upsert of
    internal/service/sync_service.go as one action on the default database. */
module SyncEvents {
  import opened Common
  import opened GraphModel
  import opened GraphStore
  import opened Schema
  import opened Inheritance
  import opened Normalizer
  import opened Assembler
  import opened Replay

  datatype Event = Event(action: string, entityType: string, data: seq<Props>, uris: seq<string>, relations: seq<Relation>)

  /** The ontology and the rendering of values, fixed after loading. */
  datatype Ontology = Ontology(types: Types, rels: map<string, RelationType>, show: Show)

  // ---------------------------------------------------------------- batches

  /** Resources that do not normalize are skipped. */
  ghost function NormalizeAll(o: Ontology, rs: seq<Resource>): seq<Normalized>
    ensures forall n :: n in NormalizeAll(o, rs) ==> n.kind in o.types
  {
    if rs == [] then []
    else
      match NormalizedFrom(o.types, o.show, rs[0])
      case Some(n) => [n] + NormalizeAll(o, rs[1..])
      case None => NormalizeAll(o, rs[1..])
  }

  lemma {:induction false} NormalizedIsFrom(o: Ontology, rs: seq<Resource>, n: Normalized) returns (r: Resource)
    requires n in NormalizeAll(o, rs)
    ensures r in rs && r.kind == n.kind && NormalizedFrom(o.types, o.show, r) == Some(n)
  {
    if NormalizedFrom(o.types, o.show, rs[0]) == Some(n) {
      r := rs[0];
    } else {
      r := NormalizedIsFrom(o, rs[1..], n);
    }
  }

  lemma {:induction false} NormalizeAllSnoc(o: Ontology, rs: seq<Resource>, r: Resource)
    ensures NormalizeAll(o, rs + [r])
         == NormalizeAll(o, rs) + match NormalizedFrom(o.types, o.show, r) case Some(n) => [n] case None => []
    decreases |rs|
  {
    if rs == [] {
      assert rs + [r] == [r];
      assert [r][1..] == [];
    } else {
      assert (rs + [r])[1..] == rs[1..] + [r];
      NormalizeAllSnoc(o, rs[1..], r);
    }
  }

  function EdgeSet(db: string, rels: seq<Relation>): set<Edge> {
    set r | r in rels :: EdgeOf(db, r)
  }

  /** The relationships of a batch that survive the orphan filter. */
  ghost function KeptLinks(o: Ontology, db: string, rs: seq<Normalized>): set<Edge>
    requires forall r :: r in rs ==> r.kind in o.types
  {
    set e | e in Derived(o.types, o.rels, rs) && e.to in Uris(rs) :: EdgeOf(db, e)
  }

  ghost function BatchRows(o: Ontology, db: string, rs: seq<Normalized>): seq<Write>
    requires forall r :: r in rs ==> r.kind in o.types
  {
    Rows(Merge, db, NodesOf(o.types, rs), NodesOf(o.types, rs))
  }

  function EventResources(ev: Event): seq<Resource> {
    seq(|ev.data|, i requires 0 <= i < |ev.data| => Resource(ev.entityType, ev.data[i]))
  }

  ghost function Meaning(o: Ontology, ev: Event): Action {
    match ev.action
    case "update" =>
      var rs := NormalizeAll(o, EventResources(ev));
      Load(BatchRows(o, DEFAULT_DB, rs), KeptLinks(o, DEFAULT_DB, rs))
    case "delete" => Remove(set u | u in ev.uris)
    case "delete_relation" => Unlink(EdgeSet(DEFAULT_DB, ev.relations))
    case _ => Nothing
  }

  ghost function Meanings(o: Ontology, log: seq<Event>): seq<Action> {
    seq(|log|, i requires 0 <= i < |log| => Meaning(o, log[i]))
  }

  // ---------------------------------------------------------------- statements as actions

  lemma {:induction false} OccursIfNamed(db: string, rels: seq<Relation>, e: Edge)
    ensures Occurrences(db, rels, e) > 0 <==> e in EdgeSet(db, rels)
    decreases |rels|
  {
    if rels != [] {
      OccursIfNamed(db, rels[1..], e);
      assert rels == [rels[0]] + rels[1..];
      assert EdgeSet(db, rels) == {EdgeOf(db, rels[0])} + EdgeSet(db, rels[1..]);
    }
  }

  /** MERGE of a list of relationships depends only on which are in it. */
  lemma MergeIsLink(g: Graph, db: string, rels: seq<Relation>)
    ensures TouchAll(g, MergeEdges, db, rels) == Linked(g, EdgeSet(db, rels))
  {
    var h, k := TouchAll(g, MergeEdges, db, rels), Linked(g, EdgeSet(db, rels));
    forall e ensures h.Multiplicity(e) == k.Multiplicity(e) {
      TouchAllAt(g, MergeEdges, db, rels, e);
      OccursIfNamed(db, rels, e);
    }
    TouchAllAt(g, MergeEdges, db, rels, Edge("", "", "", ""));
    GraphsAgree(h, k);
  }

  lemma DeleteIsUnlink(g: Graph, db: string, rels: seq<Relation>)
    ensures TouchAll(g, DeleteEdges, db, rels) == Unlinked(g, EdgeSet(db, rels))
  {
    var h, k := TouchAll(g, DeleteEdges, db, rels), Unlinked(g, EdgeSet(db, rels));
    forall e ensures h.Multiplicity(e) == k.Multiplicity(e) {
      TouchAllAt(g, DeleteEdges, db, rels, e);
      OccursIfNamed(db, rels, e);
    }
    TouchAllAt(g, DeleteEdges, db, rels, Edge("", "", "", ""));
    GraphsAgree(h, k);
  }

  /** Upserting what the assembler kept is the action of the batch, in whatever order the
      relation fields were visited. */
  lemma UpsertIsLoad(g: Graph, o: Ontology, db: string, rs: seq<Normalized>, kept: seq<Relation>, orphans: seq<Relation>)
    requires forall r :: r in rs ==> r.kind in o.types
    requires multiset(kept) + multiset(orphans) == Derived(o.types, o.rels, rs)
    requires forall x :: x in kept ==> x.to in Uris(rs)
    requires forall x :: x in orphans ==> x.to !in Uris(rs)
    ensures Loaded(g, Merge, db, NodesOf(o.types, rs), kept)
         == Apply(g, db, Load(BatchRows(o, db, rs), KeptLinks(o, db, rs)))
    ensures EdgeSet(db, kept) == KeptLinks(o, db, rs)
  {
    var h := WriteAll(g, db, BatchRows(o, db, rs));
    MergeIsLink(h, db, kept);
    forall x ensures x in kept <==> x in Derived(o.types, o.rels, rs) && x.to in Uris(rs) {
      KeptExactly(o.types, o.rels, rs, kept, orphans, x);
      assert x in kept <==> multiset(kept)[x] > 0;
    }
    assert EdgeSet(db, kept) == KeptLinks(o, db, rs);
  }

  /** An upsert that stops half-way is a part of that action. */
  lemma StoppedIsPart(g: Graph, o: Ontology, db: string, rs: seq<Normalized>, kept: seq<Relation>, h: Graph) returns (p: Action)
    requires forall r :: r in rs ==> r.kind in o.types
    requires Stopped(g, Merge, db, NodesOf(o.types, rs), kept, h) && EdgeSet(db, kept) <= KeptLinks(o, db, rs)
    ensures PartOf(p, Load(BatchRows(o, db, rs), KeptLinks(o, db, rs))) && h == Apply(g, db, p)
  {
    var ns, rows := NodesOf(o.types, rs), BatchRows(o, db, rs);
    var tags, types :| StoppedAt(g, Merge, db, ns, kept, tags, types, h);
    p := Load(InGroups(rows, tags), EdgeSet(db, OfTypes(kept, types)));
    MergeIsLink(WriteAll(g, db, InGroups(rows, tags)), db, OfTypes(kept, types));
    OfTypesMembers(kept, types);
    if types != {} {
      RowAt(Merge, db, ns, ns);
      forall w | w in rows ensures w.group in tags {
        var i :| 0 <= i < |rows| && rows[i] == w;
        assert ns[i] in ns;
      }
      InAllGroups(rows, tags);
    }
  }

  // ---------------------------------------------------------------- what an event asks for, element by element

  /** Element i of the data of the event normalizes to n. */
  ghost predicate Element(o: Ontology, ev: Event, i: int, n: Normalized) {
    0 <= i < |ev.data| && NormalizedFrom(o.types, o.show, Resource(ev.entityType, ev.data[i])) == Some(n)
  }

  /** k is a property of n that is no relation field. */
  predicate Plain(o: Ontology, n: Normalized, k: string) {
    k in n.properties && n.kind in o.types && k !in o.types[n.kind].relationFields
  }

  /** Element i is the last of the URI with property k. */
  ghost predicate LastPlain(o: Ontology, ev: Event, uri: string, k: string, i: int, n: Normalized) {
    && Element(o, ev, i, n) && n.uri == uri && Plain(o, n, k)
    && forall j, m :: i < j && Element(o, ev, j, m) && m.uri == uri ==> !Plain(o, m, k)
  }

  ghost predicate HasElement(o: Ontology, ev: Event, uri: string) {
    exists i, n :: Element(o, ev, i, n) && n.uri == uri
  }

  ghost predicate NodeUpdated(o: Ontology, ev: Event, before: Option<NodeRec>, uri: string, after: Option<NodeRec>) {
    if !HasElement(o, ev, uri) then after == before
    else
      && after.Some? && after.value.labels == Labels(o.types, ev.entityType)
      && ValueAt(after.value.props, "_db") == Some(Str(DEFAULT_DB)) && ValueAt(after.value.props, "uri") == Some(Str(uri))
      && forall k :: k != "_db" && k != "uri" ==> PropertyUpdated(o, ev, before, uri, k, after.value.props)
  }

  ghost predicate PropertyUpdated(o: Ontology, ev: Event, before: Option<NodeRec>, uri: string, k: string, p: Props) {
    && (forall i, n :: LastPlain(o, ev, uri, k, i, n) ==> ValueAt(p, k) == Shown(n.properties[k]))
    && ((forall i, n :: Element(o, ev, i, n) && n.uri == uri ==> !Plain(o, n, k)) ==>
          ValueAt(p, k) == if before.Some? then ValueAt(before.value.props, k) else None)
  }

  /** A relation field of some element names e. */
  ghost predicate SomeoneNames(o: Ontology, ev: Event, e: Edge) {
    exists i, n, f, p: nat :: Element(o, ev, i, n) && Stands(o.types, o.rels, n, f, RelationOf(e)) && Holds(n.properties[f], p, e.to)
  }

  /** ... and its target is an element too. */
  ghost predicate LinkAsked(o: Ontology, ev: Event, e: Edge) {
    SomeoneNames(o, ev, e) && HasElement(o, ev, e.to)
  }

  ghost predicate LinkUpdated(o: Ontology, ev: Event, g: Graph, h: Graph, e: Edge) {
    h.Multiplicity(e) == if LinkAsked(o, ev, e) && g.Multiplicity(e) == 0 then 1 else g.Multiplicity(e)
  }

  ghost predicate Updated(o: Ontology, ev: Event, g: Graph, h: Graph) {
    && (forall uri :: NodeUpdated(o, ev, g.Node(NodeKey(DEFAULT_DB, uri)), uri, h.Node(NodeKey(DEFAULT_DB, uri))))
    && (forall e: Edge :: e.db == DEFAULT_DB ==> LinkUpdated(o, ev, g, h, e))
    && SameOutside(g, h, DEFAULT_DB)
  }

  /** The nodes of the URIs are gone, with the relationships that start or end there, and nothing else. */
  ghost predicate Removed(uris: seq<string>, g: Graph, h: Graph) {
    && (forall k: NodeKey :: h.Node(k) == if k.db == DEFAULT_DB && k.uri in uris then None else g.Node(k))
    && (forall e: Edge :: h.Multiplicity(e) ==
          if e.db == DEFAULT_DB && (e.from in uris || e.to in uris) then 0 else g.Multiplicity(e))
  }

  /** The relationships named are gone, and nothing else. */
  ghost predicate Dropped(rels: seq<Relation>, g: Graph, h: Graph) {
    && h.nodes == g.nodes
    && (forall e: Edge :: h.Multiplicity(e) == if e.db == DEFAULT_DB && Names(rels, e) then 0 else g.Multiplicity(e))
  }

  /** The default database is what the event makes of it; nothing else has changed. */
  ghost predicate EventDone(o: Ontology, ev: Event, g: Graph, h: Graph) {
    match ev.action
    case "update" => Updated(o, ev, g, h)
    case "delete" => Removed(ev.uris, g, h)
    case "delete_relation" => Dropped(ev.relations, g, h)
    case _ => h == g
  }

  predicate Names(rels: seq<Relation>, e: Edge) {
    exists r :: r in rels && r.typ == e.typ && r.from == e.from && r.to == e.to
  }

  /** The list rs holds, in order, what the resources at the positions `at` normalize to; the others do not. */
  ghost predicate Selected(o: Ontology, resources: seq<Resource>, rs: seq<Normalized>, at: seq<nat>) {
    && |at| == |rs| && (forall x, y :: 0 <= x < y < |at| ==> at[x] < at[y])
    && (forall x :: 0 <= x < |at| ==> at[x] < |resources| && NormalizedFrom(o.types, o.show, resources[at[x]]) == Some(rs[x]))
    && (forall i :: 0 <= i < |resources| && i !in at ==> NormalizedFrom(o.types, o.show, resources[i]) == None)
  }

  lemma {:induction false} SelectedAll(o: Ontology, resources: seq<Resource>) returns (at: seq<nat>)
    ensures Selected(o, resources, NormalizeAll(o, resources), at)
    decreases |resources|
  {
    at := [];
    if resources != [] {
      var n := |resources| - 1;
      var init, last := resources[..n], resources[n];
      var before := SelectedAll(o, init);
      assert resources == init + [last];
      NormalizeAllSnoc(o, init, last);
      at := if NormalizedFrom(o.types, o.show, last).Some? then before + [n] else before;
      SelectedNext(o, init, last, NormalizeAll(o, init), before);
    }
  }

  lemma SelectedNext(o: Ontology, init: seq<Resource>, last: Resource, rs: seq<Normalized>, at: seq<nat>)
    requires Selected(o, init, rs, at)
    ensures NormalizedFrom(o.types, o.show, last).None? ==> Selected(o, init + [last], rs, at)
    ensures NormalizedFrom(o.types, o.show, last).Some? ==>
      Selected(o, init + [last], rs + [NormalizedFrom(o.types, o.show, last).value], at + [|init|])
  {
    var all, n := init + [last], |init|;
    forall i | 0 <= i < |all| && i !in at + [n] ensures NormalizedFrom(o.types, o.show, all[i]) == None {
      assert n in at + [n] && forall j :: j in at ==> j in at + [n];
      assert i < n && all[i] == init[i];
    }
  }

  /** Where an element of the event is in the batch. */
  lemma ElementAt(o: Ontology, ev: Event, rs: seq<Normalized>, at: seq<nat>, i: int, n: Normalized) returns (x: nat)
    requires Selected(o, EventResources(ev), rs, at) && Element(o, ev, i, n)
    ensures x < |rs| && at[x] == i && rs[x] == n
  {
    assert EventResources(ev)[i] == Resource(ev.entityType, ev.data[i]);
    assert i in at;
    x :| 0 <= x < |at| && at[x] == i;
  }

  lemma AtElement(o: Ontology, ev: Event, rs: seq<Normalized>, at: seq<nat>, x: nat)
    requires Selected(o, EventResources(ev), rs, at) && x < |rs|
    ensures Element(o, ev, at[x], rs[x]) && rs[x].kind == ev.entityType
  {
  }

  /** The rows of the batch are the elements of the event. */
  lemma RowsUpdate(o: Ontology, ev: Event, rs: seq<Normalized>, at: seq<nat>, before: Option<NodeRec>, uri: string, k: string, p: Props)
    requires Selected(o, EventResources(ev), rs, at) && forall r :: r in rs ==> r.kind in o.types
    requires KeyMerged(before, NodesOf(o.types, rs), uri, k, p)
    ensures PropertyUpdated(o, ev, before, uri, k, p)
  {
    var ns := NodesOf(o.types, rs);
    forall i, n | LastPlain(o, ev, uri, k, i, n) ensures ValueAt(p, k) == Shown(n.properties[k]) {
      var x := ElementAt(o, ev, rs, at, i, n);
      LastPlainIsLast(o, ev, rs, at, uri, k, x);
      assert ns[x].props[k] == n.properties[k];
    }
    if forall i, n :: Element(o, ev, i, n) && n.uri == uri ==> !Plain(o, n, k) {
      forall m | m in ns && m.uri == uri ensures k !in m.props {
        var x :| 0 <= x < |ns| && ns[x] == m;
        AtElement(o, ev, rs, at, x);
        assert !Plain(o, rs[x], k);
      }
    }
  }

  lemma LastPlainIsLast(o: Ontology, ev: Event, rs: seq<Normalized>, at: seq<nat>, uri: string, k: string, x: nat)
    requires Selected(o, EventResources(ev), rs, at) && x < |rs| && forall r :: r in rs ==> r.kind in o.types
    requires LastPlain(o, ev, uri, k, at[x], rs[x])
    ensures LastWith(NodesOf(o.types, rs), uri, k, x)
  {
    var ns := NodesOf(o.types, rs);
    forall j | x < j < |ns| && ns[j].uri == uri ensures k !in ns[j].props {
      AtElement(o, ev, rs, at, j);
      assert at[x] < at[j];
    }
  }

  lemma ElementsAreNodes(o: Ontology, ev: Event, rs: seq<Normalized>, at: seq<nat>, uri: string)
    requires Selected(o, EventResources(ev), rs, at) && forall r :: r in rs ==> r.kind in o.types
    ensures HasElement(o, ev, uri) <==> exists n :: n in NodesOf(o.types, rs) && n.uri == uri
    ensures HasElement(o, ev, uri) <==> uri in Uris(rs)
  {
    NodeUris(o, rs, uri);
    if HasElement(o, ev, uri) {
      var i, n :| Element(o, ev, i, n) && n.uri == uri;
      var x := ElementAt(o, ev, rs, at, i, n);
      assert rs[x] in rs;
    }
    if uri in Uris(rs) {
      var r :| r in rs && r.uri == uri;
      var x :| 0 <= x < |rs| && rs[x] == r;
      AtElement(o, ev, rs, at, x);
    }
  }

  lemma NodeUris(o: Ontology, rs: seq<Normalized>, uri: string)
    requires forall r :: r in rs ==> r.kind in o.types
    ensures uri in Uris(rs) <==> exists n :: n in NodesOf(o.types, rs) && n.uri == uri
  {
    var ns := NodesOf(o.types, rs);
    if uri in Uris(rs) {
      var r :| r in rs && r.uri == uri;
      var x :| 0 <= x < |rs| && rs[x] == r;
      assert ns[x] in ns && ns[x].uri == uri;
    }
    if n :| n in ns && n.uri == uri {
      var x :| 0 <= x < |ns| && ns[x] == n;
      assert rs[x] in rs;
    }
  }

  // ---------------------------------------------------------------- conditions on the ontology and the events

  /** Kinds whose URI templates start differently, so that a URI tells its kind. */
  predicate Apart(types: Types, a: string, b: string)
    requires a in types && b in types
  {
    !(Prefix(types[a].uriTemplate) <= Prefix(types[b].uriTemplate))
  }

  /** What the kinds named by events must satisfy; all of it can be checked when loading. */
  ghost predicate Suitable(o: Ontology, kinds: set<string>) {
    && "" !in o.types
    && (forall k :: k in kinds ==> k in o.types && CleanMapping(o.types[k].fieldMapping))
    && (forall k :: k in kinds ==> "uri" !in o.types[k].fieldMapping.Values && "uri" !in o.types[k].properties)
    && (forall a, b :: a in kinds && b in kinds && a != b ==> Apart(o.types, a, b))
  }

  /** An update event names one of the kinds (or a kind that does not exist) and has no `uri` field. */
  predicate Admissible(o: Ontology, kinds: set<string>, ev: Event) {
    && (ev.entityType in o.types ==> ev.entityType in kinds)
    && (forall d :: d in ev.data ==> "uri" !in d)
  }

  ghost predicate ResourcesOk(o: Ontology, kinds: set<string>, rs: seq<Resource>) {
    forall r :: r in rs && r.kind in o.types ==> r.kind in kinds && "uri" !in r.properties
  }

  lemma AdmissibleResources(o: Ontology, kinds: set<string>, ev: Event)
    requires Admissible(o, kinds, ev)
    ensures ResourcesOk(o, kinds, EventResources(ev))
  {
    forall r | r in EventResources(ev) && r.kind in o.types ensures r.kind in kinds && "uri" !in r.properties {
      var i :| 0 <= i < |ev.data| && r == Resource(ev.entityType, ev.data[i]);
      assert ev.data[i] in ev.data;
    }
  }

  /** The URI starts like those of one of the kinds. */
  ghost predicate HasKind(o: Ontology, kinds: set<string>, uri: string) {
    exists k :: k in kinds && k in o.types && Prefix(o.types[k].uriTemplate) <= uri
  }

  /** The kind a URI belongs to. */
  ghost function KindOf(o: Ontology, kinds: set<string>, uri: string): string {
    if HasKind(o, kinds, uri) then
      var k :| k in kinds && k in o.types && Prefix(o.types[k].uriTemplate) <= uri; k
    else "?"
  }

  ghost function LabelsOf(o: Ontology, kinds: set<string>): LabelsByUri {
    uri => Labels(o.types, KindOf(o, kinds, uri))
  }

  lemma NormalizedKind(o: Ontology, kinds: set<string>, r: Resource)
    requires Suitable(o, kinds) && r.kind in kinds && NormalizedFrom(o.types, o.show, r).Some?
    ensures KindOf(o, kinds, NormalizedFrom(o.types, o.show, r).value.uri) == r.kind
    ensures HasKind(o, kinds, NormalizedFrom(o.types, o.show, r).value.uri)
  {
    var uri := NormalizedFrom(o.types, o.show, r).value.uri;
    var et := o.types[r.kind];
    var p := Prefix(et.uriTemplate);
    UriKeepsPrefix(o.show, et.uriTemplate, et.stableKeys, Standardized(et, r.properties), p);
    var k := KindOf(o, kinds, uri);
    var q := Prefix(o.types[k].uriTemplate);
    PrefixesNest(p, q, uri);
    assert k != r.kind ==> Apart(o.types, k, r.kind) && Apart(o.types, r.kind, k);
  }

  lemma {:induction false} RulesKeepKeys(props: Props, rules: seq<NormalizeRule>)
    ensures ApplyRules(props, rules).Keys == props.Keys
    decreases |rules|
  {
    if rules != [] {
      RulesKeepKeys(ApplyRule(props, rules[0]), rules[1..]);
    }
  }

  lemma NoUriProperty(et: EntityType, props: Props)
    requires "uri" !in props && "uri" !in et.fieldMapping.Values && "uri" !in et.properties
    ensures "uri" !in Standardized(et, props)
  {
    RulesKeepKeys(Renamed(et.fieldMapping, props), et.normalize);
    assert forall s :: s in et.fieldMapping ==> et.fieldMapping[s] in et.fieldMapping.Values;
  }

  /** Each resource of a batch: its kind is the one its URI tells, and it has no `uri` property. */
  ghost predicate WellKinded(o: Ontology, kinds: set<string>, rs: seq<Normalized>) {
    forall r :: r in rs ==>
      && r.kind in kinds && r.kind in o.types && r.kind != ""
      && HasKind(o, kinds, r.uri) && KindOf(o, kinds, r.uri) == r.kind && "uri" !in r.properties
  }

  lemma BatchWellKinded(o: Ontology, kinds: set<string>, rs: seq<Resource>)
    requires Suitable(o, kinds) && ResourcesOk(o, kinds, rs)
    ensures WellKinded(o, kinds, NormalizeAll(o, rs))
  {
    forall n | n in NormalizeAll(o, rs)
      ensures n.kind in kinds && n.kind in o.types && n.kind != ""
      ensures HasKind(o, kinds, n.uri) && KindOf(o, kinds, n.uri) == n.kind && "uri" !in n.properties
    {
      var r := NormalizedIsFrom(o, rs, n);
      NormalizedKind(o, kinds, r);
      NoUriProperty(o.types[r.kind], r.properties);
    }
  }

  // ---------------------------------------------------------------- batches as actions

  /** The nodes already stored carry the labels of their URI. */
  ghost predicate StoredLabels(g: Graph, db: string, labelsOf: LabelsByUri) {
    forall k :: k in g.nodes && k.db == db ==> g.nodes[k].labels == labelsOf(k.uri)
  }

  lemma NodeLabels(o: Ontology, kinds: set<string>, rs: seq<Normalized>, n: Node)
    requires WellKinded(o, kinds, rs) && n in NodesOf(o.types, rs)
    ensures n.uri in Uris(rs) && "uri" !in n.props
    ensures n.labels == LabelsOf(o, kinds)(n.uri) != [] && n.MostSpecificLabel() == KindOf(o, kinds, n.uri)
  {
    var i :| 0 <= i < |rs| && n == NodeOf(o.types, rs[i]);
    OneNodeLabels(o, kinds, rs, rs[i]);
  }

  lemma OneNodeLabels(o: Ontology, kinds: set<string>, rs: seq<Normalized>, r: Normalized)
    requires WellKinded(o, kinds, rs) && r in rs
    ensures r.kind in o.types
    ensures var n := NodeOf(o.types, r);
      && n.uri in Uris(rs) && "uri" !in n.props
      && n.labels == LabelsOf(o, kinds)(n.uri) != [] && n.MostSpecificLabel() == KindOf(o, kinds, n.uri)
  {
    assert KindOf(o, kinds, r.uri) == r.kind;
    KindIsLastLabel(o.types, r.kind);
  }

  lemma BatchRow(o: Ontology, kinds: set<string>, mode: WriteMode, db: string, rs: seq<Normalized>, i: nat)
    requires WellKinded(o, kinds, rs) && i < |rs|
    ensures forall r :: r in rs ==> r.kind in o.types
    ensures var ns := NodesOf(o.types, rs);
      |Rows(mode, db, ns, ns)| == |rs|
      && Rows(mode, db, ns, ns)[i] == Row(mode, db, LabelsOf(o, kinds)(rs[i].uri), ns[i])
  {
    var ns := NodesOf(o.types, rs);
    RowAt(mode, db, ns, ns);
    var l := ns[i].MostSpecificLabel();
    NodesLabelledMembers(ns, l);
    assert ns[i] in ns;
    NodeLabels(o, kinds, rs, ns[i]);
    var group := NodesLabelled(ns, l);
    assert ns[i] in group && group[0] in group;
    NodeLabels(o, kinds, rs, group[0]);
  }

  lemma BatchRowLabels(o: Ontology, kinds: set<string>, db: string, rs: seq<Normalized>, i: nat)
    requires WellKinded(o, kinds, rs) && i < |BatchRows(o, db, rs)|
    ensures BatchRows(o, db, rs)[i].labels == LabelsOf(o, kinds)(BatchRows(o, db, rs)[i].uri)
  {
    RowCount(Merge, db, NodesOf(o.types, rs), NodesOf(o.types, rs));
    BatchRow(o, kinds, Merge, db, rs, i);
    assert NodesOf(o.types, rs)[i].uri == rs[i].uri;
  }

  lemma RowCount(mode: WriteMode, db: string, all: seq<Node>, nodes: seq<Node>)
    ensures |Rows(mode, db, all, nodes)| == |nodes|
  {
    RowAt(mode, db, all, nodes);
  }

  lemma LinkEnds(o: Ontology, db: string, rs: seq<Normalized>, e: Edge)
    requires (forall r :: r in rs ==> r.kind in o.types) && e in KeptLinks(o, db, rs)
    ensures e.db == db && HasRow(BatchRows(o, db, rs), e.from) && HasRow(BatchRows(o, db, rs), e.to)
  {
    var x :| x in Derived(o.types, o.rels, rs) && x.to in Uris(rs) && e == EdgeOf(db, x);
    DerivedFrom(o.types, o.rels, rs, x);
    UriHasRow(o, db, rs, e.from);
    UriHasRow(o, db, rs, e.to);
  }

  /** Every update event is self-contained: this is what the orphan filter, the label chains and
      the URI templates are for. */
  lemma BatchSelfContained(o: Ontology, kinds: set<string>, db: string, rs: seq<Normalized>)
    requires WellKinded(o, kinds, rs)
    ensures SelfContained(Load(BatchRows(o, db, rs), KeptLinks(o, db, rs)), db, LabelsOf(o, kinds))
  {
    forall w | w in BatchRows(o, db, rs) ensures w.labels == LabelsOf(o, kinds)(w.uri) {
      var i :| 0 <= i < |BatchRows(o, db, rs)| && BatchRows(o, db, rs)[i] == w;
      BatchRowLabels(o, kinds, db, rs, i);
    }
    forall e | e in KeptLinks(o, db, rs)
      ensures e.db == db && HasRow(BatchRows(o, db, rs), e.from) && HasRow(BatchRows(o, db, rs), e.to)
    {
      LinkEnds(o, db, rs, e);
    }
  }

  lemma UriHasRow(o: Ontology, db: string, rs: seq<Normalized>, uri: string)
    requires uri in Uris(rs) && forall r :: r in rs ==> r.kind in o.types
    ensures HasRow(BatchRows(o, db, rs), uri)
  {
    var r :| r in rs && r.uri == uri;
    var i :| 0 <= i < |rs| && rs[i] == r;
    RowAt(Merge, db, NodesOf(o.types, rs), NodesOf(o.types, rs));
    assert BatchRows(o, db, rs)[i].uri == uri;
  }

  lemma MeaningSelfContained(o: Ontology, kinds: set<string>, ev: Event)
    requires Suitable(o, kinds) && Admissible(o, kinds, ev)
    ensures SelfContained(Meaning(o, ev), DEFAULT_DB, LabelsOf(o, kinds))
  {
    if ev.action == "update" {
      AdmissibleResources(o, kinds, ev);
      BatchWellKinded(o, kinds, EventResources(ev));
      BatchSelfContained(o, kinds, DEFAULT_DB, NormalizeAll(o, EventResources(ev)));
    }
  }

  /** MERGE finds the node of every URI in such a batch. */
  lemma BatchMergeable(g: Graph, o: Ontology, kinds: set<string>, db: string, rs: seq<Normalized>)
    requires WellKinded(o, kinds, rs) && StoredLabels(g, db, LabelsOf(o, kinds))
    ensures Mergeable(g, db, NodesOf(o.types, rs))
  {
    var ns := NodesOf(o.types, rs);
    forall n | n in ns
      ensures n.labels != [] && "uri" !in n.props
      ensures n.MostSpecificLabel() == KindOf(o, kinds, n.uri)
      ensures NodeKey(db, n.uri) in g.nodes ==> n.MostSpecificLabel() in g.nodes[NodeKey(db, n.uri)].labels
    {
      NodeLabels(o, kinds, rs, n);
    }
  }

  /** The nodes of an update. */
  lemma UpdateNode(o: Ontology, kinds: set<string>, ev: Event, g: Graph, uri: string)
    requires Suitable(o, kinds) && Admissible(o, kinds, ev) && g.Wf() && StoredLabels(g, DEFAULT_DB, LabelsOf(o, kinds))
    ensures var h := WriteAll(g, DEFAULT_DB, BatchRows(o, DEFAULT_DB, NormalizeAll(o, EventResources(ev))));
      NodeUpdated(o, ev, g.Node(NodeKey(DEFAULT_DB, uri)), uri, h.Node(NodeKey(DEFAULT_DB, uri)))
  {
    var resources := EventResources(ev);
    var rs := NormalizeAll(o, resources);
    AdmissibleResources(o, kinds, ev);
    BatchWellKinded(o, kinds, resources);
    BatchMergeable(g, o, kinds, DEFAULT_DB, rs);
    RowsMerge(g, DEFAULT_DB, NodesOf(o.types, rs), uri);
    var at := SelectedAll(o, resources);
    var h := WriteAll(g, DEFAULT_DB, BatchRows(o, DEFAULT_DB, rs));
    MergedIsUpdated(o, kinds, ev, rs, at, g.Node(NodeKey(DEFAULT_DB, uri)), uri, h.Node(NodeKey(DEFAULT_DB, uri)));
  }

  lemma MergedIsUpdated(o: Ontology, kinds: set<string>, ev: Event, rs: seq<Normalized>, at: seq<nat>,
                        before: Option<NodeRec>, uri: string, after: Option<NodeRec>)
    requires WellKinded(o, kinds, rs) && Selected(o, EventResources(ev), rs, at)
    requires before.Some? ==> before.value.labels == LabelsOf(o, kinds)(uri)
    requires NodeMerged(DEFAULT_DB, before, NodesOf(o.types, rs), uri, after)
    ensures NodeUpdated(o, ev, before, uri, after)
  {
    ElementsAreNodes(o, ev, rs, at, uri);
    if HasElement(o, ev, uri) {
      BatchLabels(o, kinds, ev, rs, at, uri);
      if before.None? { TakenLabels(o, ev, rs, at, uri, after.value.labels); }
      forall k ensures k != "_db" && k != "uri" ==> PropertyUpdated(o, ev, before, uri, k, after.value.props) {
        if k != "_db" && k != "uri" {
          RowsUpdate(o, ev, rs, at, before, uri, k, after.value.props);
        }
      }
    }
  }

  lemma BatchLabels(o: Ontology, kinds: set<string>, ev: Event, rs: seq<Normalized>, at: seq<nat>, uri: string)
    requires WellKinded(o, kinds, rs) && Selected(o, EventResources(ev), rs, at) && HasElement(o, ev, uri)
    ensures LabelsOf(o, kinds)(uri) == Labels(o.types, ev.entityType)
  {
    var i, n :| Element(o, ev, i, n) && n.uri == uri;
    var x := ElementAt(o, ev, rs, at, i, n);
    AtElement(o, ev, rs, at, x);
    OneKind(o, kinds, rs, rs[x]);
  }

  lemma OneKind(o: Ontology, kinds: set<string>, rs: seq<Normalized>, r: Normalized)
    requires WellKinded(o, kinds, rs) && r in rs
    ensures LabelsOf(o, kinds)(r.uri) == Labels(o.types, r.kind)
  {
  }

  lemma TakenLabels(o: Ontology, ev: Event, rs: seq<Normalized>, at: seq<nat>, uri: string, labels: seq<string>)
    requires Selected(o, EventResources(ev), rs, at) && (forall r :: r in rs ==> r.kind in o.types)
    requires LabelsTaken(NodesOf(o.types, rs), uri, labels)
    ensures labels == Labels(o.types, ev.entityType)
  {
    var ns := NodesOf(o.types, rs);
    var i, j :| 0 <= i < |ns| && ns[i].uri == uri && First(ns, ns[i].MostSpecificLabel(), j) && labels == ns[j].labels;
    AtElement(o, ev, rs, at, j);
  }

  lemma LinkIsAsked(o: Ontology, ev: Event, e: Edge)
    requires e.db == DEFAULT_DB
    ensures e in KeptLinks(o, DEFAULT_DB, NormalizeAll(o, EventResources(ev))) <==> LinkAsked(o, ev, e)
  {
    var rs := NormalizeAll(o, EventResources(ev));
    var at := SelectedAll(o, EventResources(ev));
    ElementsAreNodes(o, ev, rs, at, e.to);
    DerivedNamed(o.types, o.rels, rs, RelationOf(e));
    if e in KeptLinks(o, DEFAULT_DB, rs) {
      KeptIsDerived(o, rs, e);
      NamedIsAsked(o, ev, rs, at, e);
    }
    if LinkAsked(o, ev, e) {
      AskedIsNamed(o, ev, rs, at, e);
      DerivedIsKept(o, rs, e);
    }
  }

  lemma NamedIsAsked(o: Ontology, ev: Event, rs: seq<Normalized>, at: seq<nat>, e: Edge)
    requires Selected(o, EventResources(ev), rs, at) && Named(o.types, o.rels, rs, RelationOf(e)) > 0
    ensures SomeoneNames(o, ev, e)
  {
    var place :| place in Namings(o.types, o.rels, rs, |rs|, RelationOf(e));
    var (i, f, p) := place;
    AtElement(o, ev, rs, at, i);
  }

  lemma AskedIsNamed(o: Ontology, ev: Event, rs: seq<Normalized>, at: seq<nat>, e: Edge)
    requires Selected(o, EventResources(ev), rs, at) && SomeoneNames(o, ev, e)
    ensures Named(o.types, o.rels, rs, RelationOf(e)) > 0
  {
    var i, n, f, p: nat :| Element(o, ev, i, n) && Stands(o.types, o.rels, n, f, RelationOf(e)) && Holds(n.properties[f], p, e.to);
    var y := ElementAt(o, ev, rs, at, i, n);
    assert (y, f, p) in Namings(o.types, o.rels, rs, |rs|, RelationOf(e));
  }

  lemma DerivedIsKept(o: Ontology, rs: seq<Normalized>, e: Edge)
    requires (forall r :: r in rs ==> r.kind in o.types) && e.db == DEFAULT_DB
    requires RelationOf(e) in Derived(o.types, o.rels, rs) && e.to in Uris(rs)
    ensures e in KeptLinks(o, DEFAULT_DB, rs)
  {
    assert EdgeOf(DEFAULT_DB, RelationOf(e)) == e;
  }

  lemma KeptIsDerived(o: Ontology, rs: seq<Normalized>, e: Edge)
    requires (forall r :: r in rs ==> r.kind in o.types) && e in KeptLinks(o, DEFAULT_DB, rs)
    ensures RelationOf(e) in Derived(o.types, o.rels, rs) && e.to in Uris(rs)
  {
    var x :| x in Derived(o.types, o.rels, rs) && x.to in Uris(rs) && e == EdgeOf(DEFAULT_DB, x);
    DerivedFrom(o.types, o.rels, rs, x);
  }

  /** What an event means is what it asks for, element by element. */
  lemma MeaningDone(o: Ontology, kinds: set<string>, ev: Event, g: Graph)
    requires Suitable(o, kinds) && Admissible(o, kinds, ev) && g.Wf() && StoredLabels(g, DEFAULT_DB, LabelsOf(o, kinds))
    ensures EventDone(o, ev, g, Apply(g, DEFAULT_DB, Meaning(o, ev)))
  {
    if ev.action == "update" {
      UpdateDone(o, kinds, ev, g);
    } else if ev.action == "delete" {
      RemoveDone(ev.uris, g);
    } else if ev.action == "delete_relation" {
      DropDone(ev.relations, g);
    }
  }

  lemma RemoveDone(uris: seq<string>, g: Graph)
    requires g.Wf()
    ensures Removed(uris, g, Detached(g, DEFAULT_DB, set u | u in uris))
  {
    var h := Detached(g, DEFAULT_DB, set u | u in uris);
    forall k: NodeKey ensures h.Node(k) == if k.db == DEFAULT_DB && k.uri in uris then None else g.Node(k) {}
    forall e: Edge ensures h.Multiplicity(e) == if e.db == DEFAULT_DB && (e.from in uris || e.to in uris) then 0 else g.Multiplicity(e) {
      DetachedLink(uris, g, e);
    }
  }

  lemma DetachedLink(uris: seq<string>, g: Graph, e: Edge)
    ensures Detached(g, DEFAULT_DB, set u | u in uris).Multiplicity(e)
         == if e.db == DEFAULT_DB && (e.from in uris || e.to in uris) then 0 else g.Multiplicity(e)
  {
  }

  lemma DropDone(rels: seq<Relation>, g: Graph)
    ensures Dropped(rels, g, Unlinked(g, EdgeSet(DEFAULT_DB, rels)))
  {
    forall e: Edge ensures e in EdgeSet(DEFAULT_DB, rels) <==> e.db == DEFAULT_DB && Names(rels, e) {
      NamedInSet(rels, e);
    }
  }

  lemma NamedInSet(rels: seq<Relation>, e: Edge)
    ensures e in EdgeSet(DEFAULT_DB, rels) <==> e.db == DEFAULT_DB && Names(rels, e)
  {
  }

  lemma UpdateDone(o: Ontology, kinds: set<string>, ev: Event, g: Graph)
    requires Suitable(o, kinds) && Admissible(o, kinds, ev) && g.Wf() && StoredLabels(g, DEFAULT_DB, LabelsOf(o, kinds))
    requires ev.action == "update"
    ensures Updated(o, ev, g, Apply(g, DEFAULT_DB, Meaning(o, ev)))
  {
    var h := Apply(g, DEFAULT_DB, Meaning(o, ev));
    forall uri ensures NodeUpdated(o, ev, g.Node(NodeKey(DEFAULT_DB, uri)), uri, h.Node(NodeKey(DEFAULT_DB, uri))) {
      UpdateNode(o, kinds, ev, g, uri);
    }
    forall e: Edge ensures if e.db == DEFAULT_DB then LinkUpdated(o, ev, g, h, e) else h.Multiplicity(e) == g.Multiplicity(e) {
      UpdateLink(o, kinds, ev, g, e);
    }
    WriteAllOutside(g, DEFAULT_DB, BatchRows(o, DEFAULT_DB, NormalizeAll(o, EventResources(ev))));
  }

  lemma UpdateLink(o: Ontology, kinds: set<string>, ev: Event, g: Graph, e: Edge)
    requires Suitable(o, kinds) && Admissible(o, kinds, ev) && ev.action == "update"
    ensures var h := Apply(g, DEFAULT_DB, Meaning(o, ev));
      if e.db == DEFAULT_DB then LinkUpdated(o, ev, g, h, e) else h.Multiplicity(e) == g.Multiplicity(e)
  {
    var rs := NormalizeAll(o, EventResources(ev));
    var rows, links := BatchRows(o, DEFAULT_DB, rs), KeptLinks(o, DEFAULT_DB, rs);
    WriteAllAt(g, DEFAULT_DB, rows, e.Source());
    WriteAllAt(g, DEFAULT_DB, rows, e.Target());
    if e.db == DEFAULT_DB { LinkIsAsked(o, ev, e); }
    if e in links {
      LinkEnds(o, DEFAULT_DB, rs, e);
      RowThere(g, DEFAULT_DB, rows, e.from);
      RowThere(g, DEFAULT_DB, rows, e.to);
    }
  }

  /** Each URI of such a batch is written by one statement. */
  lemma MeaningOneGroup(o: Ontology, kinds: set<string>, ev: Event)
    requires Suitable(o, kinds) && Admissible(o, kinds, ev)
    ensures OneGroup(Meaning(o, ev))
  {
    if ev.action == "update" {
      var rs := NormalizeAll(o, EventResources(ev));
      AdmissibleResources(o, kinds, ev);
      BatchWellKinded(o, kinds, EventResources(ev));
      var g := Graph(map[], map[]);
      BatchMergeable(g, o, kinds, DEFAULT_DB, rs);
      RowsUriInOneGroup(g, Merge, DEFAULT_DB, NodesOf(o.types, rs));
    }
  }

  lemma {:induction false} WritesKeepLabels(g: Graph, db: string, ws: seq<Write>, labelsOf: LabelsByUri)
    requires StoredLabels(g, db, labelsOf) && forall w :: w in ws ==> w.labels == labelsOf(w.uri)
    ensures StoredLabels(WriteAll(g, db, ws), db, labelsOf)
    decreases |ws|
  {
    if ws != [] {
      assert ws == [ws[0]] + ws[1..];
      WritesKeepLabels(WriteNode(g, db, ws[0]), db, ws[1..], labelsOf);
    }
  }

  /** One event, delivered any number of times among the others, on the graph of any run. */
  lemma EventsReplay(g: Graph, o: Ontology, kinds: set<string>, log: seq<Event>, passes: seq<Pass>)
    requires Suitable(o, kinds) && forall ev :: ev in log ==> Admissible(o, kinds, ev)
    requires Schedule(passes, |log|) && StoppedBefore(passes, |passes|) == |log|
    ensures RunPasses(g, DEFAULT_DB, Meanings(o, log), passes) == Run(g, DEFAULT_DB, Meanings(o, log))
  {
    forall i | 0 <= i < |log| ensures SelfContained(Meanings(o, log)[i], DEFAULT_DB, LabelsOf(o, kinds)) {
      assert log[i] in log;
      MeaningSelfContained(o, kinds, log[i]);
    }
    RedeliveryIsHarmless(g, DEFAULT_DB, Meanings(o, log), passes, LabelsOf(o, kinds));
  }
}
