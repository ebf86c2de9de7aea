/** The graph assembler (internal/assembler/assembler.go): normalized resources become nodes, and
    their relation fields become relationships whose target must be in the same batch. */
module Assembler {
  import opened Common
  import opened GraphModel
  import opened Schema
  import opened Inheritance
  import opened Normalizer

  datatype Warning = Warning(typ: string, detail: string)

  function OrphanWarning(r: Relation): (w: Warning)
    ensures w.typ == "orphan_edge" && |w.detail| == |r.typ| + |r.from| + |r.to| + 5
    ensures r.typ + ": " <= w.detail && w.detail[|w.detail| - |r.to|..] == r.to
  {
    Warning("orphan_edge", r.typ + ": " + r.from + " \U{2192} " + r.to)
  }

  // ---------------------------------------------------------------- nodes

  function NodeOf(types: Types, r: Normalized): Node
    requires r.kind in types
  {
    Node(Labels(types, r.kind), r.uri,
         map k | k in r.properties && k !in types[r.kind].relationFields :: r.properties[k])
  }

  function NodesOf(types: Types, rs: seq<Normalized>): seq<Node>
    requires forall r :: r in rs ==> r.kind in types
  {
    seq(|rs|, i requires 0 <= i < |rs| => NodeOf(types, rs[i]))
  }

  // ---------------------------------------------------------------- relationships

  /** Strings of a list, skipping what is not a string. */
  function Strings(items: seq<Value>): seq<string> {
    if items == [] then []
    else (if items[0].Str? then [items[0].str] else []) + Strings(items[1..])
  }

  function ToStringSlice(v: Value): Option<seq<string>> {
    match v
    case StrList(strs) => Some(strs)
    case AnyList(items) => Some(Strings(items))
    case _ => None
  }

  function Edges(typ: string, from: string, targets: seq<string>): seq<Relation>
    ensures |Edges(typ, from, targets)| == |targets|
    ensures forall i :: 0 <= i < |targets| ==> Edges(typ, from, targets)[i] == Relation(typ, from, targets[i], map[])
  {
    seq(|targets|, i requires 0 <= i < |targets| => Relation(typ, from, targets[i], map[]))
  }

  /** The relationships one relation field stands for: none unless it is present, a list, of a
      known relation type, and the type may start at this kind. */
  function FieldEdges(types: Types, rels: map<string, RelationType>, r: Normalized, field: string): seq<Relation>
    requires r.kind in types && field in types[r.kind].relationFields
  {
    var typ := types[r.kind].relationFields[field];
    if field !in r.properties then []
    else
      match ToStringSlice(r.properties[field])
      case None => []
      case Some(targets) =>
        if typ in rels && r.kind in rels[typ].source then Edges(typ, r.uri, targets) else []
  }

  /** What the fields of a set derive, each as often as it is named. */
  ghost function FieldsDerive(types: Types, rels: map<string, RelationType>, r: Normalized, fields: set<string>): multiset<Relation>
    requires r.kind in types && fields <= types[r.kind].relationFields.Keys
  {
    if fields == {} then multiset{}
    else
      var f :| f in fields;
      multiset(FieldEdges(types, rels, r, f)) + FieldsDerive(types, rels, r, fields - {f})
  }

  ghost function Derived(types: Types, rels: map<string, RelationType>, rs: seq<Normalized>): multiset<Relation>
    requires forall r :: r in rs ==> r.kind in types
  {
    if rs == [] then multiset{}
    else
      assert rs[0] in rs && forall r :: r in rs[1..] ==> r in rs;
      FieldsDerive(types, rels, rs[0], types[rs[0].kind].relationFields.Keys) + Derived(types, rels, rs[1..])
  }

  lemma {:induction false} TakeField(types: Types, rels: map<string, RelationType>, r: Normalized, fields: set<string>, f: string)
    requires r.kind in types && fields <= types[r.kind].relationFields.Keys && f in fields
    ensures FieldsDerive(types, rels, r, fields)
         == multiset(FieldEdges(types, rels, r, f)) + FieldsDerive(types, rels, r, fields - {f})
    decreases fields
  {
    var g :| g in fields && FieldsDerive(types, rels, r, fields)
      == multiset(FieldEdges(types, rels, r, g)) + FieldsDerive(types, rels, r, fields - {g});
    if f != g {
      TakeField(types, rels, r, fields - {g}, f);
      TakeField(types, rels, r, fields - {f}, g);
      assert fields - {g} - {f} == fields - {f} - {g};
    }
  }

  lemma {:induction false} DerivedSnoc(types: Types, rels: map<string, RelationType>, rs: seq<Normalized>, r: Normalized)
    requires forall x :: x in rs + [r] ==> x.kind in types
    requires r in rs + [r] && forall x :: x in rs ==> x in rs + [r]
    ensures Derived(types, rels, rs + [r])
         == Derived(types, rels, rs) + FieldsDerive(types, rels, r, types[r.kind].relationFields.Keys)
    decreases |rs|
  {
    if rs == [] {
      assert rs + [r] == [r];
      assert [r][1..] == [];
    } else {
      assert (rs + [r])[1..] == rs[1..] + [r];
      assert forall x :: x in rs[1..] + [r] ==> x in rs + [r];
      DerivedSnoc(types, rels, rs[1..], r);
    }
  }

  function Uris(rs: seq<Normalized>): set<string> {
    set r | r in rs :: r.uri
  }

  /** Everything a derived relationship says comes from some resource of the batch. */
  lemma {:induction false} DerivedFrom(types: Types, rels: map<string, RelationType>, rs: seq<Normalized>, e: Relation)
    requires forall r :: r in rs ==> r.kind in types
    requires e in Derived(types, rels, rs)
    ensures e.from in Uris(rs) && e.props == map[] && e.typ in rels
    decreases |rs|
  {
    assert rs[0] in rs && forall r :: r in rs[1..] ==> r in rs;
    var fields := types[rs[0].kind].relationFields.Keys;
    if e in FieldsDerive(types, rels, rs[0], fields) {
      FieldsFrom(types, rels, rs[0], fields, e);
    } else {
      DerivedFrom(types, rels, rs[1..], e);
    }
  }

  lemma {:induction false} FieldsFrom(types: Types, rels: map<string, RelationType>, r: Normalized, fields: set<string>, e: Relation)
    requires r.kind in types && fields <= types[r.kind].relationFields.Keys
    requires e in FieldsDerive(types, rels, r, fields)
    ensures e.from == r.uri && e.props == map[] && e.typ in rels
    decreases fields
  {
    var g :| g in fields && FieldsDerive(types, rels, r, fields)
      == multiset(FieldEdges(types, rels, r, g)) + FieldsDerive(types, rels, r, fields - {g});
    if e !in FieldEdges(types, rels, r, g) {
      FieldsFrom(types, rels, r, fields - {g}, e);
    }
  }

  // ---------------------------------------------------------------- how often a relationship is derived

  /** How many positions the list v has. */
  function Size(v: Value): nat {
    match v
    case StrList(strs) => |strs|
    case AnyList(items) => |items|
    case _ => 0
  }

  /** Position p of the list v holds the string s. */
  predicate Holds(v: Value, p: nat, s: string) {
    p < Size(v) && if v.StrList? then v.strs[p] == s else v.AnyList? && v.items[p] == Str(s)
  }

  /** Field f of resource r is a relation field of type e.typ, which is known and may start at r, and e
      starts there. */
  predicate Stands(types: Types, rels: map<string, RelationType>, r: Normalized, f: string, e: Relation) {
    && r.kind in types && f in types[r.kind].relationFields && f in r.properties
    && e == Relation(types[r.kind].relationFields[f], r.uri, e.to, map[])
    && e.typ in rels && r.kind in rels[e.typ].source
  }

  /** The places in the first n resources that name relationship e: resource, field and position. */
  function Namings(types: Types, rels: map<string, RelationType>, rs: seq<Normalized>, n: nat, e: Relation): set<(nat, string, nat)>
    requires n <= |rs|
  {
    set i: nat, f, p: nat | i < n && f in rs[i].properties && p < Size(rs[i].properties[f])
      && Stands(types, rels, rs[i], f, e) && Holds(rs[i].properties[f], p, e.to) :: (i, f, p)
  }

  /** ... in the given fields of resource i, and in the first n positions of one field. */
  function InFields(types: Types, rels: map<string, RelationType>, r: Normalized, i: nat, fields: set<string>, e: Relation): set<(nat, string, nat)> {
    set f, p: nat | f in fields && f in r.properties && p < Size(r.properties[f])
      && Stands(types, rels, r, f, e) && Holds(r.properties[f], p, e.to) :: (i, f, p)
  }

  function Upto(v: Value, i: nat, f: string, n: nat, s: string): set<(nat, string, nat)> {
    set p: nat | p < n && Holds(v, p, s) :: (i, f, p)
  }

  lemma {:induction false} CountStrs(strs: seq<string>, i: nat, f: string, n: nat, s: string)
    requires n <= |strs|
    ensures |Upto(StrList(strs), i, f, n, s)| == multiset(strs[..n])[s]
    decreases n
  {
    var v, p := StrList(strs), n - 1;
    if n > 0 {
      CountStrs(strs, i, f, p, s);
      assert strs[..n] == strs[..p] + [strs[p]];
      UptoNext(v, i, f, p, s);
    } else {
      assert Upto(v, i, f, 0, s) == {};
    }
  }

  lemma UptoNext(v: Value, i: nat, f: string, n: nat, s: string)
    ensures |Upto(v, i, f, n + 1, s)| == |Upto(v, i, f, n, s)| + if Holds(v, n, s) then 1 else 0
  {
    assert Upto(v, i, f, n + 1, s) == Upto(v, i, f, n, s) + if Holds(v, n, s) then {(i, f, n)} else {};
  }

  lemma {:induction false} StringsSnoc(items: seq<Value>, v: Value)
    ensures Strings(items + [v]) == Strings(items) + if v.Str? then [v.str] else []
    decreases |items|
  {
    if items == [] {
      assert items + [v] == [v];
    } else {
      var more := items + [v];
      assert more[0] == items[0] && more[1..] == items[1..] + [v];
      StringsSnoc(items[1..], v);
      assert Strings(more) == (if items[0].Str? then [items[0].str] else []) + Strings(items[1..] + [v]);
    }
  }

  lemma {:induction false} CountItems(items: seq<Value>, i: nat, f: string, n: nat, s: string)
    requires n <= |items|
    ensures |Upto(AnyList(items), i, f, n, s)| == multiset(Strings(items[..n]))[s]
    decreases n
  {
    var v, p := AnyList(items), n - 1;
    if n > 0 {
      CountItems(items, i, f, p, s);
      assert items[..n] == items[..p] + [items[p]];
      StringsSnoc(items[..p], items[p]);
      UptoNext(v, i, f, p, s);
    } else {
      assert Upto(v, i, f, 0, s) == {};
    }
  }

  /** What ToStringSlice takes from a list is what its positions hold. */
  lemma CountHeld(v: Value, i: nat, f: string, s: string)
    ensures |Upto(v, i, f, Size(v), s)| == match ToStringSlice(v) case Some(targets) => multiset(targets)[s] case None => 0
  {
    match v
    case StrList(strs) =>
      CountStrs(strs, i, f, |strs|, s);
      assert strs[..|strs|] == strs;
    case AnyList(items) =>
      CountItems(items, i, f, |items|, s);
      assert items[..|items|] == items;
    case _ => assert Upto(v, i, f, 0, s) == {};
  }

  lemma {:induction false} CountEdges(typ: string, from: string, targets: seq<string>, e: Relation)
    ensures multiset(Edges(typ, from, targets))[e]
         == if e == Relation(typ, from, e.to, map[]) then multiset(targets)[e.to] else 0
    decreases |targets|
  {
    if targets != [] {
      CountEdges(typ, from, targets[1..], e);
      assert targets == [targets[0]] + targets[1..];
      assert Edges(typ, from, targets) == [Relation(typ, from, targets[0], map[])] + Edges(typ, from, targets[1..]);
    }
  }

  /** One field derives e as often as its list names it. */
  lemma CountField(types: Types, rels: map<string, RelationType>, r: Normalized, i: nat, f: string, e: Relation)
    requires r.kind in types && f in types[r.kind].relationFields
    ensures multiset(FieldEdges(types, rels, r, f))[e] == |InFields(types, rels, r, i, {f}, e)|
  {
    var own := InFields(types, rels, r, i, {f}, e);
    if f in r.properties && Stands(types, rels, r, f, e) {
      var v := r.properties[f];
      CountHeld(v, i, f, e.to);
      assert own == Upto(v, i, f, Size(v), e.to);
      match ToStringSlice(v)
      case Some(targets) => CountEdges(e.typ, r.uri, targets, e);
      case None =>
    } else {
      assert own == {};
      if f in r.properties && ToStringSlice(r.properties[f]).Some? {
        CountEdges(types[r.kind].relationFields[f], r.uri, ToStringSlice(r.properties[f]).value, e);
      }
    }
  }

  lemma {:induction false} CountFields(types: Types, rels: map<string, RelationType>, r: Normalized, i: nat, fields: set<string>, e: Relation)
    requires r.kind in types && fields <= types[r.kind].relationFields.Keys
    ensures FieldsDerive(types, rels, r, fields)[e] == |InFields(types, rels, r, i, fields, e)|
    decreases fields
  {
    if fields == {} {
      assert InFields(types, rels, r, i, fields, e) == {};
    } else {
      var f :| f in fields;
      TakeField(types, rels, r, fields, f);
      CountField(types, rels, r, i, f, e);
      CountFields(types, rels, r, i, fields - {f}, e);
      FieldsApart(types, rels, r, i, fields, f, e);
    }
  }

  lemma FieldsApart(types: Types, rels: map<string, RelationType>, r: Normalized, i: nat, fields: set<string>, f: string, e: Relation)
    requires f in fields
    ensures |InFields(types, rels, r, i, fields, e)| == |InFields(types, rels, r, i, {f}, e)| + |InFields(types, rels, r, i, fields - {f}, e)|
  {
    var all, own, rest := InFields(types, rels, r, i, fields, e), InFields(types, rels, r, i, {f}, e), InFields(types, rels, r, i, fields - {f}, e);
    assert all == own + rest;
    assert own * rest == {};
  }

  lemma NamingsNext(types: Types, rels: map<string, RelationType>, rs: seq<Normalized>, n: nat, e: Relation)
    requires n < |rs| && rs[n].kind in types
    ensures |Namings(types, rels, rs, n + 1, e)|
         == |Namings(types, rels, rs, n, e)| + |InFields(types, rels, rs[n], n, types[rs[n].kind].relationFields.Keys, e)|
  {
    var all, before := Namings(types, rels, rs, n + 1, e), Namings(types, rels, rs, n, e);
    var own := InFields(types, rels, rs[n], n, types[rs[n].kind].relationFields.Keys, e);
    assert all == before + own;
    assert before * own == {};
  }

  /** A relationship is derived exactly as often as the relation fields of the batch name it. */
  lemma {:induction false} DerivedAsNamed(types: Types, rels: map<string, RelationType>, rs: seq<Normalized>, n: nat, e: Relation)
    requires n <= |rs| && forall r :: r in rs ==> r.kind in types
    ensures (forall r :: r in rs[..n] ==> r.kind in types) && Derived(types, rels, rs[..n])[e] == |Namings(types, rels, rs, n, e)|
    decreases n
  {
    assert forall r :: r in rs[..n] ==> r in rs;
    if n == 0 {
      assert Namings(types, rels, rs, 0, e) == {};
    } else {
      var p := n - 1;
      DerivedAsNamed(types, rels, rs, p, e);
      assert rs[..n] == rs[..p] + [rs[p]];
      assert rs[p] in rs;
      DerivedSnoc(types, rels, rs[..p], rs[p]);
      CountFields(types, rels, rs[p], p, types[rs[p].kind].relationFields.Keys, e);
      NamingsNext(types, rels, rs, p, e);
    }
  }

  /** How often the whole batch names e. */
  function Named(types: Types, rels: map<string, RelationType>, rs: seq<Normalized>, e: Relation): nat {
    |Namings(types, rels, rs, |rs|, e)|
  }

  lemma DerivedNamed(types: Types, rels: map<string, RelationType>, rs: seq<Normalized>, e: Relation)
    requires forall r :: r in rs ==> r.kind in types
    ensures Derived(types, rels, rs)[e] == Named(types, rels, rs, e)
  {
    DerivedAsNamed(types, rels, rs, |rs|, e);
    assert rs[..|rs|] == rs;
  }

  /** Node n is that of resource r: the labels of its kind, its URI, and of its properties those that are
      no relation fields. */
  ghost predicate Represents(types: Types, r: Normalized, n: Node) {
    && r.kind in types && n.uri == r.uri && n.labels == Labels(types, r.kind)
    && forall k :: (k in n.props <==> k in r.properties && k !in types[r.kind].relationFields)
                   && (k in n.props ==> n.props[k] == r.properties[k])
  }

  // ---------------------------------------------------------------- Assemble

  datatype GraphModelIR = GraphModelIR(nodes: seq<Node>, relations: seq<Relation>)

  /** Fails exactly on an unknown kind. Nodes correspond to resources one to one and in order; the
      derived relationships split exactly into those kept, whose target is in the batch, and the
      orphans, each reported by one warning. */
  method Assemble(types: Types, rels: map<string, RelationType>, rs: seq<Normalized>)
    returns (ok: bool, model: GraphModelIR, warnings: seq<Warning>, ghost orphans: seq<Relation>)
    ensures ok <==> forall r :: r in rs ==> r.kind in types
    ensures ok ==> model.nodes == NodesOf(types, rs)
    ensures ok ==> |model.nodes| == |rs| && forall i :: 0 <= i < |rs| ==> Represents(types, rs[i], model.nodes[i])
    ensures ok ==> multiset(model.relations) + multiset(orphans) == Derived(types, rels, rs)
    ensures ok ==> forall e :: multiset(model.relations)[e] + multiset(orphans)[e] == Named(types, rels, rs, e)
    ensures ok ==> forall e :: e in model.relations ==> e.to in Uris(rs)
    ensures ok ==> forall e :: e in orphans ==> e.to !in Uris(rs)
    ensures ok ==> |warnings| == |orphans| && forall i :: 0 <= i < |orphans| ==> warnings[i] == OrphanWarning(orphans[i])
  {
    model, warnings, orphans := GraphModelIR([], []), [], [];
    var nodes, uriIndex;
    ok, nodes, uriIndex := ConvertNodes(types, rs);
    if ok {
      var relations := DeriveRelations(types, rels, rs);
      var valid;
      valid, warnings, orphans := DropOrphans(relations, uriIndex);
      model := GraphModelIR(nodes, valid);
      forall e ensures multiset(valid)[e] + multiset(orphans)[e] == Named(types, rels, rs, e) {
        DerivedNamed(types, rels, rs, e);
        assert (multiset(valid) + multiset(orphans))[e] == Derived(types, rels, rs)[e];
      }
    }
  }

  /** Phase 1: one node per resource, and the index of their URIs. */
  method ConvertNodes(types: Types, rs: seq<Normalized>) returns (ok: bool, nodes: seq<Node>, uriIndex: set<string>)
    ensures ok <==> forall r :: r in rs ==> r.kind in types
    ensures ok ==> nodes == NodesOf(types, rs) && uriIndex == Uris(rs)
  {
    nodes, uriIndex := [], {};
    for i := 0 to |rs|
      invariant forall j :: 0 <= j < i ==> rs[j].kind in types
      invariant |nodes| == i && forall j :: 0 <= j < i ==> nodes[j] == NodeOf(types, rs[j])
      invariant uriIndex == Uris(rs[..i])
    {
      if rs[i].kind !in types {
        ok := false;
        return;
      }
      assert rs[..i + 1] == rs[..i] + [rs[i]];
      nodes := nodes + [NodeOf(types, rs[i])];
      uriIndex := uriIndex + {rs[i].uri};
    }
    assert rs[..|rs|] == rs;
    ok := true;
  }

  /** Phase 2, over the relation fields of each resource in no particular order. */
  method DeriveRelations(types: Types, rels: map<string, RelationType>, rs: seq<Normalized>) returns (relations: seq<Relation>)
    requires forall r :: r in rs ==> r.kind in types
    ensures multiset(relations) == Derived(types, rels, rs)
  {
    relations := [];
    for i := 0 to |rs|
      invariant multiset(relations) == Derived(types, rels, rs[..i])
    {
      var more := DeriveOne(types, rels, rs[i]);
      relations := relations + more;
      assert rs[..i + 1] == rs[..i] + [rs[i]];
      DerivedSnoc(types, rels, rs[..i], rs[i]);
    }
    assert rs[..|rs|] == rs;
  }

  method DeriveOne(types: Types, rels: map<string, RelationType>, r: Normalized) returns (relations: seq<Relation>)
    requires r.kind in types
    ensures multiset(relations) == FieldsDerive(types, rels, r, types[r.kind].relationFields.Keys)
  {
    relations := [];
    var fields := types[r.kind].relationFields;
    var todo := fields.Keys;
    while todo != {}
      invariant todo <= fields.Keys
      invariant multiset(relations) + FieldsDerive(types, rels, r, todo) == FieldsDerive(types, rels, r, fields.Keys)
    {
      var f :| f in todo;
      TakeField(types, rels, r, todo, f);
      todo := todo - {f};
      if f in r.properties && ToStringSlice(r.properties[f]).Some? {
        var targets := ToStringSlice(r.properties[f]).value;
        var typ := fields[f];
        if typ in rels && r.kind in rels[typ].source {
          relations := relations + Edges(typ, r.uri, targets);
        }
      }
    }
  }

  /** Phase 3: relationships to nodes outside the batch become warnings. */
  method DropOrphans(relations: seq<Relation>, uriIndex: set<string>)
    returns (valid: seq<Relation>, warnings: seq<Warning>, ghost orphans: seq<Relation>)
    ensures multiset(valid) + multiset(orphans) == multiset(relations)
    ensures forall e :: e in valid ==> e.to in uriIndex
    ensures forall e :: e in orphans ==> e.to !in uriIndex
    ensures |warnings| == |orphans| && forall i :: 0 <= i < |orphans| ==> warnings[i] == OrphanWarning(orphans[i])
  {
    valid, warnings, orphans := [], [], [];
    for i := 0 to |relations|
      invariant multiset(valid) + multiset(orphans) == multiset(relations[..i])
      invariant forall e :: e in valid ==> e.to in uriIndex
      invariant forall e :: e in orphans ==> e.to !in uriIndex
      invariant |warnings| == |orphans| && forall j :: 0 <= j < |orphans| ==> warnings[j] == OrphanWarning(orphans[j])
    {
      var rel := relations[i];
      assert relations[..i + 1] == relations[..i] + [rel];
      if rel.to !in uriIndex {
        warnings := warnings + [OrphanWarning(rel)];
        orphans := orphans + [rel];
      } else {
        valid := valid + [rel];
      }
    }
    assert relations[..|relations|] == relations;
  }

  /** A relationship is kept as often as it is derived if its target is some resource of the batch,
      wherever it stands in it, and not at all otherwise. */
  lemma KeptExactly(types: Types, rels: map<string, RelationType>, rs: seq<Normalized>, kept: seq<Relation>, orphans: seq<Relation>, e: Relation)
    requires forall r :: r in rs ==> r.kind in types
    requires multiset(kept) + multiset(orphans) == Derived(types, rels, rs)
    requires forall x :: x in kept ==> x.to in Uris(rs)
    requires forall x :: x in orphans ==> x.to !in Uris(rs)
    ensures multiset(kept)[e] == if e.to in Uris(rs) then Derived(types, rels, rs)[e] else 0
    ensures e in kept ==> e.from in Uris(rs) && e.to in Uris(rs) && e.props == map[]
  {
    assert Derived(types, rels, rs)[e] == multiset(kept)[e] + multiset(orphans)[e];
    assert e in multiset(kept) <==> e in kept;
    assert e in multiset(orphans) <==> e in orphans;
    if e in kept {
      DerivedFrom(types, rels, rs, e);
    }
  }
}
