/** Comparing two archives in memory (internal/snapshot/manager.go:697-872). The difference is a
    patch from the first archive to the second; exchanging the archives inverts it. */
module LocalDiff {
  import opened Common
  import opened GraphModel
  import opened SnapshotModel

  /** valuesEqual: numbers by value, everything else by its printed form. Not an identity. */
  type ValuesEqual = (Value, Value) -> bool

  datatype FieldChange = FieldChange(oldValue: Value, newValue: Value)

  datatype Fields = Fields(added: Props, removed: Props, modified: map<string, FieldChange>) {
    predicate Empty() { added == map[] && removed == map[] && modified == map[] }
  }

  datatype NodeChange = NodeChange(uri: string, specific: string, fields: Fields)

  datatype RelChange = RelChange(typ: string, from: string, to: string, fields: Fields)

  datatype SnapshotDiff = SnapshotDiff(
    addedNodes: seq<Node>, removedNodes: seq<Node>,
    addedRels: seq<Relation>, removedRels: seq<Relation>,
    changedNodes: seq<NodeChange>, changedRels: seq<RelChange>)

  // ---------------------------------------------------------------- property maps

  function Compared(eq: ValuesEqual, a: Props, b: Props): Fields {
    Fields(b - a.Keys, a - b.Keys,
           map k | k in a && k in b && !eq(a[k], b[k]) :: FieldChange(a[k], b[k]))
  }

  method CompareProps(eq: ValuesEqual, a: Props, b: Props) returns (f: Fields)
    ensures f == Compared(eq, a, b)
  {
    var added := Missing(b, a);
    var removed := Missing(a, b);
    var modified: map<string, FieldChange> := map[];
    var todo := a.Keys;
    while todo != {}
      invariant todo <= a.Keys
      invariant modified == map k | k in a && k !in todo && k in b && !eq(a[k], b[k]) :: FieldChange(a[k], b[k])
    {
      var k :| k in todo;
      todo := todo - {k};
      if k in b && !eq(a[k], b[k]) {
        modified := modified[k := FieldChange(a[k], b[k])];
      }
    }
    f := Fields(added, removed, modified);
  }

  method Missing(from: Props, other: Props) returns (r: Props)
    ensures r == from - other.Keys
  {
    r := map[];
    var todo := from.Keys;
    while todo != {}
      invariant todo <= from.Keys
      invariant r == from - other.Keys - todo
    {
      var k :| k in todo;
      todo := todo - {k};
      if k !in other {
        r := r[k := from[k]];
      }
    }
  }

  /** The properties after applying the changes. */
  function Applied(p: Props, f: Fields): Props {
    (p - f.removed.Keys) + f.added + map k | k in f.modified :: f.modified[k].newValue
  }

  function Inverse(f: Fields): Fields {
    Fields(f.removed, f.added, map k | k in f.modified :: FieldChange(f.modified[k].newValue, f.modified[k].oldValue))
  }

  /** p has the properties of b: each with b's value, or with a value of `a` that counts as equal. */
  ghost predicate Matches(eq: ValuesEqual, a: Props, p: Props, b: Props) {
    && p.Keys == b.Keys
    && forall k :: k in b ==> p[k] == b[k] || (k in a && p[k] == a[k] && eq(a[k], b[k]))
  }

  lemma FieldsArePatch(eq: ValuesEqual, a: Props, b: Props)
    ensures Matches(eq, a, Applied(a, Compared(eq, a, b)), b)
    ensures Compared(eq, a, b).Empty() ==> Matches(eq, a, a, b)
  {
    var f := Compared(eq, a, b);
    var p := Applied(a, f);
    forall k ensures k in p <==> k in b {}
    if f.Empty() {
      forall k ensures k in a <==> k in b {
        assert k !in f.added && k !in f.removed;
      }
      forall k | k in b ensures eq(a[k], b[k]) {
        assert k !in f.modified;
      }
    }
  }

  lemma FieldsInvert(eq: ValuesEqual, a: Props, b: Props)
    requires forall x, y :: eq(x, y) == eq(y, x)
    ensures Compared(eq, b, a) == Inverse(Compared(eq, a, b))
  {
  }

  // ---------------------------------------------------------------- indexes and lists

  function UriOf(n: Node): string { n.uri }

  /** The key under which relationships are compared. */
  function RelKey(r: Relation): string { r.typ + "|" + r.from + "|" + r.to }

  function ChangeUri(c: NodeChange): string { c.uri }

  function ChangeKey(c: RelChange): string { c.typ + "|" + c.from + "|" + c.to }

  /** The last element of each key. */
  function Index<T>(key: T -> string, s: seq<T>): map<string, T> {
    if s == [] then map[] else Index(key, s[..|s| - 1])[key(s[|s| - 1]) := s[|s| - 1]]
  }

  lemma {:induction false} IndexKeys<T>(key: T -> string, s: seq<T>)
    ensures forall k :: k in Index(key, s) ==> Index(key, s)[k] in s && key(Index(key, s)[k]) == k
    ensures forall x :: x in s ==> key(x) in Index(key, s)
  {
    if s != [] {
      IndexKeys(key, s[..|s| - 1]);
      assert s == s[..|s| - 1] + [s[|s| - 1]];
    }
  }

  method BuildIndex<T>(key: T -> string, s: seq<T>) returns (m: map<string, T>)
    ensures m == Index(key, s)
  {
    m := map[];
    for i := 0 to |s|
      invariant m == Index(key, s[..i])
    {
      assert s[..i + 1][..i] == s[..i];
      m := m[key(s[i]) := s[i]];
    }
    assert s[..|s|] == s;
  }

  /** s lists the values of m, each once, in some order. */
  ghost predicate Lists<T>(key: T -> string, s: seq<T>, m: map<string, T>) {
    && (forall i :: 0 <= i < |s| ==> key(s[i]) in m && m[key(s[i])] == s[i])
    && (forall i, j :: 0 <= i < j < |s| ==> key(s[i]) != key(s[j]))
    && (forall k :: k in m ==> m[k] in s)
  }

  function OnlyIn<T>(m: map<string, T>, other: map<string, T>): map<string, T> {
    m - other.Keys
  }

  method ListOnlyIn<T>(key: T -> string, m: map<string, T>, other: map<string, T>) returns (s: seq<T>)
    requires forall k :: k in m ==> key(m[k]) == k
    ensures Lists(key, s, OnlyIn(m, other))
  {
    s := [];
    var todo := m.Keys;
    while todo != {}
      invariant todo <= m.Keys
      invariant forall i :: 0 <= i < |s| ==> key(s[i]) in OnlyIn(m, other) && m[key(s[i])] == s[i] && key(s[i]) !in todo
      invariant forall i, j :: 0 <= i < j < |s| ==> key(s[i]) != key(s[j])
      invariant forall k :: k in OnlyIn(m, other) && k !in todo ==> m[k] in s
    {
      var k :| k in todo;
      todo := todo - {k};
      if k !in other {
        s := s + [m[k]];
      }
    }
  }

  /** The properties under key k differ, in both archives. */
  predicate NodeChanged(eq: ValuesEqual, a: map<string, Node>, b: map<string, Node>, u: string) {
    u in a && u in b && !Compared(eq, a[u].props, b[u].props).Empty()
  }

  function NodeChangeOf(eq: ValuesEqual, a: map<string, Node>, b: map<string, Node>, u: string): NodeChange
    requires u in a && u in b
  {
    NodeChange(u, b[u].MostSpecificLabel(), Compared(eq, a[u].props, b[u].props))
  }

  predicate RelChanged(eq: ValuesEqual, a: map<string, Relation>, b: map<string, Relation>, k: string) {
    k in a && k in b && !Compared(eq, a[k].props, b[k].props).Empty()
  }

  function RelChangeOf(eq: ValuesEqual, a: map<string, Relation>, b: map<string, Relation>, k: string): RelChange
    requires k in a && k in b
  {
    RelChange(b[k].typ, b[k].from, b[k].to, Compared(eq, a[k].props, b[k].props))
  }

  /** s lists the changed nodes, each once, in some order. */
  ghost predicate ListsNodeChanges(eq: ValuesEqual, s: seq<NodeChange>, a: map<string, Node>, b: map<string, Node>) {
    && (forall i :: 0 <= i < |s| ==> NodeChanged(eq, a, b, s[i].uri) && s[i] == NodeChangeOf(eq, a, b, s[i].uri))
    && (forall i, j :: 0 <= i < j < |s| ==> s[i].uri != s[j].uri)
    && (forall u :: NodeChanged(eq, a, b, u) ==> NodeChangeOf(eq, a, b, u) in s)
  }

  ghost predicate ListsRelChanges(eq: ValuesEqual, s: seq<RelChange>, a: map<string, Relation>, b: map<string, Relation>) {
    && (forall i :: 0 <= i < |s| ==>
          RelChanged(eq, a, b, ChangeKey(s[i])) && s[i] == RelChangeOf(eq, a, b, ChangeKey(s[i])))
    && (forall i, j :: 0 <= i < j < |s| ==> ChangeKey(s[i]) != ChangeKey(s[j]))
    && (forall k :: RelChanged(eq, a, b, k) ==> RelChangeOf(eq, a, b, k) in s)
  }

  method ListChangedNodes(eq: ValuesEqual, a: map<string, Node>, b: map<string, Node>) returns (s: seq<NodeChange>)
    ensures ListsNodeChanges(eq, s, a, b)
  {
    s := [];
    var todo := b.Keys;
    while todo != {}
      invariant todo <= b.Keys
      invariant forall i :: 0 <= i < |s| ==>
        NodeChanged(eq, a, b, s[i].uri) && s[i] == NodeChangeOf(eq, a, b, s[i].uri) && s[i].uri !in todo
      invariant forall i, j :: 0 <= i < j < |s| ==> s[i].uri != s[j].uri
      invariant forall u :: NodeChanged(eq, a, b, u) && u !in todo ==> NodeChangeOf(eq, a, b, u) in s
    {
      var u :| u in todo;
      todo := todo - {u};
      if u in a {
        var f := CompareProps(eq, a[u].props, b[u].props);
        if f.added != map[] || f.removed != map[] || f.modified != map[] {
          s := s + [NodeChange(u, b[u].MostSpecificLabel(), f)];
        }
      }
    }
  }

  /** ... but for the keys still to be looked at. */
  ghost predicate RelsSoFar(eq: ValuesEqual, s: seq<RelChange>, a: map<string, Relation>, b: map<string, Relation>, todo: set<string>) {
    && (forall i :: 0 <= i < |s| ==>
          RelChanged(eq, a, b, ChangeKey(s[i])) && s[i] == RelChangeOf(eq, a, b, ChangeKey(s[i])) && ChangeKey(s[i]) !in todo)
    && (forall i, j :: 0 <= i < j < |s| ==> ChangeKey(s[i]) != ChangeKey(s[j]))
    && (forall k :: RelChanged(eq, a, b, k) && k !in todo ==> RelChangeOf(eq, a, b, k) in s)
  }

  lemma RelAdded(eq: ValuesEqual, s: seq<RelChange>, a: map<string, Relation>, b: map<string, Relation>, todo: set<string>, k: string)
    requires RelsSoFar(eq, s, a, b, todo) && k in todo && k in b && RelKey(b[k]) == k
    ensures RelChanged(eq, a, b, k) ==> RelsSoFar(eq, s + [RelChangeOf(eq, a, b, k)], a, b, todo - {k})
    ensures !RelChanged(eq, a, b, k) ==> RelsSoFar(eq, s, a, b, todo - {k})
  {
    if RelChanged(eq, a, b, k) {
      var c := RelChangeOf(eq, a, b, k);
      assert ChangeKey(c) == k;
      assert forall d :: d in s + [c] <==> d in s || d == c;
    }
  }

  method ListChangedRels(eq: ValuesEqual, a: map<string, Relation>, b: map<string, Relation>) returns (s: seq<RelChange>)
    requires forall k :: k in b ==> RelKey(b[k]) == k
    ensures ListsRelChanges(eq, s, a, b)
  {
    s := [];
    var todo := b.Keys;
    while todo != {}
      invariant todo <= b.Keys && RelsSoFar(eq, s, a, b, todo)
    {
      var k :| k in todo;
      RelAdded(eq, s, a, b, todo, k);
      todo := todo - {k};
      if k in a {
        var f := CompareProps(eq, a[k].props, b[k].props);
        if f.added != map[] || f.removed != map[] || f.modified != map[] {
          s := s + [RelChange(b[k].typ, b[k].from, b[k].to, f)];
        }
      }
    }
  }

  // ---------------------------------------------------------------- LocalDiff

  /** What LocalDiff returns, up to the order of its lists. */
  ghost predicate DiffOf(eq: ValuesEqual, a: Archive, b: Archive, d: SnapshotDiff) {
    var an, bn := Index(UriOf, a.nodes), Index(UriOf, b.nodes);
    var ar, br := Index(RelKey, a.rels), Index(RelKey, b.rels);
    && Lists(UriOf, d.addedNodes, OnlyIn(bn, an)) && Lists(UriOf, d.removedNodes, OnlyIn(an, bn))
    && Lists(RelKey, d.addedRels, OnlyIn(br, ar)) && Lists(RelKey, d.removedRels, OnlyIn(ar, br))
    && ListsNodeChanges(eq, d.changedNodes, an, bn) && ListsRelChanges(eq, d.changedRels, ar, br)
  }

  /** Fails when one of the archives is missing. */
  method Diff(archives: map<string, Archive>, eq: ValuesEqual, a: string, b: string) returns (d: Option<SnapshotDiff>)
    ensures d.None? <==> a !in archives || b !in archives
    ensures d.Some? ==> DiffOf(eq, archives[a], archives[b], d.value)
  {
    if a !in archives || b !in archives {
      return None;
    }
    var an := BuildIndex(UriOf, archives[a].nodes);
    var bn := BuildIndex(UriOf, archives[b].nodes);
    IndexKeys(UriOf, archives[a].nodes);
    IndexKeys(UriOf, archives[b].nodes);
    var addedNodes := ListOnlyIn(UriOf, bn, an);
    var removedNodes := ListOnlyIn(UriOf, an, bn);
    var ar := BuildIndex(RelKey, archives[a].rels);
    var br := BuildIndex(RelKey, archives[b].rels);
    IndexKeys(RelKey, archives[a].rels);
    IndexKeys(RelKey, archives[b].rels);
    var addedRels := ListOnlyIn(RelKey, br, ar);
    var removedRels := ListOnlyIn(RelKey, ar, br);
    var changedNodes := ListChangedNodes(eq, an, bn);
    var changedRels := ListChangedRels(eq, ar, br);
    d := Some(SnapshotDiff(addedNodes, removedNodes, addedRels, removedRels, changedNodes, changedRels));
  }

  // ---------------------------------------------------------------- what is said about a node

  /** Node i is the last of the URI. */
  predicate LastNode(nodes: seq<Node>, uri: string, i: int) {
    0 <= i < |nodes| && nodes[i].uri == uri && forall j :: i < j < |nodes| ==> nodes[j].uri != uri
  }

  /** The fields are those that a property of p and one of q with the same name differ in, one way or the
      other, with both values. */
  ghost predicate Tells(eq: ValuesEqual, p: Props, q: Props, f: Fields) {
    && (forall k :: k in f.added <==> k in q && k !in p)
    && (forall k :: k in f.added ==> f.added[k] == q[k])
    && (forall k :: k in f.removed <==> k in p && k !in q)
    && (forall k :: k in f.removed ==> f.removed[k] == p[k])
    && (forall k :: k in f.modified <==> k in p && k in q && !eq(p[k], q[k]))
    && (forall k :: k in f.modified ==> f.modified[k] == FieldChange(p[k], q[k]))
  }

  lemma {:induction false} IndexLast(nodes: seq<Node>, uri: string, i: int)
    requires LastNode(nodes, uri, i)
    ensures uri in Index(UriOf, nodes) && Index(UriOf, nodes)[uri] == nodes[i]
    decreases |nodes|
  {
    var p := |nodes| - 1;
    if i < p {
      IndexLast(nodes[..p], uri, i);
    }
  }

  /** A change is reported for a URI exactly when the last nodes of that URI in the two archives differ, and
      it tells their differences and the most specific label of the second. */
  lemma ChangesTold(eq: ValuesEqual, a: Archive, b: Archive, d: SnapshotDiff, uri: string, i: int, j: int)
    requires DiffOf(eq, a, b, d) && LastNode(a.nodes, uri, i) && LastNode(b.nodes, uri, j)
    ensures forall c :: c in d.changedNodes && c.uri == uri ==>
      c.specific == b.nodes[j].MostSpecificLabel() && Tells(eq, a.nodes[i].props, b.nodes[j].props, c.fields) && !c.fields.Empty()
    ensures (forall c :: c in d.changedNodes ==> c.uri != uri) ==>
      a.nodes[i].props.Keys == b.nodes[j].props.Keys && forall k :: k in a.nodes[i].props ==> eq(a.nodes[i].props[k], b.nodes[j].props[k])
  {
    IndexLast(a.nodes, uri, i);
    IndexLast(b.nodes, uri, j);
    var an, bn := Index(UriOf, a.nodes), Index(UriOf, b.nodes);
    forall c | c in d.changedNodes && c.uri == uri
      ensures c.specific == b.nodes[j].MostSpecificLabel() && Tells(eq, a.nodes[i].props, b.nodes[j].props, c.fields) && !c.fields.Empty()
    {
      var x :| 0 <= x < |d.changedNodes| && d.changedNodes[x] == c;
      assert c == NodeChangeOf(eq, an, bn, uri);
      ComparedTells(eq, a.nodes[i].props, b.nodes[j].props);
    }
    if forall c :: c in d.changedNodes ==> c.uri != uri {
      assert !NodeChanged(eq, an, bn, uri);
      NothingTold(eq, a.nodes[i].props, b.nodes[j].props);
    }
  }

  lemma ComparedTells(eq: ValuesEqual, p: Props, q: Props)
    ensures Tells(eq, p, q, Compared(eq, p, q))
  {
  }

  lemma NothingTold(eq: ValuesEqual, p: Props, q: Props)
    requires Compared(eq, p, q).Empty()
    ensures p.Keys == q.Keys && forall k :: k in p ==> eq(p[k], q[k])
  {
    var f := Compared(eq, p, q);
    ComparedTells(eq, p, q);
    forall k ensures k in p <==> k in q { assert k !in f.added && k !in f.removed; }
    forall k | k in p ensures eq(p[k], q[k]) { assert k !in f.modified; }
  }

  // ---------------------------------------------------------------- the patch law for nodes

  /** The properties of a URI after applying a difference to the nodes of `a`. */
  ghost function PatchedNode(a: map<string, Node>, d: SnapshotDiff, u: string): Option<Props> {
    var added, changes := Index(UriOf, d.addedNodes), Index(ChangeUri, d.changedNodes);
    if u in added then Some(added[u].props)
    else if u !in a || (exists n :: n in d.removedNodes && n.uri == u) then None
    else if u in changes then Some(Applied(a[u].props, changes[u].fields))
    else Some(a[u].props)
  }

  lemma {:induction false} ListedIndex<T>(key: T -> string, s: seq<T>, m: map<string, T>)
    requires Lists(key, s, m) && forall k :: k in m ==> key(m[k]) == k
    ensures Index(key, s) == m
  {
    IndexKeys(key, s);
    forall k ensures k in Index(key, s) <==> k in m
      ensures k in m ==> Index(key, s)[k] == m[k]
    {
      if k in m {
        assert m[k] in s;
      }
      if k in Index(key, s) {
        var x := Index(key, s)[k];
        var i :| 0 <= i < |s| && s[i] == x;
      }
    }
  }

  lemma {:induction false} ListedKeys<T>(key: T -> string, s: seq<T>, m: map<string, T>, k: string)
    requires Lists(key, s, m) && forall j :: j in m ==> key(m[j]) == j
    ensures k in m <==> exists x :: x in s && key(x) == k
  {
    if k in m {
      assert m[k] in s;
    }
    if x :| x in s && key(x) == k {
      var i :| 0 <= i < |s| && s[i] == x;
    }
  }

  lemma NodeChangeAt(eq: ValuesEqual, s: seq<NodeChange>, a: map<string, Node>, b: map<string, Node>, u: string)
    requires ListsNodeChanges(eq, s, a, b)
    ensures u in Index(ChangeUri, s) <==> NodeChanged(eq, a, b, u)
    ensures u in Index(ChangeUri, s) ==> Index(ChangeUri, s)[u] == NodeChangeOf(eq, a, b, u)
  {
    IndexKeys(ChangeUri, s);
    if u in Index(ChangeUri, s) {
      var i :| 0 <= i < |s| && s[i] == Index(ChangeUri, s)[u];
    }
    if NodeChanged(eq, a, b, u) {
      assert ChangeUri(NodeChangeOf(eq, a, b, u)) == u;
    }
  }

  lemma RelChangeAt(eq: ValuesEqual, s: seq<RelChange>, a: map<string, Relation>, b: map<string, Relation>, k: string)
    requires ListsRelChanges(eq, s, a, b) && forall j :: j in b ==> RelKey(b[j]) == j
    ensures k in Index(ChangeKey, s) <==> RelChanged(eq, a, b, k)
    ensures k in Index(ChangeKey, s) ==> Index(ChangeKey, s)[k] == RelChangeOf(eq, a, b, k)
  {
    IndexKeys(ChangeKey, s);
    if k in Index(ChangeKey, s) {
      var i :| 0 <= i < |s| && s[i] == Index(ChangeKey, s)[k];
    }
    if RelChanged(eq, a, b, k) {
      assert ChangeKey(RelChangeOf(eq, a, b, k)) == RelKey(b[k]) == k;
    }
  }

  /** The properties of a node are those of the second archive: the reported ones exactly, the
      others up to valuesEqual; a node that is only there has exactly its own. */
  ghost predicate NodeMatches(eq: ValuesEqual, a: map<string, Node>, p: Props, u: string, n: Node) {
    if u in a then Matches(eq, a[u].props, p, n.props) else p == n.props
  }

  /** Applying the difference to the first archive yields exactly the URIs of the second, each with
      the properties it has there. */
  lemma NodesPatch(eq: ValuesEqual, a: Archive, b: Archive, d: SnapshotDiff, u: string)
    requires DiffOf(eq, a, b, d)
    ensures PatchedNode(Index(UriOf, a.nodes), d, u).Some? <==> u in Index(UriOf, b.nodes)
    ensures u in Index(UriOf, b.nodes) ==>
      NodeMatches(eq, Index(UriOf, a.nodes), PatchedNode(Index(UriOf, a.nodes), d, u).value, u, Index(UriOf, b.nodes)[u])
  {
    var an, bn := Index(UriOf, a.nodes), Index(UriOf, b.nodes);
    IndexKeys(UriOf, a.nodes);
    IndexKeys(UriOf, b.nodes);
    ListedIndex(UriOf, d.addedNodes, OnlyIn(bn, an));
    ListedKeys(UriOf, d.removedNodes, OnlyIn(an, bn), u);
    assert u in OnlyIn(an, bn) <==> exists n :: n in d.removedNodes && n.uri == u;
    NodeChangeAt(eq, d.changedNodes, an, bn, u);
    if u in an && u in bn {
      FieldsArePatch(eq, an[u].props, bn[u].props);
    }
  }

  // ---------------------------------------------------------------- the patch law for relationships

  type Ends = (string, string, string)

  function Triple(r: Relation): Ends { (r.typ, r.from, r.to) }

  function Triples(rels: seq<Relation>): set<Ends> {
    set r | r in rels :: Triple(r)
  }

  /** Types and source URIs without the separator. */
  predicate NoBars(rels: seq<Relation>) {
    forall r :: r in rels ==> '|' !in r.typ && '|' !in r.from
  }

  /** The position of the first separator. */
  function BarAt(s: string): nat {
    if s == "" || s[0] == '|' then 0 else 1 + BarAt(s[1..])
  }

  lemma {:induction false} BarAfter(p: string, x: string)
    requires '|' !in p
    ensures BarAt(p + "|" + x) == |p|
  {
    if p == "" {
      assert (p + "|" + x)[0] == '|';
    } else {
      assert (p + "|" + x)[0] == p[0] && (p + "|" + x)[1..] == p[1..] + "|" + x;
      BarAfter(p[1..], x);
    }
  }

  lemma FirstBar(p: string, x: string, q: string, y: string)
    requires '|' !in p && '|' !in q && p + "|" + x == q + "|" + y
    ensures p == q && x == y
  {
    var s := p + "|" + x;
    BarAfter(p, x);
    BarAfter(q, y);
    assert p == s[..|p|] && q == s[..|p|] && x == s[|p| + 1..] && y == s[|p| + 1..];
  }

  /** Without the separator in types and sources, the key tells relationships apart. */
  lemma KeyInjective(r: Relation, s: Relation)
    requires '|' !in r.typ && '|' !in r.from && '|' !in s.typ && '|' !in s.from && RelKey(r) == RelKey(s)
    ensures Triple(r) == Triple(s)
  {
    assert r.typ + "|" + (r.from + "|" + r.to) == RelKey(r);
    assert s.typ + "|" + (s.from + "|" + s.to) == RelKey(s);
    FirstBar(r.typ, r.from + "|" + r.to, s.typ, s.from + "|" + s.to);
    FirstBar(r.from, r.to, s.from, s.to);
  }

  function KeyOf(t: Ends): string { t.0 + "|" + t.1 + "|" + t.2 }

  /** The relationships that share a key. */
  function Under(rels: seq<Relation>, k: string): seq<Relation> {
    if rels == [] then [] else (if RelKey(rels[0]) == k then [rels[0]] else []) + Under(rels[1..], k)
  }

  lemma {:induction false} UnderMembers(rels: seq<Relation>, k: string)
    ensures forall r :: r in Under(rels, k) <==> r in rels && RelKey(r) == k
  {
    if rels != [] {
      UnderMembers(rels[1..], k);
    }
  }

  lemma UnderIndex(rels: seq<Relation>, k: string)
    ensures k in Index(RelKey, rels) <==> Under(rels, k) != []
    ensures k in Index(RelKey, rels) ==> Index(RelKey, rels)[k] in Under(rels, k)
  {
    IndexKeys(RelKey, rels);
    UnderMembers(rels, k);
    if Under(rels, k) != [] {
      assert Under(rels, k)[0] in Under(rels, k);
    }
  }

  lemma TripleUnder(rels: seq<Relation>, t: Ends)
    ensures t in Triples(rels) <==> t in Triples(Under(rels, KeyOf(t)))
    ensures forall u :: u in Triples(Under(rels, KeyOf(t))) ==> KeyOf(u) == KeyOf(t) && u in Triples(rels)
  {
    UnderMembers(rels, KeyOf(t));
    if r :| r in rels && Triple(r) == t {
      assert r in Under(rels, KeyOf(t));
    }
  }

  /** What a list of the values of m contributes: the triple of m under the key, and nothing else. */
  lemma ListedTriple(s: seq<Relation>, m: map<string, Relation>, t: Ends)
    requires Lists(RelKey, s, m) && forall k :: k in m ==> RelKey(m[k]) == k
    ensures t in Triples(s) <==> KeyOf(t) in m && Triple(m[KeyOf(t)]) == t
  {
    if r :| r in s && Triple(r) == t {
      var i :| 0 <= i < |s| && s[i] == r;
    }
    if KeyOf(t) in m && Triple(m[KeyOf(t)]) == t {
      assert m[KeyOf(t)] in s;
    }
  }

  /** The relationships after applying a difference, without parallel ones. */
  ghost function PatchedTriples(rels: seq<Relation>, d: SnapshotDiff): set<Ends> {
    Triples(rels) - Triples(d.removedRels) + Triples(d.addedRels)
  }

  /** Nothing is lost under key k: both archives have the same relationships under it, or only one
      has any, and just one. */
  ghost predicate KeyTells(a: seq<Relation>, b: seq<Relation>, k: string) {
    var x, y := Triples(Under(a, k)), Triples(Under(b, k));
    if x != {} && y != {} then x == y else |x| <= 1 && |y| <= 1
  }

  /** The patch under one key. */
  lemma PatchedAt(eq: ValuesEqual, a: Archive, b: Archive, d: SnapshotDiff, t: Ends)
    requires DiffOf(eq, a, b, d)
    ensures var k, ar, br := KeyOf(t), Index(RelKey, a.rels), Index(RelKey, b.rels);
      t in PatchedTriples(a.rels, d) <==>
        if k in br && k !in ar then Triple(br[k]) == t
        else t in Triples(a.rels) && (k in ar && k !in br ==> Triple(ar[k]) != t)
  {
    var ar, br := Index(RelKey, a.rels), Index(RelKey, b.rels);
    IndexKeys(RelKey, a.rels);
    IndexKeys(RelKey, b.rels);
    ListedTriple(d.removedRels, OnlyIn(ar, br), t);
    ListedTriple(d.addedRels, OnlyIn(br, ar), t);
    if r :| r in a.rels && Triple(r) == t {
      assert RelKey(r) == KeyOf(t);
    }
  }

  /** Applying the difference to the relationships of the first archive yields those of the second if
      and only if no key hides a difference. */
  lemma RelsPatchExactly(eq: ValuesEqual, a: Archive, b: Archive, d: SnapshotDiff)
    requires DiffOf(eq, a, b, d)
    ensures PatchedTriples(a.rels, d) == Triples(b.rels) <==> forall k :: KeyTells(a.rels, b.rels, k)
  {
    if PatchedTriples(a.rels, d) == Triples(b.rels) {
      forall k ensures KeyTells(a.rels, b.rels, k) {
        PatchTells(eq, a, b, d, k);
      }
    }
    if forall k :: KeyTells(a.rels, b.rels, k) {
      forall t ensures t in PatchedTriples(a.rels, d) <==> t in Triples(b.rels) {
        assert KeyTells(a.rels, b.rels, KeyOf(t));
        TellsPatch(eq, a, b, d, t);
      }
    }
  }

  lemma NoneUnder(rels: seq<Relation>, k: string)
    ensures Triples(Under(rels, k)) == {} <==> k !in Index(RelKey, rels)
    ensures k in Index(RelKey, rels) ==> Triple(Index(RelKey, rels)[k]) in Triples(Under(rels, k))
    ensures forall t :: t in Triples(Under(rels, k)) ==> KeyOf(t) == k
  {
    UnderIndex(rels, k);
    UnderMembers(rels, k);
    if Under(rels, k) != [] {
      assert Triple(Under(rels, k)[0]) in Triples(Under(rels, k));
    }
  }

  lemma OnlyOne<T>(s: set<T>, x: T)
    requires x in s
    ensures |s| <= 1 <==> s == {x}
  {
    assert s == {x} + (s - {x});
    if |s| <= 1 {
      assert |s - {x}| == 0;
    }
  }

  lemma TellsPatch(eq: ValuesEqual, a: Archive, b: Archive, d: SnapshotDiff, t: Ends)
    requires DiffOf(eq, a, b, d) && KeyTells(a.rels, b.rels, KeyOf(t))
    ensures t in PatchedTriples(a.rels, d) <==> t in Triples(b.rels)
  {
    var k, ar, br := KeyOf(t), Index(RelKey, a.rels), Index(RelKey, b.rels);
    PatchedAt(eq, a, b, d, t);
    TripleUnder(a.rels, t);
    TripleUnder(b.rels, t);
    NoneUnder(a.rels, k);
    NoneUnder(b.rels, k);
    if k in ar { OnlyOne(Triples(Under(a.rels, k)), Triple(ar[k])); }
    if k in br { OnlyOne(Triples(Under(b.rels, k)), Triple(br[k])); }
  }

  lemma PatchTells(eq: ValuesEqual, a: Archive, b: Archive, d: SnapshotDiff, k: string)
    requires DiffOf(eq, a, b, d) && PatchedTriples(a.rels, d) == Triples(b.rels)
    ensures KeyTells(a.rels, b.rels, k)
  {
    var ar, br := Index(RelKey, a.rels), Index(RelKey, b.rels);
    NoneUnder(a.rels, k);
    NoneUnder(b.rels, k);
    forall t | KeyOf(t) == k
      ensures t in Triples(Under(b.rels, k)) <==>
        if k in br && k !in ar then Triple(br[k]) == t
        else t in Triples(Under(a.rels, k)) && (k in ar && k !in br ==> Triple(ar[k]) != t)
    {
      PatchedAt(eq, a, b, d, t);
      TripleUnder(a.rels, t);
      TripleUnder(b.rels, t);
    }
    if k in ar { OnlyOne(Triples(Under(a.rels, k)), Triple(ar[k])); }
    if k in br { OnlyOne(Triples(Under(b.rels, k)), Triple(br[k])); }
  }

  /** Without the separator no key hides a difference. */
  lemma RelsPatch(eq: ValuesEqual, a: Archive, b: Archive, d: SnapshotDiff)
    requires DiffOf(eq, a, b, d) && NoBars(a.rels) && NoBars(b.rels)
    ensures PatchedTriples(a.rels, d) == Triples(b.rels)
  {
    forall k ensures KeyTells(a.rels, b.rels, k) {
      NoBarsTells(a.rels, b.rels, k);
    }
    RelsPatchExactly(eq, a, b, d);
  }

  lemma NoBarsTells(a: seq<Relation>, b: seq<Relation>, k: string)
    requires NoBars(a) && NoBars(b)
    ensures KeyTells(a, b, k)
  {
    var x, y := Triples(Under(a, k)), Triples(Under(b, k));
    UnderMembers(a, k);
    UnderMembers(b, k);
    forall t, u | t in x + y && u in x + y ensures t == u {
      SameTriple(a, b, k, t, u);
    }
    SameSingle(x, y);
  }

  lemma SameSingle<T>(x: set<T>, y: set<T>)
    requires forall t, u :: t in x + y && u in x + y ==> t == u
    ensures |x| <= 1 && |y| <= 1 && (x != {} && y != {} ==> x == y)
  {
    if t :| t in x + y {
      assert x <= {t} && y <= {t};
      AtMost(x, t);
      AtMost(y, t);
    }
  }

  lemma AtMost<T>(x: set<T>, t: T)
    requires x <= {t}
    ensures |x| <= 1
  {
    if t in x {
      assert x == {t};
    }
  }

  lemma SameTriple(a: seq<Relation>, b: seq<Relation>, k: string, t: Ends, u: Ends)
    requires NoBars(a) && NoBars(b)
    requires t in Triples(Under(a, k)) + Triples(Under(b, k)) && u in Triples(Under(a, k)) + Triples(Under(b, k))
    ensures t == u
  {
    UnderMembers(a, k);
    UnderMembers(b, k);
    var r :| r in Under(a, k) + Under(b, k) && Triple(r) == t;
    var s :| s in Under(a, k) + Under(b, k) && Triple(s) == u;
    KeyInjective(r, s);
  }

  // ---------------------------------------------------------------- ... counting parallel relationships

  /** How often each triple occurs. */
  function TripleBag(rels: seq<Relation>): (bag: multiset<Ends>)
    ensures |bag| == |rels|
  {
    if rels == [] then multiset{} else multiset{Triple(rels[0])} + TripleBag(rels[1..])
  }

  lemma {:induction false} BagMembers(rels: seq<Relation>)
    ensures forall t :: t in TripleBag(rels) <==> t in Triples(rels)
  {
    if rels != [] {
      BagMembers(rels[1..]);
      assert rels == [rels[0]] + rels[1..];
      forall t ensures t in TripleBag(rels) <==> t in Triples(rels) {
        assert t in Triples(rels) <==> t == Triple(rels[0]) || t in Triples(rels[1..]);
      }
    }
  }

  lemma {:induction false} BagUnder(rels: seq<Relation>, t: Ends)
    ensures TripleBag(rels)[t] == TripleBag(Under(rels, KeyOf(t)))[t]
  {
    if rels != [] {
      BagUnder(rels[1..], t);
      var rest := Under(rels[1..], KeyOf(t));
      if RelKey(rels[0]) == KeyOf(t) {
        assert ([rels[0]] + rest)[1..] == rest;
      } else {
        assert [] + rest == rest;
      }
    }
  }

  /** A list of the values of m has the triple of m under the key once. */
  lemma {:induction false} ListedOnce(s: seq<Relation>, m: map<string, Relation>, t: Ends)
    requires Lists(RelKey, s, m) && forall k :: k in m ==> RelKey(m[k]) == k
    ensures TripleBag(s)[t] == if KeyOf(t) in m && Triple(m[KeyOf(t)]) == t then 1 else 0
  {
    ListedTriple(s, m, t);
    BagMembers(s);
    AtMostOnce(s, t);
  }

  lemma {:induction false} AtMostOnce(s: seq<Relation>, t: Ends)
    requires forall i, j :: 0 <= i < j < |s| ==> RelKey(s[i]) != RelKey(s[j])
    ensures TripleBag(s)[t] <= 1
  {
    if s != [] {
      AtMostOnce(s[1..], t);
      BagMembers(s[1..]);
      if Triple(s[0]) == t && t in Triples(s[1..]) {
        SameTripleSameKey(s[1..], t);
        assert false;
      }
    }
  }

  lemma SameTripleSameKey(s: seq<Relation>, t: Ends)
    requires t in Triples(s)
    ensures exists j :: 0 <= j < |s| && RelKey(s[j]) == KeyOf(t)
  {
    var r :| r in s && Triple(r) == t;
    var j :| 0 <= j < |s| && s[j] == r;
  }

  /** The relationships after applying a difference, counting parallel ones. */
  ghost function PatchedBag(rels: seq<Relation>, d: SnapshotDiff): multiset<Ends> {
    TripleBag(rels) - TripleBag(d.removedRels) + TripleBag(d.addedRels)
  }

  /** Both archives have the same relationships under key k, equally often, or only one has any, and
      that just once. */
  ghost predicate KeyCounts(a: seq<Relation>, b: seq<Relation>, k: string) {
    var x, y := Under(a, k), Under(b, k);
    if x != [] && y != [] then TripleBag(x) == TripleBag(y) else |x| <= 1 && |y| <= 1
  }

  lemma PatchedCount(eq: ValuesEqual, a: Archive, b: Archive, d: SnapshotDiff, t: Ends)
    requires DiffOf(eq, a, b, d)
    ensures var k, ar, br := KeyOf(t), Index(RelKey, a.rels), Index(RelKey, b.rels);
      var x: int := TripleBag(Under(a.rels, k))[t];
      PatchedBag(a.rels, d)[t] ==
        if k in br && k !in ar then (if Triple(br[k]) == t then 1 else 0)
        else x - (if k in ar && k !in br && Triple(ar[k]) == t then 1 else 0)
  {
    var k, ar, br := KeyOf(t), Index(RelKey, a.rels), Index(RelKey, b.rels);
    IndexKeys(RelKey, a.rels);
    IndexKeys(RelKey, b.rels);
    ListedOnce(d.removedRels, OnlyIn(ar, br), t);
    ListedOnce(d.addedRels, OnlyIn(br, ar), t);
    BagUnder(a.rels, t);
    NoneUnder(a.rels, k);
    BagMembers(Under(a.rels, k));
    UnderIndex(a.rels, k);
  }

  /** ... and if and only if no key hides a parallel one, when they are counted. */
  lemma RelsPatchCounted(eq: ValuesEqual, a: Archive, b: Archive, d: SnapshotDiff)
    requires DiffOf(eq, a, b, d)
    ensures PatchedBag(a.rels, d) == TripleBag(b.rels) <==> forall k :: KeyCounts(a.rels, b.rels, k)
  {
    if PatchedBag(a.rels, d) == TripleBag(b.rels) {
      forall k ensures KeyCounts(a.rels, b.rels, k) {
        PatchCounts(eq, a, b, d, k);
      }
    }
    if forall k :: KeyCounts(a.rels, b.rels, k) {
      forall t ensures PatchedBag(a.rels, d)[t] == TripleBag(b.rels)[t] {
        assert KeyCounts(a.rels, b.rels, KeyOf(t));
        CountsPatch(eq, a, b, d, t);
      }
    }
  }

  /** A single relationship under a key is the indexed one. */
  lemma SingleUnder(rels: seq<Relation>, k: string)
    requires k in Index(RelKey, rels)
    ensures |Under(rels, k)| <= 1 <==> TripleBag(Under(rels, k)) == multiset{Triple(Index(RelKey, rels)[k])}
  {
    UnderIndex(rels, k);
    var x := Under(rels, k);
    if |x| <= 1 {
      assert x == [Index(RelKey, rels)[k]];
      assert x[1..] == [];
    }
    if TripleBag(x) == multiset{Triple(Index(RelKey, rels)[k])} {
      assert |TripleBag(x)| == 1;
    }
  }

  lemma CountsPatch(eq: ValuesEqual, a: Archive, b: Archive, d: SnapshotDiff, t: Ends)
    requires DiffOf(eq, a, b, d) && KeyCounts(a.rels, b.rels, KeyOf(t))
    ensures PatchedBag(a.rels, d)[t] == TripleBag(b.rels)[t]
  {
    var k, ar, br := KeyOf(t), Index(RelKey, a.rels), Index(RelKey, b.rels);
    PatchedCount(eq, a, b, d, t);
    BagUnder(b.rels, t);
    UnderIndex(a.rels, k);
    UnderIndex(b.rels, k);
    if k in ar { SingleUnder(a.rels, k); }
    if k in br { SingleUnder(b.rels, k); }
  }

  lemma PatchCounts(eq: ValuesEqual, a: Archive, b: Archive, d: SnapshotDiff, k: string)
    requires DiffOf(eq, a, b, d) && PatchedBag(a.rels, d) == TripleBag(b.rels)
    ensures KeyCounts(a.rels, b.rels, k)
  {
    forall t ensures CountedUnder(a.rels, b.rels, k, t) {
      CountUnder(eq, a, b, d, k, t);
    }
    CountedTells(a.rels, b.rels, k);
  }

  lemma CountedTells(a: seq<Relation>, b: seq<Relation>, k: string)
    requires forall t :: CountedUnder(a, b, k, t)
    ensures KeyCounts(a, b, k)
  {
    UnderIndex(a, k);
    UnderIndex(b, k);
    if k in Index(RelKey, a) {
      if k in Index(RelKey, b) {
        InBoth(a, b, k);
      } else {
        OnlyFirst(a, b, k);
        SingleUnder(a, k);
      }
    } else if k in Index(RelKey, b) {
      OnlySecond(a, b, k);
      SingleUnder(b, k);
    }
  }

  lemma InBoth(a: seq<Relation>, b: seq<Relation>, k: string)
    requires forall t :: CountedUnder(a, b, k, t)
    requires k in Index(RelKey, a) && k in Index(RelKey, b)
    ensures TripleBag(Under(a, k)) == TripleBag(Under(b, k))
  {
    forall t ensures TripleBag(Under(a, k))[t] == TripleBag(Under(b, k))[t] {
      assert CountedUnder(a, b, k, t);
    }
  }

  lemma OnlySecond(a: seq<Relation>, b: seq<Relation>, k: string)
    requires forall t :: CountedUnder(a, b, k, t)
    requires k !in Index(RelKey, a) && k in Index(RelKey, b)
    ensures TripleBag(Under(b, k)) == multiset{Triple(Index(RelKey, b)[k])}
  {
    forall t ensures TripleBag(Under(b, k))[t] == multiset{Triple(Index(RelKey, b)[k])}[t] {
      assert CountedUnder(a, b, k, t);
    }
  }

  lemma OnlyFirst(a: seq<Relation>, b: seq<Relation>, k: string)
    requires forall t :: CountedUnder(a, b, k, t)
    requires k in Index(RelKey, a) && k !in Index(RelKey, b) && Under(b, k) == []
    ensures TripleBag(Under(a, k)) == multiset{Triple(Index(RelKey, a)[k])}
  {
    var x := TripleBag(Under(a, k));
    forall t ensures x[t] == multiset{Triple(Index(RelKey, a)[k])}[t] {
      assert CountedUnder(a, b, k, t);
    }
  }

  /** The count of t under key k in the second archive, if the patch yields it. */
  ghost predicate CountedUnder(a: seq<Relation>, b: seq<Relation>, k: string, t: Ends) {
    var ar, br := Index(RelKey, a), Index(RelKey, b);
    var x: int, y: int := TripleBag(Under(a, k))[t], TripleBag(Under(b, k))[t];
    y == if k in br && k !in ar then (if Triple(br[k]) == t then 1 else 0)
         else x - (if k in ar && k !in br && Triple(ar[k]) == t then 1 else 0)
  }

  lemma CountUnder(eq: ValuesEqual, a: Archive, b: Archive, d: SnapshotDiff, k: string, t: Ends)
    requires DiffOf(eq, a, b, d) && PatchedBag(a.rels, d) == TripleBag(b.rels)
    ensures CountedUnder(a.rels, b.rels, k, t)
  {
    if KeyOf(t) == k {
      PatchedCount(eq, a, b, d, t);
      BagUnder(b.rels, t);
    } else {
      OtherKey(a.rels, k, t);
      OtherKey(b.rels, k, t);
    }
  }

  lemma OtherKey(rels: seq<Relation>, k: string, t: Ends)
    requires KeyOf(t) != k
    ensures TripleBag(Under(rels, k))[t] == 0
    ensures k in Index(RelKey, rels) ==> Triple(Index(RelKey, rels)[k]) != t
  {
    NoneUnder(rels, k);
    BagMembers(Under(rels, k));
  }

  /** The properties of the relationships in both archives are patched the same way. */
  lemma RelFieldsPatch(eq: ValuesEqual, a: Archive, b: Archive, d: SnapshotDiff, k: string)
    requires DiffOf(eq, a, b, d) && k in Index(RelKey, a.rels) && k in Index(RelKey, b.rels)
    ensures var p, q := Index(RelKey, a.rels)[k].props, Index(RelKey, b.rels)[k].props;
      var changes := Index(ChangeKey, d.changedRels);
      Matches(eq, p, if k in changes then Applied(p, changes[k].fields) else p, q)
  {
    var ar, br := Index(RelKey, a.rels), Index(RelKey, b.rels);
    IndexKeys(RelKey, b.rels);
    RelChangeAt(eq, d.changedRels, ar, br, k);
    FieldsArePatch(eq, ar[k].props, br[k].props);
  }

  // ---------------------------------------------------------------- inversion

  /** Exchanging the archives exchanges what was added with what was removed. */
  lemma DiffInverts(eq: ValuesEqual, a: Archive, b: Archive, d: SnapshotDiff, e: SnapshotDiff)
    requires DiffOf(eq, a, b, d) && DiffOf(eq, b, a, e)
    ensures forall n :: n in d.addedNodes <==> n in e.removedNodes
    ensures forall n :: n in d.removedNodes <==> n in e.addedNodes
    ensures forall r :: r in d.addedRels <==> r in e.removedRels
    ensures forall r :: r in d.removedRels <==> r in e.addedRels
  {
    SameMembers(UriOf, d.addedNodes, e.removedNodes, OnlyIn(Index(UriOf, b.nodes), Index(UriOf, a.nodes)));
    SameMembers(UriOf, d.removedNodes, e.addedNodes, OnlyIn(Index(UriOf, a.nodes), Index(UriOf, b.nodes)));
    SameMembers(RelKey, d.addedRels, e.removedRels, OnlyIn(Index(RelKey, b.rels), Index(RelKey, a.rels)));
    SameMembers(RelKey, d.removedRels, e.addedRels, OnlyIn(Index(RelKey, a.rels), Index(RelKey, b.rels)));
  }

  /** ... and reports the same nodes as changed, with old and new values exchanged. */
  lemma NodeChangesInvert(eq: ValuesEqual, a: Archive, b: Archive, d: SnapshotDiff, e: SnapshotDiff, u: string)
    requires DiffOf(eq, a, b, d) && DiffOf(eq, b, a, e) && forall x, y :: eq(x, y) == eq(y, x)
    ensures u in Index(ChangeUri, d.changedNodes) <==> u in Index(ChangeUri, e.changedNodes)
    ensures u in Index(ChangeUri, d.changedNodes) ==>
      Index(ChangeUri, e.changedNodes)[u].fields == Inverse(Index(ChangeUri, d.changedNodes)[u].fields)
  {
    var an, bn := Index(UriOf, a.nodes), Index(UriOf, b.nodes);
    NodeChangeAt(eq, d.changedNodes, an, bn, u);
    NodeChangeAt(eq, e.changedNodes, bn, an, u);
    if u in an && u in bn {
      FieldsInvert(eq, an[u].props, bn[u].props);
      InverseEmpty(Compared(eq, an[u].props, bn[u].props));
    }
  }

  lemma RelChangesInvert(eq: ValuesEqual, a: Archive, b: Archive, d: SnapshotDiff, e: SnapshotDiff, k: string)
    requires DiffOf(eq, a, b, d) && DiffOf(eq, b, a, e) && forall x, y :: eq(x, y) == eq(y, x)
    ensures k in Index(ChangeKey, d.changedRels) <==> k in Index(ChangeKey, e.changedRels)
    ensures k in Index(ChangeKey, d.changedRels) ==>
      Index(ChangeKey, e.changedRels)[k].fields == Inverse(Index(ChangeKey, d.changedRels)[k].fields)
  {
    var ar, br := Index(RelKey, a.rels), Index(RelKey, b.rels);
    IndexKeys(RelKey, a.rels);
    IndexKeys(RelKey, b.rels);
    RelChangeAt(eq, d.changedRels, ar, br, k);
    RelChangeAt(eq, e.changedRels, br, ar, k);
    if k in ar && k in br {
      FieldsInvert(eq, ar[k].props, br[k].props);
      InverseEmpty(Compared(eq, ar[k].props, br[k].props));
    }
  }

  lemma InverseEmpty(f: Fields)
    ensures Inverse(f).Empty() <==> f.Empty()
  {
    if Inverse(f).modified == map[] {
      assert forall k :: k in f.modified ==> k in Inverse(f).modified;
    }
  }

  lemma SameMembers<T>(key: T -> string, s: seq<T>, t: seq<T>, m: map<string, T>)
    requires Lists(key, s, m) && Lists(key, t, m)
    ensures forall x :: x in s <==> x in t
  {
    forall x ensures x in s <==> x in t {
      if x in s { var i :| 0 <= i < |s| && s[i] == x; assert m[key(x)] in t; }
      if x in t { var i :| 0 <= i < |t| && t[i] == x; assert m[key(x)] in s; }
    }
  }

  // ---------------------------------------------------------------- what it does not see

  ghost predicate Nothing(d: SnapshotDiff) {
    && d.addedNodes == [] && d.removedNodes == [] && d.changedNodes == []
    && d.addedRels == [] && d.removedRels == [] && d.changedRels == []
  }

  ghost predicate SameProps(eq: ValuesEqual, p: Props, q: Props) {
    p.Keys == q.Keys && forall k :: k in p ==> eq(p[k], q[k])
  }

  ghost predicate SameNodes(eq: ValuesEqual, a: map<string, Node>, b: map<string, Node>) {
    a.Keys == b.Keys && forall u :: u in a ==> SameProps(eq, a[u].props, b[u].props)
  }

  ghost predicate SameRels(eq: ValuesEqual, a: map<string, Relation>, b: map<string, Relation>) {
    a.Keys == b.Keys && forall k :: k in a ==> SameProps(eq, a[k].props, b[k].props)
  }

  lemma ComparedEmpty(eq: ValuesEqual, a: Props, b: Props)
    ensures Compared(eq, a, b).Empty() <==> SameProps(eq, a, b)
  {
    var f := Compared(eq, a, b);
    if f.Empty() {
      forall k ensures k in a <==> k in b {
        assert k !in f.added && k !in f.removed;
      }
      forall k | k in a ensures eq(a[k], b[k]) {
        assert k !in f.modified;
      }
    }
  }

  lemma ListsNothing<T>(key: T -> string, s: seq<T>, a: map<string, T>, b: map<string, T>)
    requires Lists(key, s, OnlyIn(a, b))
    ensures s == [] <==> a.Keys <= b.Keys
  {
    if s != [] {
      assert key(s[0]) in OnlyIn(a, b);
    }
    if k :| k in a && k !in b {
      assert OnlyIn(a, b)[k] in s;
    }
  }

  lemma NoNodeChange(eq: ValuesEqual, s: seq<NodeChange>, a: map<string, Node>, b: map<string, Node>)
    requires ListsNodeChanges(eq, s, a, b)
    ensures s == [] <==> forall u :: u in a && u in b ==> SameProps(eq, a[u].props, b[u].props)
  {
    forall u | u in a && u in b ensures NodeChanged(eq, a, b, u) <==> !SameProps(eq, a[u].props, b[u].props) {
      ComparedEmpty(eq, a[u].props, b[u].props);
    }
    if s != [] {
      assert NodeChanged(eq, a, b, s[0].uri);
    }
  }

  lemma NoRelChange(eq: ValuesEqual, s: seq<RelChange>, a: map<string, Relation>, b: map<string, Relation>)
    requires ListsRelChanges(eq, s, a, b)
    ensures s == [] <==> forall k :: k in a && k in b ==> SameProps(eq, a[k].props, b[k].props)
  {
    forall k | k in a && k in b ensures RelChanged(eq, a, b, k) <==> !SameProps(eq, a[k].props, b[k].props) {
      ComparedEmpty(eq, a[k].props, b[k].props);
    }
    if s != [] {
      assert RelChanged(eq, a, b, ChangeKey(s[0]));
    }
  }

  /** Nothing is reported if and only if the archives have the same URIs and the same relationship
      keys, the last entry under each with the same properties up to valuesEqual. */
  lemma NothingReported(eq: ValuesEqual, a: Archive, b: Archive, d: SnapshotDiff)
    requires DiffOf(eq, a, b, d)
    ensures Nothing(d) <==>
      && SameNodes(eq, Index(UriOf, a.nodes), Index(UriOf, b.nodes))
      && SameRels(eq, Index(RelKey, a.rels), Index(RelKey, b.rels))
  {
    var an, bn := Index(UriOf, a.nodes), Index(UriOf, b.nodes);
    var ar, br := Index(RelKey, a.rels), Index(RelKey, b.rels);
    NoNodeChange(eq, d.changedNodes, an, bn);
    NoRelChange(eq, d.changedRels, ar, br);
    ListsNothing(UriOf, d.addedNodes, bn, an);
    ListsNothing(UriOf, d.removedNodes, an, bn);
    ListsNothing(RelKey, d.addedRels, br, ar);
    ListsNothing(RelKey, d.removedRels, ar, br);
  }

  /** The same nodes but for their labels. */
  predicate Relabelled(a: seq<Node>, b: seq<Node>) {
    |a| == |b| && forall i :: 0 <= i < |a| ==> a[i].uri == b[i].uri && a[i].props == b[i].props
  }

  lemma {:induction false} RelabelledIndex(a: seq<Node>, b: seq<Node>, u: string)
    requires Relabelled(a, b)
    ensures u in Index(UriOf, a) <==> u in Index(UriOf, b)
    ensures u in Index(UriOf, a) ==> Index(UriOf, a)[u].props == Index(UriOf, b)[u].props
  {
    if a != [] {
      RelabelledIndex(a[..|a| - 1], b[..|b| - 1], u);
    }
  }

  /** valuesEqual holds of each value and itself; it does not for a NaN. */
  ghost predicate SelfEqual(eq: ValuesEqual, ar: Archive) {
    && (forall n, k :: n in ar.nodes && k in n.props ==> eq(n.props[k], n.props[k]))
    && (forall r, k :: r in ar.rels && k in r.props ==> eq(r.props[k], r.props[k]))
  }

  /** Labels are not compared: however they change, nothing is reported. */
  lemma LabelsUnseen(eq: ValuesEqual, a: Archive, b: Archive, d: SnapshotDiff)
    requires DiffOf(eq, a, b, d) && SelfEqual(eq, a) && Relabelled(a.nodes, b.nodes) && a.rels == b.rels
    ensures Nothing(d)
  {
    var an, bn := Index(UriOf, a.nodes), Index(UriOf, b.nodes);
    IndexKeys(UriOf, a.nodes);
    IndexKeys(RelKey, a.rels);
    forall u ensures u in an <==> u in bn
      ensures u in an ==> SameProps(eq, an[u].props, bn[u].props)
    {
      RelabelledIndex(a.nodes, b.nodes, u);
    }
    NothingReported(eq, a, b, d);
  }

  lemma AppendedIndex<T>(key: T -> string, s: seq<T>, x: T)
    ensures Index(key, s + [x]) == Index(key, s)[key(x) := x]
  {
    assert (s + [x])[..|s|] == s;
  }

  lemma OneIndex(r: Relation)
    ensures Index(RelKey, [r]) == map[RelKey(r) := r]
  {
    AppendedIndex(RelKey, [], r);
    assert [] + [r] == [r];
  }

  /** Two archives with the same nodes, whose relationships look the same. */
  lemma SameLooks(eq: ValuesEqual, a: Archive, b: Archive, d: SnapshotDiff)
    requires DiffOf(eq, a, b, d) && SelfEqual(eq, a) && a.nodes == b.nodes
    requires SameRels(eq, Index(RelKey, a.rels), Index(RelKey, b.rels))
    ensures Nothing(d)
  {
    IndexKeys(UriOf, a.nodes);
    NothingReported(eq, a, b, d);
  }

  lemma NothingPatched(rels: seq<Relation>, d: SnapshotDiff)
    requires Nothing(d)
    ensures PatchedTriples(rels, d) == Triples(rels) && PatchedBag(rels, d) == TripleBag(rels)
  {
  }

  /** Archives whose relationships differ, with a difference that reports nothing: a separator inside
      a URI makes two relationships share a key. */
  lemma BarsCollide(eq: ValuesEqual, a: Archive, b: Archive, d: SnapshotDiff)
    requires DiffOf(eq, a, b, d) && SelfEqual(eq, a) && a.nodes == b.nodes
    requires a.rels == [Relation("T", "a|b", "c", map[])] && b.rels == [Relation("T", "a", "b|c", map[])]
    ensures Nothing(d) && PatchedTriples(a.rels, d) != Triples(b.rels)
  {
    var r, s := a.rels[0], b.rels[0];
    assert RelKey(r) == "T|a|b|c" == RelKey(s);
    assert r.from != s.from by { assert |r.from| != |s.from|; }
    TwoUnderOneKey(eq, a, b, d, r, s);
  }

  lemma TwoUnderOneKey(eq: ValuesEqual, a: Archive, b: Archive, d: SnapshotDiff, r: Relation, s: Relation)
    requires DiffOf(eq, a, b, d) && SelfEqual(eq, a) && a.nodes == b.nodes && a.rels == [r] && b.rels == [s]
    requires RelKey(r) == RelKey(s) && Triple(r) != Triple(s) && r.props == map[] == s.props
    ensures Nothing(d) && PatchedTriples(a.rels, d) != Triples(b.rels)
  {
    OneIndex(r);
    OneIndex(s);
    SameLooks(eq, a, b, d);
    NothingPatched(a.rels, d);
    assert Triple(r) in Triples(a.rels) && Triple(r) !in Triples(b.rels);
  }

  /** A relationship that the second archive has once more than the first is not reported either. */
  lemma ParallelUnseen(eq: ValuesEqual, a: Archive, b: Archive, d: SnapshotDiff)
    requires DiffOf(eq, a, b, d) && SelfEqual(eq, a) && a.nodes == b.nodes
    requires a.rels != [] && b.rels == a.rels + [a.rels[|a.rels| - 1]]
    ensures Nothing(d) && PatchedBag(a.rels, d) != TripleBag(b.rels)
  {
    var n := |a.rels| - 1;
    AppendedIndex(RelKey, a.rels, a.rels[n]);
    assert a.rels == a.rels[..n] + [a.rels[n]];
    AppendedIndex(RelKey, a.rels[..n], a.rels[n]);
    IndexKeys(RelKey, a.rels);
    SameLooks(eq, a, b, d);
    NothingPatched(a.rels, d);
    assert |TripleBag(a.rels)| != |TripleBag(b.rels)|;
  }
}
