/** What a resolved ontology means (internal/schema/registry.go): every type sees the nearest
    definition on its ancestor chain, and runs the normalize rules from its root down to itself. */
module Inheritance {
  import opened Common
  import opened GraphModel
  import opened Schema
  import opened SliceAppend

  // ---------------------------------------------------------------- ancestor chains

  /** The first k nodes on the way up from n, and no further than the root. */
  function Climb(m: Parents, n: string, k: nat): seq<string>
    decreases k
  {
    if k == 0 then [] else if n in m then [n] + Climb(m, m[n], k - 1) else [n]
  }

  /** From n up to its root. */
  ghost function Chain(m: Parents, n: string): seq<string>
    requires Rooted(m, n)
  {
    var k: nat :| Up(m, n, k) == None;
    Climb(m, n, k)
  }

  lemma {:induction false} ClimbEnough(m: Parents, n: string, j: nat, k: nat)
    requires Up(m, n, j) == None && Up(m, n, k) == None
    ensures Climb(m, n, j) == Climb(m, n, k)
    decreases j
  {
    if n in m {
      ClimbEnough(m, m[n], j - 1, k - 1);
    }
  }

  lemma ChainStep(m: Parents, n: string)
    requires Rooted(m, n)
    ensures n !in m ==> Chain(m, n) == [n]
    ensures n in m ==> Rooted(m, m[n]) && Chain(m, n) == [n] + Chain(m, m[n])
  {
    var k: nat :| Up(m, n, k) == None && Chain(m, n) == Climb(m, n, k);
    if n in m {
      RootedParent(m, n);
      var j: nat :| Up(m, m[n], j) == None && Chain(m, m[n]) == Climb(m, m[n], j);
      assert Up(m, n, k) == Up(m, m[n], k - 1);
      ClimbEnough(m, m[n], j, k - 1);
      assert Climb(m, n, k) == [n] + Climb(m, m[n], k - 1);
    }
  }

  lemma AllRooted(m: Parents, order: seq<string>)
    requires ParentFirst(m, order)
    ensures forall n :: n in order || n !in m ==> Rooted(m, n)
  {
    forall n | n in order || n !in m ensures Rooted(m, n) {
      if n in order {
        var i :| 0 <= i < |order| && order[i] == n;
        ParentFirstRooted(m, order, i);
      } else {
        assert Up(m, n, 1) == None;
      }
    }
  }

  // ---------------------------------------------------------------- the meaning of a type

  /** The first type of the chain that defines k. */
  function Nearest<V>(defs: map<string, map<string, V>>, chain: seq<string>, k: string): Option<V> {
    if chain == [] then None
    else if chain[0] in defs && k in defs[chain[0]] then Some(defs[chain[0]][k])
    else Nearest(defs, chain[1..], k)
  }

  /** The rules of the last type of the chain first. */
  function RulesFromRoot(types: Types, chain: seq<string>): seq<NormalizeRule> {
    if chain == [] then []
    else RulesFromRoot(types, chain[1..]) + if chain[0] in types then types[chain[0]].normalize else []
  }

  function Properties(types: Types): map<string, map<string, PropertySpec>> {
    map n | n in types :: types[n].properties
  }

  function FieldMappings(types: Types): map<string, map<string, string>> {
    map n | n in types :: types[n].fieldMapping
  }

  function RelationFields(types: Types): map<string, map<string, string>> {
    map n | n in types :: types[n].relationFields
  }

  function Get<V>(m: map<string, V>, k: string): Option<V> {
    if k in m then Some(m[k]) else None
  }

  /** `t` is what the type at the head of `chain` means in the ontology `types`: everything nearest
      on the chain, the rules from the root down, identity and template its own. */
  ghost predicate Means(types: Types, chain: seq<string>, t: EntityType) {
    && chain != [] && chain[0] in types
    && (forall k :: Get(t.properties, k) == Nearest(Properties(types), chain, k))
    && (forall k :: Get(t.fieldMapping, k) == Nearest(FieldMappings(types), chain, k))
    && (forall k :: Get(t.relationFields, k) == Nearest(RelationFields(types), chain, k))
    && t.normalize == RulesFromRoot(types, chain)
    && t.base == types[chain[0]].base
    && t.stableKeys == types[chain[0]].stableKeys
    && t.uriTemplate == types[chain[0]].uriTemplate
  }

  /** What mergeEntityType leaves in the child. */
  function Merged(child: EntityType, parent: EntityType): EntityType {
    child.(properties := parent.properties + child.properties,
           fieldMapping := parent.fieldMapping + child.fieldMapping,
           normalize := parent.normalize + child.normalize,
           relationFields := parent.relationFields + child.relationFields)
  }

  lemma NearestStep<V>(defs: map<string, map<string, V>>, n: string, chain: seq<string>, inherited: map<string, V>, k: string)
    requires n in defs && Get(inherited, k) == Nearest(defs, chain, k)
    ensures Get(inherited + defs[n], k) == Nearest(defs, [n] + chain, k)
  {
    assert ([n] + chain)[1..] == chain;
  }

  /** Merging a resolved parent into a type that is still as loaded resolves the type. */
  lemma MergedMeans(types: Types, n: string, chain: seq<string>, parent: EntityType)
    requires n in types && Means(types, chain, parent)
    ensures Means(types, [n] + chain, Merged(types[n], parent))
  {
    var t := Merged(types[n], parent);
    assert ([n] + chain)[1..] == chain;
    forall k ensures Get(t.properties, k) == Nearest(Properties(types), [n] + chain, k) {
      NearestStep(Properties(types), n, chain, parent.properties, k);
    }
    forall k ensures Get(t.fieldMapping, k) == Nearest(FieldMappings(types), [n] + chain, k) {
      NearestStep(FieldMappings(types), n, chain, parent.fieldMapping, k);
    }
    forall k ensures Get(t.relationFields, k) == Nearest(RelationFields(types), [n] + chain, k) {
      NearestStep(RelationFields(types), n, chain, parent.relationFields, k);
    }
  }

  lemma RootMeans(types: Types, n: string)
    requires n in types
    ensures Means(types, [n], types[n])
  {
    var t := types[n];
    assert [n][1..] == [];
    forall k ensures Get(t.properties, k) == Nearest(Properties(types), [n], k)
      ensures Get(t.fieldMapping, k) == Nearest(FieldMappings(types), [n], k)
      ensures Get(t.relationFields, k) == Nearest(RelationFields(types), [n], k)
    {
      assert Properties(types)[n] == t.properties && FieldMappings(types)[n] == t.fieldMapping;
    }
  }

  /** The meaning of a type is unique. */
  lemma MeansUnique(types: Types, chain: seq<string>, s: EntityType, t: EntityType)
    requires Means(types, chain, s) && Means(types, chain, t)
    ensures s == t
  {
    SameEntries(s.properties, t.properties);
    SameEntries(s.fieldMapping, t.fieldMapping);
    SameEntries(s.relationFields, t.relationFields);
  }

  lemma SameEntries<V>(a: map<string, V>, b: map<string, V>)
    requires forall k :: Get(a, k) == Get(b, k)
    ensures a == b
  {
    forall k ensures k in a <==> k in b
      ensures k in a ==> a[k] == b[k]
    {
      assert Get(a, k) == Get(b, k);
    }
  }

  // ---------------------------------------------------------------- the registry

  /** child -> parent, for the types that extend another. */
  function ParentsOf(types: Types): Parents {
    map n | n in types && types[n].base != "" :: types[n].base
  }

  predicate ParentsKnown(types: Types) {
    forall n :: n in types && types[n].base != "" ==> types[n].base in types
  }

  datatype LoadError = Circular(node: string) | UnknownParent(child: string, parent: string)

  /** An entity type as the registry holds it: its rules are a slice. */
  type StoredType = EntityOf<Slice>

  type Stored = map<string, StoredType>

  function MemoryOf(h: Heap<NormalizeRule>, ts: Stored): Memory<NormalizeRule> {
    Memory(h, map n | n in ts :: ts[n].normalize)
  }

  function WithRules<R, S>(t: EntityOf<R>, rules: S): EntityOf<S> {
    Entity(t.base, t.stableKeys, t.uriTemplate, t.fieldMapping, rules, t.relationFields, t.properties)
  }

  /** The types as everyone reads them. */
  function View(h: Heap<NormalizeRule>, ts: Stored): Types
    requires MemoryOf(h, ts).Sound()
  {
    map n | n in ts :: WithRules(ts[n], MemoryOf(h, ts).Reads(n))
  }

  /** The same types but for their rules. */
  ghost predicate Mirrors(ts: Stored, types: Types) {
    ts.Keys == types.Keys && forall n :: n in ts ==> WithRules(ts[n], ()) == WithRules(types[n], ())
  }

  function RulesOf(types: Types): Wanted<NormalizeRule> {
    map n | n in types :: types[n].normalize
  }

  /** The merges made when the types are visited in the given order. */
  function MergesIn(m: Parents, order: seq<string>): seq<Merge> {
    if order == [] then []
    else
      var n := order[|order| - 1];
      MergesIn(m, order[..|order| - 1]) + if n in m then [Merge(n, m[n])] else []
  }

  /** Merging in this order has led from one memory to the other, by these steps. */
  ghost predicate MergeRun(m: Parents, order: seq<string>, before: Memory<NormalizeRule>,
                           run: seq<Memory<NormalizeRule>>, after: Memory<NormalizeRule>) {
    IsRun(run, MergesIn(m, order)) && run[0] == before && run[|run| - 1] == after && after.Sound()
  }

  class Registry {
    var heap: Heap<NormalizeRule>
    var entityTypes: Stored
    var relationTypes: map<string, RelationType>

    constructor (heap: Heap<NormalizeRule>, entityTypes: Stored, relationTypes: map<string, RelationType>)
      ensures this.heap == heap && this.entityTypes == entityTypes && this.relationTypes == relationTypes
    {
      this.heap, this.entityTypes, this.relationTypes := heap, entityTypes, relationTypes;
    }

    ghost function Rules(): Memory<NormalizeRule>
      reads this
    {
      MemoryOf(heap, entityTypes)
    }

    ghost function Now(): Types
      requires Rules().Sound()
      reads this
    {
      View(heap, entityTypes)
    }

    /** Adds the parent's entries the child does not define. */
    static method Inherit<V>(child: map<string, V>, parent: map<string, V>) returns (r: map<string, V>)
      ensures r == parent + child
    {
      r := child;
      var todo := parent.Keys;
      while todo != {}
        invariant todo <= parent.Keys
        invariant r == (map k | k in parent && k !in todo :: parent[k]) + child
      {
        var k :| k in todo;
        todo := todo - {k};
        if k !in r {
          r := r[k := parent[k]];
        }
      }
    }

    /** Go's append; a new array may have any capacity that suffices. */
    method Append(s: Slice, xs: seq<NormalizeRule>) returns (r: Slice)
      requires SliceAppend.Valid(heap, s)
      modifies this`heap
      ensures Appends(old(heap), s, xs, heap, r)
    {
      if |xs| <= Spare(heap, s) {
        r := Slice(s.arr, s.len + |xs|);
        heap := heap[s.arr := Read(heap, s) + xs + heap[s.arr][s.len + |xs|..]];
      } else {
        var unused: seq<NormalizeRule> := *;
        r := Slice(|heap|, s.len + |xs|);
        heap := heap + [Read(heap, s) + xs + unused];
      }
    }

    /** The child's own definitions win over the parent's; its rules are appended to the parent's
        slice. Nothing else changes, but for what that append may overwrite. */
    method MergeEntityType(child: string, parent: string)
      requires child in entityTypes && parent in entityTypes && Rules().Sound()
      modifies this`entityTypes, this`heap
      ensures entityTypes.Keys == old(entityTypes.Keys)
      ensures forall n :: n in entityTypes && n != child ==> entityTypes[n] == old(entityTypes)[n]
      ensures WithRules(entityTypes[child], []) ==
        Merged(WithRules(old(entityTypes)[child], []), WithRules(old(entityTypes)[parent], []))
      ensures Merges(old(Rules()), Merge(child, parent), Rules())
    {
      var c, p := entityTypes[child], entityTypes[parent];
      var properties := Inherit(c.properties, p.properties);
      var fieldMapping := Inherit(c.fieldMapping, p.fieldMapping);
      var relationFields := Inherit(c.relationFields, p.relationFields);
      ghost var before := Rules();
      assert before.slices[child] == c.normalize && before.slices[parent] == p.normalize;
      var rules := Append(p.normalize, Read(heap, c.normalize));
      c := c.(properties := properties, fieldMapping := fieldMapping, normalize := rules, relationFields := relationFields);
      entityTypes := entityTypes[child := c];
      assert Rules().slices == before.slices[child := rules];
      var none: seq<NormalizeRule> := [];
      assert none + none == none;
    }

    /** Succeeds exactly on an ontology without cycles whose parents are all defined. Then every
        type has what it means, but for its rules; and it has its rules, from the root down to
        itself, for all types if and only if none of the appends made on the way changed an element
        that the slice of another type covered. That none did is certain when slices are as decoding
        leaves them and no type that extends another is extended by two. */
    method ResolveInheritance() returns (err: Option<LoadError>, ghost order: seq<string>, ghost run: seq<Memory<NormalizeRule>>)
      requires Separate(Rules())
      modifies this`entityTypes, this`heap
      ensures err.None? <==> Acyclic(ParentsOf(old(Now()))) && ParentsKnown(old(Now()))
      ensures err.None? ==> MergedAll(old(Now()), ParentsOf(old(Now())), order, old(Rules()), run, heap, entityTypes)
    {
      ghost var types := Now();
      var inheritance := map n | n in entityTypes && entityTypes[n].base != "" :: entityTypes[n].base;
      assert inheritance == ParentsOf(types);
      order, run := [], [Rules()];
      if inheritance == map[] {
        NothingToMerge(heap, entityTypes);
        return None, order, run;
      }
      var circular := DetectCycle(inheritance);
      if circular.Some? {
        return Some(Circular(circular.value)), order, run;
      }
      var sorted := TopoSort(inheritance);
      order := sorted;
      err, run := MergeInOrder(inheritance, sorted);
    }

    /** Merges parents into children, in an order that has every parent before its children. */
    method MergeInOrder(inheritance: Parents, order: seq<string>) returns (err: Option<LoadError>, ghost run: seq<Memory<NormalizeRule>>)
      requires Separate(Rules()) && inheritance == ParentsOf(Now())
      requires NoRepeats(order) && Elements(order) == Names(inheritance) && ParentFirst(inheritance, order)
      modifies this`entityTypes, this`heap
      ensures err.Some? <==> !ParentsKnown(old(Now()))
      ensures err.None? ==> MergedAll(old(Now()), inheritance, order, old(Rules()), run, heap, entityTypes)
    {
      ghost var types, start, meant := Now(), Rules(), Now();
      LoadedRules(heap, entityTypes);
      AllRooted(inheritance, order);
      err, meant, run := MergeEach(inheritance, order);
      if err.None? {
        Finish(types, inheritance, order, meant, start, run, heap, entityTypes);
      }
    }

    /** The loop itself; `meant` follows it with values in the place of slices. */
    method MergeEach(inheritance: Parents, order: seq<string>)
      returns (err: Option<LoadError>, ghost meant: Types, ghost run: seq<Memory<NormalizeRule>>)
      requires Rules().Sound() && inheritance == ParentsOf(Now())
      requires NoRepeats(order) && ParentFirst(inheritance, order) && forall n :: n in order ==> Rooted(inheritance, n)
      modifies this`entityTypes, this`heap
      ensures err.Some? ==> !ParentsKnown(old(Now()))
      ensures err.None? ==> Progress(old(Now()), inheritance, order, meant, old(Rules()), run, heap, entityTypes)
    {
      ghost var types, start := Now(), Rules();
      meant, run := types, [start];
      NothingMerged(inheritance, heap, entityTypes);
      for i := 0 to |order|
        invariant Progress(types, inheritance, order[..i], meant, start, run, heap, entityTypes)
      {
        var child := order[i];
        OrderStep(inheritance, order, i);
        if child in inheritance {
          var parent := inheritance[child];
          if parent !in entityTypes {
            MissingParent(types, child);
            return Some(UnknownParent(child, parent)), meant, run;
          }
          ghost var h, ts := heap, entityTypes;
          MergeEntityType(child, parent);
          ProgressOne(types, inheritance, order[..i], child, meant, start, run, h, ts, heap, entityTypes);
          meant := meant[child := Merged(meant[child], meant[parent])];
          run := run + [Rules()];
        } else {
          ProgressRoot(types, inheritance, order[..i], child, meant, start, run, heap, entityTypes);
        }
      }
      assert order[..|order|] == order;
      err := None;
    }

    /** The label chain from the base class to the type itself. */
    method GetLabels(kind: string) returns (labels: seq<string>)
      requires Rules().Sound()
      ensures labels == Labels(Now(), kind)
    {
      if kind !in entityTypes || entityTypes[kind].base == "" {
        return [kind];
      }
      labels := [];
      var current := kind;
      var visited: set<string> := {};
      while current != ""
        invariant Labels(Now(), kind) == LabelsFrom(Now(), current, visited) + labels
        decreases entityTypes.Keys - visited
      {
        if current in visited {
          break;
        }
        visited := visited + {current};
        labels := [current] + labels;
        if current !in entityTypes {
          break;
        }
        current := entityTypes[current].base;
      }
    }
  }

  /** `now` has the types of `types`, each as what it means. */
  ghost predicate Resolved(types: Types, m: Parents, now: Types) {
    now.Keys == types.Keys && forall n :: n in types ==> Rooted(m, n) && Means(types, Chain(m, n), now[n])
  }

  /** `now` has the types of `types`, each as what it means but for its rules. */
  ghost predicate ResolvedButRules(types: Types, m: Parents, now: Types) {
    && now.Keys == types.Keys
    && forall n :: n in types ==>
         Rooted(m, n) && Means(types, Chain(m, n), now[n].(normalize := RulesFromRoot(types, Chain(m, n))))
  }

  /** Types that are the same but for their rules have the same meaning but for their rules. */
  lemma SameButRules(types: Types, chain: seq<string>, meant: EntityType, t: EntityType)
    requires Means(types, chain, meant) && WithRules(t, ()) == WithRules(meant, ())
    ensures t.(normalize := RulesFromRoot(types, chain)) == meant
    ensures Means(types, chain, t) <==> t == meant
  {
    if Means(types, chain, t) {
      MeansUnique(types, chain, t, meant);
    }
  }

  /** Types `now` are those of `meant` but for their rules. */
  ghost predicate ButRules(meant: Types, now: Types) {
    now.Keys == meant.Keys && forall n :: n in now ==> WithRules(now[n], ()) == WithRules(meant[n], ())
  }

  lemma ResolvedBut(types: Types, m: Parents, meant: Types, now: Types)
    requires Resolved(types, m, meant) && ButRules(meant, now)
    ensures ResolvedButRules(types, m, now)
  {
    forall n | n in types
      ensures Rooted(m, n) && Means(types, Chain(m, n), now[n].(normalize := RulesFromRoot(types, Chain(m, n))))
    {
      SameButRules(types, Chain(m, n), meant[n], now[n]);
    }
  }

  lemma ResolvedExactly(types: Types, m: Parents, meant: Types, now: Types)
    requires Resolved(types, m, meant) && ButRules(meant, now)
    ensures Resolved(types, m, now) <==> now == meant
  {
    if Resolved(types, m, now) {
      forall n | n in types ensures now[n] == meant[n] {
        SameButRules(types, Chain(m, n), meant[n], now[n]);
      }
    }
  }

  /** The value-level merges so far want the rules that the appends so far ought to give. */
  ghost predicate FollowsRun(types: Types, m: Parents, done: seq<string>, meant: Types) {
    && (forall g :: g in MergesIn(m, done) ==> g.child in types && g.parent in types)
    && RulesOf(meant) == WantedAfter(RulesOf(types), MergesIn(m, done))
  }

  lemma LoadedRules(h: Heap<NormalizeRule>, ts: Stored)
    requires MemoryOf(h, ts).Sound()
    ensures RulesOf(View(h, ts)) == AsLoaded(MemoryOf(h, ts)) && Mirrors(ts, View(h, ts))
  {
  }

  lemma MergesNext(m: Parents, done: seq<string>, n: string)
    ensures MergesIn(m, done + [n]) == MergesIn(m, done) + if n in m then [Merge(n, m[n])] else []
  {
    assert (done + [n])[..|done|] == done;
  }

  lemma MirrorOne(stored: Stored, meant: Types, child: string, parent: string, now: Stored)
    requires Mirrors(stored, meant) && child in stored && parent in stored
    requires now.Keys == stored.Keys && forall n :: n in now && n != child ==> now[n] == stored[n]
    requires WithRules(now[child], []) == Merged(WithRules(stored[child], []), WithRules(stored[parent], []))
    ensures Mirrors(now, meant[child := Merged(meant[child], meant[parent])])
  {
    var next := meant[child := Merged(meant[child], meant[parent])];
    assert WithRules(stored[child], ()) == WithRules(meant[child], ()) && WithRules(stored[parent], ()) == WithRules(meant[parent], ());
    forall n | n in now ensures WithRules(now[n], ()) == WithRules(next[n], ()) {
      if n == child {
        var was: EntityOf<seq<NormalizeRule>> := WithRules(now[child], []);
        assert WithRules(was, ()) == WithRules(now[child], ());
      } else {
        assert WithRules(stored[n], ()) == WithRules(meant[n], ());
      }
    }
  }

  lemma RunOne(m: Parents, done: seq<string>, child: string, start: Memory<NormalizeRule>, run: seq<Memory<NormalizeRule>>,
               before: Memory<NormalizeRule>, after: Memory<NormalizeRule>)
    requires MergeRun(m, done, start, run, before) && child in m && Merges(before, Merge(child, m[child]), after)
    ensures MergeRun(m, done + [child], start, run + [after], after)
  {
    MergesNext(m, done, child);
    var gs, next := MergesIn(m, done), run + [after];
    forall k | 0 <= k < |gs| + 1 ensures Merges(next[k], (gs + [Merge(child, m[child])])[k], next[k + 1]) {
      if k < |gs| {
        assert Merges(run[k], gs[k], run[k + 1]);
      }
    }
    forall n | n in after.slices ensures SliceAppend.Valid(after.heap, after.slices[n]) {
      if n == child {
        AppendReads(before.heap, before.slices[m[child]], before.Reads(child), after.heap, after.slices[child]);
      } else {
        MergeReads(before, Merge(child, m[child]), after, n);
      }
    }
  }

  lemma RunRoot(m: Parents, done: seq<string>, root: string)
    requires root !in m
    ensures MergesIn(m, done + [root]) == MergesIn(m, done)
  {
    MergesNext(m, done, root);
  }

  lemma FollowOne(types: Types, m: Parents, done: seq<string>, child: string, meant: Types)
    requires FollowsRun(types, m, done, meant) && meant.Keys == types.Keys && child in m && child in types && m[child] in types
    ensures FollowsRun(types, m, done + [child], meant[child := Merged(meant[child], meant[m[child]])])
  {
    MergesNext(m, done, child);
    WantedSnoc(RulesOf(types), MergesIn(m, done), Merge(child, m[child]));
    RulesMerged(meant, child, m[child]);
  }

  lemma RulesMerged(meant: Types, child: string, parent: string)
    requires child in meant && parent in meant
    ensures RulesOf(meant[child := Merged(meant[child], meant[parent])]) == WantedNext(RulesOf(meant), Merge(child, parent))
  {
  }

  lemma {:induction false} MergesInOrder(m: Parents, order: seq<string>)
    requires NoRepeats(order) && ParentFirst(m, order)
    ensures InOrder(MergesIn(m, order))
    ensures forall g :: g in MergesIn(m, order) ==> g.child in order && g.parent in order
    decreases |order|
  {
    if order != [] {
      var init, n := order[..|order| - 1], order[|order| - 1];
      forall i | 0 <= i < |init| && init[i] in m ensures m[init[i]] in init[..i] {
        assert order[i] in m && init[..i] == order[..i];
      }
      MergesInOrder(m, init);
      assert order == init + [n];
      MergesNext(m, init, n);
      if n in m {
        assert m[n] in order[..|order| - 1];
        InOrderMore(MergesIn(m, init), Merge(n, m[n]));
      }
    }
  }

  lemma InOrderMore(gs: seq<Merge>, g: Merge)
    requires InOrder(gs) && g.child != g.parent && forall h :: h in gs ==> h.child != g.child && h.parent != g.child
    ensures InOrder(gs + [g])
  {
    var next := gs + [g];
    forall i | 0 <= i < |gs| ensures next[i] in gs {}
  }

  // ---------------------------------------------------------------- the loop of MergeInOrder

  /** After the types of `done`: the value-level merges have resolved them to `meant`, and the real
      ones differ from these at most in what the slices read. */
  ghost predicate Progress(types: Types, m: Parents, done: seq<string>, meant: Types, start: Memory<NormalizeRule>,
                           run: seq<Memory<NormalizeRule>>, h: Heap<NormalizeRule>, ts: Stored) {
    && PartlyResolved(types, m, done, meant)
    && Mirrors(ts, meant)
    && MergeRun(m, done, start, run, MemoryOf(h, ts))
    && FollowsRun(types, m, done, meant)
  }

  lemma NothingMerged(m: Parents, h: Heap<NormalizeRule>, ts: Stored)
    requires MemoryOf(h, ts).Sound()
    ensures Progress(View(h, ts), m, [], View(h, ts), MemoryOf(h, ts), [MemoryOf(h, ts)], h, ts)
  {
  }

  lemma ProgressOne(types: Types, m: Parents, done: seq<string>, child: string, meant: Types, start: Memory<NormalizeRule>,
                    run: seq<Memory<NormalizeRule>>, h: Heap<NormalizeRule>, ts: Stored, h1: Heap<NormalizeRule>, ts1: Stored)
    requires m == ParentsOf(types) && Progress(types, m, done, meant, start, run, h, ts)
    requires child in m && child !in done && m[child] in done && m[child] in types && Rooted(m, child)
    requires ts1.Keys == ts.Keys && forall n :: n in ts1 && n != child ==> ts1[n] == ts[n]
    requires WithRules(ts1[child], []) == Merged(WithRules(ts[child], []), WithRules(ts[m[child]], []))
    requires Merges(MemoryOf(h, ts), Merge(child, m[child]), MemoryOf(h1, ts1))
    ensures Progress(types, m, done + [child], meant[child := Merged(meant[child], meant[m[child]])], start,
                     run + [MemoryOf(h1, ts1)], h1, ts1)
  {
    ResolveOne(types, m, done, child, meant);
    MirrorOne(ts, meant, child, m[child], ts1);
    RunOne(m, done, child, start, run, MemoryOf(h, ts), MemoryOf(h1, ts1));
    FollowOne(types, m, done, child, meant);
  }

  lemma ProgressRoot(types: Types, m: Parents, done: seq<string>, root: string, meant: Types, start: Memory<NormalizeRule>,
                     run: seq<Memory<NormalizeRule>>, h: Heap<NormalizeRule>, ts: Stored)
    requires m == ParentsOf(types) && Progress(types, m, done, meant, start, run, h, ts)
    requires root !in m && root !in done && Rooted(m, root)
    ensures Progress(types, m, done + [root], meant, start, run, h, ts)
  {
    ResolveRoot(types, m, done, root, meant);
    RunRoot(m, done, root);
  }

  /** Every type has what it means but for its rules, and every type has its rules if and only if no
      append on the way changed an element that the slice of another type covered; which none does when
      the slices start without spare capacity and no type that extends another is extended by two. */
  ghost predicate MergedAll(types: Types, m: Parents, order: seq<string>, start: Memory<NormalizeRule>,
                            run: seq<Memory<NormalizeRule>>, h: Heap<NormalizeRule>, ts: Stored) {
    && MergeRun(m, order, start, run, MemoryOf(h, ts))
    && ResolvedButRules(types, m, View(h, ts))
    && (Resolved(types, m, View(h, ts)) <==> NoneOverwrites(run, MergesIn(m, order)))
    && (Tight(start) && OnlyRootsBranch(m) ==> Resolved(types, m, View(h, ts)))
  }

  /** No type that extends another is extended by two. */
  ghost predicate OnlyRootsBranch(m: Parents) {
    forall n, k :: n in m && k in m && n != k && m[n] == m[k] ==> m[n] !in m
  }

  /** The types end up as what they mean if and only if no append overwrote anything. */
  lemma Finish(types: Types, m: Parents, order: seq<string>, meant: Types, start: Memory<NormalizeRule>,
               run: seq<Memory<NormalizeRule>>, h: Heap<NormalizeRule>, ts: Stored)
    requires m == ParentsOf(types) && NoRepeats(order) && ParentFirst(m, order) && Names(m) == Elements(order)
    requires Progress(types, m, order, meant, start, run, h, ts) && Separate(start) && RulesOf(types) == AsLoaded(start)
    ensures ParentsKnown(types) && MergedAll(types, m, order, start, run, h, ts)
  {
    FullyResolved(types, m, order, meant);
    ViewMirrors(h, ts, meant);
    ReadsAreView(h, ts, meant);
    ResolvedBut(types, m, meant, View(h, ts));
    ResolvedExactly(types, m, meant, View(h, ts));
    AppendsDecide(types, m, order, meant, run);
    RootsRead(m, order, run);
  }

  lemma AppendsDecide(types: Types, m: Parents, order: seq<string>, meant: Types, run: seq<Memory<NormalizeRule>>)
    requires NoRepeats(order) && ParentFirst(m, order) && FollowsRun(types, m, order, meant)
    requires IsRun(run, MergesIn(m, order)) && Separate(run[0]) && RulesOf(types) == AsLoaded(run[0])
    ensures AllRead(run[|run| - 1], RulesOf(meant)) <==> NoneOverwrites(run, MergesIn(m, order))
  {
    MergesInOrder(m, order);
    forall g | g in MergesIn(m, order) ensures g.child in run[0].slices && g.parent in run[0].slices {
      assert g.child in RulesOf(types) && g.parent in RulesOf(types);
    }
    AllReadExactly(run, MergesIn(m, order));
  }

  lemma {:induction false} MergesMade(m: Parents, order: seq<string>, g: Merge)
    ensures g in MergesIn(m, order) <==> g.child in order && g.child in m && g.parent == m[g.child]
    decreases |order|
  {
    if order != [] {
      var init, n := order[..|order| - 1], order[|order| - 1];
      assert order == init + [n];
      MergesMade(m, init, g);
    }
  }

  /** The merges are those of m. */
  ghost predicate MadeFrom(m: Parents, gs: seq<Merge>) {
    forall g :: g in gs <==> g.child in m && g.parent == m[g.child]
  }

  lemma MadeFromMap(m: Parents, order: seq<string>)
    requires Names(m) == Elements(order)
    ensures MadeFrom(m, MergesIn(m, order))
  {
    forall g ensures g in MergesIn(m, order) <==> g.child in m && g.parent == m[g.child] {
      MergesMade(m, order, g);
      assert g.child in m ==> g.child in Elements(order);
    }
  }

  lemma BranchesInMerges(m: Parents, gs: seq<Merge>)
    requires InOrder(gs) && MadeFrom(m, gs) && OnlyRootsBranch(m)
    ensures BranchesAtRoots(gs)
  {
    forall i, j | 0 <= i < j < |gs| && gs[i].parent == gs[j].parent ensures gs[i].parent !in Children(gs) {
      assert gs[i] in gs && gs[j] in gs && gs[i].child != gs[j].child;
    }
  }

  lemma BranchesInMap(m: Parents, gs: seq<Merge>)
    requires MadeFrom(m, gs) && BranchesAtRoots(gs)
    ensures OnlyRootsBranch(m)
  {
    forall q | q in m ensures q in Children(gs) {
      assert Merge(q, m[q]) in gs;
    }
    forall n, k | n in m && k in m && n != k && m[n] == m[k] ensures m[n] !in m {
      assert Merge(n, m[n]) in gs && Merge(k, m[k]) in gs;
      var i :| 0 <= i < |gs| && gs[i] == Merge(n, m[n]);
      var j :| 0 <= j < |gs| && gs[j] == Merge(k, m[k]);
      assert i < j || j < i;
    }
  }

  lemma RootsRead(m: Parents, order: seq<string>, run: seq<Memory<NormalizeRule>>)
    requires NoRepeats(order) && ParentFirst(m, order) && Names(m) == Elements(order)
    requires IsRun(run, MergesIn(m, order)) && Separate(run[0])
    ensures Tight(run[0]) && OnlyRootsBranch(m) ==> NoneOverwrites(run, MergesIn(m, order))
  {
    if Tight(run[0]) && OnlyRootsBranch(m) {
      MergesInOrder(m, order);
      MadeFromMap(m, order);
      BranchesInMerges(m, MergesIn(m, order));
      RunKeys(run, MergesIn(m, order));
      RootBranchesRead(run, MergesIn(m, order));
    }
  }

  /** A parent map is safe, whatever rules the types have and whatever capacities appends reserve, if and
      only if no type that extends another is extended by two. */
  lemma SafeExactly(m: Parents, order: seq<string>)
    requires NoRepeats(order) && ParentFirst(m, order) && Names(m) == Elements(order)
    ensures AlwaysReads<NormalizeRule>(MergesIn(m, order)) <==> OnlyRootsBranch(m)
  {
    MergesInOrder(m, order);
    MadeFromMap(m, order);
    if OnlyRootsBranch(m) {
      BranchesInMerges(m, MergesIn(m, order));
    }
    if BranchesAtRoots(MergesIn(m, order)) {
      BranchesInMap(m, MergesIn(m, order));
    }
    AlwaysReadsExactly(MergesIn(m, order), NormalizeRule("f", "p", "r"), NormalizeRule("f", "p", "s"));
  }

  lemma NothingToMerge(h: Heap<NormalizeRule>, ts: Stored)
    requires MemoryOf(h, ts).Sound() && ParentsOf(View(h, ts)) == map[]
    ensures Acyclic(ParentsOf(View(h, ts))) && ParentsKnown(View(h, ts))
    ensures MergedAll(View(h, ts), ParentsOf(View(h, ts)), [], MemoryOf(h, ts), [MemoryOf(h, ts)], h, ts)
  {
    var types := View(h, ts);
    Unrelated(types);
    ResolvedBut(types, ParentsOf(types), types, types);
  }

  lemma ViewMirrors(h: Heap<NormalizeRule>, ts: Stored, meant: Types)
    requires MemoryOf(h, ts).Sound() && Mirrors(ts, meant)
    ensures ButRules(meant, View(h, ts))
  {
    var v := View(h, ts);
    forall n | n in v ensures WithRules(v[n], ()) == WithRules(meant[n], ()) {
      assert WithRules(v[n], ()) == WithRules(ts[n], ());
    }
  }

  lemma ReadsAreView(h: Heap<NormalizeRule>, ts: Stored, meant: Types)
    requires MemoryOf(h, ts).Sound() && ButRules(meant, View(h, ts))
    ensures AllRead(MemoryOf(h, ts), RulesOf(meant)) <==> View(h, ts) == meant
  {
    var v := View(h, ts);
    if AllRead(MemoryOf(h, ts), RulesOf(meant)) {
      forall n | n in v ensures v[n] == meant[n] {
        assert WithRules(v[n], ()) == WithRules(meant[n], ());
        assert MemoryOf(h, ts).Reads(n) == RulesOf(meant)[n];
      }
    }
  }

  lemma OrderStep(m: Parents, order: seq<string>, i: nat)
    requires NoRepeats(order) && ParentFirst(m, order) && i < |order|
    ensures order[..i + 1] == order[..i] + [order[i]] && order[i] !in order[..i]
    ensures order[i] in m ==> m[order[i]] in order[..i]
  {
  }

  lemma MissingParent(types: Types, child: string)
    requires child in ParentsOf(types) && ParentsOf(types)[child] !in types
    ensures !ParentsKnown(types)
  {
    assert types[child].base != "";
  }

  /** The types of `done` are resolved, the others as loaded. */
  ghost predicate PartlyResolved(types: Types, m: Parents, done: seq<string>, now: Types)
  {
    && now.Keys == types.Keys
    && (forall n :: n in done ==> Rooted(m, n))
    && (forall n :: n in types && n !in done ==> now[n] == types[n])
    && (forall n :: n in types && n in done ==> Means(types, Chain(m, n), now[n]))
    && (forall n :: n in done && n in m ==> m[n] in types)
  }

  lemma ResolveOne(types: Types, m: Parents, done: seq<string>, child: string, now: Types)
    requires m == ParentsOf(types) && PartlyResolved(types, m, done, now)
    requires child in m && child !in done && m[child] in done && m[child] in types && Rooted(m, child)
    ensures PartlyResolved(types, m, done + [child], now[child := Merged(now[child], now[m[child]])])
  {
    ChainStep(m, child);
    MergedMeans(types, child, Chain(m, m[child]), now[m[child]]);
  }

  lemma ResolveRoot(types: Types, m: Parents, done: seq<string>, root: string, now: Types)
    requires m == ParentsOf(types) && PartlyResolved(types, m, done, now)
    requires root !in m && root !in done && Rooted(m, root)
    ensures PartlyResolved(types, m, done + [root], now)
  {
    ChainStep(m, root);
    if root in types {
      RootMeans(types, root);
    }
  }

  lemma FullyResolved(types: Types, m: Parents, order: seq<string>, now: Types)
    requires m == ParentsOf(types) && PartlyResolved(types, m, order, now) && Names(m) == Elements(order)
    ensures ParentsKnown(types) && Resolved(types, m, now)
  {
    forall n | n in types ensures Rooted(m, n) && Means(types, Chain(m, n), now[n]) {
      if n !in order {
        assert n !in m;
        assert Up(m, n, 1) == None;
        ChainStep(m, n);
        RootMeans(types, n);
      }
    }
    forall n | n in types && types[n].base != "" ensures types[n].base in types {
      assert n in m && n in Elements(order);
    }
  }

  lemma Unrelated(types: Types)
    requires ParentsOf(types) == map[]
    ensures Acyclic(ParentsOf(types)) && ParentsKnown(types) && Resolved(types, ParentsOf(types), types)
  {
    var m := ParentsOf(types);
    assert forall n :: n in types && types[n].base != "" ==> n in m;
    forall n ensures Rooted(m, n) && !OnCycle(m, n) {
      assert Up(m, n, 1) == None;
      RootedNotOnCycle(m, n);
    }
    forall n | n in types ensures Means(types, Chain(m, n), types[n]) {
      ChainStep(m, n);
      RootMeans(types, n);
    }
  }

  // ---------------------------------------------------------------- labels

  /** The labels from `current` up, until the chain ends or repeats. */
  function LabelsFrom(types: Types, current: string, visited: set<string>): seq<string>
    decreases types.Keys - visited
  {
    if current == "" || current in visited then []
    else if current !in types then [current]
    else LabelsFrom(types, types[current].base, visited + {current}) + [current]
  }

  function Labels(types: Types, kind: string): seq<string> {
    if kind !in types || types[kind].base == "" then [kind] else LabelsFrom(types, kind, {})
  }

  /** The most specific label of an entity is its kind. */
  lemma KindIsLastLabel(types: Types, kind: string)
    requires kind != ""
    ensures Labels(types, kind) != []
    ensures Labels(types, kind)[|Labels(types, kind)| - 1] == kind
  {
  }

  function Reverse(s: seq<string>): seq<string> {
    if s == [] then [] else Reverse(s[1..]) + [s[0]]
  }

  lemma {:induction false} LabelsClimb(types: Types, current: string, visited: set<string>, k: nat)
    requires current != "" && "" !in types
    requires Up(ParentsOf(types), current, k) == None
    requires forall v, j: nat :: v in visited ==> Up(ParentsOf(types), current, j) != Some(v)
    ensures LabelsFrom(types, current, visited) == Reverse(Climb(ParentsOf(types), current, k))
    decreases k
  {
    var m := ParentsOf(types);
    assert Up(m, current, 0) == Some(current);
    assert current !in visited;
    if current in m {
      var parent := m[current];
      assert ([current] + Climb(m, parent, k - 1))[1..] == Climb(m, parent, k - 1);
      forall v, j: nat | v in visited + {current} ensures Up(m, parent, j) != Some(v) {
        assert Up(m, current, j + 1) == Up(m, parent, j);
        if v == current && Up(m, parent, j) == Some(v) {
          assert OnCycle(m, current);
          assert Rooted(m, current);
          RootedNotOnCycle(m, current);
        }
      }
      LabelsClimb(types, parent, visited + {current}, k - 1);
    } else {
      assert Climb(m, current, k) == [current];
      assert Reverse([current]) == [current];
      if current in types {
        assert LabelsFrom(types, types[current].base, visited + {current}) == [];
      }
    }
  }

  /** On an ontology without cycles the labels are the whole ancestor chain, base class first. */
  lemma LabelsAreChain(types: Types, kind: string)
    requires kind != "" && "" !in types && Rooted(ParentsOf(types), kind)
    ensures Labels(types, kind) == Reverse(Chain(ParentsOf(types), kind))
  {
    var m := ParentsOf(types);
    var k: nat :| Up(m, kind, k) == None && Chain(m, kind) == Climb(m, kind, k);
    LabelsClimb(types, kind, {}, k);
    if kind !in m {
      ChainStep(m, kind);
      assert Reverse([kind]) == [kind];
    }
  }
}
