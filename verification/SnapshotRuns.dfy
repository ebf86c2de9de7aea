/** Whole runs of the snapshot manager: what a loaded snapshot holds, when it is its archive, and
    what a restore brings back. Loads and exports may fail half-way. */
module SnapshotRuns {
  import opened Common
  import opened GraphModel
  import opened GraphStore
  import opened Strings
  import opened SnapshotModel
  import opened Lru
  import opened SnapshotManager

  // ---------------------------------------------------------------- what a database holds

  ghost predicate HoldsFrom(s: State, name: string, ar: Archive) {
    Agree(s.graph, name, ArchiveGraph(ar), DEFAULT_DB)
  }

  /** Database `name` holds its archive. */
  ghost predicate HoldsArchive(s: State, name: string) {
    name in s.archives && HoldsFrom(s, name, s.archives[name])
  }

  ghost predicate CoherentAt(s: State, name: string) {
    s.graph.HasData(name) ==> HoldsArchive(s, name)
  }

  /** Every snapshot database that has data holds its archive. */
  ghost predicate Coherent(s: State) {
    forall name :: name != DEFAULT_DB ==> CoherentAt(s, name)
  }

  /** Database `name` was loaded from something: an archive, or a portion of one. */
  ghost predicate SourcedAt(s: State, name: string) {
    exists ar :: ArchiveOk(ar) && HoldsFrom(s, name, ar)
  }

  ghost predicate Sourced(s: State) {
    ValidState(s) && forall name :: name != DEFAULT_DB && s.graph.HasData(name) ==> SourcedAt(s, name)
  }

  // ---------------------------------------------------------------- steps

  datatype Op =
    | OpCreate(name: string)
    | OpFailedCreate(name: string)
    | OpLoad(name: string)
    | OpFailedLoad(name: string)
    | OpRestore(name: string)
    | OpDelete(name: string)
    | OpDefault            // anything that changes only the default database, or nothing

  /** An export. It also deletes the databases of expired snapshots. */
  ghost predicate Created(s: State, name: string, deleted: set<string>, t: State) {
    && DEFAULT_DB !in deleted
    && name in t.archives && t.archives == s.archives[name := t.archives[name]]
    && Exports(s.graph, t.archives[name]) && ArchiveOk(t.archives[name])
    && t.graph == ClearedAll(s.graph, deleted) && t.access == s.access && t.now == s.now
  }

  function WithDefault(s: State, name: string): State {
    s.(graph := Copied(Cleared(s.graph, DEFAULT_DB), name, DEFAULT_DB))
  }

  ghost predicate Restored(s: State, name: string, maxActive: nat, mid: State, t: State) {
    Ensured(s, name, maxActive, mid) && t == WithDefault(mid, name)
  }

  ghost predicate Step(maxActive: nat, s: State, op: Op, t: State) {
    match op
    case OpCreate(name) => name != DEFAULT_DB && exists deleted :: Created(s, name, deleted, t)
    case OpFailedCreate(name) => name != DEFAULT_DB && CreateFailed(s, name, t)
    case OpLoad(name) => name != DEFAULT_DB && Ensured(s, name, maxActive, t)
    case OpFailedLoad(name) => name != DEFAULT_DB && LoadFailed(s, name, t)
    case OpRestore(name) => name != DEFAULT_DB && exists mid :: Restored(s, name, maxActive, mid, t)
    case OpDelete(name) => name != DEFAULT_DB && t == s.(graph := Cleared(s.graph, name))
    case OpDefault =>
      && SameOutside(s.graph, t.graph, DEFAULT_DB) && t.graph.Wf() && PlainGraph(t.graph)
      && t.archives == s.archives && t.access == s.access && t.now == s.now
  }

  // ---------------------------------------------------------------- one database under one step

  /** Database d is the same in both states. */
  ghost predicate SameDb(s: State, t: State, d: string) {
    Agree(t.graph, d, s.graph, d) && (t.graph.HasData(d) <==> s.graph.HasData(d))
  }

  lemma SameDbHolds(s: State, t: State, d: string, ar: Archive)
    requires SameDb(s, t, d)
    ensures HoldsFrom(s, d, ar) <==> HoldsFrom(t, d, ar)
  {
    AgreeSymmetric(t.graph, d, s.graph, d);
    if HoldsFrom(s, d, ar) { AgreeTransitive(t.graph, d, s.graph, d, ArchiveGraph(ar), DEFAULT_DB); }
    if HoldsFrom(t, d, ar) { AgreeTransitive(s.graph, d, t.graph, d, ArchiveGraph(ar), DEFAULT_DB); }
  }

  lemma SameDbTransitive(s: State, t: State, u: State, d: string)
    requires SameDb(s, t, d) && SameDb(t, u, d)
    ensures SameDb(s, u, d)
  {
    AgreeTransitive(u.graph, d, t.graph, d, s.graph, d);
  }

  lemma SameOutsideDb(s: State, t: State, db: string, d: string)
    requires SameOutside(s.graph, t.graph, db) && d != db
    ensures SameDb(s, t, d)
  {
    OutsideAgrees(s.graph, t.graph, db, d);
    AgreeSymmetric(s.graph, d, t.graph, d);
  }

  lemma ClearingAgrees(g: Graph, cleared: set<string>, db: string)
    ensures db !in cleared ==> Agree(ClearedAll(g, cleared), db, g, db)
    ensures ClearedAll(g, cleared).HasData(db) <==> g.HasData(db) && db !in cleared
  {
    var h := ClearedAll(g, cleared);
    if db !in cleared {
      forall u ensures NodeAt(h, db, u) == NodeAt(g, db, u) {
        assert h.Node(NodeKey(db, u)) == g.Node(NodeKey(db, u));
      }
      if g.HasData(db) {
        var k :| k in g.nodes && k.db == db;
        assert k in h.nodes;
      }
    }
  }

  /** Loading an archive into the empty database `name`. */
  lemma FilledDb(s: State, name: string, ar: Archive, d: string)
    requires ValidState(s) && ArchiveOk(ar) && !s.graph.HasData(name)
    ensures d != name ==> SameDb(s, Filled(s, name, ar), d)
    ensures HoldsFrom(Filled(s, name, ar), name, ar)
    ensures Filled(s, name, ar).graph.HasData(name) <==> ar.nodes != []
  {
    LoadedWf(s.graph, Create, name, ar.nodes, ar.rels);
    LoadedAgrees(s.graph, name, ar);
    LoadedHasData(s.graph, name, ar);
    if d != name {
      SameOutsideDb(s, Filled(s, name, ar), name, d);
    }
  }

  lemma EvictedDb(s: State, cleared: set<string>, d: string)
    ensures d !in cleared ==> SameDb(s, Evicted(s, cleared), d)
    ensures d in cleared ==> !Evicted(s, cleared).graph.HasData(d)
  {
    ClearingAgrees(s.graph, cleared, d);
  }

  /** What a step can do to a snapshot database that has data afterwards: nothing, if it had data
      before; otherwise it has been filled, with its archive unless the load failed. */
  ghost predicate DbStep(s: State, op: Op, t: State, d: string) {
    t.graph.HasData(d) ==>
      if s.graph.HasData(d) then SameDb(s, t, d)
      else
        || ((op == OpLoad(d) || op == OpRestore(d)) && d in s.archives && HoldsFrom(t, d, s.archives[d]))
        || (op == OpFailedLoad(d) && exists tags, types :: FailedBy(s, d, tags, types, t))
  }

  lemma EnsuredStep(s: State, name: string, maxActive: nat, t: State, d: string)
    requires ValidState(s) && Ensured(s, name, maxActive, t)
    ensures DbStep(s, OpLoad(name), t, d)
  {
    if s.graph.HasData(name) {
      AgreeRefl(s.graph, d);
    } else {
      var cleared :| EnsuredBy(s, name, maxActive, cleared, t);
      var ar := s.archives[name];
      FilledDb(s, name, ar, d);
      EvictedDb(Filled(s, name, ar), cleared, d);
      if t.graph.HasData(d) {
        if d == name {
          SameDbHolds(Filled(s, name, ar), t, d, ar);
        } else {
          SameDbTransitive(s, Filled(s, name, ar), t, d);
        }
      }
    }
  }

  lemma AgreeRefl(g: Graph, d: string)
    ensures Agree(g, d, g, d)
  {
  }

  lemma FailedStep(s: State, name: string, t: State, d: string)
    requires ValidState(s) && LoadFailed(s, name, t)
    ensures DbStep(s, OpFailedLoad(name), t, d)
  {
    AgreeRefl(s.graph, d);
    if tags, types :| FailedBy(s, name, tags, types, t) {
      PortionOk(s.archives[name], tags, types);
      FilledDb(s, name, Portion(s.archives[name], tags, types), d);
    }
  }

  lemma DefaultStep(s: State, t: State, d: string)
    requires SameOutside(s.graph, t.graph, DEFAULT_DB) && d != DEFAULT_DB
    ensures SameDb(s, t, d)
  {
    SameOutsideDb(s, t, DEFAULT_DB, d);
  }

  lemma AnyDbStep(maxActive: nat, s: State, op: Op, t: State, d: string)
    requires ValidState(s) && Step(maxActive, s, op, t) && d != DEFAULT_DB
    ensures DbStep(s, op, t, d)
  {
    match op {
      case OpCreate(name) =>
        var deleted :| Created(s, name, deleted, t);
        ClearingAgrees(s.graph, deleted, d);
      case OpFailedCreate(name) =>
        AgreeRefl(s.graph, d);
      case OpLoad(name) =>
        EnsuredStep(s, name, maxActive, t, d);
      case OpFailedLoad(name) =>
        FailedStep(s, name, t, d);
      case OpRestore(name) =>
        var mid :| Restored(s, name, maxActive, mid, t);
        RestoredStep(s, name, maxActive, mid, t, d);
      case OpDelete(name) =>
        ClearedOutside(s.graph, name);
        if d != name { SameOutsideDb(s, t, name, d); }
      case OpDefault =>
        DefaultStep(s, t, d);
    }
  }

  lemma RestoredStep(s: State, name: string, maxActive: nat, mid: State, t: State, d: string)
    requires ValidState(s) && Restored(s, name, maxActive, mid, t) && name != DEFAULT_DB && d != DEFAULT_DB
    ensures DbStep(s, OpRestore(name), t, d)
  {
    EnsuredValid(s, name, maxActive, mid);
    EnsuredStep(s, name, maxActive, mid, d);
    ReplaceDefault(mid.graph, name);
    DefaultStep(mid, t, d);
    if t.graph.HasData(d) {
      if s.graph.HasData(d) {
        SameDbTransitive(s, mid, t, d);
      } else {
        SameDbHolds(mid, t, d, s.archives[d]);
      }
    }
  }

  lemma ReplaceDefault(g: Graph, name: string)
    requires g.Wf() && PlainGraph(g) && name != DEFAULT_DB
    ensures var h := Copied(Cleared(g, DEFAULT_DB), name, DEFAULT_DB);
      h.Wf() && PlainGraph(h) && SameOutside(g, h, DEFAULT_DB)
  {
    var c := Cleared(g, DEFAULT_DB);
    var h := Copied(c, name, DEFAULT_DB);
    ClearedWf(g, DEFAULT_DB);
    ClearedOutside(g, DEFAULT_DB);
    CopiedWf(c, name, DEFAULT_DB);
    CopiedOutside(c, name, DEFAULT_DB);
    forall k | k in h.nodes && h.nodes[k].labels != [] ensures PlainLabels(h.nodes[k].labels) {
      if k in CopiedNodes(c, name, DEFAULT_DB) {
        CopiedNodeAt(c, name, DEFAULT_DB, k);
        assert NodeKey(name, k.uri) in g.nodes;
      } else {
        assert k in g.nodes;
      }
    }
    forall k: NodeKey | k.db != DEFAULT_DB ensures g.Node(k) == h.Node(k) {
      assert g.Node(k) == c.Node(k) && c.Node(k) == h.Node(k);
    }
    forall e: Edge | e.db != DEFAULT_DB ensures g.Multiplicity(e) == h.Multiplicity(e) {
      assert g.Multiplicity(e) == c.Multiplicity(e) && c.Multiplicity(e) == h.Multiplicity(e);
    }
  }

  // ---------------------------------------------------------------- what every step keeps

  lemma StepValid(maxActive: nat, s: State, op: Op, t: State)
    requires ValidState(s) && Step(maxActive, s, op, t)
    ensures ValidState(t)
  {
    match op {
      case OpCreate(name) =>
        var deleted :| Created(s, name, deleted, t);
        CreatedValid(s, name, deleted, t);
      case OpFailedCreate(name) =>
        ArchivesValid(s, name, t);
      case OpLoad(name) =>
        EnsuredValid(s, name, maxActive, t);
      case OpFailedLoad(name) =>
        FailedValid(s, name, t);
      case OpRestore(name) =>
        var mid :| Restored(s, name, maxActive, mid, t);
        EnsuredValid(s, name, maxActive, mid);
        ReplaceDefault(mid.graph, name);
      case OpDelete(name) =>
        ClearedWf(s.graph, name);
      case OpDefault =>
    }
  }

  lemma CreatedValid(s: State, name: string, deleted: set<string>, t: State)
    requires ValidState(s) && Created(s, name, deleted, t)
    ensures ValidState(t)
  {
    ClearedAllWf(s.graph, deleted);
  }

  lemma ArchivesValid(s: State, name: string, t: State)
    requires ValidState(s) && CreateFailed(s, name, t)
    ensures ValidState(t)
  {
    if ar, n :| CutBy(s, name, ar, n, t) {
      CutExactly(ar, n);
    }
  }

  /** The archives other than the one an export concerns stay as they are. */
  lemma OtherArchives(maxActive: nat, s: State, op: Op, t: State, d: string)
    requires Step(maxActive, s, op, t) && op != OpCreate(d) && (op == OpFailedCreate(d) ==> t == s)
    ensures d in t.archives <==> d in s.archives
    ensures d in s.archives ==> t.archives[d] == s.archives[d]
  {
    if op.OpFailedCreate? {
      if ar, n :| CutBy(s, op.name, ar, n, t) {}
    }
    if op.OpFailedLoad? {
      if tags, types :| FailedBy(s, op.name, tags, types, t) {}
    }
  }

  /** Every snapshot database with data still holds what it was loaded from. */
  lemma StepSourced(maxActive: nat, s: State, op: Op, t: State)
    requires Sourced(s) && Step(maxActive, s, op, t)
    ensures Sourced(t)
  {
    StepValid(maxActive, s, op, t);
    forall d | d != DEFAULT_DB && t.graph.HasData(d) ensures SourcedAt(t, d) {
      DbStaysSourced(maxActive, s, op, t, d);
    }
  }

  lemma DbStaysSourced(maxActive: nat, s: State, op: Op, t: State, d: string)
    requires Sourced(s) && Step(maxActive, s, op, t) && d != DEFAULT_DB && t.graph.HasData(d)
    ensures SourcedAt(t, d)
  {
    AnyDbStep(maxActive, s, op, t, d);
    if s.graph.HasData(d) {
      var ar :| ArchiveOk(ar) && HoldsFrom(s, d, ar);
      SameDbHolds(s, t, d, ar);
    } else if op == OpFailedLoad(d) {
      var tags, types :| FailedBy(s, d, tags, types, t);
      PortionOk(s.archives[d], tags, types);
      FilledDb(s, d, Portion(s.archives[d], tags, types), d);
    }
  }

  /** The steps that can leave the database of their name different from its archive. */
  predicate Risky(op: Op) {
    op.OpCreate? || op.OpFailedCreate? || op.OpFailedLoad?
  }

  /** Every step keeps a database equal to its archive, but for a failing load of it and an export
      under its name. */
  lemma StepKeeps(maxActive: nat, s: State, op: Op, t: State, d: string)
    requires ValidState(s) && CoherentAt(s, d) && Step(maxActive, s, op, t) && d != DEFAULT_DB
    requires !(Risky(op) && op.name == d)
    ensures CoherentAt(t, d)
  {
    AnyDbStep(maxActive, s, op, t, d);
    OtherArchives(maxActive, s, op, t, d);
    if t.graph.HasData(d) && s.graph.HasData(d) {
      SameDbHolds(s, t, d, s.archives[d]);
    }
  }

  lemma FailedLoadHolds(s: State, name: string, tags: set<string>, types: set<string>, t: State)
    requires ValidState(s) && FailedBy(s, name, tags, types, t)
    ensures HoldsFrom(t, name, Portion(s.archives[name], tags, types))
    ensures t.graph.HasData(name) <==> exists n :: n in s.archives[name].nodes && n.MostSpecificLabel() in tags
  {
    PortionOk(s.archives[name], tags, types);
    FilledDb(s, name, Portion(s.archives[name], tags, types), name);
    PortionEmpty(s.archives[name], tags, types);
  }

  /** After a failing load the database equals its archive if and only if nothing of it was stored,
      or nothing that matters was missing. */
  lemma FailedLoadExactly(s: State, name: string, tags: set<string>, types: set<string>, t: State)
    requires ValidState(s) && FailedBy(s, name, tags, types, t)
    ensures CoherentAt(t, name) <==>
      (forall n :: n in s.archives[name].nodes ==> n.MostSpecificLabel() !in tags) || WholePortion(s.archives[name], tags, types)
  {
    var ar := s.archives[name];
    var portion := Portion(ar, tags, types);
    FailedLoadHolds(s, name, tags, types, t);
    PortionExactly(ar, tags, types);
    if HoldsFrom(t, name, ar) {
      AgreeSymmetric(t.graph, name, ArchiveGraph(portion), DEFAULT_DB);
      AgreeTransitive(ArchiveGraph(portion), DEFAULT_DB, t.graph, name, ArchiveGraph(ar), DEFAULT_DB);
    }
    if WholePortion(ar, tags, types) {
      AgreeTransitive(t.graph, name, ArchiveGraph(portion), DEFAULT_DB, ArchiveGraph(ar), DEFAULT_DB);
    }
  }

  lemma PortionEmpty(ar: Archive, tags: set<string>, types: set<string>)
    ensures Portion(ar, tags, types).nodes == [] <==> forall n :: n in ar.nodes ==> n.MostSpecificLabel() !in tags
  {
    var kept := LabelledIn(ar.nodes, tags);
    LabelledInMembers(ar.nodes, tags);
    if kept != [] {
      assert kept[0] in kept;
    }
  }

  /** After a failing export over a database that held its archive, it does so if and only if the file
      has, by then, the contents it had. */
  lemma FailedCreateExactly(s: State, name: string, t: State)
    requires ValidState(s) && CreateFailed(s, name, t) && s.graph.HasData(name) && HoldsArchive(s, name)
    ensures CoherentAt(t, name) <==>
      name in t.archives && Agree(ArchiveGraph(t.archives[name]), DEFAULT_DB, ArchiveGraph(s.archives[name]), DEFAULT_DB)
  {
    FailedCreateGraph(s, name, t);
    if name in t.archives {
      HoldsBoth(s.graph, name, ArchiveGraph(s.archives[name]), ArchiveGraph(t.archives[name]));
    }
  }

  lemma FailedCreateGraph(s: State, name: string, t: State)
    requires CreateFailed(s, name, t)
    ensures t.graph == s.graph
  {
    if ar, n :| CutBy(s, name, ar, n, t) {}
  }

  lemma HoldsBoth(g: Graph, db: string, d: Graph, e: Graph)
    requires Agree(g, db, d, DEFAULT_DB)
    ensures Agree(g, db, e, DEFAULT_DB) <==> Agree(e, DEFAULT_DB, d, DEFAULT_DB)
  {
    AgreeRefl(e, DEFAULT_DB);
    SameContents(g, db, d, DEFAULT_DB, e, e);
    if Agree(d, DEFAULT_DB, e, DEFAULT_DB) { AgreeSymmetric(d, DEFAULT_DB, e, DEFAULT_DB); }
    if Agree(e, DEFAULT_DB, d, DEFAULT_DB) { AgreeSymmetric(e, DEFAULT_DB, d, DEFAULT_DB); }
  }

  /** After an export over a database with data, that database equals its new archive if and only if
      it holds what the default database held. */
  lemma CreatedExactly(s: State, name: string, deleted: set<string>, t: State)
    requires ValidState(s) && Created(s, name, deleted, t) && name != DEFAULT_DB
    requires Exportable(s.graph, DEFAULT_DB) && CleanExport(s.graph, DEFAULT_DB)
    ensures CoherentAt(t, name) <==> !t.graph.HasData(name) || Agree(s.graph, name, s.graph, DEFAULT_DB)
  {
    ClearingAgrees(s.graph, deleted, name);
    var ar := t.archives[name];
    ExportRoundTrip(s.graph, ar);
    if t.graph.HasData(name) {
      AgreeSymmetric(t.graph, name, s.graph, name);
      SameContents(t.graph, name, s.graph, name, ArchiveGraph(ar), s.graph);
    }
  }

  /** Replacing both sides by databases with the same contents. */
  lemma SameContents(g: Graph, a: string, h: Graph, b: string, x: Graph, y: Graph)
    requires Agree(g, a, h, b) && Agree(x, DEFAULT_DB, y, DEFAULT_DB)
    ensures Agree(g, a, x, DEFAULT_DB) <==> Agree(h, b, y, DEFAULT_DB)
  {
    AgreeSymmetric(g, a, h, b);
    AgreeSymmetric(x, DEFAULT_DB, y, DEFAULT_DB);
    if Agree(g, a, x, DEFAULT_DB) {
      AgreeTransitive(h, b, g, a, x, DEFAULT_DB);
      AgreeTransitive(h, b, x, DEFAULT_DB, y, DEFAULT_DB);
    }
    if Agree(h, b, y, DEFAULT_DB) {
      AgreeTransitive(g, a, h, b, y, DEFAULT_DB);
      AgreeTransitive(g, a, y, DEFAULT_DB, x, DEFAULT_DB);
    }
  }

  // ---------------------------------------------------------------- runs

  ghost predicate StepAt(maxActive: nat, states: seq<State>, ops: seq<Op>, i: nat)
    requires i < |ops| && |states| == |ops| + 1
  {
    Step(maxActive, states[i], ops[i], states[i + 1])
  }

  ghost predicate IsRun(maxActive: nat, states: seq<State>, ops: seq<Op>) {
    && |states| == |ops| + 1 && Sourced(states[0])
    && (forall i :: 0 <= i < |ops| ==> StepAt(maxActive, states, ops, i))
  }

  lemma {:induction false} RunSourced(maxActive: nat, states: seq<State>, ops: seq<Op>, i: nat)
    requires IsRun(maxActive, states, ops) && i < |states|
    ensures Sourced(states[i])
    decreases i
  {
    if i > 0 {
      RunSourced(maxActive, states, ops, i - 1);
      assert StepAt(maxActive, states, ops, i - 1);
      StepSourced(maxActive, states[i - 1], ops[i - 1], states[i]);
    }
  }

  /** The i-th step of a run. */
  lemma RunStep(maxActive: nat, states: seq<State>, ops: seq<Op>, i: nat)
    requires IsRun(maxActive, states, ops) && i < |ops|
    ensures Sourced(states[i]) && Step(maxActive, states[i], ops[i], states[i + 1])
  {
    RunSourced(maxActive, states, ops, i);
    assert StepAt(maxActive, states, ops, i);
  }

  lemma StepCoherent(maxActive: nat, s: State, op: Op, t: State)
    requires ValidState(s) && Coherent(s) && Step(maxActive, s, op, t)
    requires Risky(op) ==> CoherentAt(t, op.name)
    ensures Coherent(t)
  {
    forall d | d != DEFAULT_DB ensures CoherentAt(t, d) {
      if !(Risky(op) && op.name == d) {
        StepKeeps(maxActive, s, op, t, d);
      }
    }
  }

  /** In every run every snapshot database with data equals its archive at all times if and only if
      it does at the beginning, and right after each failing load and each export the database of
      that name does. */
  lemma RunCoherent(maxActive: nat, states: seq<State>, ops: seq<Op>)
    requires IsRun(maxActive, states, ops)
    ensures (forall i :: 0 <= i < |states| ==> Coherent(states[i])) <==>
      Coherent(states[0]) && forall i :: 0 <= i < |ops| && Risky(ops[i]) ==> CoherentAt(states[i + 1], ops[i].name)
  {
    if forall i :: 0 <= i < |states| ==> Coherent(states[i]) {
      forall i | 0 <= i < |ops| && Risky(ops[i]) ensures CoherentAt(states[i + 1], ops[i].name) {
        RunStep(maxActive, states, ops, i);
        assert Coherent(states[i + 1]);
      }
    }
    if Coherent(states[0]) && forall i :: 0 <= i < |ops| && Risky(ops[i]) ==> CoherentAt(states[i + 1], ops[i].name) {
      forall i | 0 <= i < |states| ensures Coherent(states[i]) {
        CoherentUpTo(maxActive, states, ops, i);
      }
    }
  }

  lemma {:induction false} CoherentUpTo(maxActive: nat, states: seq<State>, ops: seq<Op>, i: nat)
    requires IsRun(maxActive, states, ops) && i < |states| && Coherent(states[0])
    requires forall j :: 0 <= j < |ops| && Risky(ops[j]) ==> CoherentAt(states[j + 1], ops[j].name)
    ensures Coherent(states[i])
    decreases i
  {
    if i > 0 {
      CoherentUpTo(maxActive, states, ops, i - 1);
      RunStep(maxActive, states, ops, i - 1);
      StepCoherent(maxActive, states[i - 1], ops[i - 1], states[i]);
    }
  }

  lemma StepStays(maxActive: nat, s: State, op: Op, t: State, name: string)
    requires ValidState(s) && Step(maxActive, s, op, t) && s.graph.HasData(name) && t.graph.HasData(name) && name != DEFAULT_DB
    ensures SameDb(s, t, name)
  {
    AnyDbStep(maxActive, s, op, t, name);
  }

  /** Database `name` has data at each of the moments i to j. */
  predicate Stays(states: seq<State>, i: nat, j: nat, name: string) {
    i <= j < |states| && forall m :: i <= m <= j ==> states[m].graph.HasData(name)
  }

  lemma RunStays(maxActive: nat, states: seq<State>, ops: seq<Op>, i: nat, name: string)
    requires IsRun(maxActive, states, ops) && i < |ops| && name != DEFAULT_DB
    requires states[i].graph.HasData(name) && states[i + 1].graph.HasData(name)
    ensures SameDb(states[i], states[i + 1], name)
  {
    RunStep(maxActive, states, ops, i);
    StepStays(maxActive, states[i], ops[i], states[i + 1], name);
  }

  lemma StaysInit(states: seq<State>, i: nat, j: nat, name: string)
    requires Stays(states, i, j, name) && i < j
    ensures Stays(states, i, j - 1, name) && states[j - 1].graph.HasData(name) && states[j].graph.HasData(name)
  {
  }

  lemma StaysMore(maxActive: nat, states: seq<State>, ops: seq<Op>, i: nat, j: nat, name: string)
    requires IsRun(maxActive, states, ops) && i < j < |states| && name != DEFAULT_DB
    requires states[j - 1].graph.HasData(name) && states[j].graph.HasData(name) && SameDb(states[i], states[j - 1], name)
    ensures SameDb(states[i], states[j], name)
  {
    RunStays(maxActive, states, ops, j - 1, name);
    SameDbTransitive(states[i], states[j - 1], states[j], name);
  }

  /** A snapshot database keeps its contents for as long as it has any. */
  lemma {:induction false} ContentsStay(maxActive: nat, states: seq<State>, ops: seq<Op>, i: nat, j: nat, name: string)
    requires IsRun(maxActive, states, ops) && Stays(states, i, j, name) && name != DEFAULT_DB
    ensures SameDb(states[i], states[j], name)
    decreases j - i
  {
    if i == j {
      AgreeRefl(states[i].graph, name);
    } else {
      StaysInit(states, i, j, name);
      ContentsStay(maxActive, states, ops, i, j - 1, name);
      StaysMore(maxActive, states, ops, i, j, name);
    }
  }

  /** No export of the name has written to its file at the steps i to j - 1. */
  ghost predicate Unwritten(states: seq<State>, ops: seq<Op>, i: nat, j: nat, name: string)
    requires |states| == |ops| + 1 && j <= |ops|
  {
    forall m :: i <= m < j ==> ops[m] != OpCreate(name) && (ops[m] == OpFailedCreate(name) ==> states[m + 1] == states[m])
  }

  lemma {:induction false} ArchiveStays(maxActive: nat, states: seq<State>, ops: seq<Op>, i: nat, j: nat, name: string)
    requires IsRun(maxActive, states, ops) && i <= j < |states| && Unwritten(states, ops, i, j, name)
    ensures name in states[j].archives <==> name in states[i].archives
    ensures name in states[i].archives ==> states[j].archives[name] == states[i].archives[name]
    decreases j - i
  {
    if i < j {
      var k := j - 1;
      ArchiveStays(maxActive, states, ops, i, k, name);
      RunStep(maxActive, states, ops, k);
      OtherArchives(maxActive, states[k], ops[k], states[j], name);
    }
  }

  // ---------------------------------------------------------------- restoring

  lemma OwnLabels(ar: Archive, k: NodeKey)
    requires ArchiveOk(ar) && k.db == DEFAULT_DB && k in ArchiveGraph(ar).nodes
    ensures ArchiveGraph(ar).nodes[k].labels != []
  {
    LoadedKeys(EMPTY, DEFAULT_DB, ar, k.uri);
    var n :| n in ar.nodes && n.uri == k.uri;
    var i :| 0 <= i < |ar.nodes| && ar.nodes[i] == n;
    LoadedIndex(EMPTY, DEFAULT_DB, ar, i);
    var l := n.MostSpecificLabel();
    NodesLabelledMembers(ar.nodes, l);
    assert n in NodesLabelled(ar.nodes, l);
    assert NodesLabelled(ar.nodes, l)[0] in NodesLabelled(ar.nodes, l);
  }

  lemma {:induction false} OccursTyped(db: string, rels: seq<Relation>, e: Edge)
    requires (forall r :: r in rels ==> r.typ != "") && Occurrences(db, rels, e) > 0
    ensures e.typ != ""
    decreases |rels|
  {
    assert rels[0] in rels;
    if EdgeOf(db, rels[0]) != e {
      OccursTyped(db, rels[1..], e);
    }
  }

  /** What was loaded from an archive has labels and types throughout. */
  lemma SourcedLabelled(s: State, name: string)
    requires ValidState(s) && SourcedAt(s, name)
    ensures forall k :: k in s.graph.nodes && k.db == name ==> s.graph.nodes[k].labels != []
    ensures forall e :: e in s.graph.edges && e.db == name ==> e.typ != ""
  {
    var ar :| ArchiveOk(ar) && HoldsFrom(s, name, ar);
    var own := ArchiveGraph(ar);
    forall k | k in s.graph.nodes && k.db == name ensures s.graph.nodes[k].labels != [] {
      assert NodeAt(s.graph, name, k.uri) == NodeAt(own, DEFAULT_DB, k.uri);
      OwnLabels(ar, NodeKey(DEFAULT_DB, k.uri));
    }
    forall e | e in s.graph.edges && e.db == name ensures e.typ != "" {
      assert LinkAt(s.graph, name, e.typ, e.from, e.to) == LinkAt(own, DEFAULT_DB, e.typ, e.from, e.to);
      LoadedLink(EMPTY, DEFAULT_DB, ar, Edge(DEFAULT_DB, e.typ, e.from, e.to));
      OccursTyped(DEFAULT_DB, ar.rels, Edge(DEFAULT_DB, e.typ, e.from, e.to));
    }
  }

  /** Restoring copies whatever the snapshot's database holds. */
  lemma RestoreCopies(mid: State, name: string)
    requires ValidState(mid) && name != DEFAULT_DB
    requires forall k :: k in mid.graph.nodes && k.db == name ==> mid.graph.nodes[k].labels != []
    requires forall e :: e in mid.graph.edges && e.db == name ==> e.typ != ""
    ensures Agree(Copied(Cleared(mid.graph, DEFAULT_DB), name, DEFAULT_DB), DEFAULT_DB, mid.graph, name)
  {
    var c := Cleared(mid.graph, DEFAULT_DB);
    ClearedWf(mid.graph, DEFAULT_DB);
    ClearedOutside(mid.graph, DEFAULT_DB);
    CopyAgrees(c, name, DEFAULT_DB);
    OutsideAgrees(mid.graph, c, DEFAULT_DB, name);
    AgreeSymmetric(mid.graph, name, c, name);
    AgreeTransitive(Copied(c, name, DEFAULT_DB), DEFAULT_DB, c, name, mid.graph, name);
  }

  lemma {:induction false} NothingNewer(access: Access, name: string, now: nat)
    requires name in access && access[name] == now && now > 0
    requires forall d :: d in access && d != name ==> access[d] < now
    ensures forall x :: !Older(access, name, x)
  {
    forall x ensures !Older(access, name, x) {
      LessTotal(name, x);
    }
  }

  /** The database just loaded is not the one to make room. */
  lemma JustLoadedIsSafe(dbs: set<string>, access: Access, maxActive: nat, name: string, now: nat)
    requires maxActive >= 1 && name in access && access[name] == now && now > 0
    requires forall d :: d in access && d != name ==> access[d] < now
    ensures name !in Victims(dbs, access, maxActive)
  {
    NothingNewer(access, name, now);
    RecentIsSafe(dbs, access, maxActive, name, {});
  }

  /** A load leaves a database that was empty with its archive. */
  lemma EnsuredFills(s: State, name: string, maxActive: nat, t: State)
    requires ValidState(s) && Ensured(s, name, maxActive, t) && !s.graph.HasData(name) && name != DEFAULT_DB && maxActive >= 1
    ensures name in s.archives && HoldsFrom(t, name, s.archives[name])
    ensures t.graph.HasData(name) <==> s.archives[name].nodes != []
  {
    var cleared :| EnsuredBy(s, name, maxActive, cleared, t);
    var ar := s.archives[name];
    var f := Filled(s, name, ar);
    FilledDb(s, name, ar, name);
    JustLoadedIsSafe(SnapshotDbs(f.graph), f.access, maxActive, name, s.now);
    EvictedDb(f, cleared, name);
    SameDbHolds(f, t, name, ar);
  }

  /** After EnsureLoaded a snapshot that was coherent holds its archive. */
  lemma EnsuredHolds(s: State, name: string, maxActive: nat, t: State)
    requires ValidState(s) && CoherentAt(s, name) && Ensured(s, name, maxActive, t) && name != DEFAULT_DB && maxActive >= 1
    ensures HoldsArchive(t, name)
  {
    if !s.graph.HasData(name) {
      EnsuredFills(s, name, maxActive, t);
      var cleared :| EnsuredBy(s, name, maxActive, cleared, t);
    }
  }

  /** What a restore brings: whatever the snapshot's database holds, or its archive if that is empty. */
  lemma RestoreGives(maxActive: nat, s: State, name: string, mid: State, t: State)
    requires Sourced(s) && maxActive >= 1 && name != DEFAULT_DB && Restored(s, name, maxActive, mid, t)
    ensures s.graph.HasData(name) ==> Agree(t.graph, DEFAULT_DB, s.graph, name)
    ensures !s.graph.HasData(name) ==>
      name in s.archives && Agree(t.graph, DEFAULT_DB, ArchiveGraph(s.archives[name]), DEFAULT_DB)
  {
    EnsuredValid(s, name, maxActive, mid);
    if s.graph.HasData(name) {
      SourcedLabelled(s, name);
      RestoreCopies(mid, name);
    } else {
      EnsuredFills(s, name, maxActive, mid);
      assert SourcedAt(mid, name);
      SourcedLabelled(mid, name);
      RestoreCopies(mid, name);
      AgreeTransitive(t.graph, DEFAULT_DB, mid.graph, name, ArchiveGraph(s.archives[name]), DEFAULT_DB);
    }
  }

  /** When the snapshot is coherent, restoring it makes the default database equal its archive. */
  lemma RestoreGivesArchive(maxActive: nat, s: State, name: string, mid: State, t: State)
    requires Sourced(s) && CoherentAt(s, name) && maxActive >= 1 && name != DEFAULT_DB
    requires Restored(s, name, maxActive, mid, t)
    ensures name in s.archives && Agree(t.graph, DEFAULT_DB, ArchiveGraph(s.archives[name]), DEFAULT_DB)
  {
    RestoreGives(maxActive, s, name, mid, t);
    if s.graph.HasData(name) {
      AgreeTransitive(t.graph, DEFAULT_DB, s.graph, name, ArchiveGraph(s.archives[name]), DEFAULT_DB);
    }
  }

  lemma CreateExports(maxActive: nat, s: State, name: string, t: State)
    requires ValidState(s) && Step(maxActive, s, OpCreate(name), t)
    requires Exportable(s.graph, DEFAULT_DB) && CleanExport(s.graph, DEFAULT_DB)
    ensures name in t.archives && Agree(ArchiveGraph(t.archives[name]), DEFAULT_DB, s.graph, DEFAULT_DB)
  {
    var deleted :| Created(s, name, deleted, t);
    ExportRoundTrip(s.graph, t.archives[name]);
  }

  lemma RestoreStep(maxActive: nat, s: State, name: string, t: State)
    requires Sourced(s) && maxActive >= 1 && Step(maxActive, s, OpRestore(name), t)
    ensures s.graph.HasData(name) ==> Agree(t.graph, DEFAULT_DB, s.graph, name)
    ensures !s.graph.HasData(name) ==>
      name in s.archives && Agree(t.graph, DEFAULT_DB, ArchiveGraph(s.archives[name]), DEFAULT_DB)
  {
    var mid :| Restored(s, name, maxActive, mid, t);
    RestoreGives(maxActive, s, name, mid, t);
  }

  /** The archive of the name has the contents of the default database d. */
  ghost predicate HoldsExport(s: State, name: string, d: Graph) {
    name in s.archives && Agree(ArchiveGraph(s.archives[name]), DEFAULT_DB, d, DEFAULT_DB)
  }

  /** The export of moment i is in the archive for as long as no export of that name writes to it. */
  lemma ExportAt(maxActive: nat, states: seq<State>, ops: seq<Op>, i: nat, j: nat, name: string)
    requires IsRun(maxActive, states, ops) && i < j <= |ops| && ops[i] == OpCreate(name) && Unwritten(states, ops, i + 1, j, name)
    requires Exportable(states[i].graph, DEFAULT_DB) && CleanExport(states[i].graph, DEFAULT_DB)
    ensures HoldsExport(states[j], name, states[i].graph)
  {
    RunStep(maxActive, states, ops, i);
    CreateExports(maxActive, states[i], name, states[i + 1]);
    ArchiveStays(maxActive, states, ops, i + 1, j, name);
  }

  /** Whatever has happened since a moment i (synchronisation, exports, loads and restores, failing or
      not, deletions, evictions), a restore brings back the default database of that moment, its nodes,
      labels, properties and relationships, if and only if the name is loaded with these contents, or
      it is not loaded and its archive has them. */
  lemma RestoreBringsBack(maxActive: nat, states: seq<State>, ops: seq<Op>, i: nat, j: nat, name: string)
    requires IsRun(maxActive, states, ops) && maxActive >= 1 && i <= j < |ops| && ops[j] == OpRestore(name)
    ensures Agree(states[j + 1].graph, DEFAULT_DB, states[i].graph, DEFAULT_DB) <==>
      if states[j].graph.HasData(name) then Agree(states[j].graph, name, states[i].graph, DEFAULT_DB)
      else HoldsExport(states[j], name, states[i].graph)
  {
    RunStep(maxActive, states, ops, j);
    RestoreStep(maxActive, states[j], name, states[j + 1]);
    var d := states[i].graph;
    AgreeRefl(d, DEFAULT_DB);
    if states[j].graph.HasData(name) {
      SameContents(states[j + 1].graph, DEFAULT_DB, states[j].graph, name, d, d);
    } else {
      SameContents(states[j + 1].graph, DEFAULT_DB, ArchiveGraph(states[j].archives[name]), DEFAULT_DB, d, d);
    }
  }

  /** In particular it brings back an export that nothing has been written over, if the name is not
      loaded by then or is loaded with its contents. */
  lemma ExportComesBack(maxActive: nat, states: seq<State>, ops: seq<Op>, i: nat, j: nat, name: string)
    requires IsRun(maxActive, states, ops) && maxActive >= 1
    requires i < j < |ops| && ops[i] == OpCreate(name) && ops[j] == OpRestore(name) && Unwritten(states, ops, i + 1, j, name)
    requires Exportable(states[i].graph, DEFAULT_DB) && CleanExport(states[i].graph, DEFAULT_DB)
    ensures Agree(states[j + 1].graph, DEFAULT_DB, states[i].graph, DEFAULT_DB) <==>
      !states[j].graph.HasData(name) || Agree(states[j].graph, name, states[i].graph, DEFAULT_DB)
  {
    ExportAt(maxActive, states, ops, i, j, name);
    RestoreBringsBack(maxActive, states, ops, i, j, name);
  }

  /** A snapshot that equals its archive at the restore brings an export back if and only if the archive
      has it. */
  lemma CoherentRestore(maxActive: nat, states: seq<State>, ops: seq<Op>, i: nat, j: nat, name: string)
    requires IsRun(maxActive, states, ops) && maxActive >= 1 && i <= j < |ops| && ops[j] == OpRestore(name)
    requires CoherentAt(states[j], name)
    ensures Agree(states[j + 1].graph, DEFAULT_DB, states[i].graph, DEFAULT_DB) <==> HoldsExport(states[j], name, states[i].graph)
  {
    RestoreBringsBack(maxActive, states, ops, i, j, name);
    if states[j].graph.HasData(name) {
      var d := states[i].graph;
      AgreeRefl(d, DEFAULT_DB);
      SameContents(states[j].graph, name, ArchiveGraph(states[j].archives[name]), DEFAULT_DB, d, d);
    }
  }

  /** A name that is loaded from a moment i until the restore: the restore brings back the default
      database of that moment if and only if its database already held, at that moment, the same;
      whatever has been exported under the name in between. */
  lemma OverwriteExact(maxActive: nat, states: seq<State>, ops: seq<Op>, i: nat, j: nat, name: string)
    requires IsRun(maxActive, states, ops) && maxActive >= 1
    requires i <= j < |ops| && ops[j] == OpRestore(name) && Stays(states, i, j, name)
    ensures Agree(states[j + 1].graph, DEFAULT_DB, states[i].graph, DEFAULT_DB) <==>
      Agree(states[i].graph, name, states[i].graph, DEFAULT_DB)
  {
    RestoreBringsBack(maxActive, states, ops, i, j, name);
    RunStep(maxActive, states, ops, j);
    ContentsStay(maxActive, states, ops, i, j, name);
    assert states[j].graph.HasData(name);
    AgreeRefl(states[i].graph, DEFAULT_DB);
    SameContents(states[j].graph, name, states[i].graph, name, states[i].graph, states[i].graph);
  }

  /** An export that fails with its file unreadable loses a snapshot that is not loaded: until another
      export writes to it, it can be neither loaded nor restored. */
  lemma SnapshotLost(maxActive: nat, states: seq<State>, ops: seq<Op>, i: nat, j: nat, name: string)
    requires IsRun(maxActive, states, ops) && i < j < |ops| && ops[i] == OpFailedCreate(name)
    requires name !in states[i + 1].archives && !states[i + 1].graph.HasData(name) && Unwritten(states, ops, i + 1, j, name)
    ensures ops[j] != OpRestore(name) && ops[j] != OpLoad(name)
  {
    RunStep(maxActive, states, ops, i);
    StaysLost(maxActive, states, ops, i + 1, j, name);
    ArchiveStays(maxActive, states, ops, i + 1, j, name);
    RunStep(maxActive, states, ops, j);
    NeedsArchive(maxActive, states[j], ops[j], states[j + 1], name);
  }

  lemma NeedsArchive(maxActive: nat, s: State, op: Op, t: State, name: string)
    requires Step(maxActive, s, op, t) && !s.graph.HasData(name)
    ensures op == OpLoad(name) || op == OpRestore(name) ==> name in s.archives
  {
  }

  lemma {:induction false} StaysLost(maxActive: nat, states: seq<State>, ops: seq<Op>, i: nat, j: nat, name: string)
    requires IsRun(maxActive, states, ops) && i <= j < |states| && name != DEFAULT_DB && Unwritten(states, ops, i, j, name)
    requires name !in states[i].archives && !states[i].graph.HasData(name)
    ensures !states[j].graph.HasData(name)
    decreases j - i
  {
    if i < j {
      var k := j - 1;
      StaysLost(maxActive, states, ops, i, k, name);
      ArchiveStays(maxActive, states, ops, i, k, name);
      RunStep(maxActive, states, ops, k);
      AnyDbStep(maxActive, states[k], ops[k], states[j], name);
      if tags, types :| FailedBy(states[k], name, tags, types, states[j]) {}
    }
  }

  /** After a failing load, and for as long as nothing clears what it left, a restore reproduces just
      the portion that was stored, and succeeds. */
  lemma RestoreAfterFailedLoad(maxActive: nat, states: seq<State>, ops: seq<Op>, i: nat, j: nat, name: string,
                               tags: set<string>, types: set<string>)
    requires IsRun(maxActive, states, ops) && maxActive >= 1
    requires i < j < |ops| && ops[i] == OpFailedLoad(name) && FailedBy(states[i], name, tags, types, states[i + 1])
    requires ops[j] == OpRestore(name) && Stays(states, i + 1, j, name) && name != DEFAULT_DB
    ensures Agree(states[j + 1].graph, DEFAULT_DB, ArchiveGraph(Portion(states[i].archives[name], tags, types)), DEFAULT_DB)
  {
    var portion := Portion(states[i].archives[name], tags, types);
    RunFailedLoad(maxActive, states, ops, i, name, tags, types);
    HeldStays(maxActive, states, ops, i + 1, j, name, portion);
    assert states[j].graph.HasData(name);
    RestoreHeld(maxActive, states, ops, j, name, portion);
  }

  lemma RunFailedLoad(maxActive: nat, states: seq<State>, ops: seq<Op>, i: nat, name: string, tags: set<string>, types: set<string>)
    requires IsRun(maxActive, states, ops) && i < |ops| && FailedBy(states[i], name, tags, types, states[i + 1])
    ensures HoldsFrom(states[i + 1], name, Portion(states[i].archives[name], tags, types))
  {
    RunStep(maxActive, states, ops, i);
    FailedLoadHolds(states[i], name, tags, types, states[i + 1]);
  }

  lemma HeldStays(maxActive: nat, states: seq<State>, ops: seq<Op>, i: nat, j: nat, name: string, ar: Archive)
    requires IsRun(maxActive, states, ops) && Stays(states, i, j, name) && name != DEFAULT_DB && HoldsFrom(states[i], name, ar)
    ensures HoldsFrom(states[j], name, ar)
  {
    ContentsStay(maxActive, states, ops, i, j, name);
    SameDbHolds(states[i], states[j], name, ar);
  }

  lemma RestoreHeld(maxActive: nat, states: seq<State>, ops: seq<Op>, j: nat, name: string, ar: Archive)
    requires IsRun(maxActive, states, ops) && maxActive >= 1 && j < |ops| && ops[j] == OpRestore(name)
    requires states[j].graph.HasData(name) && HoldsFrom(states[j], name, ar)
    ensures Agree(states[j + 1].graph, DEFAULT_DB, ArchiveGraph(ar), DEFAULT_DB)
  {
    RunStep(maxActive, states, ops, j);
    RestoreStep(maxActive, states[j], name, states[j + 1]);
    AgreeTransitive(states[j + 1].graph, DEFAULT_DB, states[j].graph, name, ArchiveGraph(ar), DEFAULT_DB);
  }

  // ---------------------------------------------------------------- restores that fail

  /** A failing restore is a failing load, or a load and then a change of the default database alone: it
      leaves the snapshots as the runs above have them. */
  lemma FailedRestoreSteps(maxActive: nat, s: State, name: string, t: State) returns (mid: State)
    requires ValidState(s) && RestoreFailed(s, name, maxActive, t) && name != DEFAULT_DB
    ensures Step(maxActive, s, OpFailedLoad(name), t) || (Step(maxActive, s, OpLoad(name), mid) && Step(maxActive, mid, OpDefault, t))
  {
    mid := s;
    if !LoadFailed(s, name, t) {
      mid :| Ensured(s, name, maxActive, mid) && RestoreStopped(mid, name, t);
      EnsuredValid(s, name, maxActive, mid);
      StoppedRestoreStep(maxActive, mid, name, t);
    }
  }

  lemma StoppedRestoreStep(maxActive: nat, mid: State, name: string, t: State)
    requires ValidState(mid) && RestoreStopped(mid, name, t) && name != DEFAULT_DB
    ensures Step(maxActive, mid, OpDefault, t)
  {
    var c := Cleared(mid.graph, DEFAULT_DB);
    ClearedWf(mid.graph, DEFAULT_DB);
    ClearedOutside(mid.graph, DEFAULT_DB);
    if t.graph != mid.graph {
      var keys, types :| PartlyCopied(c, name, DEFAULT_DB, keys, types, t.graph);
      PartlyCopiedWf(c, name, DEFAULT_DB, keys, types, t.graph);
      SameOutsideTransitive(mid.graph, c, t.graph, DEFAULT_DB);
      forall k | k in t.graph.nodes && t.graph.nodes[k].labels != [] ensures PlainLabels(t.graph.nodes[k].labels) {
        PartPlain(mid.graph, name, keys, types, t.graph, k);
      }
    }
  }

  lemma SameOutsideTransitive(g: Graph, h: Graph, i: Graph, db: string)
    requires SameOutside(g, h, db) && SameOutside(h, i, db)
    ensures SameOutside(g, i, db)
  {
    forall k: NodeKey | k.db != db ensures g.Node(k) == i.Node(k) {
      assert g.Node(k) == h.Node(k) && h.Node(k) == i.Node(k);
    }
    forall e: Edge | e.db != db ensures g.Multiplicity(e) == i.Multiplicity(e) {
      assert g.Multiplicity(e) == h.Multiplicity(e) && h.Multiplicity(e) == i.Multiplicity(e);
    }
  }

  lemma PartPlain(g: Graph, name: string, keys: set<string>, types: set<string>, h: Graph, k: NodeKey)
    requires PlainGraph(g) && PartlyCopied(Cleared(g, DEFAULT_DB), name, DEFAULT_DB, keys, types, h)
    requires k in h.nodes && h.nodes[k].labels != []
    ensures PlainLabels(h.nodes[k].labels)
  {
    var c := Cleared(g, DEFAULT_DB);
    if k.db == DEFAULT_DB {
      var src := NodeKey(name, k.uri);
      assert h.Node(k).Some?;
      assert Chosen(c, src, keys) && src in g.nodes;
    } else {
      assert c.Node(k) == h.Node(k);
      assert k in g.nodes;
    }
  }

  /** What the default database holds after a restore that stopped while it was cloning: the snapshot's
      nodes with the label lists cloned so far, and its relationships of the types cloned so far. That
      is the snapshot if and only if nothing was left. */
  lemma StoppedRestoreExactly(mid: State, name: string, keys: set<string>, types: set<string>, t: State)
    requires ValidState(mid) && SourcedAt(mid, name) && name != DEFAULT_DB
    requires PartlyCopied(Cleared(mid.graph, DEFAULT_DB), name, DEFAULT_DB, keys, types, t.graph)
    ensures Agree(t.graph, DEFAULT_DB, mid.graph, name) <==>
      && (forall k :: k in mid.graph.nodes && k.db == name ==> Join(mid.graph.nodes[k].labels) in keys)
      && (forall e :: e in mid.graph.edges && e.db == name ==> e.typ in types)
  {
    SourcedLabelled(mid, name);
    forall u ensures (NodeAt(t.graph, DEFAULT_DB, u) == NodeAt(mid.graph, name, u)) <==> KeyChosen(mid.graph, name, keys, u) {
      StoppedNodeAt(mid.graph, name, keys, types, t.graph, u);
    }
    forall typ, f, o ensures (LinkAt(t.graph, DEFAULT_DB, typ, f, o) == LinkAt(mid.graph, name, typ, f, o))
      <==> (Edge(name, typ, f, o) in mid.graph.edges ==> typ in types)
    {
      StoppedLinkAt(mid.graph, name, keys, types, t.graph, typ, f, o);
    }
    if Agree(t.graph, DEFAULT_DB, mid.graph, name) {
      forall k | k in mid.graph.nodes && k.db == name ensures Join(mid.graph.nodes[k].labels) in keys {
        assert k == NodeKey(name, k.uri) && KeyChosen(mid.graph, name, keys, k.uri);
      }
      forall e | e in mid.graph.edges && e.db == name ensures e.typ in types {
        assert e == Edge(name, e.typ, e.from, e.to);
        assert LinkAt(t.graph, DEFAULT_DB, e.typ, e.from, e.to) == LinkAt(mid.graph, name, e.typ, e.from, e.to);
      }
    }
  }

  ghost predicate KeyChosen(g: Graph, name: string, keys: set<string>, u: string) {
    NodeKey(name, u) in g.nodes ==> Join(g.nodes[NodeKey(name, u)].labels) in keys
  }

  lemma StoppedNodeAt(g: Graph, name: string, keys: set<string>, types: set<string>, h: Graph, u: string)
    requires PartlyCopied(Cleared(g, DEFAULT_DB), name, DEFAULT_DB, keys, types, h) && name != DEFAULT_DB
    requires forall k :: k in g.nodes && k.db == name ==> g.nodes[k].labels != []
    ensures NodeAt(h, DEFAULT_DB, u) == NodeAt(g, name, u) <==> KeyChosen(g, name, keys, u)
  {
    var src, c := NodeKey(name, u), Cleared(g, DEFAULT_DB);
    assert src in c.nodes <==> src in g.nodes;
    assert h.Node(NodeKey(DEFAULT_DB, u)) == if Chosen(c, src, keys) then Some(Moved(c.nodes[src], DEFAULT_DB)) else None;
    if Chosen(c, src, keys) {
      assert Moved(g.nodes[src], DEFAULT_DB).props - {"_db"} == g.nodes[src].props - {"_db"};
    }
  }

  lemma StoppedLinkAt(g: Graph, name: string, keys: set<string>, types: set<string>, h: Graph, typ: string, f: string, o: string)
    requires g.Wf() && PartlyCopied(Cleared(g, DEFAULT_DB), name, DEFAULT_DB, keys, types, h) && name != DEFAULT_DB
    requires forall k :: k in g.nodes && k.db == name ==> g.nodes[k].labels != []
    requires forall e :: e in g.edges && e.db == name ==> e.typ != ""
    ensures LinkAt(h, DEFAULT_DB, typ, f, o) == LinkAt(g, name, typ, f, o) <==> (Edge(name, typ, f, o) in g.edges ==> typ in types)
  {
    var e, b, c := Edge(DEFAULT_DB, typ, f, o), Edge(name, typ, f, o), Cleared(g, DEFAULT_DB);
    CopiedEdgeAt(c, name, DEFAULT_DB, e);
    assert Back(name, e) == b;
    assert b in c.edges <==> b in g.edges;
    if b in g.edges {
      assert g.Joins(b);
      assert Labelled(c, b.Source()) && Labelled(c, b.Target());
    }
    assert h.Multiplicity(e) ==
      if e in CopiedEdges(c, name, DEFAULT_DB) && e.typ in types then CopiedEdges(c, name, DEFAULT_DB)[e] else 0;
  }

  // ---------------------------------------------------------------- how long a snapshot stays loaded

  /** Every snapshot accessed after `name` is one of `used`. */
  ghost predicate OnlyNewer(s: State, name: string, used: set<string>) {
    && name in s.access
    && (forall x :: Older(s.access, name, x) ==> x in used)
  }

  /** One step under which a loaded snapshot stays as it is: loading fewer than maxActive others. */
  lemma StaysLoaded(maxActive: nat, s: State, name: string, used: set<string>, other: string, t: State)
    requires ValidState(s) && name != DEFAULT_DB && OnlyNewer(s, name, used) && name !in used
    requires Ensured(s, other, maxActive, t) && other != name && other != DEFAULT_DB && |used + {other}| < maxActive
    ensures SameDb(s, t, name)
    ensures OnlyNewer(t, name, used + {other})
  {
    AccessOther(s, name, used, other);
    if s.graph.HasData(other) {
      AgreeRefl(s.graph, name);
    } else {
      var cleared :| EnsuredBy(s, other, maxActive, cleared, t);
      var f := Filled(s, other, s.archives[other]);
      FilledDb(s, other, s.archives[other], name);
      RecentIsSafe(SnapshotDbs(f.graph), f.access, maxActive, name, used + {other});
      EvictedDb(f, cleared, name);
      SameDbTransitive(s, f, t, name);
      forall x | Older(t.access, name, x) ensures x in used + {other} {
        ForgottenIsOlder(f.access, cleared, name, x);
      }
    }
  }

  lemma AccessOther(s: State, name: string, used: set<string>, other: string)
    requires OnlyNewer(s, name, used) && other != name
    ensures forall x :: Older(s.access[other := s.now], name, x) ==> x in used + {other}
  {
    forall x | Older(s.access[other := s.now], name, x) ensures x in used + {other} {
      if x != other { assert Older(s.access, name, x); }
    }
  }

  /** Forgetting an access time makes a database older, not newer. */
  lemma ForgottenIsOlder(access: Access, cleared: set<string>, name: string, x: string)
    requires name in access && name !in cleared && Older(access - cleared, name, x)
    ensures Older(access, name, x)
  {
  }

  /** Diff: loading b never evicts a, so both hold their archives when they are compared. */
  lemma DiffHasBoth(maxActive: nat, s: State, a: string, mid: State, b: string, t: State)
    requires ValidState(s) && CoherentAt(s, a) && CoherentAt(s, b) && maxActive >= 2
    requires a != b && a != DEFAULT_DB && b != DEFAULT_DB
    requires Ensured(s, a, maxActive, mid) && Ensured(mid, b, maxActive, t)
    ensures HoldsArchive(t, a) && HoldsArchive(t, b)
  {
    EnsuredHolds(s, a, maxActive, mid);
    EnsuredValid(s, a, maxActive, mid);
    StepKeeps(maxActive, s, OpLoad(a), mid, b);
    EnsuredHolds(mid, b, maxActive, t);
    JustAccessed(s, a, maxActive, mid);
    StaysLoaded(maxActive, mid, a, {}, b, t);
    SameDbHolds(mid, t, a, mid.archives[a]);
    OtherArchives(maxActive, mid, OpLoad(b), t, a);
  }

  lemma JustAccessed(s: State, name: string, maxActive: nat, t: State)
    requires ValidState(s) && Ensured(s, name, maxActive, t) && maxActive >= 1
    ensures OnlyNewer(t, name, {})
  {
    NothingNewer(s.access[name := s.now], name, s.now);
    if !s.graph.HasData(name) {
      var cleared :| EnsuredBy(s, name, maxActive, cleared, t);
      var f := Filled(s, name, s.archives[name]);
      JustLoadedIsSafe(SnapshotDbs(f.graph), f.access, maxActive, name, s.now);
      NothingNewer(t.access, name, s.now);
    }
  }

  /** The names accessed by loads. */
  function Accessed(ops: seq<Op>): set<string> {
    if ops == [] then {}
    else Accessed(ops[..|ops| - 1]) + match ops[|ops| - 1] case OpLoad(n) => {n} case _ => {}
  }

  /** A loaded snapshot survives while fewer than maxActive other snapshots are loaded, whether the
      clears in between succeed or not. */
  lemma {:induction false} SurvivesLoads(maxActive: nat, states: seq<State>, ops: seq<Op>, name: string)
    requires |states| == |ops| + 1 && ValidState(states[0]) && name != DEFAULT_DB
    requires forall i :: 0 <= i < |ops| ==> StepAt(maxActive, states, ops, i)
    requires forall i :: 0 <= i < |ops| ==> ops[i].OpDefault? || (ops[i].OpLoad? && ops[i].name != name)
    requires OnlyNewer(states[0], name, {}) && |Accessed(ops)| < maxActive
    ensures SameDb(states[0], states[|ops|], name)
    ensures ValidState(states[|ops|]) && OnlyNewer(states[|ops|], name, Accessed(ops)) && name !in Accessed(ops)
    decreases |ops|
  {
    if ops == [] {
      AgreeRefl(states[0].graph, name);
    } else {
      var last := |ops| - 1;
      var init, before := ops[..last], states[..|ops|];
      forall i | 0 <= i < last ensures StepAt(maxActive, before, init, i) {
        assert StepAt(maxActive, states, ops, i);
      }
      SubsetSize(Accessed(init), Accessed(ops));
      SurvivesLoads(maxActive, before, init, name);
      assert StepAt(maxActive, states, ops, last);
      SurvivesOne(maxActive, states[last], ops[last], states[|ops|], name, Accessed(init), Accessed(ops));
      SameDbTransitive(states[0], states[last], states[|ops|], name);
    }
  }

  lemma SurvivesOne(maxActive: nat, s: State, op: Op, t: State, name: string, used: set<string>, more: set<string>)
    requires ValidState(s) && Step(maxActive, s, op, t) && name != DEFAULT_DB
    requires op.OpDefault? || (op.OpLoad? && op.name != name)
    requires OnlyNewer(s, name, used) && name !in used && |more| < maxActive
    requires more == used + if op.OpLoad? then {op.name} else {}
    ensures ValidState(t) && SameDb(s, t, name) && OnlyNewer(t, name, more) && name !in more
  {
    StepValid(maxActive, s, op, t);
    if op.OpLoad? {
      StaysLoaded(maxActive, s, name, used, op.name, t);
    } else {
      DefaultStep(s, t, name);
    }
  }

  // ---------------------------------------------------------------- exactly how long, when no clear fails

  lemma CleanlyEnsured(s: State, name: string, maxActive: nat, t: State)
    requires EnsuredCleanly(s, name, maxActive, t)
    ensures Ensured(s, name, maxActive, t)
  {
  }

  /** `name` is loaded, and the loaded snapshots accessed after it are those of `used`. */
  ghost predicate Recent(s: State, name: string, used: set<string>, maxActive: nat) {
    var dbs := SnapshotDbs(s.graph);
    name in dbs && Newer(dbs, s.access, name) == used && |dbs| <= maxActive
  }

  lemma SnapshotHasData(g: Graph, d: string)
    ensures d in SnapshotDbs(g) <==> d != DEFAULT_DB && g.HasData(d)
  {
  }

  /** Loading an archive without nodes loads nothing. */
  lemma FilledDbs(s: State, name: string, ar: Archive)
    requires ValidState(s) && ArchiveOk(ar) && !s.graph.HasData(name) && name != DEFAULT_DB
    ensures SnapshotDbs(Filled(s, name, ar).graph) == SnapshotDbs(s.graph) + if ar.nodes != [] then {name} else {}
  {
    forall d ensures d in SnapshotDbs(Filled(s, name, ar).graph) <==> d in SnapshotDbs(s.graph) || (d == name && ar.nodes != []) {
      FilledDb(s, name, ar, d);
      SnapshotHasData(s.graph, d);
      SnapshotHasData(Filled(s, name, ar).graph, d);
    }
  }

  lemma EvictedDbs(s: State, cleared: set<string>)
    ensures SnapshotDbs(Evicted(s, cleared).graph) == SnapshotDbs(s.graph) - cleared
  {
    forall d ensures d in SnapshotDbs(Evicted(s, cleared).graph) <==> d in SnapshotDbs(s.graph) - cleared {
      EvictedDb(s, cleared, d);
      SnapshotHasData(s.graph, d);
      SnapshotHasData(Evicted(s, cleared).graph, d);
    }
  }

  lemma AccessedNewer(s: State, dbs: set<string>, name: string, other: string)
    requires ValidState(s) && other != name
    ensures Newer(dbs, s.access[other := s.now], name) == Newer(dbs, s.access, name) + if other in dbs then {other} else {}
  {
    forall x | x in dbs ensures Older(s.access[other := s.now], name, x) <==> x == other || Older(s.access, name, x) {}
  }

  /** Accessing a snapshot that is loaded. */
  lemma CleanFound(maxActive: nat, s: State, name: string, used: set<string>, other: string)
    requires ValidState(s) && Recent(s, name, used, maxActive) && other != name && other in SnapshotDbs(s.graph)
    ensures |used + {other}| < maxActive
    ensures Recent(Used(s, other), name, used + {other}, maxActive)
  {
    var dbs := SnapshotDbs(s.graph);
    AccessedNewer(s, dbs, name, other);
    NotNewer(s.access, dbs, name);
    OneMoreFits(dbs, name, used, other);
  }

  lemma OneMoreFits(dbs: set<string>, name: string, used: set<string>, other: string)
    requires name in dbs && used <= dbs && other in dbs && name !in used && other != name
    ensures |used + {other}| < |dbs|
  {
    SubsetSize(used + {other}, dbs - {name});
  }

  lemma NotNewer(access: Access, dbs: set<string>, name: string)
    ensures name !in Newer(dbs, access, name)
  {
    OlderOrder(access, name, name, name);
  }

  /** What a load adds to the loaded snapshots. */
  function Added(s: State, other: string): set<string> {
    if Stocked(s, other) then {other} else {}
  }

  lemma FillNewer(s: State, name: string, used: set<string>, other: string, maxActive: nat)
    requires ValidState(s) && Recent(s, name, used, maxActive)
    requires other != name && other != DEFAULT_DB && !s.graph.HasData(other) && other in s.archives
    ensures var f := Filled(s, other, s.archives[other]);
      name in SnapshotDbs(f.graph) && Newer(SnapshotDbs(f.graph), f.access, name) == used + Added(s, other)
  {
    var f := Filled(s, other, s.archives[other]);
    var now, dbs := SnapshotDbs(f.graph), SnapshotDbs(s.graph);
    FilledDbs(s, other, s.archives[other]);
    AccessedNewer(s, now, name, other);
    NewerWith(dbs, s.access, name, other, now);
  }

  lemma NewerWith(dbs: set<string>, access: Access, name: string, other: string, now: set<string>)
    requires now == dbs || now == dbs + {other}
    ensures Newer(now, access, name) + {other} == Newer(dbs, access, name) + {other}
    ensures now == dbs ==> Newer(now, access, name) == Newer(dbs, access, name)
  {
  }

  /** The clean-up clears `name` exactly when maxActive snapshots are newer, and otherwise none of these. */
  lemma CleanUp(maxActive: nat, f: State, name: string, newer: set<string>)
    requires name in SnapshotDbs(f.graph) && Newer(SnapshotDbs(f.graph), f.access, name) == newer
    ensures |newer| < maxActive ==> Recent(Evicted(f, Due(f, maxActive)), name, newer, maxActive)
    ensures |newer| >= maxActive ==> name !in SnapshotDbs(Evicted(f, Due(f, maxActive)).graph)
  {
    var dbs, due := SnapshotDbs(f.graph), Due(f, maxActive);
    EvictedDbs(f, due);
    if |newer| < maxActive {
      forall x | x in newer ensures x !in due {
        NewerNested(dbs, f.access, name, x);
      }
      KeptBound(dbs, f.access, maxActive);
      KeptNewer(f.access, dbs, due, name);
      assert newer - due == newer;
    }
  }

  /** Forgetting the access times of what is cleared changes nothing about who is newer. */
  lemma KeptNewer(access: Access, dbs: set<string>, due: set<string>, name: string)
    requires name !in due
    ensures Newer(dbs - due, access - due, name) == Newer(dbs, access, name) - due
  {
    forall x | x in dbs - due ensures Older(access - due, name, x) <==> Older(access, name, x) {}
  }

  predicate Stocked(s: State, name: string) {
    name in s.archives && s.archives[name].nodes != []
  }

  ghost predicate LoadAt(maxActive: nat, states: seq<State>, others: seq<string>, i: nat)
    requires i < |others| && |states| == |others| + 1
  {
    EnsuredCleanly(states[i], others[i], maxActive, states[i + 1])
  }

  /** A run of loads of the snapshots `others` in which no clear fails. Those loaded at its beginning have
      archives with nodes, so that they would be loaded again. */
  ghost predicate LoadRun(maxActive: nat, states: seq<State>, others: seq<string>) {
    && |states| == |others| + 1 && ValidState(states[0])
    && (forall i :: 0 <= i < |others| ==> LoadAt(maxActive, states, others, i))
    && (forall o :: o in others ==> o != DEFAULT_DB && (states[0].graph.HasData(o) ==> Stocked(states[0], o)))
  }

  /** The snapshots of `others` that are loaded when they are accessed: those with nodes. */
  function Counted(s: State, others: seq<string>): set<string> {
    set o | o in others && Stocked(s, o)
  }

  lemma LoadRunInit(maxActive: nat, states: seq<State>, others: seq<string>)
    requires LoadRun(maxActive, states, others) && others != []
    ensures LoadRun(maxActive, states[..|others|], others[..|others| - 1])
    ensures LoadAt(maxActive, states, others, |others| - 1)
  {
    var n := |others| - 1;
    var before, init := states[..n + 1], others[..n];
    forall i | 0 <= i < n ensures LoadAt(maxActive, before, init, i) {
      assert LoadAt(maxActive, states, others, i);
    }
    assert forall o :: o in init ==> o in others;
  }

  lemma {:induction false} LoadRunValid(maxActive: nat, states: seq<State>, others: seq<string>)
    requires LoadRun(maxActive, states, others)
    ensures ValidState(states[|others|]) && states[|others|].archives == states[0].archives
    decreases |others|
  {
    if others != [] {
      var n := |others| - 1;
      LoadRunInit(maxActive, states, others);
      LoadRunValid(maxActive, states[..n + 1], others[..n]);
      CleanlyEnsured(states[n], others[n], maxActive, states[n + 1]);
      EnsuredValid(states[n], others[n], maxActive, states[n + 1]);
    }
  }

  /** A load of another snapshot loads nothing else, and itself only with nodes. */
  lemma LoadsNothingElse(maxActive: nat, s: State, other: string, t: State)
    requires ValidState(s) && EnsuredCleanly(s, other, maxActive, t) && other != DEFAULT_DB
    ensures SnapshotDbs(t.graph) <= SnapshotDbs(s.graph) + Added(s, other)
  {
    if !s.graph.HasData(other) {
      var f := Filled(s, other, s.archives[other]);
      FilledDbs(s, other, s.archives[other]);
      EvictedDbs(f, Due(f, maxActive));
    }
  }

  /** What is loaded during the run was loaded at its beginning or has nodes and was accessed. */
  lemma {:induction false} LoadedInRun(maxActive: nat, states: seq<State>, others: seq<string>)
    requires LoadRun(maxActive, states, others)
    ensures SnapshotDbs(states[|others|].graph) <= SnapshotDbs(states[0].graph) + Counted(states[0], others)
    decreases |others|
  {
    if others != [] {
      var n := |others| - 1;
      LoadRunInit(maxActive, states, others);
      LoadedInRun(maxActive, states[..n + 1], others[..n]);
      LoadRunValid(maxActive, states[..n + 1], others[..n]);
      assert others[n] in others;
      LoadsNothingElse(maxActive, states[n], others[n], states[n + 1]);
      CountedGrow(states[0], others);
    }
  }

  /** Over any run of loads of other snapshots in which no clear fails, a snapshot that was the last to be
      accessed stays loaded if and only if fewer than maxActive different ones with nodes are loaded;
      loading archives without nodes never counts. */
  lemma {:induction false} StaysExactly(maxActive: nat, states: seq<State>, others: seq<string>, name: string)
    requires LoadRun(maxActive, states, others) && name !in others
    requires Recent(states[0], name, {}, maxActive) && maxActive >= 1
    ensures |Counted(states[0], others)| < maxActive ==> Recent(states[|others|], name, Counted(states[0], others), maxActive)
    ensures states[|others|].graph.HasData(name) <==> |Counted(states[0], others)| < maxActive
    decreases |others|
  {
    SnapshotHasData(states[|others|].graph, name);
    if others == [] {
      assert Counted(states[0], others) == {};
    } else {
      var n := |others| - 1;
      var before, init, other := states[..n + 1], others[..n], others[n];
      LoadRunInit(maxActive, states, others);
      StaysExactly(maxActive, before, init, name);
      SnapshotHasData(states[n].graph, name);
      LoadRunOn(maxActive, states, others);
      CountedGrow(states[0], others);
      StaysOne(maxActive, states[n], name, Counted(states[0], init), other, states[n + 1]);
    }
  }

  /** Before its last load. */
  lemma LoadRunOn(maxActive: nat, states: seq<State>, others: seq<string>)
    requires LoadRun(maxActive, states, others) && others != []
    ensures var n := |others| - 1;
      && ValidState(states[n]) && EnsuredCleanly(states[n], others[n], maxActive, states[n + 1]) && others[n] != DEFAULT_DB
      && (states[n].graph.HasData(others[n]) ==> Stocked(states[n], others[n])) && Added(states[n], others[n]) == Added(states[0], others[n])
  {
    var n := |others| - 1;
    LoadRunInit(maxActive, states, others);
    LoadRunValid(maxActive, states[..n + 1], others[..n]);
    LoadedInRun(maxActive, states[..n + 1], others[..n]);
    assert others[n] in others;
    CountedGrow(states[0], others);
    LoadedIsStocked(states[0], states[n], others, others[n]);
  }

  lemma LoadedIsStocked(s: State, t: State, others: seq<string>, other: string)
    requires SnapshotDbs(t.graph) <= SnapshotDbs(s.graph) + Counted(s, others) && other != DEFAULT_DB && t.archives == s.archives
    requires s.graph.HasData(other) ==> Stocked(s, other)
    ensures t.graph.HasData(other) ==> Stocked(t, other)
  {
    SnapshotHasData(s.graph, other);
    SnapshotHasData(t.graph, other);
  }

  lemma CountedGrow(s: State, others: seq<string>)
    requires others != []
    ensures var n := |others| - 1;
      Counted(s, others) == Counted(s, others[..n]) + Added(s, others[n]) && |Counted(s, others[..n])| <= |Counted(s, others)|
  {
    var n := |others| - 1;
    assert others == others[..n] + [others[n]];
    SubsetSize(Counted(s, others[..n]), Counted(s, others));
  }

  lemma StaysOne(maxActive: nat, s: State, name: string, used: set<string>, other: string, t: State)
    requires ValidState(s) && other != name && other != DEFAULT_DB
    requires EnsuredCleanly(s, other, maxActive, t) && (s.graph.HasData(other) ==> Stocked(s, other))
    requires |used| < maxActive ==> Recent(s, name, used, maxActive)
    requires name in SnapshotDbs(s.graph) <==> |used| < maxActive
    requires |used| <= |used + Added(s, other)|
    ensures |used + Added(s, other)| < maxActive ==> Recent(t, name, used + Added(s, other), maxActive)
    ensures name in SnapshotDbs(t.graph) <==> |used + Added(s, other)| < maxActive
  {
    SnapshotHasData(s.graph, other);
    if |used| >= maxActive {
      LoadsNothingElse(maxActive, s, other, t);
    } else if s.graph.HasData(other) {
      CleanFound(maxActive, s, name, used, other);
    } else {
      FillNewer(s, name, used, other, maxActive);
      CleanUp(maxActive, Filled(s, other, s.archives[other]), name, used + Added(s, other));
    }
  }

  // ---------------------------------------------------------------- a load in the middle of a restore

  /** Clearing the default database and cloning into it leaves it empty if and only if there is
      nothing with labels to clone. */
  lemma RestoredEmpty(g: Graph, name: string)
    requires name != DEFAULT_DB
    ensures Copied(Cleared(g, DEFAULT_DB), name, DEFAULT_DB).HasData(DEFAULT_DB)
      <==> exists k :: k in g.nodes && k.db == name && g.nodes[k].labels != []
  {
    var c := Cleared(g, DEFAULT_DB);
    var h := Copied(c, name, DEFAULT_DB);
    if k :| k in g.nodes && k.db == name && g.nodes[k].labels != [] {
      assert k in c.nodes && Labelled(c, k);
      assert NodeKey(DEFAULT_DB, k.uri) in CopiedNodes(c, name, DEFAULT_DB);
      assert NodeKey(DEFAULT_DB, k.uri) in h.nodes;
    }
    if k :| k in h.nodes && k.db == DEFAULT_DB {
      assert k !in c.nodes;
      assert k in CopiedNodes(c, name, DEFAULT_DB);
      var from :| from in c.nodes && from.db == name && Labelled(c, from) && NodeKey(DEFAULT_DB, from.uri) == k;
      assert from in g.nodes;
    }
  }

  /** Nothing rejects the name of the default database: restoring it copies what has just been
      cleared, so the restore succeeds with an empty default database. */
  lemma RestoringDefaultEmptiesIt(g: Graph)
    ensures Copied(Cleared(g, DEFAULT_DB), DEFAULT_DB, DEFAULT_DB) == Cleared(g, DEFAULT_DB)
    ensures !Cleared(g, DEFAULT_DB).HasData(DEFAULT_DB)
  {
    var c := Cleared(g, DEFAULT_DB);
    assert CopiedNodes(c, DEFAULT_DB, DEFAULT_DB) == map[] by {
      forall k ensures k !in CopiedNodes(c, DEFAULT_DB, DEFAULT_DB) {}
    }
    assert CopiedEdges(c, DEFAULT_DB, DEFAULT_DB) == map[] by {
      forall e ensures e !in CopiedEdges(c, DEFAULT_DB, DEFAULT_DB) {}
    }
    assert Copied(c, DEFAULT_DB, DEFAULT_DB).nodes == c.nodes;
    assert Copied(c, DEFAULT_DB, DEFAULT_DB).edges == c.edges;
  }

  /** Diff loads without the lock, so loads of other snapshots may come between the load of a restore
      and its clone. When no clear fails, the restore then makes the default database equal the
      archive if and only if fewer than maxActive different snapshots with nodes were loaded in between, or
      the archive has none itself; otherwise it succeeds with an empty default database. */
  lemma EvictedRestore(maxActive: nat, s: State, name: string, states: seq<State>, others: seq<string>)
    requires Sourced(s) && CoherentAt(s, name) && name in s.archives && maxActive >= 1 && |SnapshotDbs(s.graph)| <= maxActive
    requires name != DEFAULT_DB && name !in others
    requires LoadRun(maxActive, states, others) && EnsuredCleanly(s, name, maxActive, states[0])
    ensures Agree(RestoredIn(states[|others|], name), DEFAULT_DB, ArchiveGraph(s.archives[name]), DEFAULT_DB)
      <==> |Counted(s, others)| < maxActive || s.archives[name].nodes == []
    ensures RestoredIn(states[|others|], name).HasData(DEFAULT_DB)
      <==> |Counted(s, others)| < maxActive && s.archives[name].nodes != []
  {
    SameArchives(maxActive, s, name, states[0], others);
    if s.archives[name].nodes == [] {
      HollowRestore(maxActive, s, name, states, others);
    } else if |Counted(s, others)| < maxActive {
      KeptRestore(maxActive, s, name, states, others);
    } else {
      GoneRestore(maxActive, s, name, states, others);
    }
  }

  /** What a restore of `name` leaves. */
  function RestoredIn(s: State, name: string): Graph {
    WithDefault(s, name).graph
  }

  lemma SameArchives(maxActive: nat, s: State, name: string, t: State, others: seq<string>)
    requires EnsuredCleanly(s, name, maxActive, t)
    ensures t.archives == s.archives && Counted(t, others) == Counted(s, others)
  {
  }

  /** While the snapshot stays loaded the restore gives its archive. */
  lemma KeptRestore(maxActive: nat, s: State, name: string, states: seq<State>, others: seq<string>)
    requires Sourced(s) && CoherentAt(s, name) && Stocked(s, name) && maxActive >= 1 && |SnapshotDbs(s.graph)| <= maxActive
    requires name != DEFAULT_DB && name !in others
    requires LoadRun(maxActive, states, others) && EnsuredCleanly(s, name, maxActive, states[0])
    requires |Counted(states[0], others)| < maxActive
    ensures Agree(RestoredIn(states[|others|], name), DEFAULT_DB, ArchiveGraph(s.archives[name]), DEFAULT_DB)
    ensures RestoredIn(states[|others|], name).HasData(DEFAULT_DB)
  {
    var last := states[|others|];
    FreshlyLoaded(maxActive, s, name, states[0]);
    KeepsContents(maxActive, states, others, name);
    SameDbHolds(states[0], last, name, s.archives[name]);
    LoadRunValid(maxActive, states, others);
    assert SourcedAt(last, name);
    SourcedLabelled(last, name);
    RestoreCopies(last, name);
    AgreeTransitive(WithDefault(last, name).graph, DEFAULT_DB, last.graph, name, ArchiveGraph(s.archives[name]), DEFAULT_DB);
    if !WithDefault(last, name).graph.HasData(DEFAULT_DB) {
      NotEmpty(s.archives[name], WithDefault(last, name).graph);
    }
  }

  /** Once the snapshot has been cleared the restore gives nothing. */
  lemma GoneRestore(maxActive: nat, s: State, name: string, states: seq<State>, others: seq<string>)
    requires Sourced(s) && CoherentAt(s, name) && Stocked(s, name) && maxActive >= 1 && |SnapshotDbs(s.graph)| <= maxActive
    requires name != DEFAULT_DB && name !in others
    requires LoadRun(maxActive, states, others) && EnsuredCleanly(s, name, maxActive, states[0])
    requires |Counted(states[0], others)| >= maxActive
    ensures !Agree(RestoredIn(states[|others|], name), DEFAULT_DB, ArchiveGraph(s.archives[name]), DEFAULT_DB)
    ensures !RestoredIn(states[|others|], name).HasData(DEFAULT_DB)
  {
    FreshlyLoaded(maxActive, s, name, states[0]);
    GoneByThen(maxActive, states, others, name);
    GoneGives(states[|others|], name, s.archives[name]);
  }

  lemma GoneByThen(maxActive: nat, states: seq<State>, others: seq<string>, name: string)
    requires LoadRun(maxActive, states, others) && name !in others && Recent(states[0], name, {}, maxActive) && maxActive >= 1
    requires |Counted(states[0], others)| >= maxActive
    ensures ValidState(states[|others|]) && !states[|others|].graph.HasData(name)
  {
    StaysExactly(maxActive, states, others, name);
    LoadRunValid(maxActive, states, others);
  }

  lemma GoneGives(s: State, name: string, ar: Archive)
    requires ValidState(s) && !s.graph.HasData(name) && name != DEFAULT_DB && ArchiveOk(ar) && ar.nodes != []
    ensures !Agree(RestoredIn(s, name), DEFAULT_DB, ArchiveGraph(ar), DEFAULT_DB)
    ensures !RestoredIn(s, name).HasData(DEFAULT_DB)
  {
    NothingToRestore(s, name);
    NotEmpty(ar, WithDefault(s, name).graph);
  }

  /** An archive without nodes never makes its snapshot a loaded one, and restoring it gives nothing. */
  lemma HollowRestore(maxActive: nat, s: State, name: string, states: seq<State>, others: seq<string>)
    requires ValidState(s) && CoherentAt(s, name) && name in s.archives && s.archives[name].nodes == []
    requires name != DEFAULT_DB && name !in others
    requires LoadRun(maxActive, states, others) && EnsuredCleanly(s, name, maxActive, states[0])
    ensures Agree(RestoredIn(states[|others|], name), DEFAULT_DB, ArchiveGraph(s.archives[name]), DEFAULT_DB)
    ensures !RestoredIn(states[|others|], name).HasData(DEFAULT_DB)
  {
    HollowAgrees(s.archives[name], s.graph, name);
    LoadsNothingElse(maxActive, s, name, states[0]);
    LoadedInRun(maxActive, states, others);
    LoadRunValid(maxActive, states, others);
    SnapshotHasData(s.graph, name);
    SnapshotHasData(states[|others|].graph, name);
    NothingToRestore(states[|others|], name);
    BothEmpty(s.archives[name], RestoredIn(states[|others|], name));
  }

  lemma NothingToRestore(s: State, name: string)
    requires ValidState(s) && !s.graph.HasData(name) && name != DEFAULT_DB
    ensures WithDefault(s, name).graph.Wf() && !WithDefault(s, name).graph.HasData(DEFAULT_DB)
  {
    RestoredEmpty(s.graph, name);
    ClearedWf(s.graph, DEFAULT_DB);
    CopiedWf(Cleared(s.graph, DEFAULT_DB), name, DEFAULT_DB);
  }

  lemma HollowAgrees(ar: Archive, g: Graph, name: string)
    requires ArchiveOk(ar) && ar.nodes == []
    ensures Agree(g, name, ArchiveGraph(ar), DEFAULT_DB) ==> !g.HasData(name)
  {
    LoadedHasData(EMPTY, DEFAULT_DB, ar);
    if Agree(g, name, ArchiveGraph(ar), DEFAULT_DB) {
      forall k | k in g.nodes ensures k.db != name {
        assert NodeAt(g, name, k.uri) == NodeAt(ArchiveGraph(ar), DEFAULT_DB, k.uri);
      }
    }
  }

  lemma BothEmpty(ar: Archive, g: Graph)
    requires ArchiveOk(ar) && ar.nodes == [] && g.Wf() && !g.HasData(DEFAULT_DB)
    ensures Agree(g, DEFAULT_DB, ArchiveGraph(ar), DEFAULT_DB)
  {
    LoadedHasData(EMPTY, DEFAULT_DB, ar);
    LoadedWf(EMPTY, Create, DEFAULT_DB, ar.nodes, ar.rels);
    NoDataAgrees(g, ArchiveGraph(ar));
  }

  lemma NoDataAgrees(g: Graph, h: Graph)
    requires g.Wf() && h.Wf() && !g.HasData(DEFAULT_DB) && !h.HasData(DEFAULT_DB)
    ensures Agree(g, DEFAULT_DB, h, DEFAULT_DB)
  {
    forall t, f, o ensures LinkAt(g, DEFAULT_DB, t, f, o) == 0 == LinkAt(h, DEFAULT_DB, t, f, o) {
      var e := Edge(DEFAULT_DB, t, f, o);
      assert e in g.edges ==> g.Joins(e) && e.Source() in g.nodes;
      assert e in h.edges ==> h.Joins(e) && e.Source() in h.nodes;
    }
  }

  /** Right after its load a snapshot is the most recent one and holds its archive. */
  lemma FreshlyLoaded(maxActive: nat, s: State, name: string, t: State)
    requires ValidState(s) && CoherentAt(s, name) && Stocked(s, name) && maxActive >= 1 && |SnapshotDbs(s.graph)| <= maxActive
    requires name != DEFAULT_DB && EnsuredCleanly(s, name, maxActive, t)
    ensures Recent(t, name, {}, maxActive) && HoldsFrom(t, name, s.archives[name]) && ArchiveOk(s.archives[name])
  {
    CleanlyEnsured(s, name, maxActive, t);
    JustAccessed(s, name, maxActive, t);
    EnsuredHolds(s, name, maxActive, t);
    SnapshotHasData(t.graph, name);
    if !s.graph.HasData(name) {
      var f := Filled(s, name, s.archives[name]);
      EnsuredFills(s, name, maxActive, t);
      EvictedDbs(f, Due(f, maxActive));
      KeptBound(SnapshotDbs(f.graph), f.access, maxActive);
    }
  }

  /** A snapshot that stays loaded keeps its contents. */
  lemma {:induction false} KeepsContents(maxActive: nat, states: seq<State>, others: seq<string>, name: string)
    requires LoadRun(maxActive, states, others) && name != DEFAULT_DB && name !in others
    requires Recent(states[0], name, {}, maxActive) && |Counted(states[0], others)| < maxActive
    ensures SameDb(states[0], states[|others|], name)
    decreases |others|
  {
    if others == [] {
      AgreeRefl(states[0].graph, name);
    } else {
      var n := |others| - 1;
      var before, init := states[..n + 1], others[..n];
      LoadRunInit(maxActive, states, others);
      CountedGrow(states[0], others);
      KeepsContents(maxActive, before, init, name);
      StaysExactly(maxActive, before, init, name);
      StaysExactly(maxActive, states, others, name);
      LoadRunValid(maxActive, before, init);
      CleanlyEnsured(states[n], others[n], maxActive, states[n + 1]);
      StepStays(maxActive, states[n], OpLoad(others[n]), states[n + 1], name);
      SameDbTransitive(states[0], states[n], states[n + 1], name);
    }
  }

  lemma NotEmpty(ar: Archive, g: Graph)
    requires ArchiveOk(ar) && ar.nodes != [] && !g.HasData(DEFAULT_DB)
    ensures !Agree(g, DEFAULT_DB, ArchiveGraph(ar), DEFAULT_DB)
  {
    LoadedIndex(EMPTY, DEFAULT_DB, ar, 0);
    var u := ar.nodes[0].uri;
    assert NodeAt(ArchiveGraph(ar), DEFAULT_DB, u).Some?;
    assert NodeAt(g, DEFAULT_DB, u).None?;
  }

  // ---------------------------------------------------------------- two whole runs

  /** Exporting an empty default database over a loaded snapshot of one node and restoring it: the
      node of the older snapshot comes back. */
  lemma StaleRestore(maxActive: nat, name: string, n: Node) returns (states: seq<State>, ops: seq<Op>)
    requires name != DEFAULT_DB && PlainLabels(n.labels)
    ensures ops == [OpCreate(name), OpRestore(name)] && IsRun(maxActive, states, ops) && Coherent(states[0])
    ensures Exportable(states[0].graph, DEFAULT_DB) && CleanExport(states[0].graph, DEFAULT_DB)
    ensures !Agree(states[2].graph, DEFAULT_DB, states[0].graph, DEFAULT_DB)
  {
    var s := OneLoaded(name, n);
    NothingInDefault(s.graph);
    var t := ExportNothing(maxActive, s, name);
    var u := RestoreLoaded(maxActive, t, name);
    StaleEnd(s, name, n, t, u);
    states, ops := TwoSteps(maxActive, s, OpCreate(name), t, OpRestore(name), u);
  }

  lemma StaleEnd(s: State, name: string, n: Node, t: State, u: State)
    requires Sourced(s) && name != DEFAULT_DB && s.graph.HasData(name) && !s.graph.HasData(DEFAULT_DB)
    requires HoldsFrom(s, name, Archive([n], [])) && t.graph == s.graph && u == WithDefault(Used(t, name), name)
    ensures !Agree(u.graph, DEFAULT_DB, s.graph, DEFAULT_DB)
  {
    assert SourcedAt(s, name);
    SourcedLabelled(s, name);
    RestoreCopies(s, name);
    assert u.graph == WithDefault(s, name).graph;
    StaleNode(s, name, n, u);
  }

  ghost predicate Takes(maxActive: nat, s: State, op: Op, t: State) {
    Step(maxActive, s, op, t)
  }

  lemma RestoreLoaded(maxActive: nat, s: State, name: string) returns (t: State)
    requires name != DEFAULT_DB && s.graph.HasData(name)
    ensures t == WithDefault(Used(s, name), name) && Takes(maxActive, s, OpRestore(name), t)
  {
    t := WithDefault(Used(s, name), name);
    assert Restored(s, name, maxActive, Used(s, name), t);
  }

  lemma TwoSteps(maxActive: nat, s: State, a: Op, t: State, b: Op, u: State) returns (states: seq<State>, ops: seq<Op>)
    requires Sourced(s) && Takes(maxActive, s, a, t) && Takes(maxActive, t, b, u)
    ensures states == [s, t, u] && ops == [a, b] && IsRun(maxActive, states, ops)
  {
    states, ops := [s, t, u], [a, b];
    RunOfTwo(maxActive, states, ops);
  }

  lemma RunOfTwo(maxActive: nat, states: seq<State>, ops: seq<Op>)
    requires |states| == 3 && |ops| == 2 && Sourced(states[0])
    requires Takes(maxActive, states[0], ops[0], states[1]) && Takes(maxActive, states[1], ops[1], states[2])
    ensures IsRun(maxActive, states, ops)
  {
    assert StepAt(maxActive, states, ops, 0) && StepAt(maxActive, states, ops, 1);
  }

  /** An otherwise empty store with the snapshot of one node loaded. */
  lemma OneLoaded(name: string, n: Node) returns (s: State)
    requires name != DEFAULT_DB && PlainLabels(n.labels)
    ensures Sourced(s) && Coherent(s) && !s.graph.HasData(DEFAULT_DB)
    ensures s.graph.HasData(name) && HoldsFrom(s, name, Archive([n], []))
  {
    var ar := Archive([n], []);
    var empty := State(EMPTY, map[name := ar], map[], 1);
    assert ArchiveOk(ar);
    FilledValid(empty, name, ar);
    s := Filled(empty, name, ar);
    FilledDb(empty, name, ar, name);
    FilledDb(empty, name, ar, DEFAULT_DB);
    OnlyLoaded(empty, name, ar);
  }

  lemma OnlyLoaded(s: State, name: string, ar: Archive)
    requires ValidState(s) && s.graph == EMPTY && ArchiveOk(ar) && name in s.archives && s.archives[name] == ar
    ensures forall d :: d != DEFAULT_DB && Filled(s, name, ar).graph.HasData(d) ==> d == name
    ensures HoldsArchive(Filled(s, name, ar), name) && SourcedAt(Filled(s, name, ar), name)
  {
    FilledDb(s, name, ar, name);
    forall d | d != name ensures !Filled(s, name, ar).graph.HasData(d) {
      FilledDb(s, name, ar, d);
    }
  }

  lemma ExportNothing(maxActive: nat, s: State, name: string) returns (t: State)
    requires ValidState(s) && !s.graph.HasData(DEFAULT_DB) && name != DEFAULT_DB
    ensures Takes(maxActive, s, OpCreate(name), t) && t.graph == s.graph
  {
    NothingInDefault(s.graph);
    t := s.(archives := s.archives[name := Archive([], [])]);
    ClearNone(s.graph);
    assert Created(s, name, {}, t);
  }

  /** An export of any default database with relationships, another that fails with its file cut short,
      and a restore: it succeeds, and relationships are missing although the name was never loaded. */
  lemma TruncatedRestore(maxActive: nat, s: State, name: string, ar: Archive, n: nat) returns (states: seq<State>, ops: seq<Op>)
    requires Sourced(s) && name != DEFAULT_DB && !s.graph.HasData(name) && maxActive >= 1
    requires Exportable(s.graph, DEFAULT_DB) && CleanExport(s.graph, DEFAULT_DB)
    requires Exports(s.graph, ar) && ArchiveOk(ar) && n < |ar.rels|
    ensures ops == [OpCreate(name), OpFailedCreate(name), OpRestore(name)] && IsRun(maxActive, states, ops) && states[0] == s
    ensures !states[2].graph.HasData(name) && !Agree(states[3].graph, DEFAULT_DB, s.graph, DEFAULT_DB)
  {
    var t, u, v := TruncatedSteps(maxActive, s, name, ar, n);
    states, ops := ThreeSteps(maxActive, s, OpCreate(name), t, OpFailedCreate(name), u, OpRestore(name), v);
    TruncatedEnd(maxActive, states, ops, name, ar, n);
  }

  lemma TruncatedSteps(maxActive: nat, s: State, name: string, ar: Archive, n: nat) returns (t: State, u: State, v: State)
    requires name != DEFAULT_DB && !s.graph.HasData(name) && Exports(s.graph, ar) && ArchiveOk(ar) && n < |ar.rels|
    ensures Takes(maxActive, s, OpCreate(name), t) && Takes(maxActive, t, OpFailedCreate(name), u) && Takes(maxActive, u, OpRestore(name), v)
    ensures u.graph == s.graph && name in u.archives && u.archives[name] == CutShort(ar, n)
  {
    t := s.(archives := s.archives[name := ar]);
    u := t.(archives := t.archives[name := CutShort(ar, n)]);
    v := FillAndCopy(maxActive, u, name);
    WriteFirst(maxActive, s, name, ar, t);
    WriteCut(maxActive, t, name, ar, n, u);
  }

  lemma ThreeSteps(maxActive: nat, s: State, a: Op, t: State, b: Op, u: State, c: Op, v: State) returns (states: seq<State>, ops: seq<Op>)
    requires Sourced(s) && Takes(maxActive, s, a, t) && Takes(maxActive, t, b, u) && Takes(maxActive, u, c, v)
    ensures states == [s, t, u, v] && ops == [a, b, c] && IsRun(maxActive, states, ops)
  {
    states, ops := [s, t, u, v], [a, b, c];
    RunOfThree(maxActive, states, ops);
  }

  lemma TruncatedEnd(maxActive: nat, states: seq<State>, ops: seq<Op>, name: string, ar: Archive, n: nat)
    requires IsRun(maxActive, states, ops) && |ops| == 3 && ops[2] == OpRestore(name) && maxActive >= 1
    requires !states[2].graph.HasData(name) && n < |ar.rels| && ArchiveOk(ar) && Exports(states[0].graph, ar)
    requires name in states[2].archives && states[2].archives[name] == CutShort(ar, n)
    requires Exportable(states[0].graph, DEFAULT_DB) && CleanExport(states[0].graph, DEFAULT_DB)
    ensures !Agree(states[3].graph, DEFAULT_DB, states[0].graph, DEFAULT_DB)
  {
    RunSourced(maxActive, states, ops, 0);
    CutMisses(states[0].graph, ar, n);
    RestoreBringsBack(maxActive, states, ops, 0, 2, name);
  }

  lemma WriteFirst(maxActive: nat, s: State, name: string, ar: Archive, t: State)
    requires name != DEFAULT_DB && Exports(s.graph, ar) && ArchiveOk(ar) && t == s.(archives := s.archives[name := ar])
    ensures Takes(maxActive, s, OpCreate(name), t)
  {
    ClearNone(s.graph);
    assert Created(s, name, {}, t);
  }

  lemma WriteCut(maxActive: nat, s: State, name: string, ar: Archive, n: nat, t: State)
    requires name != DEFAULT_DB && Exports(s.graph, ar) && ArchiveOk(ar) && n <= |ar.rels|
    requires t == s.(archives := s.archives[name := CutShort(ar, n)])
    ensures Takes(maxActive, s, OpFailedCreate(name), t)
  {
    assert CutBy(s, name, ar, n, t);
  }

  lemma FillAndCopy(maxActive: nat, s: State, name: string) returns (t: State)
    requires name != DEFAULT_DB && !s.graph.HasData(name) && name in s.archives
    ensures Takes(maxActive, s, OpRestore(name), t)
  {
    var f := Filled(s, name, s.archives[name]);
    var mid := Evicted(f, {});
    assert EnsuredBy(s, name, maxActive, {}, mid);
    t := WithDefault(mid, name);
    assert Restored(s, name, maxActive, mid, t);
  }

  lemma RunOfThree(maxActive: nat, states: seq<State>, ops: seq<Op>)
    requires |states| == 4 && |ops| == 3 && Sourced(states[0])
    requires Takes(maxActive, states[0], ops[0], states[1]) && Takes(maxActive, states[1], ops[1], states[2])
    requires Takes(maxActive, states[2], ops[2], states[3])
    ensures IsRun(maxActive, states, ops)
  {
    assert StepAt(maxActive, states, ops, 0) && StepAt(maxActive, states, ops, 1) && StepAt(maxActive, states, ops, 2);
  }

  lemma CutMisses(g: Graph, ar: Archive, n: nat)
    requires g.Wf() && Exportable(g, DEFAULT_DB) && CleanExport(g, DEFAULT_DB) && Exports(g, ar) && ArchiveOk(ar) && n < |ar.rels|
    ensures !Agree(ArchiveGraph(CutShort(ar, n)), DEFAULT_DB, g, DEFAULT_DB)
  {
    ExportRoundTrip(g, ar);
    CutExactly(ar, n);
    var r := ar.rels[n];
    OccursOnce(DEFAULT_DB, ar.rels, n);
    assert g.Multiplicity(EdgeOf(DEFAULT_DB, r)) > 0;
    CapturedNodeAt(g, ar, r.from);
    CapturedNodeAt(g, ar, r.to);
    if Agree(ArchiveGraph(CutShort(ar, n)), DEFAULT_DB, g, DEFAULT_DB) {
      AgreeSymmetric(ArchiveGraph(ar), DEFAULT_DB, g, DEFAULT_DB);
      AgreeTransitive(ArchiveGraph(CutShort(ar, n)), DEFAULT_DB, g, DEFAULT_DB, ArchiveGraph(ar), DEFAULT_DB);
    }
  }

  lemma NothingInDefault(g: Graph)
    requires g.Wf() && !g.HasData(DEFAULT_DB)
    ensures Exportable(g, DEFAULT_DB) && CleanExport(g, DEFAULT_DB) && Exports(g, Archive([], []))
  {
    forall e: Edge | e.db == DEFAULT_DB ensures e !in g.edges {
      NoData(g, DEFAULT_DB, e);
    }
    forall s | RelRows(g, DEFAULT_DB, s) ensures s == [] {
      NoRelRows(g, s);
    }
  }

  lemma NoRelRows(g: Graph, s: seq<Relation>)
    requires RelRows(g, DEFAULT_DB, s) && forall e: Edge :: e.db == DEFAULT_DB ==> e !in g.edges
    ensures s == []
  {
    forall e: Edge | e.db == DEFAULT_DB ensures Occurrences(DEFAULT_DB, s, e) == 0 {
      assert e !in g.edges;
    }
    NoneOccurs(DEFAULT_DB, s);
  }

  lemma NoneOccurs(db: string, s: seq<Relation>)
    requires forall e: Edge | e.db == db :: Occurrences(db, s, e) == 0
    ensures s == []
  {
    assert s != [] ==> Occurrences(db, s, EdgeOf(db, s[0])) > 0;
  }

  lemma StaleNode(s: State, name: string, n: Node, u: State)
    requires HoldsFrom(s, name, Archive([n], [])) && !s.graph.HasData(DEFAULT_DB)
    requires Agree(u.graph, DEFAULT_DB, s.graph, name)
    ensures !Agree(u.graph, DEFAULT_DB, s.graph, DEFAULT_DB)
  {
    LoadedIndex(EMPTY, DEFAULT_DB, Archive([n], []), 0);
    assert NodeAt(u.graph, DEFAULT_DB, n.uri) == NodeAt(s.graph, name, n.uri)
        == NodeAt(ArchiveGraph(Archive([n], [])), DEFAULT_DB, n.uri);
    assert NodeAt(s.graph, DEFAULT_DB, n.uri).None?;
  }

  /** A load that stops after the first of two label groups, then a restore: it succeeds without the
      node of the second group. */
  lemma PartialRestore(maxActive: nat, name: string, a: Node, b: Node) returns (states: seq<State>, ops: seq<Op>)
    requires name != DEFAULT_DB && maxActive >= 1 && PlainLabels(a.labels) && PlainLabels(b.labels)
    requires a.uri != b.uri && a.MostSpecificLabel() != b.MostSpecificLabel()
    ensures ops == [OpFailedLoad(name), OpRestore(name)] && IsRun(maxActive, states, ops) && Coherent(states[0])
    ensures !CoherentAt(states[1], name)
    ensures NodeAt(states[2].graph, DEFAULT_DB, a.uri).Some? && NodeAt(states[2].graph, DEFAULT_DB, b.uri).None?
  {
    var s, t := HalfLoaded(name, a, b);
    HalfWayStep(maxActive, s, name, a, b, t);
    var u := RestoreLoaded(maxActive, t, name);
    states, ops := TwoSteps(maxActive, s, OpFailedLoad(name), t, OpRestore(name), u);
    PartialEnd(maxActive, states, ops, name, a, b);
  }

  /** From s the load of the two nodes stores the first group only. */
  ghost predicate HalfWay(s: State, name: string, a: Node, b: Node, t: State) {
    && name in s.archives && s.archives[name] == Archive([a, b], []) && ArchiveOk(Archive([a, b], []))
    && FailedBy(s, name, {a.MostSpecificLabel()}, {}, t)
  }

  lemma HalfWayStep(maxActive: nat, s: State, name: string, a: Node, b: Node, t: State)
    requires name != DEFAULT_DB && HalfWay(s, name, a, b, t)
    ensures Takes(maxActive, s, OpFailedLoad(name), t)
  {
    assert LoadFailed(s, name, t);
  }

  lemma HalfLoaded(name: string, a: Node, b: Node) returns (s: State, t: State)
    requires name != DEFAULT_DB && PlainLabels(a.labels) && PlainLabels(b.labels)
    requires a.uri != b.uri && a.MostSpecificLabel() != b.MostSpecificLabel()
    ensures Sourced(s) && Coherent(s) && HalfWay(s, name, a, b, t)
    ensures t.graph.HasData(name) && !CoherentAt(t, name)
  {
    var ar := Archive([a, b], []);
    s := State(EMPTY, map[name := ar], map[], 1);
    assert ArchiveOk(ar);
    var tags := {a.MostSpecificLabel()};
    t := Filled(s, name, Portion(ar, tags, {}));
    assert FailedBy(s, name, tags, {}, t);
    FailedLoadHolds(s, name, tags, {}, t);
    FailedLoadExactly(s, name, tags, {}, t);
    assert a in ar.nodes && b in ar.nodes;
  }

  lemma PartialEnd(maxActive: nat, states: seq<State>, ops: seq<Op>, name: string, a: Node, b: Node)
    requires IsRun(maxActive, states, ops) && maxActive >= 1 && name != DEFAULT_DB
    requires ops == [OpFailedLoad(name), OpRestore(name)] && HalfWay(states[0], name, a, b, states[1])
    requires a.uri != b.uri && a.MostSpecificLabel() != b.MostSpecificLabel() && states[1].graph.HasData(name)
    ensures NodeAt(states[2].graph, DEFAULT_DB, a.uri).Some? && NodeAt(states[2].graph, DEFAULT_DB, b.uri).None?
  {
    var tags := {a.MostSpecificLabel()};
    RestoreAfterFailedLoad(maxActive, states, ops, 0, 1, name, tags, {});
    OneOfTwo(a, b, tags, states[2]);
  }

  lemma OneOfTwo(a: Node, b: Node, tags: set<string>, u: State)
    requires a.uri != b.uri && a.MostSpecificLabel() in tags && b.MostSpecificLabel() !in tags
    requires ArchiveOk(Archive([a, b], []))
    requires Agree(u.graph, DEFAULT_DB, ArchiveGraph(Portion(Archive([a, b], []), tags, {})), DEFAULT_DB)
    ensures NodeAt(u.graph, DEFAULT_DB, a.uri).Some? && NodeAt(u.graph, DEFAULT_DB, b.uri).None?
  {
    var portion := Portion(Archive([a, b], []), tags, {});
    PortionOk(Archive([a, b], []), tags, {});
    LabelledInMembers([a, b], tags);
    assert a in [a, b] && b in [a, b];
    LoadedKeys(EMPTY, DEFAULT_DB, portion, a.uri);
    LoadedKeys(EMPTY, DEFAULT_DB, portion, b.uri);
    assert NodeAt(u.graph, DEFAULT_DB, a.uri) == NodeAt(ArchiveGraph(portion), DEFAULT_DB, a.uri);
    assert NodeAt(u.graph, DEFAULT_DB, b.uri) == NodeAt(ArchiveGraph(portion), DEFAULT_DB, b.uri);
  }
}
