/** Who may touch the graph when (internal/snapshot/graphlock.go): the processes of the service as
    a transition system over one read-write lock. Between two steps of a process any other process
    may take any number of steps, so the statements below are about every interleaving. */
module LockProtocol {
  import opened Common
  import opened GraphModel
  import opened GraphStore
  import opened Paging
  import opened SnapshotModel
  import opened SnapshotManager

  type Pid = int

  /** What a process can be asked to do. The first three write the default database, under the
      write lock; the last two read it, under the read lock. */
  datatype Task = FullSync | Restore(name: string) | HandleEvent | Create(name: string) | QueryTopology {
    predicate Writes() { FullSync? || Restore? || HandleEvent? }
  }

  /** Where a process is. Reading pages, Create remembers what it kept and the number of the next page. */
  datatype Local =
    | Idle
    | Waiting(task: Task)                  // its call of Lock or RLock has not returned
    | Writing(task: Task)
    | Querying
    | ReadingNodes(name: string, nodes: seq<Node>, page: nat)
    | ReadingRels(name: string, nodes: seq<Node>, rels: seq<Relation>, page: nat)
    | Exporting(name: string, nodes: seq<Node>, rels: seq<Relation>)
    | Exported
  {
    predicate Reads() { Querying? || ReadingNodes? || ReadingRels? || Exporting? || Exported? }
  }

  /** The lock does not know who holds it: one writer, or a number of readers. */
  datatype Lock = Lock(writer: bool, readers: nat)

  datatype System = System(graph: Graph, archives: map<string, Archive>, held: Lock, procs: map<Pid, Local>)

  datatype Action =
    | Call(p: Pid, task: Task)
    | Acquire(p: Pid)
    | AcquireShared(p: Pid)
    | Statement(p: Pid)                    // any statement of a writer, on any database
    | Unlocked(db: string)                 // Diff's loads, cleanup and Delete: they take no lock
    | NodePage(p: Pid)
    | RelPage(p: Pid)
    | WriteArchive(p: Pid)
    | Release(p: Pid)
    | ReleaseShared(p: Pid)

  /** The first thing a reader does once it has the lock. */
  function Started(task: Task): Local
    requires !task.Writes()
  {
    if task.QueryTopology? then Querying else ReadingNodes(task.name, [], 0)
  }

  function AfterNodePage(l: Local, rows: seq<Node>): Local
    requires l.ReadingNodes?
  {
    var nodes := l.nodes + KeptNodes(rows);
    if |rows| < PAGE_SIZE then ReadingRels(l.name, nodes, [], 0) else ReadingNodes(l.name, nodes, l.page + 1)
  }

  function AfterRelPage(l: Local, rows: seq<Relation>): Local
    requires l.ReadingRels?
  {
    var rels := l.rels + KeptRels(rows);
    if |rows| < PAGE_SIZE then Exporting(l.name, l.nodes, rels) else ReadingRels(l.name, l.nodes, rels, l.page + 1)
  }

  /** Process p moves on to l; nothing else changes. */
  ghost predicate Moves(s: System, p: Pid, l: Local, t: System) {
    t == s.(procs := s.procs[p := l])
  }

  /** A process may stop holding the lock at any point: every error path releases it. */
  ghost predicate Next(s: System, a: Action, t: System) {
    match a
    case Call(p, task) =>
      p in s.procs && s.procs[p].Idle? && Moves(s, p, Waiting(task), t)
    case Acquire(p) =>
      && p in s.procs && s.procs[p].Waiting? && s.procs[p].task.Writes()
      && !s.held.writer && s.held.readers == 0
      && t == s.(held := s.held.(writer := true), procs := s.procs[p := Writing(s.procs[p].task)])
    case AcquireShared(p) =>
      && p in s.procs && s.procs[p].Waiting? && !s.procs[p].task.Writes() && !s.held.writer
      && t == s.(held := s.held.(readers := s.held.readers + 1), procs := s.procs[p := Started(s.procs[p].task)])
    case Statement(p) =>
      p in s.procs && s.procs[p].Writing? && t == s.(graph := t.graph)
    case Unlocked(db) =>
      db != DEFAULT_DB && SameOutside(s.graph, t.graph, db) && t == s.(graph := t.graph)
    case NodePage(p) =>
      && p in s.procs && s.procs[p].ReadingNodes?
      && exists listing :: NodeListing(s.graph, listing)
           && Moves(s, p, AfterNodePage(s.procs[p], Page(listing, s.procs[p].page, PAGE_SIZE)), t)
    case RelPage(p) =>
      && p in s.procs && s.procs[p].ReadingRels?
      && exists listing :: RelListing(s.graph, listing)
           && Moves(s, p, AfterRelPage(s.procs[p], Page(listing, s.procs[p].page, PAGE_SIZE)), t)
    case WriteArchive(p) =>
      && p in s.procs && s.procs[p].Exporting?
      && var l := s.procs[p];
         t == s.(archives := s.archives[l.name := Archive(l.nodes, l.rels)], procs := s.procs[p := Exported])
    case Release(p) =>
      && p in s.procs && s.procs[p].Writing?
      && t == s.(held := s.held.(writer := false), procs := s.procs[p := Idle])
    case ReleaseShared(p) =>
      && p in s.procs && s.procs[p].Reads() && s.held.readers > 0
      && t == s.(held := s.held.(readers := s.held.readers - 1), procs := s.procs[p := Idle])
  }

  ghost predicate Initial(s: System) {
    s.archives == map[] && s.held == Lock(false, 0) && forall p :: p in s.procs ==> s.procs[p].Idle?
  }

  ghost predicate IsRun(run: seq<System>, actions: seq<Action>) {
    && |run| == |actions| + 1 && Initial(run[0])
    && forall i :: 0 <= i < |actions| ==> Next(run[i], actions[i], run[i + 1])
  }

  function Last(run: seq<System>): System
    requires run != []
  {
    run[|run| - 1]
  }

  // ---------------------------------------------------------------- mutual exclusion

  function WritersOf(procs: map<Pid, Local>): set<Pid> { set p | p in procs && procs[p].Writing? }

  function ReadersOf(procs: map<Pid, Local>): set<Pid> { set p | p in procs && procs[p].Reads() }

  /** The lock counts the processes that are past it. */
  ghost predicate Accounted(s: System) {
    && |ReadersOf(s.procs)| == s.held.readers
    && |WritersOf(s.procs)| == (if s.held.writer then 1 else 0)
    && (s.held.writer ==> s.held.readers == 0)
  }

  function One(b: bool): nat { if b then 1 else 0 }

  /** How moving one process changes the two numbers. */
  lemma WriterMoved(procs: map<Pid, Local>, p: Pid, l: Local)
    requires p in procs
    ensures |WritersOf(procs[p := l])| == |WritersOf(procs)| + One(l.Writing?) - One(procs[p].Writing?)
  {
    var w, v := WritersOf(procs), WritersOf(procs[p := l]);
    assert v - {p} == w - {p};
    assert |w| == |w - {p}| + One(p in w) && |v| == |v - {p}| + One(p in v);
  }

  lemma ReaderMoved(procs: map<Pid, Local>, p: Pid, l: Local)
    requires p in procs
    ensures |ReadersOf(procs[p := l])| == |ReadersOf(procs)| + One(l.Reads()) - One(procs[p].Reads())
  {
    var r, v := ReadersOf(procs), ReadersOf(procs[p := l]);
    assert v - {p} == r - {p};
    assert |r| == |r - {p}| + One(p in r) && |v| == |v - {p}| + One(p in v);
  }

  lemma StepAccounted(s: System, a: Action, t: System)
    requires Accounted(s) && Next(s, a, t)
    ensures Accounted(t)
  {
    if !a.Statement? && !a.Unlocked? {
      WriterMoved(s.procs, a.p, t.procs[a.p]);
      ReaderMoved(s.procs, a.p, t.procs[a.p]);
    }
  }

  lemma NoneIn(procs: map<Pid, Local>)
    requires forall p :: p in procs ==> procs[p].Idle?
    ensures ReadersOf(procs) == {} && WritersOf(procs) == {}
  {
    forall p ensures p !in ReadersOf(procs) && p !in WritersOf(procs) {
      assert p in procs ==> procs[p].Idle?;
    }
  }

  lemma InitialAccounted(s: System)
    requires Initial(s)
    ensures Accounted(s)
  {
    NoneIn(s.procs);
  }

  lemma {:induction false} RunAccounted(run: seq<System>, actions: seq<Action>)
    requires IsRun(run, actions)
    ensures Accounted(Last(run))
    decreases |actions|
  {
    if actions == [] {
      InitialAccounted(run[0]);
    } else {
      var n := |actions| - 1;
      RunAccounted(run[..n + 1], actions[..n]);
      StepAccounted(run[n], actions[n], run[n + 1]);
    }
  }

  /** In every run a process that writes under the lock is alone: no other writes or reads under it. */
  lemma MutualExclusion(run: seq<System>, actions: seq<Action>, p: Pid, q: Pid)
    requires IsRun(run, actions)
    requires p in Last(run).procs && Last(run).procs[p].Writing? && q in Last(run).procs && q != p
    ensures !Last(run).procs[q].Writing? && !Last(run).procs[q].Reads()
  {
    RunAccounted(run, actions);
    var s := Last(run);
    Holding(s, p);
    Holding(s, q);
    AtMostOne(WritersOf(s.procs), p, q);
  }

  lemma SomeoneIsPast(procs: map<Pid, Local>)
    ensures (exists q :: q in procs && procs[q].Writing?) || WritersOf(procs) == {}
    ensures (exists q :: q in procs && procs[q].Reads()) || ReadersOf(procs) == {}
  {
    assert (forall q :: q in procs ==> !procs[q].Writing?) ==> forall q :: q !in WritersOf(procs);
    assert (forall q :: q in procs ==> !procs[q].Reads()) ==> forall q :: q !in ReadersOf(procs);
  }

  /** No run ends with a process that waits for nobody: it can have the lock, or someone can give it back. */
  lemma NobodyStuck(run: seq<System>, actions: seq<Action>, p: Pid) returns (a: Action, t: System)
    requires IsRun(run, actions) && p in Last(run).procs && Last(run).procs[p].Waiting?
    ensures Next(Last(run), a, t) && (a == Acquire(p) || a == AcquireShared(p) || a.Release? || a.ReleaseShared?)
  {
    RunAccounted(run, actions);
    var s := Last(run);
    if s.held.writer {
      SomeoneIsPast(s.procs);
      var q :| q in s.procs && s.procs[q].Writing?;
      a, t := Release(q), s.(held := s.held.(writer := false), procs := s.procs[q := Idle]);
    } else if !s.procs[p].task.Writes() {
      a := AcquireShared(p);
      t := s.(held := s.held.(readers := s.held.readers + 1), procs := s.procs[p := Started(s.procs[p].task)]);
    } else if s.held.readers > 0 {
      SomeoneIsPast(s.procs);
      var q :| q in s.procs && s.procs[q].Reads();
      a, t := ReleaseShared(q), s.(held := s.held.(readers := s.held.readers - 1), procs := s.procs[q := Idle]);
    } else {
      a, t := Acquire(p), s.(held := s.held.(writer := true), procs := s.procs[p := Writing(s.procs[p].task)]);
    }
  }

  /** Whoever is past the lock is seen by the lock. */
  lemma Holding(s: System, p: Pid)
    requires Accounted(s) && p in s.procs
    ensures s.procs[p].Writing? ==> s.held.writer && p in WritersOf(s.procs)
    ensures s.procs[p].Reads() ==> s.held.readers > 0
  {
    assert s.procs[p].Writing? ==> p in WritersOf(s.procs);
    assert s.procs[p].Reads() ==> p in ReadersOf(s.procs);
  }

  lemma AtMostOne(s: set<Pid>, p: Pid, q: Pid)
    requires |s| <= 1 && p in s
    ensures q in s ==> q == p
  {
    assert |s - {p}| == |s| - 1;
    assert q in s && q != p ==> q in s - {p};
  }

  // ---------------------------------------------------------------- one version of the default database

  /** The default database is the same in both graphs. */
  ghost predicate SameDefault(g: Graph, h: Graph) {
    && (forall k: NodeKey :: k.db == DEFAULT_DB ==> g.Node(k) == h.Node(k))
    && (forall e: Edge :: e.db == DEFAULT_DB ==> g.Multiplicity(e) == h.Multiplicity(e))
  }

  lemma SameNodeListing(g: Graph, h: Graph, s: seq<Node>)
    requires SameDefault(g, h) && NodeListing(g, s)
    ensures NodeListing(h, s)
  {
    forall k | k in h.nodes && k.db == DEFAULT_DB ensures Node(h.nodes[k].labels, k.uri, h.nodes[k].props) in s {
      assert h.Node(k) == g.Node(k);
    }
    forall n | n in s ensures h.Node(NodeKey(DEFAULT_DB, n.uri)) == Some(NodeRec(n.labels, n.props)) {
      assert h.Node(NodeKey(DEFAULT_DB, n.uri)) == g.Node(NodeKey(DEFAULT_DB, n.uri));
    }
  }

  lemma SameRelListing(g: Graph, h: Graph, s: seq<Relation>)
    requires SameDefault(g, h) && RelListing(g, s)
    ensures RelListing(h, s)
  {
    forall e: Edge | e.db == DEFAULT_DB ensures Occurrences(DEFAULT_DB, s, e) == h.Multiplicity(e) {
      assert g.Multiplicity(e) == h.Multiplicity(e);
    }
  }

  ghost predicate NodesSoFar(g: Graph, nodes: seq<Node>, page: nat) {
    exists listings, total :: NodePagesRead(g, listings, page, nodes, total, true)
  }

  ghost predicate RelsSoFar(g: Graph, rels: seq<Relation>, page: nat) {
    exists listings, total :: RelPagesRead(g, listings, page, rels, total, true)
  }

  /** What a reader holds so far has all been read from g. */
  ghost predicate ReadFrom(g: Graph, l: Local) {
    match l
    case ReadingNodes(name, nodes, page) => NodesSoFar(g, nodes, page)
    case ReadingRels(name, nodes, rels, page) => CapturesNodes(g, DEFAULT_DB, nodes) && RelsSoFar(g, rels, page)
    case Exporting(name, nodes, rels) => Exports(g, Archive(nodes, rels))
    case _ => true
  }

  lemma OnePageMore(g: Graph, nodes: seq<Node>, page: nat, listing: seq<Node>) returns (listings: seq<seq<Node>>, total: nat)
    requires NodesSoFar(g, nodes, page) && NodeListing(g, listing)
    ensures var rows := Page(listing, page, PAGE_SIZE);
      NodePagesRead(g, listings, page + 1, nodes + KeptNodes(rows), total, |rows| >= PAGE_SIZE)
  {
    listings, total :| NodePagesRead(g, listings, page, nodes, total, true);
    NodePageStep(g, listings, page, nodes, total, listing, Page(listing, page, PAGE_SIZE));
    listings, total := listings + [listing], |listing|;
  }

  lemma NodePageFrom(g: Graph, l: Local, listing: seq<Node>)
    requires l.ReadingNodes? && NodesSoFar(g, l.nodes, l.page) && NodeListing(g, listing)
    ensures ReadFrom(g, AfterNodePage(l, Page(listing, l.page, PAGE_SIZE)))
  {
    var listings, total := OnePageMore(g, l.nodes, l.page, listing);
    var rows := Page(listing, l.page, PAGE_SIZE);
    if |rows| < PAGE_SIZE {
      AllNodePages(g, listings, l.page + 1, l.nodes + KeptNodes(rows), total);
      NoRels(g);
    }
  }

  lemma NoNodes(g: Graph)
    ensures NodesSoFar(g, [], 0)
  {
    assert NodePagesRead(g, [], 0, [], 0, true);
  }

  lemma NoRels(g: Graph)
    ensures RelsSoFar(g, [], 0)
  {
    assert RelPagesRead(g, [], 0, [], 0, true);
  }

  lemma RelPageFrom(g: Graph, l: Local, listing: seq<Relation>)
    requires l.ReadingRels? && ReadFrom(g, l) && RelListing(g, listing)
    ensures ReadFrom(g, AfterRelPage(l, Page(listing, l.page, PAGE_SIZE)))
  {
    var listings, total :| RelPagesRead(g, listings, l.page, l.rels, total, true);
    var rows := Page(listing, l.page, PAGE_SIZE);
    var rels := l.rels + KeptRels(rows);
    RelPageStep(g, listings, l.page, l.rels, total, listing, rows);
    if |rows| < PAGE_SIZE {
      AllRelPages(g, listings + [listing], l.page + 1, rels, |listing|);
    }
  }

  /** From moment j of the run on, the default database has not changed, and reader l has read it. */
  ghost predicate Since(run: seq<System>, j: nat, l: Local) {
    && j < |run| && ReadFrom(run[j].graph, l)
    && forall k :: j <= k < |run| ==> SameDefault(run[j].graph, run[k].graph)
  }

  /** Every reader has read a single version of the default database, the present one, and every
      archive is the export of the default database of one moment. */
  ghost predicate OneVersion(run: seq<System>) {
    && run != []
    && (forall p :: p in Last(run).procs && Last(run).procs[p].Reads() ==> exists j :: Since(run, j, Last(run).procs[p]))
    && (forall name :: name in Last(run).archives ==> exists j :: ExportOf(run, j, Last(run).archives[name]))
  }

  ghost predicate ExportOf(run: seq<System>, j: nat, ar: Archive) {
    j < |run| && Exports(run[j].graph, ar)
  }

  /** A step leaves the default database alone while anyone reads it. */
  lemma ReadersProtect(s: System, a: Action, t: System, p: Pid)
    requires Accounted(s) && Next(s, a, t) && p in s.procs && s.procs[p].Reads()
    ensures SameDefault(s.graph, t.graph)
  {
    Holding(s, p);
    if a.Statement? {
      Holding(s, a.p);
      assert false;
    }
  }

  lemma SinceStep(run: seq<System>, t: System, j: nat, l: Local, m: Local)
    requires run != [] && Since(run, j, l) && SameDefault(Last(run).graph, t.graph) && ReadFrom(run[j].graph, m)
    ensures Since(run + [t], j, m)
  {
    var next := run + [t];
    forall k | j <= k < |next| ensures SameDefault(next[j].graph, next[k].graph) {
      if k == |run| {
        assert SameDefault(run[j].graph, Last(run).graph);
      } else {
        assert next[k] == run[k];
      }
    }
  }

  /** What the process that moves holds afterwards was read from the same version. */
  lemma ReaderStep(run: seq<System>, a: Action, t: System, j: nat)
    requires run != [] && Next(Last(run), a, t) && (a.NodePage? || a.RelPage? || a.WriteArchive?)
    requires Since(run, j, Last(run).procs[a.p])
    ensures ReadFrom(run[j].graph, t.procs[a.p])
  {
    var s := Last(run);
    var l := s.procs[a.p];
    assert SameDefault(run[j].graph, s.graph);
    if a.NodePage? {
      var listing :| NodeListing(s.graph, listing) && Moves(s, a.p, AfterNodePage(l, Page(listing, l.page, PAGE_SIZE)), t);
      SameNodeListing(s.graph, run[j].graph, listing);
      NodePageFrom(run[j].graph, l, listing);
    } else if a.RelPage? {
      var listing :| RelListing(s.graph, listing) && Moves(s, a.p, AfterRelPage(l, Page(listing, l.page, PAGE_SIZE)), t);
      SameRelListing(s.graph, run[j].graph, listing);
      RelPageFrom(run[j].graph, l, listing);
    }
  }

  /** Process p, a reader after the step, has read a version that is still the present one. */
  lemma StepReader(run: seq<System>, a: Action, t: System, p: Pid)
    requires OneVersion(run) && Accounted(Last(run)) && Next(Last(run), a, t)
    requires p in t.procs && t.procs[p].Reads()
    ensures exists j :: Since(run + [t], j, t.procs[p])
  {
    var s := Last(run);
    if a.AcquireShared? && a.p == p {
      NoNodes(t.graph);
      assert Since(run + [t], |run|, t.procs[p]);
    } else {
      assert p in s.procs && s.procs[p].Reads();
      var j :| Since(run, j, s.procs[p]);
      ReadersProtect(s, a, t, p);
      if (a.NodePage? || a.RelPage? || a.WriteArchive?) && a.p == p {
        ReaderStep(run, a, t, j);
      }
      SinceStep(run, t, j, s.procs[p], t.procs[p]);
    }
  }

  lemma StepArchive(run: seq<System>, a: Action, t: System, name: string)
    requires OneVersion(run) && Next(Last(run), a, t) && name in t.archives
    ensures exists j :: ExportOf(run + [t], j, t.archives[name])
  {
    var s := Last(run);
    if a.WriteArchive? && name == s.procs[a.p].name {
      var j :| Since(run, j, s.procs[a.p]);
      assert ExportOf(run + [t], j, t.archives[name]);
    } else {
      var j :| ExportOf(run, j, s.archives[name]);
      assert ExportOf(run + [t], j, t.archives[name]);
    }
  }

  lemma StepOneVersion(run: seq<System>, a: Action, t: System)
    requires OneVersion(run) && Accounted(Last(run)) && Next(Last(run), a, t)
    ensures OneVersion(run + [t])
  {
    forall p | p in t.procs && t.procs[p].Reads() ensures exists j :: Since(run + [t], j, t.procs[p]) {
      StepReader(run, a, t, p);
    }
    forall name | name in t.archives ensures exists j :: ExportOf(run + [t], j, t.archives[name]) {
      StepArchive(run, a, t, name);
    }
  }

  /** In every interleaving, all pages a reader has read come from one version of the default
      database, and every archive is the default database as it stood at one moment of the run. */
  lemma {:induction false} ExportIsOneMoment(run: seq<System>, actions: seq<Action>)
    requires IsRun(run, actions)
    ensures OneVersion(run)
    decreases |actions|
  {
    if actions != [] {
      var n := |actions| - 1;
      var before := run[..n + 1];
      ExportIsOneMoment(before, actions[..n]);
      RunAccounted(before, actions[..n]);
      StepOneVersion(before, actions[n], run[n + 1]);
      assert run == before + [run[n + 1]];
    }
  }
}
