/** Why redelivery is harmless. On one node or one relationship every event acts as a constant or
    as the identity on each part of it, so an event that is followed by itself again, with anything
    in between, need not have come the first time. internal/events/kafka_consumer.go relies on it. */
module Replay {
  import opened Common
  import opened GraphModel

  // ---------------------------------------------------------------- what an event does

  datatype Action =
    | Load(rows: seq<Write>, links: set<Edge>)   // MERGE nodes, then relationships
    | Remove(uris: set<string>)                  // DETACH DELETE
    | Unlink(links: set<Edge>)                   // DELETE relationships
    | Nothing

  function Linked(g: Graph, links: set<Edge>): Graph {
    Graph(g.nodes, (map e | e in links && g.Joins(e) :: 1) + g.edges)
  }

  function Unlinked(g: Graph, links: set<Edge>): Graph {
    Graph(g.nodes, g.edges - links)
  }

  function Apply(g: Graph, db: string, a: Action): Graph {
    match a
    case Load(rows, links) => Linked(WriteAll(g, db, rows), links)
    case Remove(uris) => Detached(g, db, uris)
    case Unlink(links) => Unlinked(g, links)
    case Nothing => g
  }

  function Run(g: Graph, db: string, log: seq<Action>): Graph
    decreases |log|
  {
    if log == [] then g else Run(Apply(g, db, log[0]), db, log[1..])
  }

  /** What labels the nodes of a URI carry. */
  type LabelsByUri = string -> seq<string>

  /** The rows of an action carry the labels of their URI, and both ends of every relationship it
      merges are among its rows. */
  ghost predicate SelfContained(a: Action, db: string, labelsOf: LabelsByUri) {
    a.Load? ==>
      && (forall w :: w in a.rows ==> w.labels == labelsOf(w.uri))
      && (forall e :: e in a.links ==> e.db == db && HasRow(a.rows, e.from) && HasRow(a.rows, e.to))
  }

  ghost predicate HasRow(rows: seq<Write>, uri: string) {
    exists w :: w in rows && w.uri == uri
  }

  ghost predicate AllSelfContained(log: seq<Action>, db: string, labelsOf: LabelsByUri) {
    forall i :: 0 <= i < |log| ==> SelfContained(log[i], db, labelsOf)
  }

  // ---------------------------------------------------------------- effects on one node

  /** Forget the node if `reset`; then, if `touch`, make sure it is there and set `writes`. */
  datatype Effect = Effect(reset: bool, touch: bool, writes: Props) {
    ghost predicate Valid() { !touch ==> writes == map[] }
  }

  const NO_EFFECT := Effect(false, false, map[])

  function Perform(f: Effect, db: string, uri: string, labels: seq<string>, before: Option<NodeRec>): Option<NodeRec> {
    var base := if f.reset then None else before;
    if !f.touch then base
    else match base
      case Some(rec) => Some(NodeRec(rec.labels, SetPlus(rec.props, f.writes)))
      case None => Some(NodeRec(labels, SetPlus(Ident(db, uri), f.writes)))
  }

  function Then(f: Effect, g: Effect): Effect {
    if g.reset then g else Effect(f.reset, f.touch || g.touch, f.writes + g.writes)
  }

  lemma SetPlusTwice(p: Props, q: Props, r: Props)
    ensures SetPlus(SetPlus(p, q), r) == SetPlus(p, q + r)
  {
  }

  lemma PerformThen(f: Effect, g: Effect, db: string, uri: string, labels: seq<string>, before: Option<NodeRec>)
    requires f.Valid() && g.Valid()
    ensures Then(f, g).Valid()
    ensures Perform(Then(f, g), db, uri, labels, before)
         == Perform(g, db, uri, labels, Perform(f, db, uri, labels, before))
  {
    var base := if f.reset then None else before;
    var p := if base.Some? then base.value.props else Ident(db, uri);
    SetPlusTwice(p, f.writes, g.writes);
    assert map[] + g.writes == g.writes;
    assert f.writes + map[] == f.writes;
  }

  /** After `whole` nothing of f is left: it forgets the node, or writes whatever f writes. */
  ghost predicate Covers(whole: Effect, f: Effect) {
    whole.reset || (!f.reset && (f.touch ==> whole.touch) && f.writes.Keys <= whole.writes.Keys)
  }

  /** An effect that comes again later, whole, need not have come before, whole or in part. */
  lemma EffectAgain(f: Effect, g: Effect, whole: Effect)
    requires Covers(whole, f)
    ensures Then(Then(f, g), whole) == Then(g, whole)
  {
    if !whole.reset && !g.reset {
      assert f.writes + g.writes + whole.writes == g.writes + whole.writes;
    }
  }

  lemma CoversThen(whole: Effect, f: Effect, next: Effect, g: Effect)
    requires Covers(whole, f) && Covers(next, g)
    ensures Covers(Then(whole, next), Then(f, g))
  {
  }

  function RowsEffect(rows: seq<Write>): Effect
    decreases |rows|
    ensures RowsEffect(rows).Valid() && !RowsEffect(rows).reset
  {
    if rows == [] then NO_EFFECT
    else Then(RowsEffect(rows[..|rows| - 1]), Effect(false, true, rows[|rows| - 1].props))
  }

  function NodeEffect(a: Action, uri: string): Effect
    ensures NodeEffect(a, uri).Valid()
  {
    match a
    case Load(rows, _) => RowsEffect(ForUri(rows, uri))
    case Remove(uris) => if uri in uris then Effect(true, false, map[]) else NO_EFFECT
    case _ => NO_EFFECT
  }

  lemma {:induction false} RowsPerform(rows: seq<Write>, db: string, uri: string, labels: seq<string>, before: Option<NodeRec>)
    requires forall w :: w in rows ==> w.uri == uri && w.labels == labels
    ensures WrittenAll(db, before, rows) == Perform(RowsEffect(rows), db, uri, labels, before)
    decreases |rows|
  {
    if rows != [] {
      var init, last := rows[..|rows| - 1], rows[|rows| - 1];
      assert rows == init + [last];
      RowsPerform(init, db, uri, labels, before);
      WrittenAllConcat(db, before, init, [last]);
      assert last in rows;
      var mid := WrittenAll(db, before, init);
      assert WrittenAll(db, mid, [last]) == Some(Written(db, mid, last));
      PerformThen(RowsEffect(init), Effect(false, true, last.props), db, uri, labels, before);
    }
  }

  lemma ApplyAtNode(g: Graph, db: string, a: Action, labelsOf: LabelsByUri, k: NodeKey)
    requires SelfContained(a, db, labelsOf)
    ensures Apply(g, db, a).Node(k)
         == if k.db == db then Perform(NodeEffect(a, k.uri), db, k.uri, labelsOf(k.uri), g.Node(k)) else g.Node(k)
  {
    if a.Load? {
      WriteAllAt(g, db, a.rows, k);
      var mine := ForUri(a.rows, k.uri);
      ForUriOnly(a.rows, k.uri);
      RowsPerform(mine, db, k.uri, labelsOf(k.uri), g.Node(k));
    }
  }

  // ---------------------------------------------------------------- effects on one relationship

  /** On the multiplicity of a relationship. */
  datatype LinkEffect = Keep | AtLeastOne | Zero | One

  function PerformLink(f: LinkEffect, m: nat): nat {
    match f
    case Keep => m
    case AtLeastOne => if m == 0 then 1 else m
    case Zero => 0
    case One => 1
  }

  function ThenLink(f: LinkEffect, g: LinkEffect): LinkEffect {
    match g
    case Keep => f
    case AtLeastOne => if f.Keep? then AtLeastOne else if f.Zero? then One else f
    case _ => g
  }

  predicate CoversLink(whole: LinkEffect, f: LinkEffect) {
    whole.Zero? || whole.One? || f.Keep? || (whole.AtLeastOne? && f.AtLeastOne?)
  }

  lemma LinkAgain(f: LinkEffect, g: LinkEffect, whole: LinkEffect)
    requires CoversLink(whole, f)
    ensures ThenLink(ThenLink(f, g), whole) == ThenLink(g, whole)
  {
  }

  lemma PerformThenLink(f: LinkEffect, g: LinkEffect, m: nat)
    ensures PerformLink(ThenLink(f, g), m) == PerformLink(g, PerformLink(f, m))
  {
  }

  lemma CoversThenLink(whole: LinkEffect, f: LinkEffect, next: LinkEffect, g: LinkEffect)
    requires CoversLink(whole, f) && CoversLink(next, g)
    ensures CoversLink(ThenLink(whole, next), ThenLink(f, g))
  {
  }

  function EdgeEffect(a: Action, db: string, e: Edge): LinkEffect {
    match a
    case Load(_, links) => if e in links then AtLeastOne else Keep
    case Remove(uris) => if e.db == db && (e.from in uris || e.to in uris) then Zero else Keep
    case Unlink(links) => if e in links then Zero else Keep
    case Nothing => Keep
  }

  lemma {:induction false} RowThere(g: Graph, db: string, rows: seq<Write>, uri: string)
    requires HasRow(rows, uri)
    ensures NodeKey(db, uri) in WriteAll(g, db, rows).nodes
    decreases |rows|
  {
    var k := NodeKey(db, uri);
    WriteAllAt(g, db, rows, k);
    ForUriOnly(rows, uri);
    var mine := ForUri(rows, uri);
    var w :| w in rows && w.uri == uri;
    assert w in mine;
    var last := |mine| - 1;
    WrittenAllConcat(db, g.Node(k), mine[..last], [mine[last]]);
    assert mine == mine[..last] + [mine[last]];
    var mid := WrittenAll(db, g.Node(k), mine[..last]);
    assert WrittenAll(db, mid, [mine[last]]) == Some(Written(db, mid, mine[last]));
  }

  /** This is where it matters that both ends of a merged relationship are in the same batch. */
  lemma ApplyAtEdge(g: Graph, db: string, a: Action, labelsOf: LabelsByUri, e: Edge)
    requires SelfContained(a, db, labelsOf)
    ensures Apply(g, db, a).Multiplicity(e) == PerformLink(EdgeEffect(a, db, e), g.Multiplicity(e))
  {
    if a.Load? {
      WriteAllAt(g, db, a.rows, NodeKey("", ""));
      if e in a.links {
        RowThere(g, db, a.rows, e.from);
        RowThere(g, db, a.rows, e.to);
      }
    }
  }

  // ---------------------------------------------------------------- runs

  function RunNodeEffect(log: seq<Action>, uri: string): Effect
    decreases |log|
    ensures RunNodeEffect(log, uri).Valid()
  {
    if log == [] then NO_EFFECT
    else Then(RunNodeEffect(log[..|log| - 1], uri), NodeEffect(log[|log| - 1], uri))
  }

  function RunEdgeEffect(log: seq<Action>, db: string, e: Edge): LinkEffect
    decreases |log|
  {
    if log == [] then Keep
    else ThenLink(RunEdgeEffect(log[..|log| - 1], db, e), EdgeEffect(log[|log| - 1], db, e))
  }

  lemma {:induction false} RunConcat(g: Graph, db: string, a: seq<Action>, b: seq<Action>)
    ensures Run(g, db, a + b) == Run(Run(g, db, a), db, b)
    decreases |a|
  {
    if a == [] {
      assert a + b == b;
    } else {
      assert (a + b)[1..] == a[1..] + b;
      RunConcat(Apply(g, db, a[0]), db, a[1..], b);
    }
  }

  lemma RunLast(g: Graph, db: string, log: seq<Action>)
    requires log != []
    ensures Run(g, db, log) == Apply(Run(g, db, log[..|log| - 1]), db, log[|log| - 1])
  {
    var init, last := log[..|log| - 1], log[|log| - 1];
    assert log == init + [last];
    RunConcat(g, db, init, [last]);
    assert Run(Run(g, db, init), db, [last]) == Run(Apply(Run(g, db, init), db, last), db, []);
  }

  lemma {:induction false} RunAtNode(g: Graph, db: string, log: seq<Action>, labelsOf: LabelsByUri, k: NodeKey)
    requires AllSelfContained(log, db, labelsOf)
    ensures Run(g, db, log).Node(k)
         == if k.db == db then Perform(RunNodeEffect(log, k.uri), db, k.uri, labelsOf(k.uri), g.Node(k)) else g.Node(k)
    decreases |log|
  {
    if log != [] {
      var init, last := log[..|log| - 1], log[|log| - 1];
      RunLast(g, db, log);
      RunAtNode(g, db, init, labelsOf, k);
      ApplyAtNode(Run(g, db, init), db, last, labelsOf, k);
      PerformThen(RunNodeEffect(init, k.uri), NodeEffect(last, k.uri), db, k.uri, labelsOf(k.uri), g.Node(k));
    }
  }

  lemma {:induction false} RunAtEdge(g: Graph, db: string, log: seq<Action>, labelsOf: LabelsByUri, e: Edge)
    requires AllSelfContained(log, db, labelsOf)
    ensures Run(g, db, log).Multiplicity(e) == PerformLink(RunEdgeEffect(log, db, e), g.Multiplicity(e))
    decreases |log|
  {
    if log != [] {
      var init, last := log[..|log| - 1], log[|log| - 1];
      RunLast(g, db, log);
      RunAtEdge(g, db, init, labelsOf, e);
      ApplyAtEdge(Run(g, db, init), db, last, labelsOf, e);
      PerformThenLink(RunEdgeEffect(init, db, e), EdgeEffect(last, db, e), g.Multiplicity(e));
    }
  }

  // ---------------------------------------------------------------- handlers that stop half-way

  /** What a handler of `a` that fails may have done: the rows of some groups, relationships only
      once all rows are there, some of the deletions of relationships, or nothing. */
  ghost predicate PartOf(p: Action, a: Action) {
    match a
    case Load(rows, links) =>
      && p.Load? && p.links <= links && (p.links != {} ==> p.rows == rows)
      && exists groups :: p.rows == InGroups(rows, groups)
    case Remove(_) => p == a || p == Nothing
    case Unlink(links) => p.Unlink? && p.links <= links
    case Nothing => p == Nothing
  }

  ghost predicate PartsOf(ps: seq<Action>, acts: seq<Action>) {
    |ps| == |acts| && forall i :: 0 <= i < |acts| ==> PartOf(ps[i], acts[i])
  }

  lemma {:induction false} AllGroups(rows: seq<Write>)
    ensures InGroups(rows, set w | w in rows :: w.group) == rows
  {
    InAllGroups(rows, set w | w in rows :: w.group);
  }

  lemma WholeIsPart(a: Action)
    ensures PartOf(a, a)
  {
    if a.Load? { AllGroups(a.rows); }
  }

  lemma {:induction false} SomeGroups(rows: seq<Write>, groups: set<string>)
    ensures forall w :: w in InGroups(rows, groups) <==> w in rows && w.group in groups
  {
    if rows != [] {
      SomeGroups(rows[1..], groups);
    }
  }

  lemma PartStaysSelfContained(p: Action, a: Action, db: string, labelsOf: LabelsByUri)
    requires PartOf(p, a) && SelfContained(a, db, labelsOf)
    ensures SelfContained(p, db, labelsOf)
  {
    if a.Load? {
      var groups :| p.rows == InGroups(a.rows, groups);
      SomeGroups(a.rows, groups);
    }
  }

  lemma PartsStaySelfContained(ps: seq<Action>, acts: seq<Action>, db: string, labelsOf: LabelsByUri)
    requires PartsOf(ps, acts) && AllSelfContained(acts, db, labelsOf)
    ensures AllSelfContained(ps, db, labelsOf)
  {
    forall i | 0 <= i < |ps| ensures SelfContained(ps[i], db, labelsOf) {
      PartStaysSelfContained(ps[i], acts[i], db, labelsOf);
    }
  }

  lemma {:induction false} RowsCover(rows: seq<Write>, groups: set<string>, uri: string)
    ensures Covers(RowsEffect(ForUri(rows, uri)), RowsEffect(ForUri(InGroups(rows, groups), uri)))
    decreases |rows|
  {
    if rows != [] {
      var init, last := rows[..|rows| - 1], rows[|rows| - 1];
      assert rows == init + [last];
      RowsCover(init, groups, uri);
      ForUriSnoc(init, last, uri);
      InGroupsSnoc(init, last, groups);
      ForUriSnoc(InGroups(init, groups), last, uri);
      OneMoreCovered(ForUri(init, uri), ForUri(InGroups(init, groups), uri), last, last.uri == uri, last.group in groups);
      var mine, part := ForUri(init, uri), ForUri(InGroups(init, groups), uri);
      assert part + [] == part;
      if last.group !in groups {
        assert InGroups(init, groups) + [] == InGroups(init, groups);
      }
      assert ForUri(rows, uri) == mine + if last.uri == uri then [last] else [];
      assert ForUri(InGroups(rows, groups), uri) == part + if last.uri == uri && last.group in groups then [last] else [];
    }
  }

  lemma OneMoreCovered(mine: seq<Write>, part: seq<Write>, w: Write, own: bool, stored: bool)
    requires Covers(RowsEffect(mine), RowsEffect(part))
    ensures Covers(RowsEffect(mine + if own then [w] else []), RowsEffect(part + if own && stored then [w] else []))
  {
    var e := Effect(false, true, w.props);
    RowsSnoc(mine, w);
    RowsSnoc(part, w);
    assert mine + [] == mine && part + [] == part;
    CoversThen(RowsEffect(mine), RowsEffect(part), e, e);
  }

  lemma RowsSnoc(rows: seq<Write>, w: Write)
    ensures RowsEffect(rows + [w]) == Then(RowsEffect(rows), Effect(false, true, w.props))
  {
    assert (rows + [w])[..|rows|] == rows;
  }

  lemma {:induction false} ForUriSnoc(rows: seq<Write>, w: Write, uri: string)
    ensures ForUri(rows + [w], uri) == ForUri(rows, uri) + if w.uri == uri then [w] else []
  {
    if rows != [] {
      assert (rows + [w])[1..] == rows[1..] + [w];
      ForUriSnoc(rows[1..], w, uri);
    }
  }

  lemma {:induction false} InGroupsSnoc(rows: seq<Write>, w: Write, groups: set<string>)
    ensures InGroups(rows + [w], groups) == InGroups(rows, groups) + if w.group in groups then [w] else []
  {
    if rows != [] {
      assert (rows + [w])[1..] == rows[1..] + [w];
      InGroupsSnoc(rows[1..], w, groups);
    }
  }

  lemma PartCovered(p: Action, a: Action, db: string, uri: string, e: Edge)
    requires PartOf(p, a)
    ensures Covers(NodeEffect(a, uri), NodeEffect(p, uri))
    ensures CoversLink(EdgeEffect(a, db, e), EdgeEffect(p, db, e))
  {
    if a.Load? {
      var groups :| p.rows == InGroups(a.rows, groups);
      RowsCover(a.rows, groups, uri);
    }
  }

  lemma {:induction false} PartsCovered(ps: seq<Action>, acts: seq<Action>, db: string, uri: string, e: Edge)
    requires PartsOf(ps, acts)
    ensures Covers(RunNodeEffect(acts, uri), RunNodeEffect(ps, uri))
    ensures CoversLink(RunEdgeEffect(acts, db, e), RunEdgeEffect(ps, db, e))
    decreases |acts|
  {
    if acts != [] {
      var n := |acts| - 1;
      PartsCovered(ps[..n], acts[..n], db, uri, e);
      PartCovered(ps[n], acts[n], db, uri, e);
      CoversThen(RunNodeEffect(acts[..n], uri), RunNodeEffect(ps[..n], uri), NodeEffect(acts[n], uri), NodeEffect(ps[n], uri));
      CoversThenLink(RunEdgeEffect(acts[..n], db, e), RunEdgeEffect(ps[..n], db, e), EdgeEffect(acts[n], db, e), EdgeEffect(ps[n], db, e));
    }
  }

  lemma PartsAgainAtNode(g: Graph, db: string, ps: seq<Action>, b: seq<Action>, acts: seq<Action>, labelsOf: LabelsByUri, k: NodeKey)
    requires PartsOf(ps, acts) && AllSelfContained(acts, db, labelsOf) && AllSelfContained(b, db, labelsOf)
    ensures Run(Run(Run(g, db, ps), db, b), db, acts).Node(k) == Run(Run(g, db, b), db, acts).Node(k)
  {
    PartsStaySelfContained(ps, acts, db, labelsOf);
    var gp, gb := Run(g, db, ps), Run(g, db, b);
    RunAtNode(g, db, ps, labelsOf, k);
    RunAtNode(gp, db, b, labelsOf, k);
    RunAtNode(Run(gp, db, b), db, acts, labelsOf, k);
    RunAtNode(g, db, b, labelsOf, k);
    RunAtNode(gb, db, acts, labelsOf, k);
    if k.db == db {
      var u := k.uri;
      var f, h, whole, n := RunNodeEffect(ps, u), RunNodeEffect(b, u), RunNodeEffect(acts, u), g.Node(k);
      PerformThen(f, h, db, u, labelsOf(u), n);
      PerformThen(Then(f, h), whole, db, u, labelsOf(u), n);
      PerformThen(h, whole, db, u, labelsOf(u), n);
      PartsCovered(ps, acts, db, u, Edge("", "", "", ""));
      EffectAgain(f, h, whole);
    }
  }

  lemma PartsAgainAtEdge(g: Graph, db: string, ps: seq<Action>, b: seq<Action>, acts: seq<Action>, labelsOf: LabelsByUri, e: Edge)
    requires PartsOf(ps, acts) && AllSelfContained(acts, db, labelsOf) && AllSelfContained(b, db, labelsOf)
    ensures Run(Run(Run(g, db, ps), db, b), db, acts).Multiplicity(e) == Run(Run(g, db, b), db, acts).Multiplicity(e)
  {
    PartsStaySelfContained(ps, acts, db, labelsOf);
    var gp, gb := Run(g, db, ps), Run(g, db, b);
    RunAtEdge(g, db, ps, labelsOf, e);
    RunAtEdge(gp, db, b, labelsOf, e);
    RunAtEdge(Run(gp, db, b), db, acts, labelsOf, e);
    RunAtEdge(g, db, b, labelsOf, e);
    RunAtEdge(gb, db, acts, labelsOf, e);
    var f, h, whole := RunEdgeEffect(ps, db, e), RunEdgeEffect(b, db, e), RunEdgeEffect(acts, db, e);
    PerformThenLink(f, h, g.Multiplicity(e));
    PerformThenLink(ThenLink(f, h), whole, g.Multiplicity(e));
    PerformThenLink(h, whole, g.Multiplicity(e));
    PartsCovered(ps, acts, db, "", e);
    LinkAgain(f, h, whole);
  }

  /** Events that will be handled again, completely, after some others need not have been handled
      before them, completely or in part. */
  lemma PartsAgain(g: Graph, db: string, ps: seq<Action>, b: seq<Action>, acts: seq<Action>, labelsOf: LabelsByUri)
    requires PartsOf(ps, acts) && AllSelfContained(acts, db, labelsOf) && AllSelfContained(b, db, labelsOf)
    ensures Run(g, db, ps + b + acts) == Run(g, db, b + acts)
  {
    RunConcat(g, db, ps, b);
    RunConcat(g, db, ps + b, acts);
    RunConcat(g, db, b, acts);
    var lhs, rhs := Run(Run(Run(g, db, ps), db, b), db, acts), Run(Run(g, db, b), db, acts);
    forall k ensures lhs.Node(k) == rhs.Node(k) { PartsAgainAtNode(g, db, ps, b, acts, labelsOf, k); }
    forall e ensures lhs.Multiplicity(e) == rhs.Multiplicity(e) { PartsAgainAtEdge(g, db, ps, b, acts, labelsOf, e); }
    GraphsAgree(lhs, rhs);
  }

  lemma WholesAreParts(acts: seq<Action>)
    ensures PartsOf(acts, acts)
  {
    forall i | 0 <= i < |acts| ensures PartOf(acts[i], acts[i]) { WholeIsPart(acts[i]); }
  }

  /** With no failures: A, B, A comes to the same as B, A. */
  lemma LaterWins(g: Graph, db: string, a: seq<Action>, b: seq<Action>, labelsOf: LabelsByUri)
    requires AllSelfContained(a, db, labelsOf) && AllSelfContained(b, db, labelsOf)
    ensures Run(g, db, a + b + a) == Run(g, db, b + a)
  {
    WholesAreParts(a);
    PartsAgain(g, db, a, b, a, labelsOf);
  }

  // ---------------------------------------------------------------- redelivery schedules

  /** One session of the consumer: it handles the events [from, upTo) of the log. */
  datatype Pass = Pass(from: nat, upTo: nat)

  predicate Within(passes: seq<Pass>, n: nat) {
    forall i :: 0 <= i < |passes| ==> passes[i].from <= passes[i].upTo <= n
  }

  function StoppedBefore(passes: seq<Pass>, i: nat): nat
    requires i <= |passes|
  {
    if i == 0 then 0 else passes[i - 1].upTo
  }

  /** The first session starts at the beginning; each later one starts at a committed offset, no
      later than where the previous stopped. Sessions may stop anywhere, even before an earlier
      session did. */
  ghost predicate Schedule(passes: seq<Pass>, n: nat) {
    Within(passes, n) && forall i :: 0 <= i < |passes| ==> passes[i].from <= StoppedBefore(passes, i)
  }

  function RunPasses(g: Graph, db: string, log: seq<Action>, passes: seq<Pass>): Graph
    requires Within(passes, |log|)
    decreases |passes|
  {
    if passes == [] then g
    else
      var last := passes[|passes| - 1];
      Run(RunPasses(g, db, log, passes[..|passes| - 1]), db, log[last.from..last.upTo])
  }

  lemma ScheduleInit(passes: seq<Pass>, n: nat)
    requires Schedule(passes, n) && passes != []
    ensures Schedule(passes[..|passes| - 1], n)
    ensures passes[|passes| - 1].from <= StoppedBefore(passes[..|passes| - 1], |passes| - 1) <= n
  {
    var init := passes[..|passes| - 1];
    forall i | 0 <= i < |init| ensures init[i].from <= StoppedBefore(init, i) {
      assert passes[i].from <= StoppedBefore(passes, i);
    }
    assert passes[|passes| - 1].from <= StoppedBefore(passes, |passes| - 1);
  }

  lemma PartSelfContained(log: seq<Action>, i: nat, j: nat, db: string, labelsOf: LabelsByUri)
    requires AllSelfContained(log, db, labelsOf) && i <= j <= |log|
    ensures AllSelfContained(log[i..j], db, labelsOf)
  {
  }

  // ---------------------------------------------------------------- sessions whose handlers may fail

  /** What each session did of its events. */
  ghost predicate Handled(log: seq<Action>, passes: seq<Pass>, dones: seq<seq<Action>>) {
    && Within(passes, |log|) && |dones| == |passes|
    && forall i :: 0 <= i < |passes| ==> PartsOf(dones[i], log[passes[i].from..passes[i].upTo])
  }

  function RunDone(g: Graph, db: string, dones: seq<seq<Action>>): Graph
    decreases |dones|
  {
    if dones == [] then g else Run(RunDone(g, db, dones[..|dones| - 1]), db, dones[|dones| - 1])
  }

  /** How many events from the front were handled completely. */
  function Complete(done: seq<Action>, acts: seq<Action>): (n: nat)
    ensures n <= |done| && n <= |acts| && done[..n] == acts[..n]
  {
    if done == [] || acts == [] || done[0] != acts[0] then 0
    else
      var n := 1 + Complete(done[1..], acts[1..]);
      assert done[..n] == [done[0]] + done[1..][..n - 1] && acts[..n] == [acts[0]] + acts[1..][..n - 1];
      n
  }

  /** How far the log has been handled completely: a session that starts beyond adds nothing; one
      that starts within counts afresh, up to its first failure. */
  function CleanUpTo(log: seq<Action>, passes: seq<Pass>, dones: seq<seq<Action>>): nat
    requires Within(passes, |log|) && |dones| == |passes|
    decreases |passes|
  {
    if passes == [] then 0
    else
      var n := |passes| - 1;
      var c := CleanUpTo(log, passes[..n], dones[..n]);
      var s, t := passes[n].from, passes[n].upTo;
      if s <= c then s + Complete(dones[n], log[s..t]) else c
  }

  lemma HandledInit(log: seq<Action>, passes: seq<Pass>, dones: seq<seq<Action>>)
    requires Handled(log, passes, dones) && passes != []
    ensures var n := |passes| - 1;
      && Handled(log, passes[..n], dones[..n]) && passes[n].from <= passes[n].upTo <= |log|
      && PartsOf(dones[n], log[passes[n].from..passes[n].upTo])
  {
  }

  /** Whatever sessions have handled so far, with whatever failures, handling the rest of the log from
      any point up to which it has been handled completely leads to the graph of a single pass. */
  lemma {:induction false} FinishAfterFailures(g: Graph, db: string, log: seq<Action>, passes: seq<Pass>, dones: seq<seq<Action>>,
                                               u: nat, labelsOf: LabelsByUri)
    requires AllSelfContained(log, db, labelsOf) && Handled(log, passes, dones)
    requires u <= CleanUpTo(log, passes, dones)
    ensures u <= |log| && Run(RunDone(g, db, dones), db, log[u..]) == Run(g, db, log)
    decreases |passes|
  {
    if passes == [] {
      assert log[0..] == log;
    } else {
      HandledInit(log, passes, dones);
      var n := |passes| - 1;
      var c := CleanUpTo(log, passes[..n], dones[..n]);
      var s, t := passes[n].from, passes[n].upTo;
      var x := RunDone(g, db, dones[..n]);
      if s <= c && s <= u {
        FinishAfterFailures(g, db, log, passes[..n], dones[..n], s, labelsOf);
        FinishWithin(x, db, log, s, t, u, dones[n], labelsOf);
      } else {
        FinishAfterFailures(g, db, log, passes[..n], dones[..n], u, labelsOf);
        FinishBefore(x, db, log, s, t, u, dones[n], labelsOf);
      }
    }
  }

  /** Going on from within the session, no later than its first failure. */
  lemma FinishWithin(x: Graph, db: string, log: seq<Action>, s: nat, t: nat, u: nat, done: seq<Action>, labelsOf: LabelsByUri)
    requires AllSelfContained(log, db, labelsOf) && s <= t <= |log| && PartsOf(done, log[s..t])
    requires s <= u <= s + Complete(done, log[s..t])
    ensures u <= t && Run(Run(x, db, done), db, log[u..]) == Run(x, db, log[s..])
  {
    CompleteFront(done, log[s..t], u - s);
    LogFrom(log, s, u, t);
    PartSelfContained(log, u, t, db, labelsOf);
    RestAgain(x, db, log[s..u], done[u - s..], log[u..t], log[t..], labelsOf);
  }

  lemma CompleteFront(done: seq<Action>, acts: seq<Action>, n: nat)
    requires PartsOf(done, acts) && n <= Complete(done, acts)
    ensures n <= |acts| && done == acts[..n] + done[n..] && PartsOf(done[n..], acts[n..])
  {
    SamePrefix(done, acts, Complete(done, acts), n);
    PartsTail(done, acts, n);
  }

  lemma PartsTail(ps: seq<Action>, acts: seq<Action>, n: nat)
    requires PartsOf(ps, acts) && n <= |acts|
    ensures PartsOf(ps[n..], acts[n..])
  {
  }

  lemma SamePrefix(a: seq<Action>, b: seq<Action>, n: nat, m: nat)
    requires m <= n <= |a| && n <= |b| && a[..n] == b[..n]
    ensures a[..m] == b[..m]
  {
    assert a[..m] == a[..n][..m] && b[..m] == b[..n][..m];
  }

  lemma LogFrom(log: seq<Action>, s: nat, u: nat, t: nat)
    requires s <= u <= t <= |log|
    ensures log[u..] == log[u..t] + log[t..] && log[s..] == log[s..u] + (log[u..t] + log[t..])
    ensures log[s..t][..u - s] == log[s..u] && log[s..t][u - s..] == log[u..t]
  {
  }

  lemma RestAgain(x: Graph, db: string, front: seq<Action>, ps: seq<Action>, acts: seq<Action>, rest: seq<Action>, labelsOf: LabelsByUri)
    requires PartsOf(ps, acts) && AllSelfContained(acts, db, labelsOf)
    ensures Run(Run(x, db, front + ps), db, acts + rest) == Run(x, db, front + (acts + rest))
  {
    DoneAgain(Run(x, db, front), db, ps, [], acts, rest, labelsOf);
    assert [] + acts == acts;
    RunConcat(x, db, front, ps);
    RunConcat(x, db, front, acts + rest);
  }

  /** Going on from before the session began. */
  lemma FinishBefore(x: Graph, db: string, log: seq<Action>, s: nat, t: nat, u: nat, done: seq<Action>, labelsOf: LabelsByUri)
    requires AllSelfContained(log, db, labelsOf) && u <= s <= t <= |log| && PartsOf(done, log[s..t])
    ensures Run(Run(x, db, done), db, log[u..]) == Run(x, db, log[u..])
  {
    assert log[u..] == log[u..s] + log[s..t] + log[t..];
    PartSelfContained(log, u, s, db, labelsOf);
    PartSelfContained(log, s, t, db, labelsOf);
    DoneAgain(x, db, done, log[u..s], log[s..t], log[t..], labelsOf);
  }

  lemma DoneAgain(x: Graph, db: string, ps: seq<Action>, b: seq<Action>, acts: seq<Action>, rest: seq<Action>, labelsOf: LabelsByUri)
    requires PartsOf(ps, acts) && AllSelfContained(acts, db, labelsOf) && AllSelfContained(b, db, labelsOf)
    ensures Run(Run(x, db, ps), db, b + acts + rest) == Run(x, db, b + acts + rest)
  {
    PartsAgain(x, db, ps, b, acts, labelsOf);
    assert ps + b + acts == ps + (b + acts);
    RunConcat(x, db, ps, b + acts);
    RunConcat(Run(x, db, ps), db, b + acts, rest);
    RunConcat(x, db, b + acts, rest);
  }

  /** Failures are harmless when redelivery has handled the whole log completely behind them. */
  lemma FailuresHeal(g: Graph, db: string, log: seq<Action>, passes: seq<Pass>, dones: seq<seq<Action>>, labelsOf: LabelsByUri)
    requires AllSelfContained(log, db, labelsOf) && Handled(log, passes, dones)
    requires CleanUpTo(log, passes, dones) == |log|
    ensures RunDone(g, db, dones) == Run(g, db, log)
  {
    FinishAfterFailures(g, db, log, passes, dones, |log|, labelsOf);
    assert log[|log|..] == [];
  }

  /** In particular when the last session has no failure and starts no later than the first event
      that had not been handled completely. */
  lemma CleanLastPass(log: seq<Action>, passes: seq<Pass>, dones: seq<seq<Action>>)
    requires Handled(log, passes, dones) && passes != []
    requires var n := |passes| - 1;
      && passes[n].from <= CleanUpTo(log, passes[..n], dones[..n]) && passes[n].upTo == |log| && dones[n] == log[passes[n].from..]
    ensures CleanUpTo(log, passes, dones) == |log|
  {
    var n := |passes| - 1;
    assert log[passes[n].from..passes[n].upTo] == log[passes[n].from..];
    CompleteAll(log[passes[n].from..]);
  }

  lemma {:induction false} CompleteAll(acts: seq<Action>)
    ensures Complete(acts, acts) == |acts|
  {
    if acts != [] {
      CompleteAll(acts[1..]);
    }
  }

  // ---------------------------------------------------------------- an event that is never handled completely

  /** The later events hide whether effect f came. If they delete the node, always. If f deletes it: there
      was none, or they make it again and it had nothing else. If f writes it: it is there, now or by
      them, and what f sets they set as well or was set already. */
  ghost predicate Overtaken(f: Effect, later: Effect, db: string, uri: string, labels: seq<string>, before: Option<NodeRec>) {
    later.reset ||
    if f.reset then
      before.None? ||
      (later.touch && before.value.labels == labels
       && forall c :: c !in later.writes ==> ValueAt(before.value.props, c) == ValueAt(Ident(db, uri), c))
    else
      var props := if before.Some? then before.value.props else Ident(db, uri);
      && (before.Some? || later.touch)
      && forall c :: c in f.writes && c !in later.writes ==> ValueAt(props, c) == Shown(f.writes[c])
  }

  lemma SetPlusSame(p: Props, q: Props, r: Props)
    ensures SetPlus(p, r) == SetPlus(q, r) <==> forall c :: c !in r ==> ValueAt(p, c) == ValueAt(q, c)
  {
    if SetPlus(p, r) == SetPlus(q, r) {
      forall c | c !in r ensures ValueAt(p, c) == ValueAt(q, c) {
        assert ValueAt(SetPlus(p, r), c) == ValueAt(p, c);
        assert ValueAt(SetPlus(q, r), c) == ValueAt(q, c);
      }
    }
    if forall c :: c !in r ==> ValueAt(p, c) == ValueAt(q, c) {
      forall c ensures ValueAt(SetPlus(p, r), c) == ValueAt(SetPlus(q, r), c) {
        if c !in r { assert ValueAt(p, c) == ValueAt(q, c); }
      }
      SameValues(SetPlus(p, r), SetPlus(q, r));
    }
  }

  lemma SameValues(p: Props, q: Props)
    requires forall c :: ValueAt(p, c) == ValueAt(q, c)
    ensures p == q
  {
    forall c ensures c in p <==> c in q
      ensures c in p ==> p[c] == q[c]
    {
      assert ValueAt(p, c) == ValueAt(q, c);
    }
  }

  lemma AlreadySet(p: Props, w: Props, r: Props)
    ensures SetPlus(p, r) == SetPlus(SetPlus(p, w), r) <==> forall c :: c in w && c !in r ==> ValueAt(p, c) == Shown(w[c])
  {
    SetPlusSame(p, SetPlus(p, w), r);
    forall c ensures ValueAt(SetPlus(p, w), c) == if c in w then Shown(w[c]) else ValueAt(p, c) {}
  }

  lemma SetNothing(p: Props)
    ensures SetPlus(p, map[]) == p
  {
  }

  lemma OvertakenExactly(f: Effect, later: Effect, db: string, uri: string, labels: seq<string>, before: Option<NodeRec>)
    requires f.Valid() && later.Valid() && f.touch == !f.reset
    ensures Perform(later, db, uri, labels, before) == Perform(later, db, uri, labels, Perform(f, db, uri, labels, before))
      <==> Overtaken(f, later, db, uri, labels, before)
  {
    if !later.reset {
      if f.reset {
        if before.Some? { SetPlusSame(before.value.props, Ident(db, uri), later.writes); }
      } else {
        var props := if before.Some? then before.value.props else Ident(db, uri);
        AlreadySet(props, f.writes, later.writes);
        SetNothing(props);
        SetNothing(SetPlus(props, f.writes));
      }
    }
  }

  /** The same for a relationship that f merges or deletes, of which there were m. */
  predicate OvertakenLink(f: LinkEffect, later: LinkEffect, m: nat) {
    match later
    case Keep => if f.AtLeastOne? then m > 0 else m == 0
    case AtLeastOne => f.AtLeastOne? || m <= 1
    case _ => true
  }

  lemma OvertakenLinkExactly(f: LinkEffect, later: LinkEffect, m: nat)
    requires f.AtLeastOne? || f.Zero?
    ensures PerformLink(later, m) == PerformLink(later, PerformLink(f, m)) <==> OvertakenLink(f, later, m)
  {
  }

  /** Rows of one URI are written by one statement. */
  ghost predicate OneGroup(a: Action) {
    a.Load? ==> UriInOneGroup(a.rows)
  }

  /** Then a part acts on one node or relationship completely or not at all. */
  lemma PartAtOnce(p: Action, a: Action, db: string, uri: string, e: Edge)
    requires PartOf(p, a) && OneGroup(a)
    ensures NodeEffect(p, uri) == NodeEffect(a, uri) || NodeEffect(p, uri) == NO_EFFECT
    ensures EdgeEffect(p, db, e) == EdgeEffect(a, db, e) || EdgeEffect(p, db, e) == Keep
    ensures NodeEffect(a, uri) == NO_EFFECT || NodeEffect(a, uri).touch == !NodeEffect(a, uri).reset
    ensures EdgeEffect(a, db, e).Keep? || EdgeEffect(a, db, e).AtLeastOne? || EdgeEffect(a, db, e).Zero?
  {
    if a.Load? {
      var groups :| p.rows == InGroups(a.rows, groups);
      RowsAtOnce(a.rows, groups, uri);
    }
  }

  lemma RowsAtOnce(rows: seq<Write>, groups: set<string>, uri: string)
    requires OneGroup(Load(rows, {}))
    ensures ForUri(InGroups(rows, groups), uri) == ForUri(rows, uri) || ForUri(InGroups(rows, groups), uri) == []
  {
    ForUriInGroups(rows, groups, uri);
    ForUriOnly(rows, uri);
    var mine := ForUri(rows, uri);
    if mine != [] {
      forall i | 0 <= i < |mine| ensures mine[i].group == mine[0].group {
        assert mine[i] in mine && mine[0] in mine;
      }
      InGroupsAllOrNothing(mine, groups, mine[0].group);
    }
  }

  ghost predicate NodeMended(x: Graph, db: string, a: Action, p: Action, later: seq<Action>, labelsOf: LabelsByUri, uri: string) {
    || NodeEffect(p, uri) == NodeEffect(a, uri)
    || Overtaken(NodeEffect(a, uri), RunNodeEffect(later, uri), db, uri, labelsOf(uri), x.Node(NodeKey(db, uri)))
  }

  ghost predicate LinkMended(x: Graph, db: string, a: Action, p: Action, later: seq<Action>, e: Edge) {
    || EdgeEffect(p, db, e) == EdgeEffect(a, db, e)
    || OvertakenLink(EdgeEffect(a, db, e), RunEdgeEffect(later, db, e), x.Multiplicity(e))
  }

  ghost predicate Mended(x: Graph, db: string, a: Action, p: Action, later: seq<Action>, labelsOf: LabelsByUri) {
    && (forall uri :: NodeMended(x, db, a, p, later, labelsOf, uri))
    && (forall e :: LinkMended(x, db, a, p, later, e))
  }

  lemma RunOnNode(x: Graph, db: string, a: Action, later: seq<Action>, labelsOf: LabelsByUri, k: NodeKey)
    requires SelfContained(a, db, labelsOf) && AllSelfContained(later, db, labelsOf)
    ensures Run(x, db, [a] + later) == Run(Apply(x, db, a), db, later)
    ensures Run(x, db, [a] + later).Node(k) ==
      if k.db == db then
        Perform(RunNodeEffect(later, k.uri), db, k.uri, labelsOf(k.uri),
                Perform(NodeEffect(a, k.uri), db, k.uri, labelsOf(k.uri), x.Node(k)))
      else x.Node(k)
  {
    assert ([a] + later)[1..] == later;
    ApplyAtNode(x, db, a, labelsOf, k);
    RunAtNode(Apply(x, db, a), db, later, labelsOf, k);
  }

  lemma RunOnEdge(x: Graph, db: string, a: Action, later: seq<Action>, labelsOf: LabelsByUri, e: Edge)
    requires SelfContained(a, db, labelsOf) && AllSelfContained(later, db, labelsOf)
    ensures Run(x, db, [a] + later).Multiplicity(e)
         == PerformLink(RunEdgeEffect(later, db, e), PerformLink(EdgeEffect(a, db, e), x.Multiplicity(e)))
  {
    assert ([a] + later)[1..] == later;
    ApplyAtEdge(x, db, a, labelsOf, e);
    RunAtEdge(Apply(x, db, a), db, later, labelsOf, e);
  }

  lemma MendedAtNode(x: Graph, db: string, a: Action, p: Action, later: seq<Action>, labelsOf: LabelsByUri, k: NodeKey)
    requires SelfContained(a, db, labelsOf) && AllSelfContained(later, db, labelsOf) && PartOf(p, a) && OneGroup(a)
    ensures Run(x, db, [p] + later).Node(k) == Run(x, db, [a] + later).Node(k)
      <==> k.db != db || NodeMended(x, db, a, p, later, labelsOf, k.uri)
  {
    PartStaysSelfContained(p, a, db, labelsOf);
    RunOnNode(x, db, a, later, labelsOf, k);
    RunOnNode(x, db, p, later, labelsOf, k);
    PartAtOnce(p, a, db, k.uri, Edge("", "", "", ""));
    if k.db == db && NodeEffect(p, k.uri) != NodeEffect(a, k.uri) {
      OvertakenExactly(NodeEffect(a, k.uri), RunNodeEffect(later, k.uri), db, k.uri, labelsOf(k.uri), x.Node(k));
    }
  }

  lemma MendedAtEdge(x: Graph, db: string, a: Action, p: Action, later: seq<Action>, labelsOf: LabelsByUri, e: Edge)
    requires SelfContained(a, db, labelsOf) && AllSelfContained(later, db, labelsOf) && PartOf(p, a) && OneGroup(a)
    ensures Run(x, db, [p] + later).Multiplicity(e) == Run(x, db, [a] + later).Multiplicity(e)
      <==> LinkMended(x, db, a, p, later, e)
  {
    PartStaysSelfContained(p, a, db, labelsOf);
    RunOnEdge(x, db, a, later, labelsOf, e);
    RunOnEdge(x, db, p, later, labelsOf, e);
    PartAtOnce(p, a, db, "", e);
    if EdgeEffect(p, db, e) != EdgeEffect(a, db, e) {
      OvertakenLinkExactly(EdgeEffect(a, db, e), RunEdgeEffect(later, db, e), x.Multiplicity(e));
    }
  }

  /** An event of which only a part was done leaves the same graph, after the later events, if and only
      if these hide what is missing at every node and relationship. */
  lemma MendedExactly(x: Graph, db: string, a: Action, p: Action, later: seq<Action>, labelsOf: LabelsByUri)
    requires SelfContained(a, db, labelsOf) && AllSelfContained(later, db, labelsOf) && PartOf(p, a) && OneGroup(a)
    ensures Run(x, db, [p] + later) == Run(x, db, [a] + later) <==> Mended(x, db, a, p, later, labelsOf)
  {
    var lhs, rhs := Run(x, db, [p] + later), Run(x, db, [a] + later);
    if lhs == rhs {
      forall uri ensures NodeMended(x, db, a, p, later, labelsOf, uri) {
        MendedAtNode(x, db, a, p, later, labelsOf, NodeKey(db, uri));
      }
      forall e ensures LinkMended(x, db, a, p, later, e) {
        MendedAtEdge(x, db, a, p, later, labelsOf, e);
      }
    }
    if Mended(x, db, a, p, later, labelsOf) {
      forall k ensures lhs.Node(k) == rhs.Node(k) { MendedAtNode(x, db, a, p, later, labelsOf, k); }
      forall e ensures lhs.Multiplicity(e) == rhs.Multiplicity(e) { MendedAtEdge(x, db, a, p, later, labelsOf, e); }
      GraphsAgree(lhs, rhs);
    }
  }

  /** In any schedule: when all events but the j-th are handled completely in the end and that one never
      is, the graph is that of one pass if and only if the later events hide what is missing. */
  lemma LostExactly(g: Graph, db: string, log: seq<Action>, j: nat, p: Action, passes: seq<Pass>, dones: seq<seq<Action>>,
                    labelsOf: LabelsByUri)
    requires AllSelfContained(log, db, labelsOf) && j < |log| && PartOf(p, log[j]) && OneGroup(log[j])
    requires Handled(log[j := p], passes, dones) && CleanUpTo(log[j := p], passes, dones) == |log|
    ensures RunDone(g, db, dones) == Run(g, db, log) <==> Mended(Run(g, db, log[..j]), db, log[j], p, log[j + 1..], labelsOf)
  {
    LostSelfContained(db, log, j, p, labelsOf);
    FailuresHeal(g, db, log[j := p], passes, dones, labelsOf);
    RunAround(g, db, log, j, log[j]);
    RunAround(g, db, log, j, p);
    MendedExactly(Run(g, db, log[..j]), db, log[j], p, log[j + 1..], labelsOf);
    assert log[j := log[j]] == log;
  }

  lemma LostSelfContained(db: string, log: seq<Action>, j: nat, p: Action, labelsOf: LabelsByUri)
    requires AllSelfContained(log, db, labelsOf) && j < |log| && PartOf(p, log[j])
    ensures AllSelfContained(log[j := p], db, labelsOf) && AllSelfContained(log[j + 1..], db, labelsOf)
  {
    PartStaysSelfContained(p, log[j], db, labelsOf);
    PartSelfContained(log, j + 1, |log|, db, labelsOf);
  }

  lemma RunAround(g: Graph, db: string, log: seq<Action>, j: nat, p: Action)
    requires j < |log|
    ensures Run(g, db, log[j := p]) == Run(Run(g, db, log[..j]), db, [p] + log[j + 1..])
  {
    assert log[j := p] == log[..j] + ([p] + log[j + 1..]);
    RunConcat(g, db, log[..j], [p] + log[j + 1..]);
  }

  /** A log whose only event fails, is marked, and is lost. */
  lemma LostUpdate(w: Write)
    ensures var log, passes, dones := [Load([w], {})], [Pass(0, 1)], [[Load([], {})]];
      && Schedule(passes, 1) && StoppedBefore(passes, 1) == 1 && Handled(log, passes, dones)
      && RunDone(Graph(map[], map[]), DEFAULT_DB, dones) != Run(Graph(map[], map[]), DEFAULT_DB, log)
  {
    var log, passes, dones := [Load([w], {})], [Pass(0, 1)], [[Load([], {})]];
    var g := Graph(map[], map[]);
    assert InGroups([w], {}) == [] by { assert [w][1..] == []; }
    assert log[0..1] == log && PartOf(dones[0][0], log[0]);
    assert dones[..0] == [] && RunDone(g, DEFAULT_DB, []) == g;
    OneAction(g, log[0]);
    OneAction(g, dones[0][0]);
    RowThere(g, DEFAULT_DB, [w], w.uri);
  }

  lemma OneAction(g: Graph, a: Action)
    ensures Run(g, DEFAULT_DB, [a]) == Apply(g, DEFAULT_DB, a)
  {
    assert [a][1..] == [];
  }

  /** A redelivery that fails half-way can undo what had been done: both events were handled completely,
      the first once more, and its old value is back. */
  lemma StaleRedelivery(uri: string, labels: seq<string>)
    ensures var a, b := SetP(uri, labels, 1), SetP(uri, labels, 2);
      var log, passes, dones := [a, b], [Pass(0, 2), Pass(0, 2)], [[a, b], [a, Load([], {})]];
      && Schedule(passes, 2) && StoppedBefore(passes, 2) == 2 && Handled(log, passes, dones) && dones[0] == log
      && RunDone(Graph(map[], map[]), DEFAULT_DB, dones) != Run(Graph(map[], map[]), DEFAULT_DB, log)
  {
    var a, b, none := SetP(uri, labels, 1), SetP(uri, labels, 2), Load([], {});
    var log, passes, dones := [a, b], [Pass(0, 2), Pass(0, 2)], [[a, b], [a, none]];
    var g := Graph(map[], map[]);
    assert InGroups(b.rows, {}) == [] by { assert b.rows[1..] == []; }
    assert log[0..2] == log;
    TwoParts(a, b, none);
    RunOfTwoPasses(g, log, [a, none]);
    SetTwice(g, uri, labels, 1, b);
    SetTwice(Run(g, DEFAULT_DB, log), uri, labels, 1, none);
  }

  lemma RunOfTwoPasses(g: Graph, first: seq<Action>, second: seq<Action>)
    ensures RunDone(g, DEFAULT_DB, [first, second]) == Run(Run(g, DEFAULT_DB, first), DEFAULT_DB, second)
  {
    assert [first, second][..1] == [first] && [first][..0] == [];
    assert RunDone(g, DEFAULT_DB, []) == g;
  }

  lemma TwoParts(a: Action, b: Action, p: Action)
    requires a.Load? && b.Load? && p == Load([], {}) && InGroups(b.rows, {}) == []
    ensures PartsOf([a, b], [a, b]) && PartsOf([a, p], [a, b])
  {
    WholesAreParts([a, b]);
    assert PartOf([a, b][0], [a, b][0]);
    assert PartOf(p, b);
  }

  /** The update of one node that sets one property. */
  function SetP(uri: string, labels: seq<string>, n: int): Action {
    Load([Write("t", uri, labels, map["p" := Int(n)])], {})
  }

  lemma SetTwice(x: Graph, uri: string, labels: seq<string>, n: int, next: Action)
    requires next == SetP(uri, labels, 2) || next == Load([], {})
    ensures var node := Run(x, DEFAULT_DB, [SetP(uri, labels, n), next]).Node(NodeKey(DEFAULT_DB, uri));
      node.Some? && "p" in node.value.props && node.value.props["p"] == if next == Load([], {}) then Int(n) else Int(2)
  {
    var a := SetP(uri, labels, n);
    var y := Apply(x, DEFAULT_DB, a);
    OneWrite(x, DEFAULT_DB, a.rows[0]);
    TwoActions(x, DEFAULT_DB, a, next);
    if next != Load([], {}) {
      OneWrite(y, DEFAULT_DB, next.rows[0]);
    }
  }

  lemma OneWrite(g: Graph, db: string, w: Write)
    ensures WriteAll(g, db, [w]) == WriteNode(g, db, w)
  {
    assert [w][1..] == [];
    assert WriteAll(WriteNode(g, db, w), db, []) == WriteNode(g, db, w);
  }

  lemma TwoActions(g: Graph, db: string, a: Action, b: Action)
    ensures Run(g, db, [a, b]) == Apply(Apply(g, db, a), db, b)
  {
    var g1 := Apply(g, db, a);
    assert [a, b][1..] == [b] && [b][1..] == [];
    assert Run(g1, db, [b]) == Run(Apply(g1, db, b), db, []);
  }

  // ---------------------------------------------------------------- ... and when none fails

  function Slices(log: seq<Action>, passes: seq<Pass>): seq<seq<Action>>
    requires Within(passes, |log|)
  {
    seq(|passes|, i requires 0 <= i < |passes| => log[passes[i].from..passes[i].upTo])
  }

  lemma {:induction false} CleanSessions(g: Graph, db: string, log: seq<Action>, passes: seq<Pass>)
    requires Schedule(passes, |log|)
    ensures Handled(log, passes, Slices(log, passes)) && RunDone(g, db, Slices(log, passes)) == RunPasses(g, db, log, passes)
    ensures CleanUpTo(log, passes, Slices(log, passes)) == StoppedBefore(passes, |passes|)
    decreases |passes|
  {
    SlicesHandled(log, passes);
    if passes != [] {
      var n := |passes| - 1;
      ScheduleInit(passes, |log|);
      CleanSessions(g, db, log, passes[..n]);
      assert Slices(log, passes)[..n] == Slices(log, passes[..n]);
      CompleteAll(log[passes[n].from..passes[n].upTo]);
    }
  }

  lemma SlicesHandled(log: seq<Action>, passes: seq<Pass>)
    requires Within(passes, |log|)
    ensures Handled(log, passes, Slices(log, passes))
  {
    forall i | 0 <= i < |passes| ensures PartsOf(Slices(log, passes)[i], log[passes[i].from..passes[i].upTo]) {
      WholesAreParts(log[passes[i].from..passes[i].upTo]);
    }
  }

  /** Wherever the sessions have stopped so far, handling the rest of the log from any point they
      have reached leads to the graph of a single pass. */
  lemma FinishFromAnywhere(g: Graph, db: string, log: seq<Action>, passes: seq<Pass>, u: nat, labelsOf: LabelsByUri)
    requires AllSelfContained(log, db, labelsOf) && Schedule(passes, |log|)
    requires u <= StoppedBefore(passes, |passes|)
    ensures u <= |log| && Run(RunPasses(g, db, log, passes), db, log[u..]) == Run(g, db, log)
  {
    CleanSessions(g, db, log, passes);
    FinishAfterFailures(g, db, log, passes, Slices(log, passes), u, labelsOf);
  }

  /** At-least-once delivery: every redelivery schedule whose last session reaches the end leaves
      the graph that one pass over the log leaves. */
  lemma RedeliveryIsHarmless(g: Graph, db: string, log: seq<Action>, passes: seq<Pass>, labelsOf: LabelsByUri)
    requires AllSelfContained(log, db, labelsOf) && Schedule(passes, |log|)
    requires StoppedBefore(passes, |passes|) == |log|
    ensures RunPasses(g, db, log, passes) == Run(g, db, log)
  {
    FinishFromAnywhere(g, db, log, passes, |log|, labelsOf);
    assert log[|log|..] == [];
  }

  /** Replaying any suffix of what was handled changes nothing. */
  lemma SuffixChangesNothing(g: Graph, db: string, log: seq<Action>, from: nat, labelsOf: LabelsByUri)
    requires AllSelfContained(log, db, labelsOf) && from <= |log|
    ensures Run(Run(g, db, log), db, log[from..]) == Run(g, db, log)
  {
    var passes := [Pass(0, |log|), Pass(from, |log|)];
    assert passes[..1] == [Pass(0, |log|)] && passes[..1][..0] == [];
    assert log[0..|log|] == log && log[from..|log|] == log[from..];
    assert RunPasses(g, db, log, passes[..1]) == Run(RunPasses(g, db, log, []), db, log);
    assert StoppedBefore(passes, 0) == 0 && StoppedBefore(passes, 1) == |log|;
    RedeliveryIsHarmless(g, db, log, passes, labelsOf);
  }

  /** Without the orphan filter it would not be harmless: a relationship merged before its target
      exists is skipped the first time and created on redelivery. */
  lemma OrphansWouldBreakReplay(a: Write, b: Write, typ: string)
    requires a.uri != b.uri
    ensures var log := [Load([a], {Edge(DEFAULT_DB, typ, a.uri, b.uri)}), Load([b], {})];
      Run(Graph(map[], map[]), DEFAULT_DB, log + log) != Run(Graph(map[], map[]), DEFAULT_DB, log)
  {
    var e := Edge(DEFAULT_DB, typ, a.uri, b.uri);
    var log := [Load([a], {e}), Load([b], {})];
    var g0 := Graph(map[], map[]);
    var g1 := Linked(WriteNode(g0, DEFAULT_DB, a), {e});
    var g2 := Linked(WriteNode(g1, DEFAULT_DB, b), {});
    var g3 := Linked(WriteNode(g2, DEFAULT_DB, a), {e});
    var g4 := Linked(WriteNode(g3, DEFAULT_DB, b), {});
    TwoLoads(g0, DEFAULT_DB, a, {e}, b, {});
    TwoLoads(g2, DEFAULT_DB, a, {e}, b, {});
    RunConcat(g0, DEFAULT_DB, log, log);
    assert e.Target() !in g1.nodes;
    assert e !in g1.edges && e !in g2.edges;
    assert e in g3.edges && e in g4.edges;
  }

  lemma TwoLoads(g: Graph, db: string, a: Write, aLinks: set<Edge>, b: Write, bLinks: set<Edge>)
    ensures Run(g, db, [Load([a], aLinks), Load([b], bLinks)])
         == Linked(WriteNode(Linked(WriteNode(g, db, a), aLinks), db, b), bLinks)
  {
    TwoActions(g, db, Load([a], aLinks), Load([b], bLinks));
    OneWrite(g, db, a);
    OneWrite(Linked(WriteNode(g, db, a), aLinks), db, b);
  }
}
