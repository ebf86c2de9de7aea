/** The snapshot manager (internal/snapshot/manager.go): export of the default database to
    archives, logical databases as a cache over them, and restoring. Archives stand for the YAML
    files of the snapshot directory. Concurrency is the subject of LockProtocol. */
module SnapshotManager {
  import opened Common
  import opened GraphModel
  import opened GraphStore
  import opened Sorting
  import opened Paging
  import opened SnapshotModel
  import opened Lru

  const PAGE_SIZE: nat := 500

  function ByUri(n: Node): string { n.uri }

  function BySource(r: Relation): string { r.from }

  // ---------------------------------------------------------------- one paged query

  lemma KeyPreorder<T(!new)>(key: Key<T>)
    ensures TotalPreorder((x: T, y: T) => Side(key(y), key(x)) >= 0)
  {
    var le := (x: T, y: T) => Side(key(y), key(x)) >= 0;
    forall x, y ensures le(x, y) || le(y, x) {
      Strings.LessTotal(key(x), key(y));
    }
    forall x, y, z | le(x, y) && le(y, z) ensures le(x, z) {
      SideOrder(key(y), key(z), key(x));
    }
  }

  /** Some listing of the rows in key order. */
  method OrderBy<T(!new)>(key: Key<T>, s: seq<T>) returns (t: seq<T>)
    ensures Listing(key, multiset(s), t)
  {
    KeyPreorder(key);
    t := Sort((x: T, y: T) => Side(key(y), key(x)) >= 0, s);
  }

  lemma ListsNodesAnyOrder(g: Graph, db: string, s: seq<Node>, t: seq<Node>)
    requires ListsNodes(g, db, s) && multiset(s) == multiset(t)
    ensures ListsNodes(g, db, t)
  {
    assert forall n :: n in t <==> n in multiset(t);
    assert forall n :: n in s <==> n in multiset(s);
    forall i, j | 0 <= i < j < |t| ensures t[i].uri != t[j].uri {
      if t[i].uri == t[j].uri {
        assert t[i] in s && t[j] in s;
        assert t[i] == t[j];
        assert t == t[..j] + t[j..];
        assert t[i] in t[..j] && t[j] in t[j..];
        assert multiset(t)[t[i]] >= 2;
        NodeOnce(s, t[i]);
      }
    }
  }

  lemma NodeOnce(s: seq<Node>, n: Node)
    requires DistinctUris(s) && n in s
    ensures multiset(s)[n] == 1
  {
    var i :| 0 <= i < |s| && s[i] == n;
    assert s == s[..i] + [n] + s[i + 1..];
    assert n !in s[..i] && n !in s[i + 1..];
  }

  /** The rows of the query over relationships: one per relationship, without properties. */
  ghost predicate RelRows(g: Graph, db: string, s: seq<Relation>) {
    ListsRels(g, db, s) && forall r :: r in s ==> r.props == map[]
  }

  lemma RelRowsCount(g: Graph, db: string, s: seq<Relation>, r: Relation)
    requires RelRows(g, db, s)
    ensures multiset(s)[r] == if r.props == map[] then g.Multiplicity(EdgeOf(db, r)) else 0
  {
    if r.props == map[] {
      OccurrencesCount(db, s, EdgeOf(db, r));
      assert RelationOf(EdgeOf(db, r)) == r;
    } else {
      assert r !in s;
    }
  }

  lemma RelRowsSame(g: Graph, db: string, s: seq<Relation>, t: seq<Relation>)
    requires RelRows(g, db, s)
    ensures RelRows(g, db, t) <==> multiset(s) == multiset(t)
  {
    if RelRows(g, db, t) {
      forall r: Relation ensures multiset(s)[r] == multiset(t)[r] {
        RelRowsCount(g, db, s, r);
        RelRowsCount(g, db, t, r);
      }
    }
    if multiset(s) == multiset(t) {
      forall r | r in t ensures r.props == map[] {
        assert r in multiset(t);
        assert r in multiset(s);
      }
      forall e: Edge | e.db == db ensures Occurrences(db, t, e) == g.Multiplicity(e) {
        OccurrencesCount(db, s, e);
        OccurrencesCount(db, t, e);
      }
    }
  }

  /** Sorting the nodes, and cutting out page p. */
  method QueryNodePage(client: Neo4jClient, db: string, p: nat) returns (ok: bool, rows: seq<Node>, ghost listing: seq<Node>)
    modifies client`log
    ensures Went(client.works, old(client.log), client.log, ok)
    ensures ok ==> ListsNodes(client.graph, db, listing) && Paging.Sorted(ByUri, listing) && rows == Page(listing, p, PAGE_SIZE)
  {
    var all;
    ok, all := client.QueryNodes(db);
    var sorted := OrderBy(ByUri, all);
    listing := sorted;
    rows := Page(sorted, p, PAGE_SIZE);
    if ok {
      ListsNodesAnyOrder(client.graph, db, all, sorted);
    }
  }

  /** The same for relationships; those of one source come in no particular order. */
  method QueryRelPage(client: Neo4jClient, db: string, p: nat) returns (ok: bool, rows: seq<Relation>, ghost listing: seq<Relation>)
    modifies client`log
    ensures Went(client.works, old(client.log), client.log, ok)
    ensures ok ==> RelRows(client.graph, db, listing) && Paging.Sorted(BySource, listing) && rows == Page(listing, p, PAGE_SIZE)
  {
    var all;
    ok, all := client.QueryRels(db);
    var sorted := OrderBy(BySource, all);
    listing := sorted;
    rows := Page(sorted, p, PAGE_SIZE);
    if ok {
      RelRowsSame(client.graph, db, all, sorted);
    }
  }

  // ---------------------------------------------------------------- rows that Create keeps

  function KeptNodes(rows: seq<Node>): seq<Node> {
    if rows == [] then []
    else (if rows[0].labels != [] && rows[0].uri != "" then [rows[0]] else []) + KeptNodes(rows[1..])
  }

  function KeptRels(rows: seq<Relation>): seq<Relation> {
    if rows == [] then []
    else (if rows[0].typ != "" && rows[0].from != "" && rows[0].to != "" then [rows[0]] else []) + KeptRels(rows[1..])
  }

  lemma {:induction false} KeptNodesConcat(a: seq<Node>, b: seq<Node>)
    ensures KeptNodes(a + b) == KeptNodes(a) + KeptNodes(b)
  {
    if a == [] {
      assert a + b == b;
    } else {
      assert (a + b)[1..] == a[1..] + b;
      KeptNodesConcat(a[1..], b);
    }
  }

  lemma {:induction false} KeptRelsConcat(a: seq<Relation>, b: seq<Relation>)
    ensures KeptRels(a + b) == KeptRels(a) + KeptRels(b)
  {
    if a == [] {
      assert a + b == b;
    } else {
      assert (a + b)[1..] == a[1..] + b;
      KeptRelsConcat(a[1..], b);
    }
  }

  method KeepNodes(rows: seq<Node>) returns (kept: seq<Node>)
    ensures kept == KeptNodes(rows)
  {
    kept := [];
    for i := 0 to |rows|
      invariant kept == KeptNodes(rows[..i])
    {
      var row := rows[i];
      KeptNodesConcat(rows[..i], [row]);
      assert rows[..i + 1] == rows[..i] + [row];
      if row.labels == [] || row.uri == "" {
        continue;
      }
      kept := kept + [row];
    }
    assert rows[..|rows|] == rows;
  }

  method KeepRels(rows: seq<Relation>) returns (kept: seq<Relation>)
    ensures kept == KeptRels(rows)
  {
    kept := [];
    for i := 0 to |rows|
      invariant kept == KeptRels(rows[..i])
    {
      var row := rows[i];
      KeptRelsConcat(rows[..i], [row]);
      assert rows[..i + 1] == rows[..i] + [row];
      if row.typ == "" || row.from == "" || row.to == "" {
        continue;
      }
      kept := kept + [row];
    }
    assert rows[..|rows|] == rows;
  }

  lemma {:induction false} KeptNodesMembers(rows: seq<Node>)
    ensures forall n :: n in KeptNodes(rows) <==> n in rows && n.labels != [] && n.uri != ""
    ensures DistinctUris(rows) ==> DistinctUris(KeptNodes(rows))
  {
    if rows != [] {
      KeptNodesMembers(rows[1..]);
      assert rows == [rows[0]] + rows[1..];
      var rest := KeptNodes(rows[1..]);
      if DistinctUris(rows) {
        forall j | 0 <= j < |rest| ensures rest[j].uri != rows[0].uri {
          assert rest[j] in rest;
          assert rest[j] in rows[1..];
        }
      }
    }
  }

  lemma {:induction false} KeptRelsOccur(db: string, rows: seq<Relation>, e: Edge)
    ensures Occurrences(db, KeptRels(rows), e) == if Complete(e) then Occurrences(db, rows, e) else 0
    ensures forall r :: r in KeptRels(rows) ==> r.typ != ""
    decreases |rows|
  {
    if rows != [] {
      KeptRelsOccur(db, rows[1..], e);
      assert ([rows[0]] + KeptRels(rows[1..]))[1..] == KeptRels(rows[1..]);
      if !(rows[0].typ != "" && rows[0].from != "" && rows[0].to != "") {
        assert [] + KeptRels(rows[1..]) == KeptRels(rows[1..]);
      }
    }
  }

  predicate CompleteRow(r: Relation) {
    r.typ != "" && r.from != "" && r.to != ""
  }

  ghost predicate CleanListing(s: seq<Relation>) {
    forall r :: r in s && CompleteRow(r) ==> CleanRow(BySource, s, r, PAGE_SIZE)
  }

  /** No page of relationships ends between one that is exported and a different one of its source. */
  ghost predicate CleanExport(g: Graph, db: string) {
    forall s :: RelRows(g, db, s) && Paging.Sorted(BySource, s) ==> CleanListing(s)
  }

  lemma NodesCaptured(g: Graph, db: string, s: seq<Node>, read: seq<Node>)
    requires ListsNodes(g, db, s) && multiset(read) == multiset(s)
    ensures CapturesNodes(g, db, KeptNodes(read))
  {
    ListsNodesAnyOrder(g, db, s, read);
    KeptNodesMembers(read);
  }

  lemma RelsCaptured(g: Graph, db: string, s: seq<Relation>, read: seq<Relation>)
    requires RelRows(g, db, s) && forall r :: r in read ==> r.props == map[]
    ensures CapturesRels(g, db, KeptRels(read)) <==>
      forall r: Relation :: CompleteRow(r) && r.props == map[] ==> multiset(read)[r] == multiset(s)[r]
  {
    forall r: Relation | r.props == map[] && CompleteRow(r)
      ensures Occurrences(db, KeptRels(read), EdgeOf(db, r)) == multiset(read)[r]
      ensures multiset(s)[r] == g.Multiplicity(EdgeOf(db, r))
    {
      KeptCount(db, read, EdgeOf(db, r));
      RelRowsCount(g, db, s, r);
    }
    if forall r: Relation :: CompleteRow(r) && r.props == map[] ==> multiset(read)[r] == multiset(s)[r] {
      forall e: Edge | e.db == db
        ensures Occurrences(db, KeptRels(read), e) == if Complete(e) then g.Multiplicity(e) else 0
      {
        KeptCount(db, read, e);
        RelRowsCount(g, db, s, RelationOf(e));
      }
    }
    if CapturesRels(g, db, KeptRels(read)) {
      forall r: Relation | CompleteRow(r) && r.props == map[] ensures multiset(read)[r] == multiset(s)[r] {
        assert Occurrences(db, KeptRels(read), EdgeOf(db, r)) == g.Multiplicity(EdgeOf(db, r));
      }
    }
  }

  lemma KeptCount(db: string, read: seq<Relation>, e: Edge)
    requires e.db == db && forall r :: r in read ==> r.props == map[]
    ensures Occurrences(db, KeptRels(read), e) == if Complete(e) then multiset(read)[RelationOf(e)] else 0
  {
    KeptRelsOccur(db, read, e);
    OccurrencesCount(db, read, e);
  }

  /** One way to list the default database for a page. */
  ghost predicate NodeListing(g: Graph, s: seq<Node>) {
    ListsNodes(g, DEFAULT_DB, s) && Paging.Sorted(ByUri, s)
  }

  /** After p pages, page q cut from listings[q]; `more` when the last one was full. */
  ghost predicate NodesKept(listings: seq<seq<Node>>, p: nat, nodes: seq<Node>, total: nat, more: bool) {
    && |listings| == p && nodes == KeptNodes(Pages(listings, p, PAGE_SIZE))
    && (p > 0 ==> total == |listings[p - 1]|)
    && (p > 0 && more ==> Skip(p, PAGE_SIZE) <= total)
    && (!more ==> p > 0 && |Page(listings[p - 1], p - 1, PAGE_SIZE)| < PAGE_SIZE)
  }

  /** ... and every listing was one of the default database of g. */
  ghost predicate NodePagesRead(g: Graph, listings: seq<seq<Node>>, p: nat, nodes: seq<Node>, total: nat, more: bool) {
    NodesKept(listings, p, nodes, total, more) && forall q :: 0 <= q < p ==> NodeListing(g, listings[q])
  }

  lemma KeepOneMore(listings: seq<seq<Node>>, p: nat, nodes: seq<Node>, total: nat, listing: seq<Node>, rows: seq<Node>)
    requires NodesKept(listings, p, nodes, total, true) && rows == Page(listing, p, PAGE_SIZE)
    ensures NodesKept(listings + [listing], p + 1, nodes + KeptNodes(rows), |listing|, |rows| >= PAGE_SIZE)
    ensures |rows| >= PAGE_SIZE ==> Skip(p + 1, PAGE_SIZE) <= |listing|
  {
    MorePages(listings, listing, p, PAGE_SIZE);
    KeptNodesConcat(Pages(listings, p, PAGE_SIZE), rows);
    if |rows| >= PAGE_SIZE {
      FullPage(listing, p, PAGE_SIZE);
    }
  }

  lemma SameLength(g: Graph, s: seq<Node>, t: seq<Node>)
    requires NodeListing(g, s) && NodeListing(g, t)
    ensures |s| == |t|
  {
    SameNodes(g, DEFAULT_DB, s, t);
    SameSize(s, t);
  }

  lemma NodePageStep(g: Graph, listings: seq<seq<Node>>, p: nat, nodes: seq<Node>, total: nat, listing: seq<Node>, rows: seq<Node>)
    requires NodePagesRead(g, listings, p, nodes, total, true)
    requires NodeListing(g, listing) && rows == Page(listing, p, PAGE_SIZE)
    ensures p > 0 ==> |listing| == total
    ensures NodePagesRead(g, listings + [listing], p + 1, nodes + KeptNodes(rows), |listing|, |rows| >= PAGE_SIZE)
    ensures |rows| >= PAGE_SIZE ==> Skip(p + 1, PAGE_SIZE) <= |listing|
  {
    if p > 0 {
      SameLength(g, listing, listings[p - 1]);
    }
    KeepOneMore(listings, p, nodes, total, listing, rows);
  }

  /** All node pages have been read: the last one was not full. */
  lemma AllNodePages(g: Graph, listings: seq<seq<Node>>, n: nat, nodes: seq<Node>, total: nat)
    requires NodePagesRead(g, listings, n, nodes, total, false)
    ensures CapturesNodes(g, DEFAULT_DB, nodes)
  {
    var s := listings[n - 1];
    assert NodeListing(g, s);
    forall p | 0 <= p < n ensures Listing(ByUri, multiset(s), listings[p]) {
      assert NodeListing(g, listings[p]);
      SameNodes(g, DEFAULT_DB, s, listings[p]);
    }
    UniqueKeysClean(ByUri, s, PAGE_SIZE);
    assert Skip(n, PAGE_SIZE) == Skip(n - 1, PAGE_SIZE) + PAGE_SIZE;
    AllRowsRead(ByUri, s, listings, n, PAGE_SIZE);
    NodesCaptured(g, DEFAULT_DB, s, Pages(listings, n, PAGE_SIZE));
  }

  lemma SameNodes(g: Graph, db: string, s: seq<Node>, t: seq<Node>)
    requires ListsNodes(g, db, s) && ListsNodes(g, db, t)
    ensures multiset(s) == multiset(t)
  {
    forall n: Node ensures multiset(s)[n] == multiset(t)[n] {
      if n in s { NodeOnce(s, n); } else { assert n !in multiset(s); }
      if n in t { NodeOnce(t, n); } else { assert n !in multiset(t); }
    }
  }

  ghost predicate RelListing(g: Graph, s: seq<Relation>) {
    RelRows(g, DEFAULT_DB, s) && Paging.Sorted(BySource, s)
  }

  /** After p pages; `more` when the last one was full. */
  ghost predicate RelPagesRead(g: Graph, listings: seq<seq<Relation>>, p: nat, rels: seq<Relation>, total: nat, more: bool) {
    && |listings| == p && rels == KeptRels(Pages(listings, p, PAGE_SIZE))
    && (forall q :: 0 <= q < p ==> RelListing(g, listings[q]))
    && (p > 0 ==> total == |listings[p - 1]|)
    && (p > 0 && more ==> Skip(p, PAGE_SIZE) <= total)
    && (!more ==> p > 0 && |Page(listings[p - 1], p - 1, PAGE_SIZE)| < PAGE_SIZE)
  }

  lemma RelPageStep(g: Graph, listings: seq<seq<Relation>>, p: nat, rels: seq<Relation>, total: nat, listing: seq<Relation>, rows: seq<Relation>)
    requires RelPagesRead(g, listings, p, rels, total, true)
    requires RelListing(g, listing) && rows == Page(listing, p, PAGE_SIZE)
    ensures p > 0 ==> |listing| == total
    ensures RelPagesRead(g, listings + [listing], p + 1, rels + KeptRels(rows), |listing|, |rows| >= PAGE_SIZE)
    ensures |rows| >= PAGE_SIZE ==> Skip(p + 1, PAGE_SIZE) <= |listing|
  {
    if p > 0 {
      RelRowsSame(g, DEFAULT_DB, listing, listings[p - 1]);
      SameSize(listing, listings[p - 1]);
    }
    MorePages(listings, listing, p, PAGE_SIZE);
    KeptRelsConcat(Pages(listings, p, PAGE_SIZE), rows);
    if |rows| >= PAGE_SIZE {
      FullPage(listing, p, PAGE_SIZE);
    }
  }

  /** One way to list the default database for each of n pages. */
  ghost predicate RelListings(g: Graph, listings: seq<seq<Relation>>, n: nat) {
    |listings| == n && forall q :: 0 <= q < n ==> RelListing(g, listings[q])
  }

  lemma ListingsRead(g: Graph, s: seq<Relation>, listings: seq<seq<Relation>>, n: nat)
    requires RelListing(g, s)
    ensures RelListings(g, listings, n) <==> Reading(BySource, multiset(s), listings, n)
  {
    forall t ensures RelListing(g, t) <==> Listing(BySource, multiset(s), t) {
      RelRowsSame(g, DEFAULT_DB, s, t);
    }
  }

  /** Whatever pages are read, they hold rows of the listings. */
  lemma {:induction false} RowsOfPages(g: Graph, listings: seq<seq<Relation>>, n: nat)
    requires n <= |listings| && forall q :: 0 <= q < n ==> RelListing(g, listings[q])
    ensures forall r :: r in Pages(listings, n, PAGE_SIZE) ==> r.props == map[]
    decreases n
  {
    if n > 0 {
      RowsOfPages(g, listings, n - 1);
      assert RelListing(g, listings[n - 1]);
    }
  }

  /** Every choice of page listings makes the export capture the relationships. */
  ghost predicate AlwaysCaptures(g: Graph, n: nat) {
    forall listings | RelListings(g, listings, n) :: CapturesRels(g, DEFAULT_DB, KeptRels(Pages(listings, n, PAGE_SIZE)))
  }

  /** The export captures the relationships of the default database, however the database orders
      those of one source from page to page, if and only if no page ends between one that is exported
      and a different one of its source. */
  lemma CleanExportExactly(g: Graph, s: seq<Relation>, n: nat)
    requires RelListing(g, s) && Skip(n, PAGE_SIZE) >= |s|
    ensures CleanExport(g, DEFAULT_DB) <==> AlwaysCaptures(g, n)
  {
    if CleanExport(g, DEFAULT_DB) {
      forall listings | RelListings(g, listings, n)
        ensures CapturesRels(g, DEFAULT_DB, KeptRels(Pages(listings, n, PAGE_SIZE)))
      {
        CleanCaptures(g, s, listings, n);
      }
    }
    if AlwaysCaptures(g, n) {
      forall t | RelRows(g, DEFAULT_DB, t) && Paging.Sorted(BySource, t) ensures CleanListing(t) {
        CapturesClean(g, s, t, n);
      }
    }
  }

  lemma CleanCaptures(g: Graph, s: seq<Relation>, listings: seq<seq<Relation>>, n: nat)
    requires RelListing(g, s) && Skip(n, PAGE_SIZE) >= |s| && CleanListing(s) && RelListings(g, listings, n)
    ensures CapturesRels(g, DEFAULT_DB, KeptRels(Pages(listings, n, PAGE_SIZE)))
  {
    var read := Pages(listings, n, PAGE_SIZE);
    ListingsRead(g, s, listings, n);
    RowsOfPages(g, listings, n);
    forall r: Relation | CompleteRow(r) && r.props == map[] ensures multiset(read)[r] == multiset(s)[r] {
      if r in s {
        RowExact(BySource, s, r, n, PAGE_SIZE);
      } else {
        NothingElse(BySource, multiset(s), listings, n, PAGE_SIZE, r);
      }
    }
    RelsCaptured(g, DEFAULT_DB, s, read);
  }

  lemma CapturesClean(g: Graph, s: seq<Relation>, t: seq<Relation>, n: nat)
    requires RelListing(g, s) && Skip(n, PAGE_SIZE) >= |s| && AlwaysCaptures(g, n) && RelListing(g, t)
    ensures CleanListing(t)
  {
    RelRowsSame(g, DEFAULT_DB, s, t);
    SameSize(s, t);
    forall r | r in t && CompleteRow(r) ensures CleanRow(BySource, t, r, PAGE_SIZE) {
      forall ss | Reading(BySource, multiset(t), ss, n) ensures multiset(Pages(ss, n, PAGE_SIZE))[r] == multiset(t)[r] {
        ListingsRead(g, t, ss, n);
        RowsOfPages(g, ss, n);
        RelsCaptured(g, DEFAULT_DB, t, Pages(ss, n, PAGE_SIZE));
      }
      RowExact(BySource, t, r, n, PAGE_SIZE);
    }
  }

  lemma AllRelPages(g: Graph, listings: seq<seq<Relation>>, n: nat, rels: seq<Relation>, total: nat)
    requires RelPagesRead(g, listings, n, rels, total, false)
    ensures forall r :: r in rels ==> r.typ != ""
    ensures CleanExport(g, DEFAULT_DB) ==> CapturesRels(g, DEFAULT_DB, rels)
  {
    KeptRelsOccur(DEFAULT_DB, Pages(listings, n, PAGE_SIZE), Edge("", "", "", ""));
    var s := listings[n - 1];
    assert RelListing(g, s);
    assert Skip(n, PAGE_SIZE) == Skip(n - 1, PAGE_SIZE) + PAGE_SIZE;
    CleanExportExactly(g, s, n);
    assert RelListings(g, listings, n);
  }

  // ---------------------------------------------------------------- a database that no export captures for sure

  /** A type name of n letters. */
  function Name(n: nat): (s: string)
    ensures |s| == n
  {
    if n == 0 then "" else "T" + Name(n - 1)
  }

  /** n relationships from a to b, all of different types. */
  function Fan(n: nat): (rels: seq<Relation>)
    ensures |rels| == n
    ensures forall i :: 0 <= i < n ==> rels[i] == Relation(Name(n - i), "a", "b", map[])
  {
    if n == 0 then [] else [Relation(Name(n), "a", "b", map[])] + Fan(n - 1)
  }

  ghost function TwoNodes(): Graph {
    var labels := ["resource"];
    Graph(map[
      NodeKey(DEFAULT_DB, "a") := NodeRec(labels, map["_db" := Str(DEFAULT_DB), "uri" := Str("a")]),
      NodeKey(DEFAULT_DB, "b") := NodeRec(labels, map["_db" := Str(DEFAULT_DB), "uri" := Str("b")])], map[])
  }

  ghost function FanGraph(n: nat): Graph {
    TouchAll(TwoNodes(), CreateEdges, DEFAULT_DB, Fan(n))
  }

  lemma {:induction false} FanOccurs(rels: seq<Relation>, e: Edge)
    requires (forall r :: r in rels ==> r.from == "a" && r.to == "b") && (e.from != "a" || e.to != "b")
    ensures Occurrences(DEFAULT_DB, rels, e) == 0
  {
    if rels != [] {
      assert rels[0] in rels;
      FanOccurs(rels[1..], e);
    }
  }

  lemma FanRows(n: nat, e: Edge)
    requires e.db == DEFAULT_DB
    ensures Occurrences(DEFAULT_DB, Fan(n), e) == FanGraph(n).Multiplicity(e)
  {
    TouchAllAt(TwoNodes(), CreateEdges, DEFAULT_DB, Fan(n), e);
    if e.from != "a" || e.to != "b" {
      FanOccurs(Fan(n), e);
    }
  }

  lemma FanSorted(n: nat)
    ensures Paging.Sorted(BySource, Fan(n))
  {
    Strings.LessTotal("a", "a");
    var s := Fan(n);
    forall i, j | 0 <= i < j < n ensures Side(BySource(s[j]), BySource(s[i])) >= 0 {
      assert s[i].from == "a" && s[j].from == "a";
    }
  }

  lemma FanListing(n: nat)
    ensures FanGraph(n).Wf() && RelListing(FanGraph(n), Fan(n))
  {
    assert TwoNodes().Wf();
    TouchAllWf(TwoNodes(), CreateEdges, DEFAULT_DB, Fan(n));
    forall e: Edge | e.db == DEFAULT_DB ensures Occurrences(DEFAULT_DB, Fan(n), e) == FanGraph(n).Multiplicity(e) {
      FanRows(n, e);
    }
    FanSorted(n);
  }

  /** More than a page of different relationships of one source: for some way to list each page the
      export misses one of them and has another twice. */
  lemma FanNotCaptured(n: nat) returns (listings: seq<seq<Relation>>)
    requires PAGE_SIZE < n <= 2 * PAGE_SIZE
    ensures FanGraph(n).Wf() && RelListings(FanGraph(n), listings, 2) && !CleanExport(FanGraph(n), DEFAULT_DB)
    ensures !CapturesRels(FanGraph(n), DEFAULT_DB, KeptRels(Pages(listings, 2, PAGE_SIZE)))
  {
    var s := Fan(n);
    FanListing(n);
    FanSplit(n);
    assert Skip(2, PAGE_SIZE) == 2 * PAGE_SIZE;
    CleanExportExactly(FanGraph(n), s, 2);
    listings :| RelListings(FanGraph(n), listings, 2) && !CapturesRels(FanGraph(n), DEFAULT_DB, KeptRels(Pages(listings, 2, PAGE_SIZE)));
  }

  lemma FanSplit(n: nat)
    requires n > PAGE_SIZE
    ensures !CleanListing(Fan(n))
  {
    var s := Fan(n);
    Strings.LessTotal("a", "a");
    forall r | r in s ensures r.from == "a" {}
    NoPart(BySource, s, "a", -1);
    NoPart(BySource, s, "a", 1);
    FanSorted(n);
    SplitSorted(BySource, s, "a");
    assert Skip(1, PAGE_SIZE) == Skip(0, PAGE_SIZE) + PAGE_SIZE;
    assert Splits(BySource, s, "a", Skip(1, PAGE_SIZE));
    assert s[0] != s[1] by { assert |s[0].typ| != |s[1].typ|; }
    assert s[0] in s && s[1] in s && CompleteRow(s[0]);
    assert !CleanEnd(BySource, s, s[0], 1, PAGE_SIZE);
  }

  lemma FullPage<T>(s: seq<T>, p: nat, size: nat)
    requires |Page(s, p, size)| >= size > 0
    ensures Skip(p + 1, size) <= |s|
  {
  }

  // ---------------------------------------------------------------- the manager

  datatype State = State(graph: Graph, archives: map<string, Archive>, access: Access, now: nat)

  /** The archive holds the default database of g as far as pages of relationships are clean. */
  ghost predicate Exports(g: Graph, ar: Archive) {
    && CapturesNodes(g, DEFAULT_DB, ar.nodes)
    && (CleanExport(g, DEFAULT_DB) ==> CapturesRels(g, DEFAULT_DB, ar.rels))
    && (forall r :: r in ar.rels ==> r.typ != "")
  }

  /** No label contains a ':'. */
  ghost predicate PlainGraph(g: Graph) {
    forall k :: k in g.nodes && g.nodes[k].labels != [] ==> PlainLabels(g.nodes[k].labels)
  }

  ghost predicate ValidState(s: State) {
    && s.graph.Wf() && PlainGraph(s.graph)
    && (forall name :: name in s.archives ==> ArchiveOk(s.archives[name]))
    && 0 < s.now && (forall d :: d in s.access ==> s.access[d] < s.now)
  }

  /** Snapshot `name` has been accessed. */
  function Used(s: State, name: string): State {
    s.(access := s.access[name := s.now], now := s.now + 1)
  }

  /** ... and an archive has been loaded into its database. */
  function Filled(s: State, name: string, ar: Archive): State {
    Used(s, name).(graph := Loaded(s.graph, Create, name, ar.nodes, ar.rels))
  }

  function Evicted(s: State, cleared: set<string>): State {
    s.(graph := ClearedAll(s.graph, cleared), access := s.access - cleared)
  }

  /** The snapshots the clean-up is to clear. */
  function Due(s: State, maxActive: nat): set<string> {
    Victims(SnapshotDbs(s.graph), s.access, maxActive)
  }

  /** `name` was not loaded; its archive is, and `cleared` has been cleared of what was due. */
  ghost predicate EnsuredBy(s: State, name: string, maxActive: nat, cleared: set<string>, t: State) {
    && !s.graph.HasData(name) && name in s.archives
    && cleared <= Due(Filled(s, name, s.archives[name]), maxActive)
    && t == Evicted(Filled(s, name, s.archives[name]), cleared)
  }

  /** Making sure that snapshot `name` is loaded: it is accessed now; if it was not loaded, its
      archive is, and older snapshots may be cleared to make room. */
  ghost predicate Ensured(s: State, name: string, maxActive: nat, t: State) {
    if s.graph.HasData(name) then t == Used(s, name) else exists cleared :: EnsuredBy(s, name, maxActive, cleared, t)
  }

  /** A successful load in which everything due is cleared. */
  ghost predicate EnsuredCleanly(s: State, name: string, maxActive: nat, t: State) {
    if s.graph.HasData(name) then t == Used(s, name)
    else name in s.archives && EnsuredBy(s, name, maxActive, Due(Filled(s, name, s.archives[name]), maxActive), t)
  }

  /** How a clean-up went: whether the databases could be listed, and which were cleared. */
  datatype Eviction = Eviction(listed: bool, cleared: set<string>, failed: set<string>)

  /** Statement st came between the two logs, and worked or not. */
  ghost predicate Sent(works: nat -> bool, before: seq<Statement>, after: seq<Statement>, st: Statement, worked: bool) {
    exists i :: |before| <= i < |after| && after[i] == st && works(i) == worked
  }

  /** That is how the statements of the clean-up went. */
  ghost predicate Attempted(works: nat -> bool, before: seq<Statement>, after: seq<Statement>, ev: Eviction) {
    && Sent(works, before, after, ListAll, ev.listed)
    && (!ev.listed ==> ev.cleared == {} && ev.failed == {})
    && (forall d :: d in ev.cleared ==> Sent(works, before, after, Clear(d), true))
    && (forall d :: d in ev.failed ==> Sent(works, before, after, Clear(d), false))
  }

  lemma SentLater(works: nat -> bool, a: seq<Statement>, b: seq<Statement>, c: seq<Statement>, d: seq<Statement>, ev: Eviction)
    requires a <= b <= c <= d && Attempted(works, b, c, ev)
    ensures Attempted(works, a, d, ev)
  {
    SentStays(works, a, b, c, d, ListAll, ev.listed);
    forall x | x in ev.cleared ensures Sent(works, a, d, Clear(x), true) { SentStays(works, a, b, c, d, Clear(x), true); }
    forall x | x in ev.failed ensures Sent(works, a, d, Clear(x), false) { SentStays(works, a, b, c, d, Clear(x), false); }
  }

  lemma SentStays(works: nat -> bool, a: seq<Statement>, b: seq<Statement>, c: seq<Statement>, d: seq<Statement>, st: Statement, worked: bool)
    requires a <= b <= c <= d && Sent(works, b, c, st, worked)
    ensures Sent(works, a, d, st, worked)
  {
    var i :| |b| <= i < |c| && c[i] == st && works(i) == worked;
    assert d[i] == st;
  }

  /** `name` was not loaded, and is; then the clean-up was sent, and everything due was cleared but for
      the clears that failed. */
  ghost predicate MadeRoom(s: State, name: string, maxActive: nat, ev: Eviction, t: State) {
    && EnsuredBy(s, name, maxActive, ev.cleared, t)
    && (ev.listed ==>
          && ev.cleared !! ev.failed && ev.cleared + ev.failed == Due(Filled(s, name, s.archives[name]), maxActive)
          && |SnapshotDbs(t.graph)| <= maxActive + |ev.failed|)
  }

  /** When all statements work nothing is left over. */
  lemma AllMadeRoom(works: nat -> bool, before: seq<Statement>, after: seq<Statement>, s: State, name: string, maxActive: nat, ev: Eviction, t: State)
    requires before <= after && AllWork(works, |before|, |after|) && Attempted(works, before, after, ev) && MadeRoom(s, name, maxActive, ev, t)
    ensures EnsuredCleanly(s, name, maxActive, t) && |SnapshotDbs(t.graph)| <= maxActive
  {
    forall d ensures d !in ev.failed {
      assert !Sent(works, before, after, Clear(d), false);
    }
    assert ev.failed == {};
    assert ev.listed by { assert !Sent(works, before, after, ListAll, false); }
  }

  ghost predicate Tried(works: nat -> bool, before: seq<Statement>, after: seq<Statement>, cleared: set<string>, failed: set<string>) {
    && before <= after
    && (forall d :: d in cleared ==> Sent(works, before, after, Clear(d), true))
    && (forall d :: d in failed ==> Sent(works, before, after, Clear(d), false))
  }

  lemma TriedOne(works: nat -> bool, a: seq<Statement>, b: seq<Statement>, c: seq<Statement>,
                 cleared: set<string>, failed: set<string>, d: string, ok: bool)
    requires Tried(works, a, b, cleared, failed) && c == b + [Clear(d)] && ok == works(|b|)
    ensures if ok then Tried(works, a, c, cleared + {d}, failed) else Tried(works, a, c, cleared, failed + {d})
  {
    assert c[|b|] == Clear(d);
    forall x | x in cleared ensures Sent(works, a, c, Clear(x), true) { SentStays(works, a, a, b, c, Clear(x), true); }
    forall x | x in failed ensures Sent(works, a, c, Clear(x), false) { SentStays(works, a, a, b, c, Clear(x), false); }
  }

  lemma SentAfter(works: nat -> bool, a: seq<Statement>, b: seq<Statement>, c: seq<Statement>, cleared: set<string>, failed: set<string>)
    requires a <= b && Tried(works, b, c, cleared, failed) && Sent(works, a, b, ListAll, true)
    ensures Attempted(works, a, c, Eviction(true, cleared, failed))
  {
    SentStays(works, a, a, b, c, ListAll, true);
    forall x | x in cleared ensures Sent(works, a, c, Clear(x), true) { SentStays(works, a, b, c, c, Clear(x), true); }
    forall x | x in failed ensures Sent(works, a, c, Clear(x), false) { SentStays(works, a, b, c, c, Clear(x), false); }
  }

  /** Only statements about database d came. */
  ghost predicate OnlyAbout(before: seq<Statement>, after: seq<Statement>, d: string) {
    before <= after && forall i :: |before| <= i < |after| ==> after[i] == HasAny(d) || after[i] == Clear(d)
  }

  /** For every expired snapshot that was not deleted a statement about it failed. */
  ghost predicate Undeleted(works: nat -> bool, before: seq<Statement>, after: seq<Statement>, expired: seq<string>, deleted: set<string>) {
    before <= after && forall d :: d in expired && d !in deleted ==> Failed(works, before, after, d)
  }

  ghost predicate Failed(works: nat -> bool, before: seq<Statement>, after: seq<Statement>, d: string) {
    Sent(works, before, after, HasAny(d), false) || Sent(works, before, after, Clear(d), false)
  }

  lemma UndeletedOne(works: nat -> bool, a: seq<Statement>, b: seq<Statement>, c: seq<Statement>,
                     expired: seq<string>, deleted: set<string>, d: string, ok: bool)
    requires Undeleted(works, a, b, expired, deleted) && Went(works, b, c, ok) && OnlyAbout(b, c, d)
    ensures Undeleted(works, a, c, expired + [d], if ok then deleted + {d} else deleted)
  {
    forall x | x in expired && x !in deleted ensures Failed(works, a, c, x) {
      FailedStays(works, a, a, b, c, x);
    }
    if !ok {
      var i :| |b| <= i < |c| && !works(i);
      assert c[i] == HasAny(d) || c[i] == Clear(d);
      assert Failed(works, b, c, d);
      FailedStays(works, a, b, c, c, d);
    }
  }

  lemma UndeletedSince(works: nat -> bool, a: seq<Statement>, b: seq<Statement>, c: seq<Statement>, expired: seq<string>, deleted: set<string>)
    requires a <= b && Undeleted(works, b, c, expired, deleted)
    ensures Undeleted(works, a, c, expired, deleted)
  {
    forall x | x in expired && x !in deleted ensures Failed(works, a, c, x) {
      FailedStays(works, a, b, c, c, x);
    }
  }

  lemma FailedStays(works: nat -> bool, a: seq<Statement>, b: seq<Statement>, c: seq<Statement>, d: seq<Statement>, x: string)
    requires a <= b <= c <= d && Failed(works, b, c, x)
    ensures Failed(works, a, d, x)
  {
    if Sent(works, b, c, HasAny(x), false) {
      SentStays(works, a, b, c, d, HasAny(x), false);
    } else {
      SentStays(works, a, b, c, d, Clear(x), false);
    }
  }

  /** A statement of a load failed, other than those of the clean-up. */
  ghost predicate LoadBroke(works: nat -> bool, before: seq<Statement>, after: seq<Statement>) {
    exists i :: |before| <= i < |after| && !works(i) && (after[i].HasAny? || after[i].PutNodes? || after[i].PutRels?)
  }

  /** A statement of a restore failed, other than those of the clean-up. */
  ghost predicate RestoreBroke(works: nat -> bool, before: seq<Statement>, after: seq<Statement>) {
    exists i :: |before| <= i < |after| && !works(i) && !after[i].ListAll? && (after[i].Clear? ==> after[i].db == DEFAULT_DB)
  }

  /** The load of `name` has stopped after the statements of some label groups and relation types. */
  ghost predicate FailedBy(s: State, name: string, tags: set<string>, types: set<string>, t: State) {
    && !s.graph.HasData(name) && name in s.archives
    && (types != {} ==> forall n :: n in s.archives[name].nodes ==> n.MostSpecificLabel() in tags)
    && t == Filled(s, name, Portion(s.archives[name], tags, types))
  }

  /** What a failing EnsureLoaded can leave: nothing done, no archive found, or part of it loaded. */
  ghost predicate LoadFailed(s: State, name: string, t: State) {
    || t == s
    || (!s.graph.HasData(name) && t == Used(s, name))
    || exists tags, types :: FailedBy(s, name, tags, types, t)
  }

  /** From mid, with `name` loaded, a restore has stopped: before the default database was cleared, or
      with the copies of some label lists and, once these are all, of some relation types in it. */
  ghost predicate RestoreStopped(mid: State, name: string, t: State) {
    && t == mid.(graph := t.graph)
    && (t.graph == mid.graph
        || exists keys, types :: PartlyCopied(Cleared(mid.graph, DEFAULT_DB), name, DEFAULT_DB, keys, types, t.graph))
  }

  /** What a failing restore can leave: what a failing load leaves, or the snapshot loaded. */
  ghost predicate RestoreFailed(s: State, name: string, maxActive: nat, t: State) {
    LoadFailed(s, name, t) || exists mid :: Ensured(s, name, maxActive, mid) && RestoreStopped(mid, name, t)
  }

  /** The first n relationships of the export ar were written under the name, and all its nodes. */
  ghost predicate CutBy(s: State, name: string, ar: Archive, n: nat, t: State) {
    && Exports(s.graph, ar) && ArchiveOk(ar) && n <= |ar.rels|
    && t == s.(archives := s.archives[name := CutShort(ar, n)])
  }

  /** What a failing export can leave: nothing has changed, or the file of that name, which is created
      anew before anything is written to it, cannot be read, or it is the new export cut short. */
  ghost predicate CreateFailed(s: State, name: string, t: State) {
    || t == s
    || t == s.(archives := s.archives - {name})
    || exists ar, n :: CutBy(s, name, ar, n, t)
  }

  /** What happens when an archive is written: it is stored; its file cannot be created; it is created and
      cannot be read; or it is cut short behind n relationships. */
  datatype Disk = Stores | Refuses | Ruins | Cuts(n: nat)

  class SnapshotManager {
    const client: Neo4jClient
    const maxActive: nat
    var archives: map<string, Archive>
    var lastAccess: Access
    var now: nat                 // the clock, which moves on with every access

    constructor (client: Neo4jClient, maxActive: nat)
      ensures this.client == client && this.maxActive == maxActive && archives == map[] && lastAccess == map[] && now == 1
    {
      this.client, this.maxActive := client, maxActive;
      archives, lastAccess, now := map[], map[], 1;
    }

    function Current(): State
      reads this, client
    {
      State(client.graph, archives, lastAccess, now)
    }

    /** Clears the snapshots beyond the maxActive most recently used. The default database is never
        touched, and neither is any snapshot with fewer than maxActive newer ones; a failing clear
        skips only its own database. */
    method Cleanup() returns (ghost cleared: set<string>, ghost failed: set<string>, listed: bool)
      modifies client, this`lastAccess
      ensures old(client.log) <= client.log && Attempted(client.works, old(client.log), client.log, Eviction(listed, cleared, failed))
      ensures cleared !! failed && cleared + failed <= Victims(SnapshotDbs(old(client.graph)), old(lastAccess), maxActive)
      ensures listed ==> cleared + failed == Victims(SnapshotDbs(old(client.graph)), old(lastAccess), maxActive)
      ensures listed ==> |SnapshotDbs(client.graph)| <= maxActive + |failed|
      ensures client.graph == ClearedAll(old(client.graph), cleared)
      ensures lastAccess == old(lastAccess) - cleared
    {
      cleared, failed := {}, {};
      ClearNone(client.graph);
      ghost var dbs := SnapshotDbs(client.graph);
      var all;
      ghost var sent := client.log;
      listed, all := client.ListDBs();
      assert client.log[|sent|] == ListAll;
      assert Sent(client.works, sent, client.log, ListAll, listed);
      if !listed {
        return;
      }
      ghost var first := client.log;
      var snaps := WithoutDefault(all);
      ListedSnapshots(client.graph, all, snaps);
      var access := lastAccess;
      OlderTotal(access);
      var sorted := Sort((a: string, b: string) => !Older(access, b, a), snaps);
      SortedCopy(snaps, sorted);
      var toRemove := if |sorted| <= maxActive then 0 else |sorted| - maxActive;
      FrontIsVictims(dbs, access, sorted, maxActive, toRemove);
      cleared, failed := ClearFront(sorted[..toRemove]);
      SentAfter(client.works, sent, first, client.log, cleared, failed);
      LeftAfterCleanup(old(client.graph), access, maxActive, sorted, cleared, failed);
    }

    method ClearFront(front: seq<string>) returns (ghost cleared: set<string>, ghost failed: set<string>)
      requires NoRepeats(front)
      modifies client, this`lastAccess
      ensures Tried(client.works, old(client.log), client.log, cleared, failed)
      ensures cleared !! failed && cleared + failed == Elements(front)
      ensures client.graph == ClearedAll(old(client.graph), cleared)
      ensures lastAccess == old(lastAccess) - cleared
    {
      cleared, failed := {}, {};
      ClearNone(client.graph);
      for i := 0 to |front|
        invariant Tried(client.works, old(client.log), client.log, cleared, failed)
        invariant cleared !! failed && cleared + failed == Elements(front[..i])
        invariant client.graph == ClearedAll(old(client.graph), cleared)
        invariant lastAccess == old(lastAccess) - cleared
      {
        var db := front[i];
        assert db !in front[..i];
        assert front[..i + 1] == front[..i] + [db];
        assert Elements(front[..i + 1]) == Elements(front[..i]) + {db};
        ClearOneMore(old(client.graph), cleared, db);
        ghost var sent := client.log;
        var ok := ClearOne(db);
        TriedOne(client.works, old(client.log), sent, client.log, cleared, failed, db, ok);
        if ok {
          cleared := cleared + {db};
        } else {
          failed := failed + {db};
        }
      }
      assert front[..|front|] == front;
    }

    /** A snapshot that is cleared is also forgotten. */
    method ClearOne(db: string) returns (ok: bool)
      modifies client, this`lastAccess
      ensures client.log == old(client.log) + [Clear(db)] && ok == client.works(|old(client.log)|)
      ensures client.graph == if ok then Cleared(old(client.graph), db) else old(client.graph)
      ensures lastAccess == if ok then old(lastAccess) - {db} else old(lastAccess)
    {
      ok := client.ClearDB(db);
      if ok {
        lastAccess := lastAccess - {db};
      }
    }

    /** The node pages of the default database. */
    method ExportNodes() returns (ok: bool, nodes: seq<Node>)
      modifies client`log
      ensures Went(client.works, old(client.log), client.log, ok)
      ensures ok ==> CapturesNodes(client.graph, DEFAULT_DB, nodes)
    {
      nodes := [];
      ghost var g := client.graph;
      ghost var listings: seq<seq<Node>> := [];
      var p := 0;
      var more := true;
      ghost var total: nat := 0;
      while more
        invariant client.graph == g && NodePagesRead(g, listings, p, nodes, total, more)
        invariant Went(client.works, old(client.log), client.log, true)
        decreases more, if p == 0 then 1 else 0, total - Skip(p, PAGE_SIZE)
      {
        var rows;
        ghost var listing;
        ghost var sent := client.log;
        ok, rows, listing := QueryNodePage(client, DEFAULT_DB, p);
        WentOn(client.works, old(client.log), sent, client.log, ok);
        if !ok {
          return;
        }
        var kept := KeepNodes(rows);
        NodePageStep(g, listings, p, nodes, total, listing, rows);
        nodes := nodes + kept;
        listings := listings + [listing];
        total := |listing|;
        p := p + 1;
        more := |rows| >= PAGE_SIZE;
      }
      AllNodePages(g, listings, p, nodes, total);
      ok := true;
    }

    /** The relationship pages of the default database. */
    method ExportRels() returns (ok: bool, rels: seq<Relation>)
      modifies client`log
      ensures Went(client.works, old(client.log), client.log, ok)
      ensures ok && CleanExport(client.graph, DEFAULT_DB) ==> CapturesRels(client.graph, DEFAULT_DB, rels)
      ensures ok ==> forall r :: r in rels ==> r.typ != ""
    {
      rels := [];
      ghost var g := client.graph;
      ghost var listings: seq<seq<Relation>> := [];
      var p := 0;
      var more := true;
      ghost var total: nat := 0;
      while more
        invariant client.graph == g && RelPagesRead(g, listings, p, rels, total, more)
        invariant Went(client.works, old(client.log), client.log, true)
        decreases more, if p == 0 then 1 else 0, total - Skip(p, PAGE_SIZE)
      {
        var rows;
        ghost var listing;
        ghost var sent := client.log;
        ok, rows, listing := QueryRelPage(client, DEFAULT_DB, p);
        WentOn(client.works, old(client.log), sent, client.log, ok);
        if !ok {
          return;
        }
        var kept := KeepRels(rows);
        RelPageStep(g, listings, p, rels, total, listing, rows);
        rels := rels + kept;
        listings := listings + [listing];
        total := |listing|;
        p := p + 1;
        more := |rows| >= PAGE_SIZE;
      }
      AllRelPages(g, listings, p, rels, total);
      ok := true;
    }

    /** Exports the default database to the archive `name`, then deletes the databases of the
        snapshots whose retention has ended. */
    method CreateSnapshot(name: string, expired: seq<string>, disk: Disk) returns (ok: bool, ghost deleted: set<string>)
      requires ValidState(Current()) && DEFAULT_DB !in expired
      modifies this`archives, client
      ensures old(client.log) <= client.log
      ensures ok ==> disk.Stores? && Undeleted(client.works, old(client.log), client.log, expired, deleted)
      ensures !ok && disk.Stores? ==> Current() == old(Current()) && !AllWork(client.works, |old(client.log)|, |client.log|)
      ensures !ok ==> CreateFailed(old(Current()), name, Current())
      ensures ok ==> name in archives && archives == old(archives)[name := archives[name]] && Exports(old(client.graph), archives[name])
      ensures ok ==> ArchiveOk(archives[name])
      ensures ok ==> (forall d :: d in deleted ==> d in expired) && client.graph == ClearedAll(old(client.graph), deleted)
    {
      deleted := {};
      var nodes, rels;
      ok, nodes := ExportNodes();
      if !ok {
        return;
      }
      ghost var sent := client.log;
      ok, rels := ExportRels();
      WentOn(client.works, old(client.log), sent, client.log, ok);
      if !ok {
        return;
      }
      ExportOk(client.graph, Archive(nodes, rels));
      ghost var s := Current();
      ghost var written;
      ok, written := WriteArchive(name, nodes, rels, disk);
      if !ok {
        assert written <= |rels| && archives == s.archives[name := Archive(nodes, rels[..written])] ==>
          CutBy(s, name, Archive(nodes, rels), written, Current());
        return;
      }
      sent := client.log;
      deleted := CleanupExpired(expired);
      UndeletedSince(client.works, old(client.log), sent, client.log, expired, deleted);
    }

    /** Writes nodes, then relationships; it may stop with the file not created, not readable, or cut
        short among the relationships. */
    method WriteArchive(name: string, nodes: seq<Node>, rels: seq<Relation>, disk: Disk) returns (ok: bool, ghost written: nat)
      modifies this`archives
      ensures ok <==> disk.Stores?
      ensures ok ==> archives == old(archives)[name := Archive(nodes, rels)]
      ensures disk.Refuses? ==> archives == old(archives)
      ensures disk.Ruins? ==> archives == old(archives) - {name}
      ensures disk.Cuts? ==> written == (if disk.n <= |rels| then disk.n else |rels|)
      ensures disk.Cuts? ==> archives == old(archives)[name := Archive(nodes, rels[..written])]
    {
      ok, written := disk.Stores?, 0;
      match disk
      case Stores =>
        archives := archives[name := Archive(nodes, rels)];
      case Refuses =>
      case Ruins =>
        archives := archives - {name};
      case Cuts(n) =>
        var upTo := if n <= |rels| then n else |rels|;
        archives := archives[name := Archive(nodes, rels[..upTo])];
        written := upTo;
    }

    method CleanupExpired(expired: seq<string>) returns (ghost deleted: set<string>)
      requires client.graph.Wf()
      modifies client
      ensures forall d :: d in deleted ==> d in expired
      ensures Undeleted(client.works, old(client.log), client.log, expired, deleted)
      ensures client.graph == ClearedAll(old(client.graph), deleted)
    {
      deleted := {};
      ClearNone(client.graph);
      for i := 0 to |expired|
        invariant forall d :: d in deleted ==> d in expired[..i]
        invariant Undeleted(client.works, old(client.log), client.log, expired[..i], deleted)
        invariant client.graph == ClearedAll(old(client.graph), deleted)
      {
        ClearedAllWf(old(client.graph), deleted);
        ClearOneMore(old(client.graph), deleted, expired[i]);
        ghost var sent := client.log;
        var ok := DeleteSnapshot(expired[i]);
        UndeletedOne(client.works, old(client.log), sent, client.log, expired[..i], deleted, expired[i], ok);
        assert expired[..i + 1] == expired[..i] + [expired[i]];
        if ok {
          deleted := deleted + {expired[i]};
        }
      }
      assert expired[..|expired|] == expired;
    }

    /** Removes the loaded database of a snapshot; its archive stays. */
    method DeleteSnapshot(name: string) returns (ok: bool)
      requires client.graph.Wf()
      modifies client
      ensures Went(client.works, old(client.log), client.log, ok) && OnlyAbout(old(client.log), client.log, name)
      ensures client.graph == if ok then Cleared(old(client.graph), name) else old(client.graph)
    {
      var found;
      ok, found := client.HasDB(name);
      if !ok {
        return;
      }
      if found {
        ghost var sent := client.log;
        ok := client.ClearDB(name);
        WentOn(client.works, old(client.log), sent, client.log, ok);
      } else {
        NothingToClear(client.graph, name);
      }
    }

    /** On success the snapshot is loaded, and if it was not before, the clean-up has been sent; on failure
        part of it may be. */
    method EnsureLoaded(name: string) returns (ok: bool, ghost ev: Eviction)
      requires ValidState(Current())
      modifies client, this`lastAccess, this`now
      ensures old(client.log) <= client.log
      ensures ok ==> Ensured(old(Current()), name, maxActive, Current())
      ensures ok && !old(client.graph).HasData(name) ==>
        Attempted(client.works, old(client.log), client.log, ev) && MadeRoom(old(Current()), name, maxActive, ev, Current())
      ensures !ok ==> LoadFailed(old(Current()), name, Current())
      ensures !ok ==>
        LoadBroke(client.works, old(client.log), client.log) || (!old(client.graph).HasData(name) && name !in old(archives))
    {
      ghost var s := Current();
      ev := Eviction(false, {}, {});
      var found;
      ok, found := client.HasDB(name);
      ghost var first := client.log;
      if !ok {
        assert client.log[|old(client.log)|] == HasAny(name);
        return;
      }
      lastAccess := lastAccess[name := now];
      now := now + 1;
      if found {
        return;
      }
      if name !in archives {
        ok := false;
        return;
      }
      ok := client.BulkCreate(name, archives[name].nodes, archives[name].rels);
      ghost var loaded, full := client.log, Current();
      if !ok {
        StoppedIsPart(s, name, Current());
        BrokeWriting(client.works, old(client.log), first, client.log, name);
        return;
      }
      assert full == Filled(s, name, archives[name]);
      ghost var cleared, failed;
      var listed;
      cleared, failed, listed := Cleanup();
      ev := Eviction(listed, cleared, failed);
      assert Current() == Evicted(full, cleared);
      assert EnsuredBy(s, name, maxActive, cleared, Current());
      SentLater(client.works, old(client.log), loaded, client.log, client.log, ev);
    }

    /** On success the default database is a copy of the snapshot's. */
    method Restore(name: string) returns (ok: bool, ghost mid: State, ghost ev: Eviction)
      requires ValidState(Current())
      modifies client, this`lastAccess, this`now
      ensures old(client.log) <= client.log
      ensures ok ==> Ensured(old(Current()), name, maxActive, mid) && ValidState(mid)
      ensures ok && !old(client.graph).HasData(name) ==>
        Attempted(client.works, old(client.log), client.log, ev) && MadeRoom(old(Current()), name, maxActive, ev, mid)
      ensures ok ==> Current() == mid.(graph := Copied(Cleared(mid.graph, DEFAULT_DB), name, DEFAULT_DB))
      ensures !ok ==> RestoreFailed(old(Current()), name, maxActive, Current())
      ensures !ok ==>
        RestoreBroke(client.works, old(client.log), client.log) || (!old(client.graph).HasData(name) && name !in old(archives))
    {
      ok, ev := EnsureLoaded(name);
      mid := Current();
      ghost var loaded := client.log;
      if !ok {
        if LoadBroke(client.works, old(client.log), loaded) { LoadBrokeRestore(client.works, old(client.log), loaded); }
        return;
      }
      EnsuredValid(old(Current()), name, maxActive, mid);
      ok := client.ClearDB(DEFAULT_DB);
      ghost var emptied := client.log;
      if !ok {
        assert RestoreStopped(mid, name, Current());
        assert client.log[|loaded|] == Clear(DEFAULT_DB);
        return;
      }
      ClearedWf(mid.graph, DEFAULT_DB);
      ClearedOutside(mid.graph, DEFAULT_DB);
      ok := client.CloneDB(name, DEFAULT_DB);
      assert RestoreStopped(mid, name, Current());
      if !ok {
        BrokeCloning(client.works, old(client.log), emptied, client.log);
      } else if !old(client.graph).HasData(name) {
        SentLater(client.works, old(client.log), old(client.log), loaded, client.log, ev);
      }
    }

    /** The two loads with which Diff begins. */
    method LoadBoth(a: string, b: string) returns (ok: bool, ghost mid: State, ghost first: Eviction, ghost second: Eviction)
      requires ValidState(Current())
      modifies client, this`lastAccess, this`now
      ensures old(client.log) <= client.log
      ensures ok ==> Ensured(old(Current()), a, maxActive, mid) && Ensured(mid, b, maxActive, Current())
      ensures ok && !old(client.graph).HasData(a) ==>
        Attempted(client.works, old(client.log), client.log, first) && MadeRoom(old(Current()), a, maxActive, first, mid)
      ensures ok && !mid.graph.HasData(b) ==>
        Attempted(client.works, old(client.log), client.log, second) && MadeRoom(mid, b, maxActive, second, Current())
      ensures !ok ==> LoadFailed(old(Current()), a, Current()) || (Ensured(old(Current()), a, maxActive, mid) && LoadFailed(mid, b, Current()))
      ensures !ok ==>
        LoadBroke(client.works, old(client.log), client.log) || (!old(client.graph).HasData(a) && a !in old(archives)) ||
        (Ensured(old(Current()), a, maxActive, mid) && !mid.graph.HasData(b) && b !in old(archives))
    {
      second := Eviction(false, {}, {});
      ok, first := EnsureLoaded(a);
      mid := Current();
      ghost var sent := client.log;
      if ok {
        EnsuredValid(old(Current()), a, maxActive, mid);
        ok, second := EnsureLoaded(b);
        if ok && !old(client.graph).HasData(a) {
          SentLater(client.works, old(client.log), old(client.log), sent, client.log, first);
        }
        if ok && !mid.graph.HasData(b) {
          SentLater(client.works, old(client.log), sent, client.log, client.log, second);
        }
        if !ok && LoadBroke(client.works, sent, client.log) {
          LoadBrokeSince(client.works, old(client.log), sent, client.log);
        }
      }
    }
  }

  lemma BrokeWriting(works: nat -> bool, a: seq<Statement>, b: seq<Statement>, c: seq<Statement>, db: string)
    requires a <= b && Writes(b, c, db) && Went(works, b, c, false)
    ensures LoadBroke(works, a, c)
  {
    var i :| |b| <= i < |c| && !works(i);
    assert c[i].PutNodes? || c[i].PutRels?;
  }

  lemma BrokeCloning(works: nat -> bool, a: seq<Statement>, b: seq<Statement>, c: seq<Statement>)
    requires a <= b && Clones(b, c) && Went(works, b, c, false)
    ensures RestoreBroke(works, a, c)
  {
    var i :| |b| <= i < |c| && !works(i);
    assert !c[i].ListAll? && !c[i].Clear?;
  }

  lemma LoadBrokeRestore(works: nat -> bool, a: seq<Statement>, b: seq<Statement>)
    requires LoadBroke(works, a, b)
    ensures RestoreBroke(works, a, b)
  {
    var i :| |a| <= i < |b| && !works(i) && (b[i].HasAny? || b[i].PutNodes? || b[i].PutRels?);
    assert !b[i].ListAll?;
  }

  lemma LoadBrokeSince(works: nat -> bool, a: seq<Statement>, b: seq<Statement>, c: seq<Statement>)
    requires a <= b && LoadBroke(works, b, c)
    ensures LoadBroke(works, a, c)
  {
    var i :| |b| <= i < |c| && !works(i) && (c[i].HasAny? || c[i].PutNodes? || c[i].PutRels?);
    assert |a| <= i;
  }

  lemma MorePages<T>(listings: seq<seq<T>>, listing: seq<T>, p: nat, size: nat)
    requires |listings| == p
    ensures Pages(listings + [listing], p + 1, size) == Pages(listings, p, size) + Page(listing, p, size)
  {
    PagesPrefixOnly(listings, listings + [listing], p, size);
  }

  lemma {:induction false} PagesPrefixOnly<T>(a: seq<seq<T>>, b: seq<seq<T>>, n: nat, size: nat)
    requires n <= |a| <= |b| && forall q :: 0 <= q < n ==> a[q] == b[q]
    ensures Pages(a, n, size) == Pages(b, n, size)
    decreases n
  {
    if n > 0 {
      PagesPrefixOnly(a, b, n - 1, size);
    }
  }

  lemma ExportOk(g: Graph, ar: Archive)
    requires PlainGraph(g) && CapturesNodes(g, DEFAULT_DB, ar.nodes) && forall r :: r in ar.rels ==> r.typ != ""
    ensures ArchiveOk(ar)
  {
    forall n | n in ar.nodes ensures PlainLabels(n.labels) {
      assert g.Node(NodeKey(DEFAULT_DB, n.uri)) == Some(NodeRec(n.labels, n.props));
    }
  }

  lemma NothingToClear(g: Graph, db: string)
    requires g.Wf() && !g.HasData(db)
    ensures Cleared(g, db) == g
  {
    var h := Cleared(g, db);
    forall k ensures h.Node(k) == g.Node(k) {
      assert k in g.nodes ==> k.db != db;
    }
    forall e ensures h.Multiplicity(e) == g.Multiplicity(e) {
      assert e in g.edges ==> g.Joins(e) && e.Source().db == e.db;
    }
    GraphsAgree(h, g);
  }

  lemma LoadedPlain(g: Graph, db: string, ar: Archive)
    requires PlainGraph(g) && ArchiveOk(ar)
    ensures PlainGraph(Loaded(g, Create, db, ar.nodes, ar.rels))
  {
    var ws := Rows(Create, db, ar.nodes, ar.nodes);
    RowAt(Create, db, ar.nodes, ar.nodes);
    forall w | w in ws ensures PlainLabels(w.labels) {
      var i :| 0 <= i < |ws| && ws[i] == w;
      var l := ar.nodes[i].MostSpecificLabel();
      NodesLabelledMembers(ar.nodes, l);
      assert ar.nodes[i] in ar.nodes;
      assert ar.nodes[i] in NodesLabelled(ar.nodes, l);
      assert NodesLabelled(ar.nodes, l)[0] in NodesLabelled(ar.nodes, l);
    }
    WritesPlain(g, db, ws);
    TouchAllAt(WriteAll(g, db, ws), CreateEdges, db, ar.rels, Edge("", "", "", ""));
  }

  lemma {:induction false} WritesPlain(g: Graph, db: string, ws: seq<Write>)
    requires PlainGraph(g) && forall w :: w in ws ==> PlainLabels(w.labels)
    ensures PlainGraph(WriteAll(g, db, ws))
    decreases |ws|
  {
    if ws != [] {
      assert ws == [ws[0]] + ws[1..];
      WritesPlain(WriteNode(g, db, ws[0]), db, ws[1..]);
    }
  }

  lemma StoppedIsPart(s: State, name: string, t: State)
    requires !s.graph.HasData(name) && name in s.archives
    requires t == Used(s, name).(graph := t.graph)
    requires Stopped(s.graph, Create, name, s.archives[name].nodes, s.archives[name].rels, t.graph)
    ensures LoadFailed(s, name, t)
  {
    var ar := s.archives[name];
    var tags, types :| StoppedAt(s.graph, Create, name, ar.nodes, ar.rels, tags, types, t.graph);
    PortionIsLoad(s.graph, name, ar, tags, types);
    assert FailedBy(s, name, tags, types, t);
  }

  lemma FilledValid(s: State, name: string, ar: Archive)
    requires ValidState(s) && ArchiveOk(ar) && !s.graph.HasData(name)
    ensures ValidState(Filled(s, name, ar))
  {
    LoadedWf(s.graph, Create, name, ar.nodes, ar.rels);
    LoadedPlain(s.graph, name, ar);
  }

  lemma EvictedValid(s: State, cleared: set<string>)
    requires ValidState(s)
    ensures ValidState(Evicted(s, cleared))
  {
    ClearedAllWf(s.graph, cleared);
  }

  lemma EnsuredValid(s: State, name: string, maxActive: nat, t: State)
    requires ValidState(s) && Ensured(s, name, maxActive, t)
    ensures ValidState(t)
  {
    if !s.graph.HasData(name) {
      var cleared :| EnsuredBy(s, name, maxActive, cleared, t);
      FilledValid(s, name, s.archives[name]);
      EvictedValid(Filled(s, name, s.archives[name]), cleared);
    }
  }

  lemma FailedValid(s: State, name: string, t: State)
    requires ValidState(s) && LoadFailed(s, name, t)
    ensures ValidState(t)
  {
    if tags, types :| FailedBy(s, name, tags, types, t) {
      PortionOk(s.archives[name], tags, types);
      FilledValid(s, name, Portion(s.archives[name], tags, types));
    }
  }
}
