/** The clean-up policy of the snapshot manager (internal/snapshot/manager.go:795-839): which loaded
    snapshots may be cleared. */
module Lru {
  import opened Common
  import opened GraphModel
  import opened GraphStore
  import opened Strings
  import opened Sorting

  /** Time of last access; a database without an entry counts as never accessed. */
  type Access = map<string, nat>

  function TimeOf(access: Access, db: string): nat {
    if db in access then access[db] else 0
  }

  /** Older by (last access, name). */
  predicate Older(access: Access, a: string, b: string) {
    TimeOf(access, a) < TimeOf(access, b) || (TimeOf(access, a) == TimeOf(access, b) && Less(a, b))
  }

  lemma OlderTotal(access: Access)
    ensures TotalPreorder((a: string, b: string) => !Older(access, b, a))
  {
    var le := (a: string, b: string) => !Older(access, b, a);
    forall a, b ensures le(a, b) || le(b, a) {
      LessTotal(a, b);
    }
    forall a, b, c | le(a, b) && le(b, c) ensures le(a, c) {
      LessTotal(a, b);
      LessTotal(b, c);
      LessTotal(a, c);
      if Less(c, a) && Less(a, b) { LessTransitive(c, a, b); }
    }
  }

  function SnapshotDbs(g: Graph): set<string> {
    set k | k in g.nodes && k.db != DEFAULT_DB :: k.db
  }

  /** The loaded snapshots accessed after d. */
  function Newer(dbs: set<string>, access: Access, d: string): set<string> {
    set x | x in dbs && Older(access, d, x)
  }

  /** A loaded snapshot may be cleared when at least maxActive others are newer. */
  predicate Victim(dbs: set<string>, access: Access, maxActive: nat, d: string) {
    d in dbs && |Newer(dbs, access, d)| >= maxActive
  }

  function Victims(dbs: set<string>, access: Access, maxActive: nat): set<string> {
    set d | d in dbs && Victim(dbs, access, maxActive, d)
  }

  lemma {:induction false} DistinctSize(s: seq<string>)
    requires NoRepeats(s)
    ensures |Elements(s)| == |s|
  {
    if s != [] {
      DistinctSize(s[1..]);
      assert s == [s[0]] + s[1..];
      assert Elements(s) == {s[0]} + Elements(s[1..]);
      assert s[0] !in s[1..];
    }
  }

  lemma NewerAreBehind(access: Access, s: seq<string>, i: nat)
    requires NoRepeats(s) && SortedBy((a: string, b: string) => !Older(access, b, a), s) && i < |s|
    ensures Newer(Elements(s), access, s[i]) == Elements(s[i + 1..])
  {
    var le := (a: string, b: string) => !Older(access, b, a);
    var all := Elements(s);
    forall x ensures x in Newer(all, access, s[i]) <==> x in s[i + 1..] {
      if x in all {
        var j :| 0 <= j < |s| && s[j] == x;
        LessTotal(s[i], x);
        if j < i {
          assert le(s[j], s[i]);
        } else if i < j {
          assert le(s[i], s[j]);
          assert s[i + 1..][j - i - 1] == x;
        }
        if x in s[i + 1..] {
          var m :| 0 <= m < |s[i + 1..]| && s[i + 1..][m] == x;
          assert s[i + 1 + m] == x;
        }
      } else {
        assert x in s[i + 1..] ==> x in s;
      }
    }
  }

  /** The victims are the front of the list sorted by age: all but the maxActive newest. */
  lemma VictimsAreFront(access: Access, s: seq<string>, maxActive: nat, i: nat)
    requires NoRepeats(s) && SortedBy((a: string, b: string) => !Older(access, b, a), s) && i < |s|
    ensures Victim(Elements(s), access, maxActive, s[i]) <==> i + maxActive < |s|
  {
    NewerAreBehind(access, s, i);
    var behind := s[i + 1..];
    forall a, b | 0 <= a < b < |behind| ensures behind[a] != behind[b] {
      assert s[i + 1 + a] != s[i + 1 + b];
    }
    DistinctSize(behind);
  }

  // ---------------------------------------------------------------- clearing

  function ClearedAll(g: Graph, dbs: set<string>): Graph {
    Graph(map k | k in g.nodes && k.db !in dbs :: g.nodes[k],
          map e | e in g.edges && e.db !in dbs :: g.edges[e])
  }

  lemma ClearOneMore(g: Graph, dbs: set<string>, db: string)
    ensures Cleared(ClearedAll(g, dbs), db) == ClearedAll(g, dbs + {db})
  {
    var h, k := Cleared(ClearedAll(g, dbs), db), ClearedAll(g, dbs + {db});
    assert h.nodes == k.nodes;
    assert h.edges == k.edges;
  }

  lemma ClearNone(g: Graph)
    ensures ClearedAll(g, {}) == g
  {
    assert ClearedAll(g, {}).nodes == g.nodes;
    assert ClearedAll(g, {}).edges == g.edges;
  }

  lemma ClearedAllWf(g: Graph, dbs: set<string>)
    requires g.Wf()
    ensures ClearedAll(g, dbs).Wf()
  {
    var h := ClearedAll(g, dbs);
    forall k | k in h.nodes ensures Sound(k, h.nodes[k].props) { assert k in g.nodes; }
    forall e | e in h.edges ensures h.Joins(e) { assert g.Joins(e); }
  }

  /** What is left after clean-up: no more than maxActive snapshots, and those it failed to clear. */
  lemma LeftAfterCleanup(g: Graph, access: Access, maxActive: nat, s: seq<string>, cleared: set<string>, failed: set<string>)
    requires NoRepeats(s) && SortedBy((a: string, b: string) => !Older(access, b, a), s) && SnapshotDbs(g) == Elements(s)
    requires cleared !! failed && cleared + failed == Victims(SnapshotDbs(g), access, maxActive)
    ensures |SnapshotDbs(ClearedAll(g, cleared))| <= maxActive + |failed|
  {
    var dbs := SnapshotDbs(g);
    var n := if |s| <= maxActive then 0 else |s| - maxActive;
    FrontIsVictims(dbs, access, s, maxActive, n);
    DistinctSize(s[..n]);
    DistinctSize(s);
    assert SnapshotDbs(ClearedAll(g, cleared)) == dbs - cleared;
    Sizes(dbs, cleared, failed);
  }

  lemma Sizes(dbs: set<string>, cleared: set<string>, failed: set<string>)
    requires cleared <= dbs && cleared !! failed
    ensures |dbs - cleared| == |dbs| - |cleared| && |cleared + failed| == |cleared| + |failed|
  {
    assert dbs == (dbs - cleared) + cleared;
  }

  /** The most recently accessed snapshot is never cleared, nor is any with fewer than maxActive
      newer ones. */
  lemma RecentIsSafe(dbs: set<string>, access: Access, maxActive: nat, d: string, newer: set<string>)
    requires |newer| < maxActive && forall x :: x in dbs && Older(access, d, x) ==> x in newer
    ensures d !in Victims(dbs, access, maxActive)
  {
    assert Newer(dbs, access, d) <= newer;
    SubsetSize(Newer(dbs, access, d), newer);
  }

  lemma {:induction false} SubsetSize(a: set<string>, b: set<string>)
    requires a <= b
    ensures |a| <= |b|
  {
    assert b == a + (b - a);
  }

  lemma OlderOrder(access: Access, a: string, b: string, c: string)
    ensures a == b || Older(access, a, b) || Older(access, b, a)
    ensures !(Older(access, a, b) && Older(access, b, a))
    ensures Older(access, a, b) && Older(access, b, c) ==> Older(access, a, c)
  {
    LessTotal(a, b);
    if Less(a, b) && Less(b, c) { LessTransitive(a, b, c); }
  }

  lemma {:induction false} Oldest(s: set<string>, access: Access) returns (d: string)
    requires s != {}
    ensures d in s && forall x :: x in s && x != d ==> Older(access, d, x)
    decreases s
  {
    var x :| x in s;
    d := x;
    assert forall z :: z in s && z != x ==> z in s - {x};
    if s - {x} != {} {
      var y := Oldest(s - {x}, access);
      OlderOrder(access, y, x, x);
      if Older(access, y, x) {
        d := y;
      } else {
        forall z | z in s && z != x ensures Older(access, x, z) {
          OlderOrder(access, x, y, z);
        }
      }
    }
  }

  /** Clearing all victims leaves at most maxActive snapshots. */
  lemma KeptBound(dbs: set<string>, access: Access, maxActive: nat)
    ensures |dbs - Victims(dbs, access, maxActive)| <= maxActive
  {
    var kept := dbs - Victims(dbs, access, maxActive);
    if kept != {} {
      var d := Oldest(kept, access);
      assert kept - {d} <= Newer(dbs, access, d);
      SubsetSize(kept - {d}, Newer(dbs, access, d));
      assert |kept| == |kept - {d}| + 1;
    }
  }

  /** Fewer snapshots are newer than a newer one. */
  lemma NewerNested(dbs: set<string>, access: Access, d: string, x: string)
    requires x in dbs && Older(access, d, x)
    ensures |Newer(dbs, access, x)| < |Newer(dbs, access, d)|
  {
    var inner, outer := Newer(dbs, access, x), Newer(dbs, access, d);
    OlderOrder(access, x, x, x);
    forall y | y in inner ensures y in outer {
      OlderOrder(access, d, x, y);
    }
    assert inner <= outer - {x};
    SubsetSize(inner, outer - {x});
    assert |outer - {x}| == |outer| - 1;
  }

  lemma FrontIsVictims(dbs: set<string>, access: Access, s: seq<string>, maxActive: nat, n: nat)
    requires NoRepeats(s) && SortedBy((a: string, b: string) => !Older(access, b, a), s)
    requires dbs == Elements(s) && n == if |s| <= maxActive then 0 else |s| - maxActive
    ensures NoRepeats(s[..n]) && Elements(s[..n]) == Victims(dbs, access, maxActive)
  {
    forall d ensures d in s[..n] <==> d in Victims(dbs, access, maxActive) {
      if d in dbs {
        var i :| 0 <= i < |s| && s[i] == d;
        VictimsAreFront(access, s, maxActive, i);
        if i < n { assert s[..n][i] == d; }
        if d in s[..n] {
          var j :| 0 <= j < n && s[..n][j] == d;
          assert s[j] == d;
        }
      } else {
        assert d in s[..n] ==> d in s;
      }
    }
  }

  method WithoutDefault(all: seq<string>) returns (snaps: seq<string>)
    requires NoRepeats(all)
    ensures NoRepeats(snaps) && forall d :: d in snaps <==> d in all && d != DEFAULT_DB
  {
    snaps := [];
    for i := 0 to |all|
      invariant NoRepeats(snaps) && forall d :: d in snaps <==> d in all[..i] && d != DEFAULT_DB
    {
      assert all[..i + 1] == all[..i] + [all[i]];
      assert all[i] !in all[..i];
      if all[i] != DEFAULT_DB {
        snaps := snaps + [all[i]];
      }
    }
    assert all[..|all|] == all;
  }

  lemma ListedSnapshots(g: Graph, all: seq<string>, snaps: seq<string>)
    requires forall d :: d in all <==> g.HasData(d)
    requires forall d :: d in snaps <==> d in all && d != DEFAULT_DB
    ensures SnapshotDbs(g) == Elements(snaps)
  {
    forall d ensures d in SnapshotDbs(g) <==> d in snaps {
      assert d in snaps <==> g.HasData(d) && d != DEFAULT_DB;
    }
  }

  lemma SortedCopy(s: seq<string>, t: seq<string>)
    requires NoRepeats(s) && multiset(s) == multiset(t)
    ensures NoRepeats(t) && Elements(s) == Elements(t)
  {
    assert forall d :: d in s <==> d in multiset(s);
    assert forall d :: d in t <==> d in multiset(t);
    forall i, j | 0 <= i < j < |t| ensures t[i] != t[j] {
      if t[i] == t[j] {
        var d := t[i];
        assert t == t[..j] + t[j..];
        assert d in t[..j] && d in t[j..];
        assert multiset(t)[d] >= 2;
        AtMostOnce(s, d);
      }
    }
  }

  lemma AtMostOnce(s: seq<string>, d: string)
    requires NoRepeats(s)
    ensures multiset(s)[d] <= 1
  {
    if d in s {
      var i :| 0 <= i < |s| && s[i] == d;
      assert s == s[..i] + [d] + s[i + 1..];
      assert d !in s[..i] && d !in s[i + 1..];
    }
  }
}
