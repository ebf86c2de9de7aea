/** Reading a sorted result page by page with SKIP and LIMIT (internal/snapshot/manager.go:196-253).
    Each page is its own query: it sees the rows sorted by their key, but rows with the same key in
    whatever order the database produces them that time. */
module Paging {
  import opened Strings

  type Key<!T> = T -> string

  /** Where a row stands relative to the key k: before it, at it or after it. */
  function Side(key: string, k: string): int {
    if Less(key, k) then -1 else if key == k then 0 else 1
  }

  predicate Sorted<T>(key: Key<T>, s: seq<T>) {
    forall i, j :: 0 <= i < j < |s| ==> Side(key(s[j]), key(s[i])) >= 0
  }

  /** One way to list the rows in key order. */
  ghost predicate Listing<T>(key: Key<T>, rows: multiset<T>, s: seq<T>) {
    multiset(s) == rows && Sorted(key, s)
  }

  function Min(a: nat, b: nat): nat { if a < b then a else b }

  /** The SKIP of page p: `size` more with every page. */
  function Skip(p: nat, size: nat): nat {
    if p == 0 then 0 else Skip(p - 1, size) + size
  }

  lemma {:induction false} SkipGrows(p: nat, q: nat, size: nat)
    requires p <= q
    ensures Skip(p, size) <= Skip(q, size)
    decreases q
  {
    if p < q {
      SkipGrows(p, q - 1, size);
    }
  }

  /** `SKIP Skip(p) LIMIT size`. */
  function Page<T>(s: seq<T>, p: nat, size: nat): seq<T> {
    s[Min(Skip(p, size), |s|)..Min(Skip(p + 1, size), |s|)]
  }

  /** The first n pages, page p taken from the listing `ss[p]`. */
  function Pages<T>(ss: seq<seq<T>>, n: nat, size: nat): seq<T>
    requires n <= |ss|
  {
    if n == 0 then [] else Pages(ss, n - 1, size) + Page(ss[n - 1], n - 1, size)
  }

  // ---------------------------------------------------------------- rows before, at and after a key

  function Part<T>(key: Key<T>, s: seq<T>, k: string, side: int): seq<T> {
    if s == [] then []
    else if Side(key(s[0]), k) == side then [s[0]] + Part(key, s[1..], k, side)
    else Part(key, s[1..], k, side)
  }

  function Own<T>(key: Key<T>, x: T, k: string, side: int): multiset<T> {
    if Side(key(x), k) == side then multiset{x} else multiset{}
  }

  ghost function PartOf<T>(key: Key<T>, rows: multiset<T>, k: string, side: int): multiset<T>
    decreases |rows|
  {
    if |rows| == 0 then multiset{}
    else
      var x :| x in rows;
      Own(key, x, k, side) + PartOf(key, rows - multiset{x}, k, side)
  }

  lemma PartOfPick<T>(key: Key<T>, rows: multiset<T>, k: string, side: int) returns (y: T)
    requires |rows| > 0
    ensures y in rows && PartOf(key, rows, k, side) == Own(key, y, k, side) + PartOf(key, rows - multiset{y}, k, side)
  {
    y :| y in rows && PartOf(key, rows, k, side) == Own(key, y, k, side) + PartOf(key, rows - multiset{y}, k, side);
  }

  lemma TakeTwo<T>(rows: multiset<T>, x: T, y: T)
    requires x in rows && y in rows && x != y
    ensures x in rows - multiset{y} && y in rows - multiset{x}
    ensures |rows - multiset{y}| == |rows| - 1 && |rows - multiset{x}| == |rows| - 1
    ensures rows - multiset{y} - multiset{x} == rows - multiset{x} - multiset{y}
  {
  }

  lemma {:induction false} PartOfTake<T>(key: Key<T>, rows: multiset<T>, k: string, side: int, x: T)
    requires x in rows
    ensures PartOf(key, rows, k, side) == Own(key, x, k, side) + PartOf(key, rows - multiset{x}, k, side)
    decreases |rows|
  {
    var y := PartOfPick(key, rows, k, side);
    if x != y {
      TakeTwo(rows, x, y);
      PartOfTake(key, rows - multiset{y}, k, side, x);
      PartOfTake(key, rows - multiset{x}, k, side, y);
      Swap(Own(key, y, k, side), Own(key, x, k, side), PartOf(key, rows - multiset{y} - multiset{x}, k, side));
    }
  }

  lemma Swap<T>(a: multiset<T>, b: multiset<T>, c: multiset<T>)
    ensures a + (b + c) == b + (a + c)
  {
  }

  /** Which rows are in a part depends only on which rows there are. */
  lemma {:induction false} PartRows<T>(key: Key<T>, s: seq<T>, k: string, side: int)
    ensures multiset(Part(key, s, k, side)) == PartOf(key, multiset(s), k, side)
    decreases |s|
  {
    if s != [] {
      assert s == [s[0]] + s[1..];
      assert multiset(s) - multiset{s[0]} == multiset(s[1..]);
      PartOfTake(key, multiset(s), k, side, s[0]);
      PartRows(key, s[1..], k, side);
    }
  }

  lemma SameSize<T>(s: seq<T>, t: seq<T>)
    requires multiset(s) == multiset(t)
    ensures |s| == |t|
  {
    assert |multiset(s)| == |s| && |multiset(t)| == |t|;
  }

  lemma SameParts<T>(key: Key<T>, s: seq<T>, t: seq<T>, k: string, side: int)
    requires multiset(s) == multiset(t)
    ensures multiset(Part(key, s, k, side)) == multiset(Part(key, t, k, side))
    ensures |Part(key, s, k, side)| == |Part(key, t, k, side)|
  {
    PartRows(key, s, k, side);
    PartRows(key, t, k, side);
    SameSize(Part(key, s, k, side), Part(key, t, k, side));
  }

  lemma {:induction false} PartMembers<T>(key: Key<T>, s: seq<T>, k: string, side: int)
    ensures forall x :: x in Part(key, s, k, side) <==> x in s && Side(key(x), k) == side
  {
    if s != [] {
      PartMembers(key, s[1..], k, side);
      assert s == [s[0]] + s[1..];
    }
  }

  lemma {:induction false} NoPart<T>(key: Key<T>, s: seq<T>, k: string, side: int)
    requires forall x :: x in s ==> Side(key(x), k) != side
    ensures Part(key, s, k, side) == []
  {
    if s != [] {
      assert s[0] in s;
      NoPart(key, s[1..], k, side);
    }
  }

  lemma SideOrder(a: string, b: string, k: string)
    requires Side(b, a) >= 0
    ensures Side(a, k) <= Side(b, k)
  {
    LessTotal(a, b);
    LessTotal(a, k);
    LessTotal(b, k);
    if Less(k, a) && Less(a, b) { LessTransitive(k, a, b); }
    if Less(a, b) && Less(b, k) { LessTransitive(a, b, k); }
  }

  /** A sorted list is its rows before, at and after any key, in that order. */
  lemma {:induction false} SplitSorted<T>(key: Key<T>, s: seq<T>, k: string)
    requires Sorted(key, s)
    ensures s == Part(key, s, k, -1) + Part(key, s, k, 0) + Part(key, s, k, 1)
    decreases |s|
  {
    if s != [] {
      var rest := s[1..];
      SplitSorted(key, rest, k);
      assert s == [s[0]] + rest;
      forall x | x in rest ensures Side(key(s[0]), k) <= Side(key(x), k) {
        var j :| 0 <= j < |rest| && rest[j] == x;
        assert s[j + 1] == x;
        SideOrder(key(s[0]), key(x), k);
      }
      FrontPart(key, s[0], rest, k);
    }
  }

  lemma FrontPart<T>(key: Key<T>, x: T, rest: seq<T>, k: string)
    requires rest == Part(key, rest, k, -1) + Part(key, rest, k, 0) + Part(key, rest, k, 1)
    requires forall y :: y in rest ==> Side(key(x), k) <= Side(key(y), k)
    ensures var s := [x] + rest; s == Part(key, s, k, -1) + Part(key, s, k, 0) + Part(key, s, k, 1)
  {
    var s := [x] + rest;
    assert s[1..] == rest;
    var b, a, c := Part(key, rest, k, -1), Part(key, rest, k, 0), Part(key, rest, k, 1);
    if Side(key(x), k) == -1 {
      assert [x] + (b + a + c) == ([x] + b) + a + c;
    } else if Side(key(x), k) == 0 {
      NoPart(key, rest, k, -1);
      assert [x] + (b + a + c) == b + ([x] + a) + c;
    } else {
      NoPart(key, rest, k, -1);
      NoPart(key, rest, k, 0);
      assert [x] + (b + a + c) == b + a + ([x] + c);
    }
  }

  // ---------------------------------------------------------------- the exact condition

  /** Position b falls inside the rows of key k. */
  predicate Splits<T>(key: Key<T>, s: seq<T>, k: string, b: nat) {
    |Part(key, s, k, -1)| < b < |Part(key, s, k, -1)| + |Part(key, s, k, 0)|
  }

  /** Position b does not fall between x and a different row of its key. */
  ghost predicate CleanAt<T>(key: Key<T>, s: seq<T>, x: T, b: nat) {
    forall y :: y in s && key(y) == key(x) && Splits(key, s, key(x), b) ==> y == x
  }

  /** The end of page p - 1 does not. */
  ghost predicate CleanEnd<T>(key: Key<T>, s: seq<T>, x: T, p: nat, size: nat) {
    CleanAt(key, s, x, Skip(p, size))
  }

  /** No page ends between x and a different row of its key. */
  ghost predicate CleanRow<T>(key: Key<T>, s: seq<T>, x: T, size: nat) {
    forall p: nat :: CleanEnd(key, s, x, p, size)
  }

  /** No page ends between two different rows of one key. */
  ghost predicate CleanPages<T>(key: Key<T>, s: seq<T>, size: nat) {
    forall x :: x in s ==> CleanRow(key, s, x, size)
  }

  lemma Uniform<T>(s: seq<T>, t: seq<T>, x: T)
    requires multiset(s) == multiset(t) && forall y :: y in s ==> y == x
    ensures s == t
  {
    SameSize(s, t);
    forall i | 0 <= i < |s| ensures s[i] == t[i] {
      assert s[i] in s;
      assert t[i] in multiset(t);
      assert t[i] in multiset(s);
      assert t[i] in s;
    }
  }

  /** A row that occurs only in the middle of a list, counted up to position b. */
  lemma CountUpTo<T>(s: seq<T>, front: seq<T>, mid: seq<T>, back: seq<T>, x: T, b: nat)
    requires s == front + mid + back && x !in front && x !in back && b <= |s|
    ensures multiset(s[..b])[x] ==
      if b <= |front| then 0
      else if b < |front| + |mid| then multiset(mid[..b - |front|])[x]
      else multiset(mid)[x]
  {
    if b <= |front| {
      assert s[..b] == front[..b];
      assert x !in front[..b];
    } else if b < |front| + |mid| {
      assert s[..b] == front + mid[..b - |front|];
    } else {
      var rest := back[..b - |front| - |mid|];
      assert s[..b] == front + mid + rest;
      assert x !in rest;
    }
  }

  /** Up to a clean position, all listings have the row equally often. */
  lemma SamePrefix<T>(key: Key<T>, s: seq<T>, t: seq<T>, x: T, b: nat)
    requires Sorted(key, s) && Sorted(key, t) && multiset(s) == multiset(t)
    requires CleanAt(key, s, x, b) && b <= |s|
    ensures |s| == |t| && multiset(s[..b])[x] == multiset(t[..b])[x]
  {
    SameSize(s, t);
    var k := key(x);
    LessTotal(k, k);
    SplitAt(key, s, x, b);
    SplitAt(key, t, x, b);
    SameParts(key, s, t, k, -1);
    SameParts(key, s, t, k, 0);
    if Splits(key, s, k, b) {
      SameMiddle(key, s, t, x, b);
    }
  }

  lemma MiddleKey<T>(key: Key<T>, s: seq<T>, k: string, y: T)
    requires y in Part(key, s, k, 0)
    ensures y in s && key(y) == k
  {
    PartMembers(key, s, k, 0);
  }

  lemma SameMiddle<T>(key: Key<T>, s: seq<T>, t: seq<T>, x: T, b: nat)
    requires CleanAt(key, s, x, b) && Splits(key, s, key(x), b) && multiset(s) == multiset(t)
    ensures Part(key, s, key(x), 0) == Part(key, t, key(x), 0)
  {
    var k := key(x);
    var a := Part(key, s, k, 0);
    forall y | y in a ensures y == x {
      MiddleKey(key, s, k, y);
    }
    SameParts(key, s, t, k, 0);
    Uniform(a, Part(key, t, k, 0), x);
  }

  lemma SplitAt<T>(key: Key<T>, s: seq<T>, x: T, b: nat)
    requires Sorted(key, s) && b <= |s|
    ensures var front, mid := Part(key, s, key(x), -1), Part(key, s, key(x), 0);
      multiset(s[..b])[x] ==
        if b <= |front| then 0
        else if b < |front| + |mid| then multiset(mid[..b - |front|])[x]
        else multiset(mid)[x]
  {
    var k := key(x);
    LessTotal(k, k);
    SplitSorted(key, s, k);
    PartMembers(key, s, k, -1);
    PartMembers(key, s, k, 1);
    CountUpTo(s, Part(key, s, k, -1), Part(key, s, k, 0), Part(key, s, k, 1), x, b);
  }

  /** The first n pages have x as often as the rows of s up to there. */
  ghost predicate CountedTo<T>(s: seq<T>, ss: seq<seq<T>>, x: T, n: nat, size: nat)
    requires n <= |ss|
  {
    multiset(Pages(ss, n, size))[x] == multiset(s[..Min(Skip(n, size), |s|)])[x]
  }

  /** Pages taken from different listings return the row as often as one listing has it so far. */
  lemma {:induction false} PagesPrefix<T>(key: Key<T>, s: seq<T>, ss: seq<seq<T>>, x: T, n: nat, size: nat)
    requires n <= |ss| && Sorted(key, s) && CleanRow(key, s, x, size)
    requires forall p :: 0 <= p < n ==> Listing(key, multiset(s), ss[p])
    ensures CountedTo(s, ss, x, n, size)
    decreases n
  {
    if n > 0 {
      var p := n - 1;
      PagesPrefix(key, s, ss, x, p, size);
      assert Listing(key, multiset(s), ss[p]);
      NextPage(key, s, ss, x, p, size);
    }
  }

  lemma NextPage<T>(key: Key<T>, s: seq<T>, ss: seq<seq<T>>, x: T, p: nat, size: nat)
    requires p < |ss| && Sorted(key, s) && Listing(key, multiset(s), ss[p])
    requires CleanRow(key, s, x, size)
    requires CountedTo(s, ss, x, p, size)
    ensures CountedTo(s, ss, x, p + 1, size)
  {
    assert CleanEnd(key, s, x, p, size) && CleanEnd(key, s, x, p + 1, size);
    PageCounts(key, s, ss[p], x, Skip(p, size), Skip(p + 1, size));
    var page := Page(ss[p], p, size);
    assert Pages(ss, p + 1, size) == Pages(ss, p, size) + page;
  }

  lemma PageCounts<T>(key: Key<T>, s: seq<T>, t: seq<T>, x: T, from: nat, upTo: nat)
    requires Sorted(key, s) && Listing(key, multiset(s), t) && from <= upTo
    requires CleanAt(key, s, x, from) && CleanAt(key, s, x, upTo)
    ensures |t| == |s|
    ensures multiset(s[..Min(from, |s|)])[x] + multiset(t[Min(from, |t|)..Min(upTo, |t|)])[x] == multiset(s[..Min(upTo, |s|)])[x]
  {
    SameSize(s, t);
    CountsAt(key, s, t, x, from);
    CountsAt(key, s, t, x, upTo);
    var lo, hi := Min(from, |s|), Min(upTo, |s|);
    assert t[..hi] == t[..lo] + t[lo..hi];
  }

  lemma CountsAt<T>(key: Key<T>, s: seq<T>, t: seq<T>, x: T, b: nat)
    requires Sorted(key, s) && Listing(key, multiset(s), t) && CleanAt(key, s, x, b)
    ensures |s| == |t| && multiset(s[..Min(b, |s|)])[x] == multiset(t[..Min(b, |s|)])[x]
  {
    SameSize(s, t);
    if b <= |s| {
      SamePrefix(key, s, t, x, b);
    } else {
      assert s[..|s|] == s && t[..|s|] == t;
    }
  }

  // ---------------------------------------------------------------- and when it fails

  function RemoveOne<T(==)>(s: seq<T>, x: T): seq<T>
    requires x in s
  {
    if s[0] == x then s[1..] else [s[0]] + RemoveOne(s[1..], x)
  }

  lemma {:induction false} RemoveOneRows<T>(s: seq<T>, x: T)
    requires x in s
    ensures multiset(s) == multiset(RemoveOne(s, x)) + multiset{x} && |RemoveOne(s, x)| + 1 == |s|
  {
    assert s == [s[0]] + s[1..];
    if s[0] != x {
      RemoveOneRows(s[1..], x);
    }
  }

  /** Rows of one key may be rearranged without unsorting the list. */
  lemma Rearranged<T>(key: Key<T>, s: seq<T>, k: string, mid: seq<T>)
    requires Sorted(key, s) && multiset(mid) == multiset(Part(key, s, k, 0))
    ensures Listing(key, multiset(s), Part(key, s, k, -1) + mid + Part(key, s, k, 1))
  {
    var b, a, c := Part(key, s, k, -1), Part(key, s, k, 0), Part(key, s, k, 1);
    var t := b + mid + c;
    SplitSorted(key, s, k);
    SameSize(mid, a);
    assert multiset(t) == multiset(b) + multiset(mid) + multiset(c);
    assert multiset(b + a + c) == multiset(b) + multiset(a) + multiset(c);
    forall i | 0 <= i < |t| ensures key(t[i]) == key(s[i]) {
      SameKeyAt(key, s, k, mid, i);
    }
    forall i, j | 0 <= i < j < |t| ensures Side(key(t[j]), key(t[i])) >= 0 {
      assert Side(key(s[j]), key(s[i])) >= 0;
    }
  }

  lemma SameKeyAt<T>(key: Key<T>, s: seq<T>, k: string, mid: seq<T>, i: nat)
    requires s == Part(key, s, k, -1) + Part(key, s, k, 0) + Part(key, s, k, 1)
    requires multiset(mid) == multiset(Part(key, s, k, 0)) && |mid| == |Part(key, s, k, 0)| && i < |s|
    ensures key((Part(key, s, k, -1) + mid + Part(key, s, k, 1))[i]) == key(s[i])
  {
    var b, a := Part(key, s, k, -1), Part(key, s, k, 0);
    if |b| <= i < |b| + |mid| {
      var j := i - |b|;
      PartMembers(key, s, k, 0);
      assert s[i] == a[j] && a[j] in a;
      assert mid[j] in multiset(mid);
      assert mid[j] in multiset(a);
      assert mid[j] in a;
    }
  }

  /** Two arrangements of rows that differ only in which of x and y comes first at position m. */
  lemma Swapped<T>(a: seq<T>, x: T, y: T, m: nat) returns (xy: seq<T>, yx: seq<T>, front: seq<T>, back: seq<T>)
    requires x in a && y in a && x != y && 0 < m < |a|
    ensures |front| == m - 1 && xy == front + [x, y] + back && yx == front + [y, x] + back
    ensures multiset(xy) == multiset(a) && multiset(yx) == multiset(a)
  {
    RemoveOneRows(a, x);
    var a1 := RemoveOne(a, x);
    assert y in multiset(a);
    assert y in multiset(a1);
    assert y in a1;
    RemoveOneRows(a1, y);
    var rest := RemoveOne(a1, y);
    front, back := rest[..m - 1], rest[m - 1..];
    assert rest == front + back;
    xy, yx := front + [x, y] + back, front + [y, x] + back;
    assert multiset(xy) == multiset(front) + multiset{x, y} + multiset(back);
    assert multiset(yx) == multiset(front) + multiset{x, y} + multiset(back);
    assert multiset(rest) == multiset(front) + multiset(back);
  }

  /** Two listings that differ only in which of two rows with one key stands before a page end. */
  lemma TwoListings<T>(key: Key<T>, s: seq<T>, x: T, y: T, b: nat)
    returns (t: seq<T>, u: seq<T>, head: seq<T>, tail: seq<T>)
    requires Sorted(key, s) && x in s && y in s && x != y && key(x) == key(y) && Splits(key, s, key(x), b)
    ensures Listing(key, multiset(s), t) && Listing(key, multiset(s), u) && |head| == b - 1
    ensures t == head + [x, y] + tail && u == head + [y, x] + tail
  {
    var k := key(x);
    LessTotal(k, k);
    var before, a, after := Part(key, s, k, -1), Part(key, s, k, 0), Part(key, s, k, 1);
    PartMembers(key, s, k, 0);
    var xy, yx, front, back := Swapped(a, x, y, b - |before|);
    Rearranged(key, s, k, xy);
    Rearranged(key, s, k, yx);
    t, u, head, tail := before + xy + after, before + yx + after, before + front, back + after;
    assert t == head + [x, y] + tail;
    assert u == head + [y, x] + tail;
  }

  lemma {:induction false} PagesOfOne<T>(ss: seq<seq<T>>, s: seq<T>, n: nat, size: nat)
    requires n <= |ss| && forall p :: 0 <= p < n ==> ss[p] == s
    ensures Pages(ss, n, size) == s[..Min(Skip(n, size), |s|)]
    decreases n
  {
    if n > 0 {
      PagesOfOne(ss, s, n - 1, size);
    }
  }

  lemma {:induction false} PagesSwitch<T>(ss: seq<seq<T>>, t: seq<T>, u: seq<T>, p: nat, n: nat, size: nat)
    requires p <= n <= |ss| && |t| == |u| && Skip(p, size) <= |t|
    requires forall q :: 0 <= q < n ==> ss[q] == if q < p then t else u
    ensures Skip(p, size) <= Min(Skip(n, size), |u|)
    ensures Pages(ss, n, size) == t[..Skip(p, size)] + u[Skip(p, size)..Min(Skip(n, size), |u|)]
    decreases n
  {
    var b := Skip(p, size);
    if n == p {
      PagesOfOne(ss, t, p, size);
      assert u[b..b] == [];
    } else {
      PagesSwitch(ss, t, u, p, n - 1, size);
      assert ss[n - 1] == u;
      var lo, hi := Min(Skip(n - 1, size), |u|), Min(Skip(n, size), |u|);
      OnePageOn(t[..b], u, b, lo, hi);
    }
  }

  lemma OnePageOn<T>(front: seq<T>, u: seq<T>, b: nat, lo: nat, hi: nat)
    requires b <= lo <= hi <= |u|
    ensures front + u[b..lo] + u[lo..hi] == front + u[b..hi]
  {
    assert u[b..lo] + u[lo..hi] == u[b..hi];
  }

  /** The order changes from t to u before page p is read. */
  lemma ReadSwitching<T>(t: seq<T>, u: seq<T>, p: nat, n: nat, size: nat) returns (ss: seq<seq<T>>)
    requires p <= n && |t| == |u| && Skip(p, size) <= |t| <= Skip(n, size)
    ensures |ss| == n && forall q :: 0 <= q < n ==> ss[q] == t || ss[q] == u
    ensures Pages(ss, n, size) == t[..Skip(p, size)] + u[Skip(p, size)..]
  {
    ss := seq(n, q requires 0 <= q < n => if q < p then t else u);
    PagesSwitch(ss, t, u, p, n, size);
    assert u[Skip(p, size)..|u|] == u[Skip(p, size)..];
  }

  /** One way to read n pages: each from some listing of the same rows. */
  ghost predicate Reading<T>(key: Key<T>, rows: multiset<T>, ss: seq<seq<T>>, n: nat) {
    |ss| == n && forall p :: 0 <= p < n ==> Listing(key, rows, ss[p])
  }

  /** Every way to read n pages returns row x exactly as often as it is there. */
  ghost predicate AlwaysRead<T(!new)>(key: Key<T>, s: seq<T>, x: T, n: nat, size: nat) {
    forall ss: seq<seq<T>> | Reading(key, multiset(s), ss, n) :: multiset(Pages(ss, n, size))[x] == multiset(s)[x]
  }

  ghost predicate AlwaysComplete<T(!new)>(key: Key<T>, s: seq<T>, n: nat, size: nat) {
    forall ss: seq<seq<T>> | Reading(key, multiset(s), ss, n) :: multiset(Pages(ss, n, size)) == multiset(s)
  }

  /** However the database orders rows of equal key from page to page, reading all pages returns a
      row exactly as often as it is there if and only if no page ends between it and a different row
      of its key. */
  lemma RowExact<T(!new)>(key: Key<T>, s: seq<T>, x: T, n: nat, size: nat)
    requires Sorted(key, s) && Skip(n, size) >= |s| && x in s
    ensures CleanRow(key, s, x, size) <==> AlwaysRead(key, s, x, n, size)
  {
    if CleanRow(key, s, x, size) {
      forall ss: seq<seq<T>> | Reading(key, multiset(s), ss, n)
        ensures multiset(Pages(ss, n, size))[x] == multiset(s)[x]
      {
        PagesPrefix(key, s, ss, x, n, size);
        assert s[..|s|] == s;
      }
    } else {
      var p: nat :| !CleanEnd(key, s, x, p, size);
      var y :| y in s && key(y) == key(x) && Splits(key, s, key(x), Skip(p, size)) && y != x;
      var t, u, head, tail := TwoListings(key, s, x, y, Skip(p, size));
      SwitchGainsRow(key, s, t, u, head, tail, x, y, n, size, p);
    }
  }

  lemma SwitchGainsRow<T(!new)>(key: Key<T>, s: seq<T>, t: seq<T>, u: seq<T>, head: seq<T>, tail: seq<T>,
                                x: T, y: T, n: nat, size: nat, p: nat)
    requires Listing(key, multiset(s), t) && Listing(key, multiset(s), u) && |s| <= Skip(n, size)
    requires x != y && t == head + [x, y] + tail && u == head + [y, x] + tail && |head| + 1 == Skip(p, size)
    ensures !AlwaysRead(key, s, x, n, size)
  {
    SameSize(t, s);
    if p > n {
      SkipGrows(n, p, size);
    }
    var ss := ReadSwitching(t, u, p, n, size);
    Mixed(t, u, head, tail, x, y);
    assert Reading(key, multiset(s), ss, n);
  }

  /** x is read twice where it should be read once. */
  lemma Mixed<T>(t: seq<T>, u: seq<T>, head: seq<T>, tail: seq<T>, x: T, y: T)
    requires x != y && t == head + [x, y] + tail && u == head + [y, x] + tail
    ensures multiset(t[..|head| + 1] + u[|head| + 1..])[x] == multiset(t)[x] + 1
  {
    var got := t[..|head| + 1] + u[|head| + 1..];
    assert got == head + [x, x] + tail;
    assert multiset(got) == multiset(head) + multiset{x, x} + multiset(tail);
    assert multiset(t) == multiset(head) + multiset{x, y} + multiset(tail);
  }

  lemma {:induction false} NothingElse<T>(key: Key<T>, rows: multiset<T>, ss: seq<seq<T>>, n: nat, size: nat, x: T)
    requires n <= |ss| && (forall p :: 0 <= p < n ==> Listing(key, rows, ss[p])) && x !in rows
    ensures x !in Pages(ss, n, size)
    decreases n
  {
    if n > 0 {
      NothingElse(key, rows, ss, n - 1, size, x);
      assert x !in multiset(ss[n - 1]);
    }
  }

  /** ... and it returns all rows if and only if no page ends between two different rows of one key. */
  lemma PagesExact<T(!new)>(key: Key<T>, s: seq<T>, n: nat, size: nat)
    requires Sorted(key, s) && Skip(n, size) >= |s|
    ensures CleanPages(key, s, size) <==> AlwaysComplete(key, s, n, size)
  {
    if CleanPages(key, s, size) {
      forall ss: seq<seq<T>> | Reading(key, multiset(s), ss, n)
        ensures multiset(Pages(ss, n, size)) == multiset(s)
      {
        AllRowsRead(key, s, ss, n, size);
      }
    }
    if AlwaysComplete(key, s, n, size) {
      forall x | x in s ensures CleanRow(key, s, x, size) {
        RowExact(key, s, x, n, size);
      }
    }
  }

  lemma AllRowsRead<T(!new)>(key: Key<T>, s: seq<T>, ss: seq<seq<T>>, n: nat, size: nat)
    requires Sorted(key, s) && Skip(n, size) >= |s| && CleanPages(key, s, size) && Reading(key, multiset(s), ss, n)
    ensures multiset(Pages(ss, n, size)) == multiset(s)
  {
    forall x ensures multiset(Pages(ss, n, size))[x] == multiset(s)[x] {
      if x in s {
        RowExact(key, s, x, n, size);
      } else {
        NothingElse(key, multiset(s), ss, n, size, x);
      }
    }
  }

  /** Rows with different keys, such as nodes by URI, are always read completely. */
  lemma UniqueKeysClean<T>(key: Key<T>, s: seq<T>, size: nat)
    requires forall x, y :: x in s && y in s && key(x) == key(y) ==> x == y
    ensures CleanPages(key, s, size)
  {
  }

  /** Up to one page of rows is always read completely. */
  lemma OnePageClean<T>(key: Key<T>, s: seq<T>, size: nat)
    requires Sorted(key, s) && |s| <= size
    ensures CleanPages(key, s, size)
  {
    forall p: nat, k ensures !Splits(key, s, k, Skip(p, size)) {
      SplitSorted(key, s, k);
      if p > 0 {
        SkipGrows(0, p - 1, size);
      }
    }
  }
}
