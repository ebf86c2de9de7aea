/** Go's append on slices that share backing arrays, as mergeEntityType uses it to put a parent's
    normalize rules before a child's (internal/schema/registry.go:347): which lists of appends leave
    every slice with what was appended to it. */
module SliceAppend {

  /** All backing arrays; the length of an array is its capacity. */
  type Heap<T> = seq<seq<T>>

  datatype Slice = Slice(arr: nat, len: nat)

  predicate Valid<T>(h: Heap<T>, s: Slice) {
    s.arr < |h| && s.len <= |h[s.arr]|
  }

  function Read<T>(h: Heap<T>, s: Slice): seq<T>
    requires Valid(h, s)
  {
    h[s.arr][..s.len]
  }

  function Spare<T>(h: Heap<T>, s: Slice): nat
    requires Valid(h, s)
  {
    |h[s.arr]| - s.len
  }

  /** `r = append(s, xs...)`: written into the spare capacity of s when it is large enough,
      otherwise into a new array of any sufficient capacity. */
  ghost predicate Appends<T>(h: Heap<T>, s: Slice, xs: seq<T>, after: Heap<T>, r: Slice)
    requires Valid(h, s)
  {
    if |xs| <= Spare(h, s) then
      && r == Slice(s.arr, s.len + |xs|)
      && after == h[s.arr := Read(h, s) + xs + h[s.arr][s.len + |xs|..]]
    else
      && r == Slice(|h|, s.len + |xs|)
      && |after| == |h| + 1 && after[..|h|] == h && Read(h, s) + xs <= after[|h|]
  }

  lemma AppendReads<T>(h: Heap<T>, s: Slice, xs: seq<T>, after: Heap<T>, r: Slice)
    requires Valid(h, s) && Appends(h, s, xs, after, r)
    ensures Valid(after, r) && Read(after, r) == Read(h, s) + xs
    ensures Valid(after, s) && Read(after, s) == Read(h, s) && Spare(after, s) == Spare(h, s)
  {
    if |xs| > Spare(h, s) {
      assert after[s.arr] == after[..|h|][s.arr];
    }
  }

  /** Two appends to one slice, and none after them. The second result always reads what was
      appended; the first does if and only if one of the two did not fit into the spare capacity,
      or what it loses is what replaces it. */
  lemma SiblingsExact<T>(h: Heap<T>, parent: Slice, xs: seq<T>, h1: Heap<T>, first: Slice, ys: seq<T>, h2: Heap<T>, second: Slice)
    requires Valid(h, parent) && Appends(h, parent, xs, h1, first)
    requires Valid(h1, parent) && Appends(h1, parent, ys, h2, second)
    ensures Valid(h2, second) && Read(h2, second) == Read(h, parent) + ys
    ensures Valid(h2, first)
    ensures Read(h2, first) == Read(h, parent) + xs <==>
      || |xs| > Spare(h, parent)
      || |ys| > Spare(h, parent)
      || forall i :: 0 <= i < |xs| && i < |ys| ==> xs[i] == ys[i]
  {
    AppendReads(h, parent, xs, h1, first);
    AppendReads(h1, parent, ys, h2, second);
    if |ys| > Spare(h, parent) {
      assert h2[first.arr] == h2[..|h1|][first.arr];
    } else if |xs| <= Spare(h, parent) {
      var now := h2[parent.arr];
      var k := parent.len;
      assert now == Read(h, parent) + ys + h1[parent.arr][k + |ys|..];
      forall i | 0 <= i < |xs| ensures now[k + i] == if i < |ys| then ys[i] else xs[i] {
        assert h1[parent.arr][k + i] == xs[i];
      }
      var mine, wanted := Read(h2, first), Read(h, parent) + xs;
      assert forall i :: 0 <= i < k ==> mine[i] == wanted[i];
      forall i | 0 <= i < |xs| ensures mine[k + i] == (if i < |ys| then ys[i] else xs[i]) && wanted[k + i] == xs[i] {}
      if mine == wanted {
        forall i | 0 <= i < |xs| && i < |ys| ensures xs[i] == ys[i] {
          assert mine[k + i] == wanted[k + i];
        }
      }
      if forall i :: 0 <= i < |xs| && i < |ys| ==> xs[i] == ys[i] {
        forall j | 0 <= j < |mine| ensures mine[j] == wanted[j] {
          if k <= j { assert mine[k + (j - k)] == wanted[k + (j - k)]; }
        }
      }
    }
  }

  // ---------------------------------------------------------------- lists of appends

  /** The slices of all types. */
  datatype Memory<T> = Memory(heap: Heap<T>, slices: map<string, Slice>) {
    predicate Sound() {
      forall n :: n in slices ==> Valid(heap, slices[n])
    }

    function Reads(n: string): seq<T>
      requires n in slices && Sound()
    {
      Read(heap, slices[n])
    }
  }

  /** The child's slice becomes the parent's with the child's elements appended. */
  datatype Merge = Merge(child: string, parent: string)

  ghost predicate Merges<T>(s: Memory<T>, g: Merge, t: Memory<T>) {
    && s.Sound() && g.child in s.slices && g.parent in s.slices && g.child in t.slices
    && t.slices == s.slices[g.child := t.slices[g.child]]
    && Appends(s.heap, s.slices[g.parent], s.Reads(g.child), t.heap, t.slices[g.child])
  }

  /** What every slice ought to read. */
  type Wanted<T> = map<string, seq<T>>

  function WantedNext<T>(w: Wanted<T>, g: Merge): Wanted<T>
    requires g.child in w && g.parent in w
  {
    w[g.child := w[g.parent] + w[g.child]]
  }

  ghost predicate AllRead<T>(s: Memory<T>, w: Wanted<T>) {
    s.Sound() && w.Keys == s.slices.Keys && forall n :: n in w ==> s.Reads(n) == w[n]
  }

  /** The append of g changes an element, at position p, of what the slice of n covers. */
  ghost predicate OverwritesAt<T>(s: Memory<T>, g: Merge, n: string, p: nat) {
    && s.Sound() && g.child in s.slices && g.parent in s.slices && n in s.slices
    && var target, xs := s.slices[g.parent], s.Reads(g.child);
       && |xs| <= Spare(s.heap, target) && s.slices[n].arr == target.arr
       && target.len <= p < s.slices[n].len && p - target.len < |xs|
       && s.heap[target.arr][p] != xs[p - target.len]
  }

  ghost predicate Overwrites<T>(s: Memory<T>, g: Merge) {
    exists n, p: nat :: OverwritesAt(s, g, n, p)
  }

  /** Types still to be merged have arrays of their own and read what was loaded. */
  ghost predicate Waiting<T>(s: Memory<T>, w: Wanted<T>, pending: set<string>) {
    && s.Sound() && w.Keys == s.slices.Keys
    && (forall n :: n in w ==> |w[n]| == s.slices[n].len)
    && (forall n :: n in pending && n in w ==> s.Reads(n) == w[n])
    && (forall n, m :: n in pending && n in w && m in w && n != m ==> s.slices[n].arr != s.slices[m].arr)
  }

  /** Two finished slices share an element that ought to have two values. */
  ghost predicate ClashAt<T>(s: Memory<T>, w: Wanted<T>, pending: set<string>, n: string, c: string, p: nat) {
    && n in w && c in w && n in s.slices && c in s.slices && n !in pending && c !in pending
    && s.slices[n].arr == s.slices[c].arr && p < |w[n]| && p < |w[c]| && w[n][p] != w[c][p]
  }

  ghost predicate Clash<T>(s: Memory<T>, w: Wanted<T>, pending: set<string>) {
    exists n, c, p: nat :: ClashAt(s, w, pending, n, c, p)
  }

  lemma ClashMisreads<T>(s: Memory<T>, w: Wanted<T>, pending: set<string>)
    requires Waiting(s, w, pending) && Clash(s, w, pending)
    ensures !AllRead(s, w)
  {
    var n, c, p: nat :| ClashAt(s, w, pending, n, c, p);
    assert s.Reads(n)[p] == s.heap[s.slices[n].arr][p] == s.Reads(c)[p];
  }

  /** What one merge does to the slice of n, other than the child's. */
  lemma MergeReads<T>(s: Memory<T>, g: Merge, t: Memory<T>, n: string)
    requires Merges(s, g, t) && n in s.slices && n != g.child
    ensures t.slices[n] == s.slices[n] && Valid(t.heap, t.slices[n])
    ensures s.slices[n].arr != s.slices[g.parent].arr ==> Read(t.heap, t.slices[n]) == s.Reads(n)
    ensures (forall p: nat :: !OverwritesAt(s, g, n, p)) ==> Read(t.heap, t.slices[n]) == s.Reads(n)
  {
    var target, xs, mine := s.slices[g.parent], s.Reads(g.child), s.slices[n];
    if |xs| > Spare(s.heap, target) {
      assert t.heap[mine.arr] == t.heap[..|s.heap|][mine.arr];
    } else if mine.arr == target.arr && forall p: nat :: !OverwritesAt(s, g, n, p) {
      var now := t.heap[target.arr];
      forall p | 0 <= p < mine.len ensures now[p] == s.heap[target.arr][p] {
        assert !OverwritesAt(s, g, n, p);
      }
    }
  }

  lemma MergeWaits<T>(s: Memory<T>, w: Wanted<T>, pending: set<string>, g: Merge, t: Memory<T>)
    requires Waiting(s, w, pending) && Merges(s, g, t) && g.child in pending && g.parent !in pending
    ensures Waiting(t, WantedNext(w, g), pending - {g.child})
    ensures s.Reads(g.child) == w[g.child]
    ensures Valid(t.heap, t.slices[g.child]) && t.Reads(g.child) == s.Reads(g.parent) + w[g.child]
  {
    AppendReads(s.heap, s.slices[g.parent], s.Reads(g.child), t.heap, t.slices[g.child]);
    forall n | n in s.slices && n != g.child
      ensures t.slices[n] == s.slices[n] && Valid(t.heap, t.slices[n])
      ensures n in pending ==> t.Reads(n) == s.Reads(n)
    {
      MergeReads(s, g, t, n);
    }
    var next := WantedNext(w, g);
    forall n, m | n in pending - {g.child} && n in next && m in next && n != m
      ensures t.slices[n].arr != t.slices[m].arr
    {
      assert s.slices[n].arr != s.slices[g.parent].arr;
    }
  }

  /** A slice on the array of a finished one is finished too. */
  lemma OutOfReach<T>(s: Memory<T>, w: Wanted<T>, pending: set<string>, m: string, n: string)
    requires Waiting(s, w, pending) && m in s.slices && n in s.slices && m !in pending && s.slices[n].arr == s.slices[m].arr
    ensures n !in pending
  {
  }

  /** As long as everything reads as it ought to, a merge keeps it so if and only if it changes no
      element another slice covers; otherwise two slices disagree from then on. */
  lemma MergeReadsOn<T>(s: Memory<T>, w: Wanted<T>, pending: set<string>, g: Merge, t: Memory<T>)
    requires Waiting(s, w, pending) && Merges(s, g, t) && g.child in pending && g.parent !in pending
    requires AllRead(s, w)
    ensures !Overwrites(s, g) ==> AllRead(t, WantedNext(w, g))
    ensures Overwrites(s, g) ==> Clash(t, WantedNext(w, g), pending - {g.child})
  {
    MergeWaits(s, w, pending, g, t);
    var next, left := WantedNext(w, g), pending - {g.child};
    if Overwrites(s, g) {
      var n, p: nat :| OverwritesAt(s, g, n, p);
      assert s.slices[g.child].arr != s.slices[g.parent].arr;
      OutOfReach(s, w, pending, g.parent, n);
      assert s.Reads(n)[p] == s.heap[s.slices[n].arr][p] == w[n][p];
      assert next[g.child] == w[g.parent] + w[g.child];
      assert next[g.child][p] == w[g.child][p - s.slices[g.parent].len];
      assert ClashAt(t, next, left, n, g.child, p);
    } else {
      forall n | n in next ensures t.Reads(n) == next[n] {
        if n != g.child {
          assert forall p: nat :: !OverwritesAt(s, g, n, p);
          MergeReads(s, g, t, n);
        }
      }
    }
  }

  lemma ClashStays<T>(s: Memory<T>, w: Wanted<T>, pending: set<string>, g: Merge, t: Memory<T>)
    requires Waiting(s, w, pending) && Merges(s, g, t) && g.child in pending && g.parent !in pending
    requires Clash(s, w, pending)
    ensures Clash(t, WantedNext(w, g), pending - {g.child})
  {
    var n, c, p: nat :| ClashAt(s, w, pending, n, c, p);
    assert ClashAt(t, WantedNext(w, g), pending - {g.child}, n, c, p);
  }

  // ---------------------------------------------------------------- whole runs

  function Children(gs: seq<Merge>): set<string> { set g | g in gs :: g.child }

  /** Every type is merged at most once, and not after something was merged from it. */
  ghost predicate InOrder(gs: seq<Merge>) {
    && (forall i, j :: 0 <= i < j < |gs| ==> gs[i].child != gs[j].child)
    && (forall i, j :: 0 <= i <= j < |gs| ==> gs[i].parent != gs[j].child)
  }

  ghost predicate IsRun<T>(run: seq<Memory<T>>, gs: seq<Merge>) {
    |run| == |gs| + 1 && forall k :: 0 <= k < |gs| ==> Merges(run[k], gs[k], run[k + 1])
  }

  /** Every type has an array of its own, as after loading. */
  ghost predicate Separate<T>(s: Memory<T>) {
    s.Sound() && forall n, m :: n in s.slices && m in s.slices && n != m ==> s.slices[n].arr != s.slices[m].arr
  }

  function AsLoaded<T>(s: Memory<T>): Wanted<T>
    requires s.Sound()
  {
    map n | n in s.slices :: s.Reads(n)
  }

  /** What the slices ought to read after the merges, the values being appended. */
  function WantedAfter<T>(w: Wanted<T>, gs: seq<Merge>): Wanted<T>
    requires forall g :: g in gs ==> g.child in w && g.parent in w
    ensures WantedAfter(w, gs).Keys == w.Keys
  {
    if gs == [] then w
    else
      assert gs[|gs| - 1] in gs && forall g :: g in gs[..|gs| - 1] ==> g in gs;
      WantedNext(WantedAfter(w, gs[..|gs| - 1]), gs[|gs| - 1])
  }

  lemma WantedSnoc<T>(w: Wanted<T>, gs: seq<Merge>, g: Merge)
    requires (forall h :: h in gs ==> h.child in w && h.parent in w) && g.child in w && g.parent in w
    ensures WantedAfter(w, gs + [g]) == WantedNext(WantedAfter(w, gs), g)
  {
    assert (gs + [g])[..|gs|] == gs;
  }

  /** No append changes an element that the slice of another type covers. */
  ghost predicate NoneOverwrites<T>(run: seq<Memory<T>>, gs: seq<Merge>)
    requires IsRun(run, gs)
  {
    forall k :: 0 <= k < |gs| ==> !Overwrites(run[k], gs[k])
  }

  lemma {:induction false} RunKeys<T>(run: seq<Memory<T>>, gs: seq<Merge>)
    requires IsRun(run, gs) && Separate(run[0])
    ensures forall g :: g in gs ==> g.child in run[0].slices && g.parent in run[0].slices
    ensures run[|gs|].slices.Keys == run[0].slices.Keys
    decreases |gs|
  {
    if gs != [] {
      var k := |gs| - 1;
      assert gs == gs[..k] + [gs[k]];
      RunKeys(run[..k + 1], gs[..k]);
      assert Merges(run[k], gs[k], run[k + 1]);
    }
  }

  /** After the merges so far: nothing is wrong yet, or two slices disagree. */
  ghost predicate SoFar<T>(s: Memory<T>, w: Wanted<T>, pending: set<string>, none: bool) {
    && Waiting(s, w, pending)
    && (none ==> AllRead(s, w))
    && (!none ==> Clash(s, w, pending))
  }

  lemma SoFarOn<T>(s: Memory<T>, w: Wanted<T>, pending: set<string>, g: Merge, t: Memory<T>, none: bool)
    requires SoFar(s, w, pending, none) && Merges(s, g, t) && g.child in pending && g.parent !in pending
    ensures SoFar(t, WantedNext(w, g), pending - {g.child}, none && !Overwrites(s, g))
  {
    MergeWaits(s, w, pending, g, t);
    if none {
      MergeReadsOn(s, w, pending, g, t);
    } else {
      ClashStays(s, w, pending, g, t);
    }
  }

  lemma OrderInit(gs: seq<Merge>, pending: set<string>)
    requires gs != [] && InOrder(gs) && Children(gs) !! pending && forall g :: g in gs ==> g.parent !in pending
    ensures var init, g := gs[..|gs| - 1], gs[|gs| - 1];
      && InOrder(init) && g.child !in pending && g.parent !in pending && g.parent != g.child && g in gs
      && Children(init) !! pending + {g.child}
      && forall h :: h in init ==> h.parent !in pending + {g.child} && h in gs
  {
    var k := |gs| - 1;
    var init, g := gs[..k], gs[k];
    assert g in gs;
    forall h | h in init ensures h.child != g.child && h.parent != g.child && h in gs {
      var i :| 0 <= i < k && gs[i] == h;
    }
    assert gs[k].parent != gs[k].child;
  }

  lemma OneMoreMerge<T>(s: Memory<T>, w: Wanted<T>, pending: set<string>, g: Merge, t: Memory<T>, none: bool)
    requires g.child !in pending && g.parent !in pending && g.parent != g.child
    requires SoFar(s, w, pending + {g.child}, none) && Merges(s, g, t)
    ensures SoFar(t, WantedNext(w, g), pending, none && !Overwrites(s, g))
  {
    SoFarOn(s, w, pending + {g.child}, g, t, none);
    assert pending + {g.child} - {g.child} == pending;
  }

  lemma NothingYet<T>(s: Memory<T>, pending: set<string>)
    requires Separate(s)
    ensures SoFar(s, AsLoaded(s), pending, true)
  {
  }

  lemma RunInit<T>(run: seq<Memory<T>>, gs: seq<Merge>)
    requires IsRun(run, gs) && gs != [] && Separate(run[0])
    requires forall g :: g in gs ==> g.child in run[0].slices && g.parent in run[0].slices
    ensures IsRun(run[..|gs|], gs[..|gs| - 1]) && Merges(run[|gs| - 1], gs[|gs| - 1], run[|gs|])
    ensures forall g :: g in gs[..|gs| - 1] ==> g.child in run[0].slices && g.parent in run[0].slices
    ensures gs[|gs| - 1].child in run[0].slices && gs[|gs| - 1].parent in run[0].slices
    ensures WantedAfter(AsLoaded(run[0]), gs) == WantedNext(WantedAfter(AsLoaded(run[0]), gs[..|gs| - 1]), gs[|gs| - 1])
  {
    assert gs[|gs| - 1] in gs && forall g :: g in gs[..|gs| - 1] ==> g in gs;
  }

  lemma {:induction false} RunSoFar<T>(run: seq<Memory<T>>, gs: seq<Merge>, pending: set<string>)
    requires IsRun(run, gs) && Separate(run[0]) && InOrder(gs)
    requires Children(gs) !! pending && forall g :: g in gs ==> g.parent !in pending
    requires forall g :: g in gs ==> g.child in run[0].slices && g.parent in run[0].slices
    ensures SoFar(run[|gs|], WantedAfter(AsLoaded(run[0]), gs), pending, NoneOverwrites(run, gs))
    decreases |gs|
  {
    if gs == [] {
      NothingYet(run[0], pending);
    } else {
      var k := |gs| - 1;
      OrderInit(gs, pending);
      RunInit(run, gs);
      var before, init, more := run[..|gs|], gs[..k], pending + {gs[k].child};
      assert before[0] == run[0] && before[k] == run[k];
      RunSoFar(before, init, more);
      SoFarNext(run, gs, pending);
    }
  }

  lemma SoFarNext<T>(run: seq<Memory<T>>, gs: seq<Merge>, pending: set<string>)
    requires IsRun(run, gs) && gs != [] && Separate(run[0]) && InOrder(gs) && gs[|gs| - 1].child !in pending
    requires forall g :: g in gs ==> g.parent !in pending
    requires forall g :: g in gs ==> g.child in run[0].slices && g.parent in run[0].slices
    requires IsRun(run[..|gs|], gs[..|gs| - 1]) && forall g :: g in gs[..|gs| - 1] ==> g.child in run[0].slices && g.parent in run[0].slices
    requires SoFar(run[|gs| - 1], WantedAfter(AsLoaded(run[0]), gs[..|gs| - 1]), pending + {gs[|gs| - 1].child},
                   NoneOverwrites(run[..|gs|], gs[..|gs| - 1]))
    ensures SoFar(run[|gs|], WantedAfter(AsLoaded(run[0]), gs), pending, NoneOverwrites(run, gs))
  {
    var k := |gs| - 1;
    RunInit(run, gs);
    NoneOverwritesSnoc(run, gs);
    assert gs[k] in gs && gs[k].parent != gs[k].child;
    var w, none := WantedAfter(AsLoaded(run[0]), gs[..k]), NoneOverwrites(run[..|gs|], gs[..k]);
    OneMoreMerge(run[k], w, pending, gs[k], run[k + 1], none);
    SameSoFar(run[k + 1], WantedNext(w, gs[k]), WantedAfter(AsLoaded(run[0]), gs), pending,
              none && !Overwrites(run[k], gs[k]), NoneOverwrites(run, gs));
  }

  lemma SameSoFar<T>(s: Memory<T>, w: Wanted<T>, x: Wanted<T>, pending: set<string>, none: bool, clean: bool)
    requires SoFar(s, w, pending, none)
    ensures w == x && none == clean ==> SoFar(s, x, pending, clean)
  {
  }

  lemma NoneOverwritesSnoc<T>(run: seq<Memory<T>>, gs: seq<Merge>)
    requires IsRun(run, gs) && gs != []
    ensures IsRun(run[..|gs|], gs[..|gs| - 1])
    ensures NoneOverwrites(run, gs) <==>
      NoneOverwrites(run[..|gs|], gs[..|gs| - 1]) && !Overwrites(run[|gs| - 1], gs[|gs| - 1])
  {
    var k := |gs| - 1;
    forall i | 0 <= i < k ensures run[..k + 1][i] == run[i] && gs[..k][i] == gs[i] {}
    if NoneOverwrites(run[..k + 1], gs[..k]) && !Overwrites(run[k], gs[k]) {
      forall i | 0 <= i < |gs| ensures !Overwrites(run[i], gs[i]) {
        if i < k { assert !Overwrites(run[..k + 1][i], gs[..k][i]); }
      }
    }
    if NoneOverwrites(run, gs) {
      forall i | 0 <= i < k ensures !Overwrites(run[..k + 1][i], gs[..k][i]) {
        assert !Overwrites(run[i], gs[i]);
      }
    }
  }

  /** After any list of appends every slice reads what was appended to it if and only if no append
      changed an element that the slice of another type covered at the time. */
  lemma AllReadExactly<T>(run: seq<Memory<T>>, gs: seq<Merge>)
    requires IsRun(run, gs) && Separate(run[0]) && InOrder(gs)
    requires forall g :: g in gs ==> g.child in run[0].slices && g.parent in run[0].slices
    ensures AllRead(run[|gs|], WantedAfter(AsLoaded(run[0]), gs)) <==> NoneOverwrites(run, gs)
  {
    RunSoFar(run, gs, {});
    if !NoneOverwrites(run, gs) {
      ClashMisreads(run[|gs|], WantedAfter(AsLoaded(run[0]), gs), {});
    }
  }

  /** Siblings whose rules agree where they overlap are not yet safe: an append to the shorter one
      overwrites the longer one. */
  lemma CousinOverwritten<T>(h: Heap<T>, parent: Slice, x: T, y: T, z: T,
                             h1: Heap<T>, first: Slice, h2: Heap<T>, second: Slice, h3: Heap<T>, third: Slice)
    requires Valid(h, parent) && Spare(h, parent) >= 2 && y != z
    requires Appends(h, parent, [x], h1, first)
    requires Valid(h1, parent) && Appends(h1, parent, [x, y], h2, second)
    requires Valid(h2, first) && Appends(h2, first, [z], h3, third)
    ensures Read(h2, first) == Read(h, parent) + [x] && Read(h2, second) == Read(h, parent) + [x, y]
    ensures Valid(h3, second) && Read(h3, second) == Read(h, parent) + [x, z] != Read(h, parent) + [x, y]
  {
    SiblingsExact(h, parent, [x], h1, first, [x, y], h2, second);
    AppendReads(h, parent, [x], h1, first);
    AppendReads(h1, parent, [x, y], h2, second);
    AppendReads(h2, first, [z], h3, third);
    assert second == Slice(parent.arr, parent.len + 2) && first == Slice(parent.arr, parent.len + 1);
    assert third == second;
    assert Read(h, parent) + [x] + [z] == Read(h, parent) + [x, z];
    assert (Read(h, parent) + [x, z])[parent.len + 1] == z && (Read(h, parent) + [x, y])[parent.len + 1] == y;
  }

  /** The same as a list of merges: types a and b extend p, and c extends a. */
  lemma CousinRun<T>(run: seq<Memory<T>>, p: string, a: string, b: string, c: string, x: T, y: T, z: T)
    requires IsRun(run, [Merge(a, p), Merge(b, p), Merge(c, a)]) && Separate(run[0])
    requires p != a && p != b && p != c && a != b && a != c && b != c
    requires p in run[0].slices && a in run[0].slices && b in run[0].slices && c in run[0].slices
    requires run[0].Reads(a) == [x] && run[0].Reads(b) == [x, y] && run[0].Reads(c) == [z]
    requires Spare(run[0].heap, run[0].slices[p]) >= 2 && y != z
    ensures b in run[3].slices && Valid(run[3].heap, run[3].slices[b])
    ensures Read(run[3].heap, run[3].slices[b]) == run[0].Reads(p) + [x, z] != run[0].Reads(p) + [x, y]
    ensures !NoneOverwrites(run, [Merge(a, p), Merge(b, p), Merge(c, a)])
  {
    var gs := [Merge(a, p), Merge(b, p), Merge(c, a)];
    var s0, s1, s2, s3 := run[0], run[1], run[2], run[3];
    assert Merges(s0, gs[0], s1) && Merges(s1, gs[1], s2) && Merges(s2, gs[2], s3);
    MergeReads(s0, gs[0], s1, b);
    MergeReads(s0, gs[0], s1, c);
    assert s1.Reads(b) == [x, y] && s1.Reads(c) == [z];
    assert s1.slices[c].arr != s1.slices[p].arr;
    MergeReads(s1, gs[1], s2, c);
    assert s2.Reads(c) == [z];
    var target := s0.slices[p];
    CousinOverwritten(s0.heap, target, x, y, z, s1.heap, s1.slices[a], s2.heap, s2.slices[b], s3.heap, s3.slices[c]);
    assert s2.slices[b] == Slice(target.arr, target.len + 2) && s2.slices[a] == Slice(target.arr, target.len + 1);
    assert s2.Reads(b)[target.len + 1] == y;
    assert OverwritesAt(s2, gs[2], b, target.len + 1);
    assert Overwrites(run[2], gs[2]);
  }

  // ---------------------------------------------------------------- a condition on the inheritance alone

  /** No slice has spare capacity, as decoding leaves them. */
  ghost predicate Tight<T>(s: Memory<T>) {
    s.Sound() && forall n :: n in s.slices ==> Spare(s.heap, s.slices[n]) == 0
  }

  function Extended(gs: seq<Merge>): set<string> { set g | g in gs :: g.parent }

  /** Only types that extend nothing are extended by several types. */
  ghost predicate BranchesAtRoots(gs: seq<Merge>) {
    forall i, j :: 0 <= i < j < |gs| && gs[i].parent == gs[j].parent ==> gs[i].parent !in Children(gs)
  }

  lemma MergeSound<T>(s: Memory<T>, g: Merge, t: Memory<T>)
    requires Merges(s, g, t)
    ensures t.Sound() && |t.heap| >= |s.heap| && forall a :: 0 <= a < |s.heap| ==> |t.heap[a]| == |s.heap[a]|
    ensures forall n :: n in s.slices && n != g.child ==> n in t.slices && t.slices[n] == s.slices[n]
  {
    AppendReads(s.heap, s.slices[g.parent], s.Reads(g.child), t.heap, t.slices[g.child]);
    forall a | 0 <= a < |s.heap| ensures a < |t.heap| && |t.heap[a]| == |s.heap[a]| {
      if |s.Reads(g.child)| > Spare(s.heap, s.slices[g.parent]) {
        assert t.heap[a] == t.heap[..|s.heap|][a];
      }
    }
  }

  /** Where there is spare capacity behind the slice of a type nothing has been appended to, the other
      slices on the array are shorter, or the same and appended to. */
  ghost predicate Tips<T>(s: Memory<T>, used: set<string>) {
    s.Sound() && forall m, n :: TipAt(s, used, m, n)
  }

  ghost predicate TipAt<T>(s: Memory<T>, used: set<string>, m: string, n: string)
    requires s.Sound()
  {
    m in s.slices && n in s.slices && m != n && s.slices[m].arr == s.slices[n].arr
    && Spare(s.heap, s.slices[m]) > 0 && m !in used && s.slices[m].len <= s.slices[n].len
    ==> s.slices[m].len == s.slices[n].len && n in used
  }

  lemma TipsOn<T>(s: Memory<T>, used: set<string>, g: Merge, t: Memory<T>)
    requires Tips(s, used) && Merges(s, g, t) && g.parent != g.child
    requires Spare(s.heap, s.slices[g.parent]) == 0 || g.parent !in used
    ensures !Overwrites(s, g) && Tips(t, used + {g.parent})
  {
    MergeSound(s, g, t);
    forall n, p: nat ensures !OverwritesAt(s, g, n, p) {
      assert TipAt(s, used, g.parent, n);
    }
    forall m, n ensures TipAt(t, used + {g.parent}, m, n) {
      TipOn(s, used, g, t, m, n);
    }
  }

  lemma TipOn<T>(s: Memory<T>, used: set<string>, g: Merge, t: Memory<T>, m: string, n: string)
    requires Tips(s, used) && Merges(s, g, t) && g.parent != g.child && t.Sound()
    requires Spare(s.heap, s.slices[g.parent]) == 0 || g.parent !in used
    ensures TipAt(t, used + {g.parent}, m, n)
  {
    MergeSound(s, g, t);
    assert TipAt(s, used, m, n) && TipAt(s, used, g.parent, n) && TipAt(s, used, m, g.parent) && TipAt(s, used, g.parent, m);
  }

  lemma {:induction false} RootStays<T>(run: seq<Memory<T>>, gs: seq<Merge>, n: string)
    requires IsRun(run, gs) && run[0].Sound() && n in run[0].slices && n !in Children(gs)
    ensures var t := run[|gs|];
      t.Sound() && n in t.slices && t.slices[n] == run[0].slices[n] && Spare(t.heap, t.slices[n]) == Spare(run[0].heap, run[0].slices[n])
    decreases |gs|
  {
    if gs != [] {
      var k := |gs| - 1;
      assert gs[k] in gs && gs == gs[..k] + [gs[k]];
      assert n !in Children(gs[..k]);
      RootStays(run[..k + 1], gs[..k], n);
      assert Merges(run[k], gs[k], run[k + 1]);
      MergeSound(run[k], gs[k], run[k + 1]);
    }
  }

  lemma {:induction false} TipsSoFar<T>(run: seq<Memory<T>>, gs: seq<Merge>)
    requires IsRun(run, gs) && Separate(run[0]) && Tight(run[0]) && InOrder(gs) && BranchesAtRoots(gs)
    requires forall g :: g in gs ==> g.child in run[0].slices && g.parent in run[0].slices
    ensures Tips(run[|gs|], Extended(gs)) && NoneOverwrites(run, gs)
    decreases |gs|
  {
    if gs != [] {
      var k := |gs| - 1;
      var init, g, before := gs[..k], gs[k], run[..k + 1];
      assert g in gs && gs == init + [g];
      BranchesInit(gs);
      OrderInit(gs, {});
      TipsSoFar(before, init);
      assert Merges(run[k], g, run[k + 1]) && before[k] == run[k];
      if g.parent in Extended(init) {
        ParentIsRoot(gs);
        RootStays(before, init, g.parent);
      }
      TipsOn(run[k], Extended(init), g, run[k + 1]);
      assert Extended(gs) == Extended(init) + {g.parent};
      NoneOverwritesSnoc(run, gs);
    } else {
      assert forall m, n :: TipAt(run[0], {}, m, n);
    }
  }

  lemma BranchesInit(gs: seq<Merge>)
    requires gs != [] && BranchesAtRoots(gs)
    ensures BranchesAtRoots(gs[..|gs| - 1])
  {
    var init := gs[..|gs| - 1];
    forall i, j | 0 <= i < j < |init| && init[i].parent == init[j].parent ensures init[i].parent !in Children(init) {
      assert gs[i].parent == gs[j].parent;
      assert Children(init) <= Children(gs);
    }
  }

  lemma ParentIsRoot(gs: seq<Merge>)
    requires gs != [] && BranchesAtRoots(gs) && gs[|gs| - 1].parent in Extended(gs[..|gs| - 1])
    ensures gs[|gs| - 1].parent !in Children(gs[..|gs| - 1])
  {
    var init := gs[..|gs| - 1];
    var h :| h in init && h.parent == gs[|gs| - 1].parent;
    var i :| 0 <= i < |init| && init[i] == h;
    assert gs[i].parent == gs[|gs| - 1].parent;
    assert Children(init) <= Children(gs);
  }

  /** As loaded, whatever capacities appends reserve: when only types that extend nothing are extended by
      several types, as when no type extends one that extends another, all slices read what they should. */
  lemma RootBranchesRead<T>(run: seq<Memory<T>>, gs: seq<Merge>)
    requires IsRun(run, gs) && Separate(run[0]) && Tight(run[0]) && InOrder(gs) && BranchesAtRoots(gs)
    requires forall g :: g in gs ==> g.child in run[0].slices && g.parent in run[0].slices
    ensures NoneOverwrites(run, gs) && AllRead(run[|gs|], WantedAfter(AsLoaded(run[0]), gs))
  {
    TipsSoFar(run, gs);
    AllReadExactly(run, gs);
  }

  // ---------------------------------------------------------------- ... and only then

  /** One merge, with `pad` reserved whenever a new array is needed. */
  function MergeOn<T>(s: Memory<T>, g: Merge, pad: seq<T>): (t: Memory<T>)
    requires s.Sound() && g.child in s.slices && g.parent in s.slices
  {
    var target, xs := s.slices[g.parent], s.Reads(g.child);
    if |xs| <= Spare(s.heap, target) then
      Memory(s.heap[target.arr := Read(s.heap, target) + xs + s.heap[target.arr][target.len + |xs|..]],
             s.slices[g.child := Slice(target.arr, target.len + |xs|)])
    else
      Memory(s.heap + [Read(s.heap, target) + xs + pad], s.slices[g.child := Slice(|s.heap|, target.len + |xs|)])
  }

  lemma MergeOnMerges<T>(s: Memory<T>, g: Merge, pad: seq<T>)
    requires s.Sound() && g.child in s.slices && g.parent in s.slices
    ensures Merges(s, g, MergeOn(s, g, pad)) && MergeOn(s, g, pad).Sound()
  {
    var t := MergeOn(s, g, pad);
    if |s.Reads(g.child)| > Spare(s.heap, s.slices[g.parent]) {
      assert t.heap[..|s.heap|] == s.heap;
    }
    assert t.slices == s.slices[g.child := t.slices[g.child]];
    MergeSound(s, g, t);
  }

  ghost predicate PadAt<T>(run: seq<Memory<T>>, gs: seq<Merge>, pad: seq<T>, k: nat)
    requires |run| == |gs| + 1 && k < |gs|
  {
    && run[k].Sound() && gs[k].child in run[k].slices && gs[k].parent in run[k].slices
    && run[k + 1] == MergeOn(run[k], gs[k], pad)
  }

  /** A run that reserves `pad` each time. */
  ghost predicate PadRun<T>(run: seq<Memory<T>>, gs: seq<Merge>, pad: seq<T>) {
    |run| == |gs| + 1 && forall k :: 0 <= k < |gs| ==> PadAt(run, gs, pad, k)
  }

  lemma {:induction false} SomeRun<T>(s: Memory<T>, gs: seq<Merge>, pad: seq<T>) returns (run: seq<Memory<T>>)
    requires s.Sound() && forall g :: g in gs ==> g.child in s.slices && g.parent in s.slices
    ensures PadRun(run, gs, pad) && run[0] == s && run[|gs|].Sound() && run[|gs|].slices.Keys == s.slices.Keys
    decreases |gs|
  {
    run := [s];
    if gs != [] {
      var k := |gs| - 1;
      assert gs[k] in gs && forall g :: g in gs[..k] ==> g in gs;
      var before := SomeRun(s, gs[..k], pad);
      MergeOnMerges(before[k], gs[k], pad);
      run := before + [MergeOn(before[k], gs[k], pad)];
      OneMorePad(before, gs, pad);
    }
  }

  lemma OneMorePad<T>(before: seq<Memory<T>>, gs: seq<Merge>, pad: seq<T>)
    requires gs != [] && PadRun(before, gs[..|gs| - 1], pad)
    requires var k := |gs| - 1; before[k].Sound() && gs[k].child in before[k].slices && gs[k].parent in before[k].slices
    ensures PadRun(before + [MergeOn(before[|gs| - 1], gs[|gs| - 1], pad)], gs, pad)
  {
    var n := |gs| - 1;
    var run, init := before + [MergeOn(before[n], gs[n], pad)], gs[..n];
    forall k | 0 <= k < |gs| ensures PadAt(run, gs, pad, k) {
      assert k < n ==> PadAt(before, init, pad, k);
    }
  }

  lemma PadRunIsRun<T>(run: seq<Memory<T>>, gs: seq<Merge>, pad: seq<T>)
    requires PadRun(run, gs, pad)
    ensures IsRun(run, gs)
  {
    forall k | 0 <= k < |gs| ensures Merges(run[k], gs[k], run[k + 1]) {
      assert PadAt(run, gs, pad, k);
      MergeOnMerges(run[k], gs[k], pad);
    }
  }

  /** Types with the given rules, in arrays of their own without spare capacity. */
  function Decoded<T>(names: seq<string>, rules: map<string, seq<T>>): Memory<T>
    requires forall n :: n in names ==> n in rules
  {
    if names == [] then Memory([], map[])
    else
      var k := |names| - 1;
      var init := Decoded(names[..k], rules);
      Memory(init.heap + [rules[names[k]]], init.slices[names[k] := Slice(|init.heap|, |rules[names[k]]|)])
  }

  lemma {:induction false} DecodedIsLoaded<T>(names: seq<string>, rules: map<string, seq<T>>)
    requires (forall n :: n in names ==> n in rules) && (forall i, j :: 0 <= i < j < |names| ==> names[i] != names[j])
    ensures var s := Decoded(names, rules);
      && Tight(s) && Separate(s) && |s.heap| == |names|
      && (forall n :: n in s.slices <==> n in names) && (forall n :: n in names ==> s.Reads(n) == rules[n])
    decreases |names|
  {
    if names != [] {
      var k := |names| - 1;
      var init := Decoded(names[..k], rules);
      DecodedIsLoaded(names[..k], rules);
      assert names == names[..k] + [names[k]];
      OneMoreDecoded(init, names[k], rules[names[k]]);
    }
  }

  lemma OneMoreDecoded<T>(s: Memory<T>, n: string, xs: seq<T>)
    requires Tight(s) && Separate(s) && n !in s.slices
    ensures var t := Memory(s.heap + [xs], s.slices[n := Slice(|s.heap|, |xs|)]);
      Tight(t) && Separate(t) && t.Reads(n) == xs && forall m :: m in s.slices ==> t.Reads(m) == s.Reads(m)
  {
    var t := Memory(s.heap + [xs], s.slices[n := Slice(|s.heap|, |xs|)]);
    forall m | m in s.slices ensures Valid(t.heap, t.slices[m]) && Spare(t.heap, t.slices[m]) == 0 && Read(t.heap, t.slices[m]) == s.Reads(m) {
      assert t.heap[s.slices[m].arr] == s.heap[s.slices[m].arr] && Spare(s.heap, s.slices[m]) == 0;
    }
  }

  /** The root's rules go into a new array with room for two more; from there on it is the run above. All
      slices are as decoding leaves them: r has three rules and p one, so that Go's doubling reserves six
      places; a and b extend p and agree where they overlap; c extends a. */
  lemma CousinDecoded<T>(r: string, p: string, a: string, b: string, c: string, ws: seq<T>, v: T, x: T, y: T, z: T)
    returns (run: seq<Memory<T>>)
    requires r !in {p, a, b, c} && p !in {a, b, c} && a !in {b, c} && b != c
    requires |ws| == 3 && y != z
    ensures var gs := [Merge(p, r), Merge(a, p), Merge(b, p), Merge(c, a)];
      && IsRun(run, gs) && InOrder(gs) && Separate(run[0]) && Tight(run[0]) && run[0].slices.Keys == {r, p, a, b, c}
      && p in run[1].slices && Valid(run[1].heap, run[1].slices[p]) && run[1].slices[p].len == 4 && Spare(run[1].heap, run[1].slices[p]) == 2
      && !NoneOverwrites(run, gs)
      && b in run[4].slices && Valid(run[4].heap, run[4].slices[b])
      && Read(run[4].heap, run[4].slices[b]) == ws + [v] + [x, z] != ws + [v] + [x, y]
  {
    var gs := [Merge(p, r), Merge(a, p), Merge(b, p), Merge(c, a)];
    var s := FiveDecoded(r, p, a, b, c, ws, v, x, y, z);
    run := SomeRun(s, gs, [x, x]);
    PadRunIsRun(run, gs, [x, x]);
    RootInto(run, gs, r, p, [x, x]);
    CousinEnd(run, r, p, a, b, c, ws, v, x, y, z);
    CousinsInOrder(r, p, a, b, c);
  }

  lemma CousinsInOrder(r: string, p: string, a: string, b: string, c: string)
    requires r !in {p, a, b, c} && p !in {a, b, c} && a !in {b, c} && b != c
    ensures InOrder([Merge(p, r), Merge(a, p), Merge(b, p), Merge(c, a)])
  {
  }

  lemma FiveDecoded<T>(r: string, p: string, a: string, b: string, c: string, ws: seq<T>, v: T, x: T, y: T, z: T) returns (s: Memory<T>)
    requires r !in {p, a, b, c} && p !in {a, b, c} && a !in {b, c} && b != c
    ensures Tight(s) && Separate(s) && s.slices.Keys == {r, p, a, b, c}
    ensures s.Reads(r) == ws && s.Reads(p) == [v] && s.Reads(a) == [x] && s.Reads(b) == [x, y] && s.Reads(c) == [z]
  {
    var names, rules := [r, p, a, b, c], map[r := ws, p := [v], a := [x], b := [x, y], c := [z]];
    s := Decoded(names, rules);
    DecodedIsLoaded(names, rules);
    assert forall n :: n in names <==> n in {r, p, a, b, c};
    assert r in names && p in names && a in names && b in names && c in names;
  }

  lemma RootInto<T>(run: seq<Memory<T>>, gs: seq<Merge>, r: string, p: string, pad: seq<T>)
    requires PadRun(run, gs, pad) && gs != [] && gs[0] == Merge(p, r) && Separate(run[0]) && Tight(run[0])
    requires p in run[0].slices && r in run[0].slices && p != r && run[0].Reads(p) != []
    ensures var t := run[1];
      && t.Sound() && Separate(t) && t.slices.Keys == run[0].slices.Keys && t.Reads(p) == run[0].Reads(r) + run[0].Reads(p)
      && Spare(t.heap, t.slices[p]) == |pad|
      && forall n :: n in run[0].slices && n != p ==> t.slices[n] == run[0].slices[n] && t.Reads(n) == run[0].Reads(n)
  {
    assert PadAt(run, gs, pad, 0);
    MergeOnMerges(run[0], gs[0], pad);
    assert Spare(run[0].heap, run[0].slices[r]) == 0;
    forall n | n in run[0].slices && n != p ensures run[1].slices[n] == run[0].slices[n] && run[1].Reads(n) == run[0].Reads(n) {
      MergeReads(run[0], gs[0], run[1], n);
      assert forall q: nat :: !OverwritesAt(run[0], gs[0], n, q);
    }
  }

  lemma CousinEnd<T>(run: seq<Memory<T>>, r: string, p: string, a: string, b: string, c: string, ws: seq<T>, v: T, x: T, y: T, z: T)
    requires IsRun(run, [Merge(p, r), Merge(a, p), Merge(b, p), Merge(c, a)]) && Separate(run[1])
    requires p != a && p != b && p != c && a != b && a != c && b != c
    requires p in run[1].slices && a in run[1].slices && b in run[1].slices && c in run[1].slices
    requires run[1].Reads(p) == ws + [v] && run[1].Reads(a) == [x] && run[1].Reads(b) == [x, y] && run[1].Reads(c) == [z]
    requires Spare(run[1].heap, run[1].slices[p]) >= 2 && y != z
    ensures b in run[4].slices && Valid(run[4].heap, run[4].slices[b])
    ensures Read(run[4].heap, run[4].slices[b]) == ws + [v] + [x, z] != ws + [v] + [x, y]
    ensures !NoneOverwrites(run, [Merge(p, r), Merge(a, p), Merge(b, p), Merge(c, a)])
  {
    var gs, rest := [Merge(p, r), Merge(a, p), Merge(b, p), Merge(c, a)], [Merge(a, p), Merge(b, p), Merge(c, a)];
    var tail := run[1..];
    forall k | 0 <= k < 3 ensures Merges(tail[k], rest[k], tail[k + 1]) {
      assert Merges(run[k + 1], gs[k + 1], run[k + 2]);
    }
    CousinRun(tail, p, a, b, c, x, y, z);
    var k :| 0 <= k < 3 && Overwrites(tail[k], rest[k]);
    assert Overwrites(run[k + 1], gs[k + 1]);
  }

  // ---------------------------------------------------------------- when any other type branches

  /** Merges of types without rules of their own leave every array as it is. */
  lemma {:induction false} QuietRun<T>(run: seq<Memory<T>>, gs: seq<Merge>, pad: seq<T>, lo: nat, hi: nat)
    requires PadRun(run, gs, pad) && InOrder(gs) && lo <= hi <= |gs| && run[0].Sound() && run[lo].Sound()
    requires forall k :: lo <= k < hi ==> gs[k].child in run[0].slices && run[0].slices[gs[k].child].len == 0
    ensures run[hi].Sound() && run[hi].heap == run[lo].heap && (Tight(run[lo]) ==> Tight(run[hi]))
    ensures forall n :: n in run[lo].slices && StillToMerge(gs, n, lo, hi) ==> n in run[hi].slices && run[hi].slices[n] == run[lo].slices[n]
    decreases hi
  {
    if lo < hi {
      var k := hi - 1;
      QuietRun(run, gs, pad, lo, k);
      assert PadAt(run, gs, pad, k);
      UntouchedBefore(run, gs, pad, k);
      QuietMerge(run[k], gs[k], pad);
      forall n | n in run[lo].slices && StillToMerge(gs, n, lo, hi) ensures n in run[hi].slices && run[hi].slices[n] == run[lo].slices[n] {
        assert StillToMerge(gs, n, lo, k) && gs[k].child != n;
      }
    }
  }

  /** n is not merged from lo up to hi. */
  ghost predicate StillToMerge(gs: seq<Merge>, n: string, lo: nat, hi: nat)
    requires lo <= hi <= |gs|
  {
    forall k :: lo <= k < hi ==> gs[k].child != n
  }

  lemma QuietMerge<T>(s: Memory<T>, g: Merge, pad: seq<T>)
    requires s.Sound() && g.child in s.slices && g.parent in s.slices && s.slices[g.child].len == 0
    ensures MergeOn(s, g, pad) == Memory(s.heap, s.slices[g.child := s.slices[g.parent]])
  {
    var target := s.slices[g.parent];
    assert s.heap[target.arr] == Read(s.heap, target) + s.Reads(g.child) + s.heap[target.arr][target.len..];
  }

  /** Until its own merge a type keeps the slice it was loaded with. */
  lemma UntouchedBefore<T>(run: seq<Memory<T>>, gs: seq<Merge>, pad: seq<T>, k: nat)
    requires PadRun(run, gs, pad) && InOrder(gs) && k < |gs| && run[0].Sound() && gs[k].child in run[0].slices
    ensures gs[k].child in run[k].slices && run[k].slices[gs[k].child] == run[0].slices[gs[k].child]
  {
    PadRunIsRun(run, gs, pad);
    var before, init := run[..k + 1], gs[..k];
    forall i | 0 <= i < k ensures Merges(before[i], init[i], before[i + 1]) {
      assert Merges(run[i], gs[i], run[i + 1]);
    }
    assert gs[k].child !in Children(init);
    RootStays(before, init, gs[k].child);
  }

  /** Rules with which three merges clash: the child of m and that of i have [x], that of j has [y], and
      all others have none. */
  ghost predicate Planned<T>(s: Memory<T>, gs: seq<Merge>, x: T, y: T, m: nat, i: nat, j: nat) {
    && Tight(s) && (forall g :: g in gs ==> g.child in s.slices && g.parent in s.slices)
    && forall k :: 0 <= k < |gs| ==> PlannedAt(s, gs, x, y, m, i, j, k)
  }

  ghost predicate PlannedAt<T>(s: Memory<T>, gs: seq<Merge>, x: T, y: T, m: nat, i: nat, j: nat, k: nat)
    requires s.Sound() && k < |gs|
  {
    gs[k].child in s.slices && s.Reads(gs[k].child) == if k == m || k == i then [x] else if k == j then [y] else []
  }

  lemma PlannedQuiet<T>(s: Memory<T>, gs: seq<Merge>, x: T, y: T, m: nat, i: nat, j: nat, lo: nat, hi: nat)
    requires Planned(s, gs, x, y, m, i, j) && hi <= |gs|
    requires !(lo <= m < hi) && !(lo <= i < hi) && !(lo <= j < hi)
    ensures forall k :: lo <= k < hi ==> gs[k].child in s.slices && s.slices[gs[k].child].len == 0
  {
    forall k | lo <= k < hi ensures gs[k].child in s.slices && s.slices[gs[k].child].len == 0 {
      assert PlannedAt(s, gs, x, y, m, i, j, k);
      assert s.Reads(gs[k].child) == [];
    }
  }

  /** Type p has one place to spare, with x in it, and the arrays of h are as they were. */
  ghost predicate Roomy<T>(s: Memory<T>, h: Heap<T>, p: string, x: T) {
    && s.Sound() && p in s.slices && Spare(s.heap, s.slices[p]) == 1 && s.heap[s.slices[p].arr][s.slices[p].len] == x
    && |h| <= |s.heap| && s.heap[..|h|] == h
  }

  lemma RoomAfter<T>(run: seq<Memory<T>>, gs: seq<Merge>, x: T, y: T, m: nat, i: nat, j: nat)
    requires PadRun(run, gs, [x]) && InOrder(gs) && m < i < j < |gs| && Planned(run[0], gs, x, y, m, i, j)
    ensures Roomy(run[m + 1], run[0].heap, gs[m].child, x)
  {
    PlannedQuiet(run[0], gs, x, y, m, i, j, 0, m);
    QuietRun(run, gs, [x], 0, m);
    assert PlannedAt(run[0], gs, x, y, m, i, j, m);
    UntouchedBefore(run, gs, [x], m);
    assert PadAt(run, gs, [x], m);
    ReadsAsLoaded(run[m], run[0], gs[m].child);
    NewArray(run[m], gs[m], x);
  }

  lemma RoomUsed<T>(run: seq<Memory<T>>, gs: seq<Merge>, x: T, y: T, m: nat, i: nat, j: nat)
    requires PadRun(run, gs, [x]) && InOrder(gs) && m < i < j < |gs| && Planned(run[0], gs, x, y, m, i, j)
    requires gs[i].parent == gs[m].child && Roomy(run[m + 1], run[0].heap, gs[m].child, x)
    ensures Roomy(run[i + 1], run[0].heap, gs[m].child, x) && gs[i].child in run[i + 1].slices
    ensures var target := run[i + 1].slices[gs[m].child]; run[i + 1].slices[gs[i].child] == Slice(target.arr, target.len + 1)
  {
    PlannedQuiet(run[0], gs, x, y, m, i, j, m + 1, i);
    QuietRun(run, gs, [x], m + 1, i);
    assert PlannedAt(run[0], gs, x, y, m, i, j, i);
    UntouchedBefore(run, gs, [x], i);
    assert PadAt(run, gs, [x], i);
    ReadsAsLoaded(run[i], run[0], gs[i].child);
    IntoSpare(run[i], gs[i], x);
  }

  lemma ReadsAsLoaded<T>(s: Memory<T>, start: Memory<T>, n: string)
    requires s.Sound() && start.Sound() && n in s.slices && n in start.slices && s.slices[n] == start.slices[n]
    requires |start.heap| <= |s.heap| && s.heap[..|start.heap|] == start.heap
    ensures s.Reads(n) == start.Reads(n)
  {
    assert s.heap[s.slices[n].arr] == s.heap[..|start.heap|][s.slices[n].arr];
  }

  /** The merge of p at m puts it on a new array with one place to spare; of two types that extend it
      the second, at j, writes there what the first, at i, does not have. */
  lemma BranchOverwrites<T>(run: seq<Memory<T>>, gs: seq<Merge>, x: T, y: T, m: nat, i: nat, j: nat)
    requires PadRun(run, gs, [x]) && InOrder(gs) && m < i < j < |gs| && Planned(run[0], gs, x, y, m, i, j) && x != y
    requires gs[i].parent == gs[m].child && gs[j].parent == gs[m].child
    ensures Overwrites(run[j], gs[j])
  {
    RoomAfter(run, gs, x, y, m, i, j);
    RoomUsed(run, gs, x, y, m, i, j);
    PlannedQuiet(run[0], gs, x, y, m, i, j, i + 1, j);
    QuietRun(run, gs, [x], i + 1, j);
    assert PlannedAt(run[0], gs, x, y, m, i, j, j);
    UntouchedBefore(run, gs, [x], j);
    assert PadAt(run, gs, [x], j);
    assert StillToMerge(gs, gs[m].child, i + 1, j) && StillToMerge(gs, gs[i].child, i + 1, j);
    ReadsAsLoaded(run[j], run[0], gs[j].child);
    assert OverwritesAt(run[j], gs[j], gs[i].child, run[j].slices[gs[m].child].len);
  }

  lemma NewArray<T>(s: Memory<T>, g: Merge, x: T)
    requires s.Sound() && g.child in s.slices && g.parent in s.slices && s.Reads(g.child) == [x] && Spare(s.heap, s.slices[g.parent]) == 0
    ensures var t := MergeOn(s, g, [x]);
      && t.Sound() && t.slices.Keys == s.slices.Keys && |t.heap| == |s.heap| + 1 && t.heap[..|s.heap|] == s.heap
      && Spare(t.heap, t.slices[g.child]) == 1 && t.heap[t.slices[g.child].arr][t.slices[g.child].len] == x
      && t.slices[g.child].arr == |s.heap|
  {
    MergeOnMerges(s, g, [x]);
  }

  lemma IntoSpare<T>(s: Memory<T>, g: Merge, x: T)
    requires s.Sound() && g.child in s.slices && g.parent in s.slices && s.Reads(g.child) == [x]
    requires var target := s.slices[g.parent]; Spare(s.heap, target) == 1 && s.heap[target.arr][target.len] == x
    ensures var target := s.slices[g.parent];
      MergeOn(s, g, [x]) == Memory(s.heap, s.slices[g.child := Slice(target.arr, target.len + 1)])
  {
    var target := s.slices[g.parent];
    assert s.heap[target.arr] == Read(s.heap, target) + [x] + s.heap[target.arr][target.len + 1..];
  }

  function Involved(gs: seq<Merge>): set<string> { Children(gs) + Extended(gs) }

  lemma Listed(names: set<string>) returns (list: seq<string>)
    ensures (forall n :: n in list <==> n in names) && forall i, j :: 0 <= i < j < |list| ==> list[i] != list[j]
  {
    list := [];
    if names != {} {
      var n :| n in names;
      var rest := Listed(names - {n});
      list := rest + [n];
    }
  }

  /** When a type that extends another is extended by two, some rules and some growth of the arrays
      lead to an append that overwrites. */
  lemma OtherBranchesOverwrite<T>(gs: seq<Merge>, x: T, y: T) returns (run: seq<Memory<T>>)
    requires InOrder(gs) && !BranchesAtRoots(gs) && x != y
    ensures IsRun(run, gs) && AsDecoded(run[0], gs) && !NoneOverwrites(run, gs)
  {
    var i, j :| 0 <= i < j < |gs| && gs[i].parent == gs[j].parent && gs[i].parent in Children(gs);
    var g :| g in gs && g.child == gs[i].parent;
    var m :| 0 <= m < |gs| && gs[m] == g;
    assert m < i;
    var names := Listed(Involved(gs));
    var rules := PlannedRules(gs, x, y, m, i, j);
    var s := Decoded(names, rules);
    DecodedIsLoaded(names, rules);
    run := SomeRun(s, gs, [x]);
    PadRunIsRun(run, gs, [x]);
    forall k | 0 <= k < |gs| ensures PlannedAt(s, gs, x, y, m, i, j, k) {
      assert gs[k] in gs && gs[k].child in names;
      OtherChild(gs, m, i, j, k);
    }
    BranchOverwrites(run, gs, x, y, m, i, j);
  }

  function PlannedRules<T>(gs: seq<Merge>, x: T, y: T, m: nat, i: nat, j: nat): map<string, seq<T>>
    requires m < |gs| && i < |gs| && j < |gs|
  {
    map n | n in Involved(gs) ::
      if n == gs[m].child || n == gs[i].child then [x] else if n == gs[j].child then [y] else []
  }

  lemma OtherChild(gs: seq<Merge>, m: nat, i: nat, j: nat, k: nat)
    requires InOrder(gs) && m < |gs| && i < |gs| && j < |gs| && k < |gs|
    ensures gs[k].child == gs[m].child <==> k == m
    ensures gs[k].child == gs[i].child <==> k == i
    ensures gs[k].child == gs[j].child <==> k == j
  {
  }

  /** The types of gs as decoding leaves them. */
  ghost predicate AsDecoded<T>(s: Memory<T>, gs: seq<Merge>) {
    Separate(s) && Tight(s) && forall g :: g in gs ==> g.child in s.slices && g.parent in s.slices
  }

  /** Whatever rules are loaded and whatever capacities appends reserve, all slices end up as they should. */
  ghost predicate AlwaysReads<T(!new)>(gs: seq<Merge>) {
    forall run: seq<Memory<T>> :: IsRun(run, gs) && AsDecoded(run[0], gs) ==> AllRead(run[|gs|], WantedAfter(AsLoaded(run[0]), gs))
  }

  /** Inheritance is safe for all rules and all growths of arrays if and only if the types that are
      extended by several types extend nothing themselves. */
  lemma AlwaysReadsExactly<T(!new)>(gs: seq<Merge>, x: T, y: T)
    requires InOrder(gs) && x != y
    ensures AlwaysReads<T>(gs) <==> BranchesAtRoots(gs)
  {
    if BranchesAtRoots(gs) {
      forall run: seq<Memory<T>> | IsRun(run, gs) && AsDecoded(run[0], gs)
        ensures AllRead(run[|gs|], WantedAfter(AsLoaded(run[0]), gs))
      {
        RootBranchesRead(run, gs);
      }
    } else {
      var run := OtherBranchesOverwrite(gs, x, y);
      AllReadExactly(run, gs);
      assert IsRun(run, gs) && AsDecoded(run[0], gs);
    }
  }
}
