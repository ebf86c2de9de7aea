/** The text functions the device parsers use (packages strings and regexp of the Go library), over
    characters. Case mapping is that of ASCII letters. */
module Text {

  /** unicode.IsSpace */
  predicate IsSpace(c: char) {
    c in "\t\n \r" || c == '\U{0B}' || c == '\U{0C}' || c == '\U{85}' || c == '\U{A0}' || c == '\U{1680}'
    || '\U{2000}' <= c <= '\U{200A}' || c == '\U{2028}' || c == '\U{2029}' || c == '\U{202F}' || c == '\U{205F}' || c == '\U{3000}'
  }

  function TrimLeft(s: string): string {
    if s != "" && IsSpace(s[0]) then TrimLeft(s[1..]) else s
  }

  function TrimRight(s: string): string {
    if s != "" && IsSpace(s[|s| - 1]) then TrimRight(s[..|s| - 1]) else s
  }

  /** strings.TrimSpace */
  function Trim(s: string): string { TrimRight(TrimLeft(s)) }

  /** Neither the first nor the last character is a space. */
  predicate Trimmed(s: string) {
    s != "" ==> !IsSpace(s[0]) && !IsSpace(s[|s| - 1])
  }

  function Blank(n: nat): string { seq(n, _ => ' ') }

  lemma {:induction false} TrimLeftBlank(n: nat, s: string)
    requires Trimmed(s) && s != ""
    ensures TrimLeft(Blank(n) + s) == s
  {
    if n == 0 {
      assert Blank(0) + s == s;
    } else {
      assert (Blank(n) + s)[1..] == Blank(n - 1) + s;
      TrimLeftBlank(n - 1, s);
    }
  }

  lemma {:induction false} TrimRightBlank(s: string, n: nat)
    requires Trimmed(s) && s != ""
    ensures TrimRight(s + Blank(n)) == s
  {
    if n == 0 {
      assert s + Blank(0) == s;
    } else {
      assert (s + Blank(n))[..|s + Blank(n)| - 1] == s + Blank(n - 1);
      TrimRightBlank(s, n - 1);
    }
  }

  lemma {:induction false} TrimBlank(n: nat)
    ensures Trim(Blank(n)) == ""
  {
    if n > 0 {
      assert Blank(n)[1..] == Blank(n - 1);
      TrimBlank(n - 1);
    }
  }

  /** Blanks around a text are trimmed, and nothing else. */
  lemma TrimPadded(n: nat, s: string, m: nat)
    requires Trimmed(s)
    ensures Trim(Blank(n) + s + Blank(m)) == s
  {
    if s == "" {
      assert Blank(n) + s + Blank(m) == Blank(n + m);
      TrimBlank(n + m);
    } else {
      TrimRightBlank(s, m);
      var t := s + Blank(m);
      assert Blank(n) + s + Blank(m) == Blank(n) + t;
      LeftOnly(n, s, t);
    }
  }

  lemma {:induction false} LeftOnly(n: nat, s: string, t: string)
    requires s != "" && !IsSpace(s[0]) && s <= t
    ensures TrimLeft(Blank(n) + t) == t
  {
    if n == 0 {
      assert Blank(0) + t == t;
    } else {
      assert (Blank(n) + t)[1..] == Blank(n - 1) + t;
      LeftOnly(n - 1, s, t);
    }
  }

  lemma TrimmedAround(a: string, mid: string, b: string)
    requires a != "" && b != "" && Trimmed(a) && Trimmed(b)
    ensures Trimmed(a + mid + b) && (a + mid + b)[0] == a[0]
  {
    var s := a + mid + b;
    assert s[|s| - 1] == b[|b| - 1];
  }

  lemma BlankOneLine(n: nat)
    ensures '\n' !in Blank(n)
  {
  }

  lemma TrimTrimmed(s: string)
    requires Trimmed(s)
    ensures Trim(s) == s
  {
    TrimPadded(0, s, 0);
    assert Blank(0) + s + Blank(0) == s;
  }

  // ---------------------------------------------------------------- searching

  /** strings.Index */
  function IndexOf(s: string, sub: string): (r: int)
    ensures -1 <= r && (r >= 0 ==> r + |sub| <= |s|)
  {
    if sub <= s then 0
    else if s == "" then -1
    else var i := IndexOf(s[1..], sub); if i < 0 then -1 else i + 1
  }

  predicate Contains(s: string, sub: string) { IndexOf(s, sub) >= 0 }

  /** The index found is that of the first occurrence. */
  lemma {:induction false} IndexOfFirst(s: string, sub: string, i: nat)
    requires i <= |s| && sub <= s[i..] && forall j :: 0 <= j < i ==> !(sub <= s[j..])
    ensures IndexOf(s, sub) == i
  {
    if i > 0 {
      assert s[0..] == s;
      forall j | 0 <= j < i - 1 ensures !(sub <= s[1..][j..]) {
        assert s[1..][j..] == s[j + 1..];
      }
      assert s[1..][i - 1..] == s[i..];
      IndexOfFirst(s[1..], sub, i - 1);
    }
  }

  lemma {:induction false} IndexOfNone(s: string, sub: string)
    requires forall j :: 0 <= j <= |s| ==> !(sub <= s[j..])
    ensures IndexOf(s, sub) == -1
  {
    assert s[0..] == s;
    if s != "" {
      forall j | 0 <= j <= |s[1..]| ensures !(sub <= s[1..][j..]) {
        assert s[1..][j..] == s[j + 1..];
      }
      IndexOfNone(s[1..], sub);
    }
  }

  /** The first occurrence of a character. */
  lemma IndexOfChar(a: string, c: char, b: string)
    requires c !in a
    ensures IndexOf(a + [c] + b, [c]) == |a|
  {
    var s := a + [c] + b;
    assert s[|a|..] == [c] + b;
    forall j | 0 <= j < |a| ensures !([c] <= s[j..]) {
      assert s[j..][0] == a[j];
    }
    IndexOfFirst(s, [c], |a|);
  }

  lemma OccursAt(s: string, sub: string, j: nat, k: nat)
    requires j <= |s| && k < |sub|
    ensures sub <= s[j..] ==> j + k < |s| && s[j + k] == sub[k] && s[j + k] in s
  {
    if sub <= s[j..] {
      assert s[j..][k] == sub[k];
    }
  }

  lemma NotBefore(a: string, sub: string, b: string, j: nat)
    requires sub != "" && sub[|sub| - 1] !in a && sub[|sub| - 1] !in sub[..|sub| - 1] && j < |a|
    ensures (a + sub + b)[j + |sub| - 1] != sub[|sub| - 1]
  {
    var i := j + |sub| - 1;
    if i < |a| {
      assert a[i] in a;
    } else {
      assert sub[..|sub| - 1][i - |a|] in sub[..|sub| - 1];
    }
  }

  /** A text without one of its characters does not contain a pattern. */
  lemma NotWithout(s: string, sub: string, k: nat)
    requires k < |sub| && sub[k] !in s
    ensures IndexOf(s, sub) == -1
  {
    forall j | 0 <= j <= |s| ensures !(sub <= s[j..]) {
      OccursAt(s, sub, j, k);
    }
    IndexOfNone(s, sub);
  }

  /** The first occurrence of a pattern whose last character does not occur before. */
  lemma IndexOfLast(a: string, sub: string, b: string)
    requires sub != "" && sub[|sub| - 1] !in a && sub[|sub| - 1] !in sub[..|sub| - 1]
    ensures IndexOf(a + sub + b, sub) == |a|
  {
    var s := a + sub + b;
    var m := |sub| - 1;
    assert s[|a|..] == sub + b;
    forall j | 0 <= j < |a| ensures !(sub <= s[j..]) {
      NotBefore(a, sub, b, j);
      OccursAt(s, sub, j, m);
    }
    IndexOfFirst(s, sub, |a|);
  }

  // ---------------------------------------------------------------- letters

  function UpperChar(c: char): char {
    if 'a' <= c <= 'z' then c - 'a' + 'A' else c
  }

  function LowerChar(c: char): char {
    if 'A' <= c <= 'Z' then c - 'A' + 'a' else c
  }

  function Upper(s: string): string { seq(|s|, i requires 0 <= i < |s| => UpperChar(s[i])) }

  function Lower(s: string): string { seq(|s|, i requires 0 <= i < |s| => LowerChar(s[i])) }

  // ---------------------------------------------------------------- splitting

  /** strings.Split at a single character. */
  function Split(s: string, c: char): seq<string> {
    if s == "" then [""]
    else
      var rest := Split(s[1..], c);
      if s[0] == c then [""] + rest else [[s[0]] + rest[0]] + rest[1..]
  }

  function JoinLines(lines: seq<string>): string
    requires lines != []
  {
    if |lines| == 1 then lines[0] else lines[0] + "\n" + JoinLines(lines[1..])
  }

  lemma {:induction false} SplitLast(s: string, c: char)
    requires c !in s
    ensures Split(s, c) == [s]
  {
    if s != "" {
      SplitLast(s[1..], c);
      assert [s[0]] + s[1..] == s;
    }
  }

  lemma {:induction false} SplitFirst(a: string, c: char, b: string)
    requires c !in a
    ensures Split(a + [c] + b, c) == [a] + Split(b, c)
  {
    var s := a + [c] + b;
    if a == "" {
      assert s[1..] == b;
    } else {
      assert s[1..] == a[1..] + [c] + b;
      SplitFirst(a[1..], c, b);
      assert [a[0]] + a[1..] == a;
    }
  }

  /** Splitting undoes joining. */
  lemma {:induction false} SplitJoin(lines: seq<string>)
    requires lines != [] && forall l :: l in lines ==> '\n' !in l
    ensures Split(JoinLines(lines), '\n') == lines
  {
    assert lines[0] in lines;
    if |lines| == 1 {
      SplitLast(lines[0], '\n');
    } else {
      SplitJoin(lines[1..]);
      SplitFirst(lines[0], '\n', JoinLines(lines[1..]));
    }
  }

  /** The length of the run of blanks at the start. */
  function Run(s: string): nat {
    if s != "" && s[0] == ' ' then 1 + Run(s[1..]) else 0
  }

  lemma {:induction false} RunInside(s: string)
    ensures Run(s) <= |s|
  {
    if s != "" { RunInside(s[1..]); }
  }

  /** Splitting at runs of three or more blanks; `part` is what has been read of the present part. */
  function Chunks(s: string, part: string): seq<string>
    decreases |s|
  {
    if s == "" then [part]
    else if Run(s) >= 3 then RunInside(s); [part] + Chunks(s[Run(s)..], "")
    else Chunks(s[1..], part + [s[0]])
  }

  /** No three blanks in a row. */
  predicate NoRuns(s: string) {
    forall i :: 0 <= i < |s| - 2 ==> !(s[i] == ' ' && s[i + 1] == ' ' && s[i + 2] == ' ')
  }

  lemma ShortRun(s: string, t: string)
    requires s != "" && NoRuns(s) && s[|s| - 1] != ' '
    ensures Run(s + t) < 3
  {
    var u := s + t;
    LongRun(u);
    assert u[0] == s[0];
    assert |s| > 1 ==> u[1] == s[1];
    assert |s| > 2 ==> u[2] == s[2];
  }

  lemma LongRun(u: string)
    ensures Run(u) >= 3 ==> |u| >= 3 && u[0] == ' ' && u[1] == ' ' && u[2] == ' '
  {
    if u != "" && u[1..] != "" && u[1..][1..] != "" {
      assert u[1..][0] == u[1] && u[1..][1..][0] == u[2];
    }
  }

  lemma {:induction false} RunOfBlank(n: nat, t: string)
    requires t == "" || t[0] != ' '
    ensures Run(Blank(n) + t) == n && (Blank(n) + t)[n..] == t
  {
    if n == 0 {
      assert Blank(0) + t == t;
    } else {
      assert (Blank(n) + t)[1..] == Blank(n - 1) + t;
      RunOfBlank(n - 1, t);
    }
  }

  /** A text without long runs that does not end in a blank is one part; a long run ends it. */
  lemma {:induction false} ChunkOff(s: string, n: nat, t: string, part: string)
    requires NoRuns(s) && (s != "" ==> s[|s| - 1] != ' ')
    requires n >= 3 && (t == "" || t[0] != ' ')
    ensures Chunks(s + Blank(n) + t, part) == [part + s] + Chunks(t, "")
    decreases |s|
  {
    var all := s + Blank(n) + t;
    if s == "" {
      assert all == Blank(n) + t;
      RunOfBlank(n, t);
      assert part + s == part;
    } else {
      assert all == s + (Blank(n) + t);
      ShortRun(s, Blank(n) + t);
      assert all[1..] == s[1..] + Blank(n) + t;
      SuffixNoRuns(s);
      ChunkOff(s[1..], n, t, part + [s[0]]);
      assert part + [s[0]] + s[1..] == part + s;
    }
  }

  /** A part of a line: not empty, without long runs, not ending in a blank. */
  predicate Solid(s: string) {
    s != "" && NoRuns(s) && s[|s| - 1] != ' '
  }

  lemma FirstChunk(s: string, n: nat, t: string)
    requires Solid(s)
    requires n >= 3 && t != "" && t[0] != ' '
    ensures Chunks(s + Blank(n) + t, "") == [s] + Chunks(t, "")
  {
    ChunkOff(s, n, t, "");
    assert "" + s == s;
  }

  lemma {:induction false} ChunkWhole(s: string, part: string)
    requires NoRuns(s) && (s != "" ==> s[|s| - 1] != ' ')
    ensures Chunks(s, part) == [part + s]
    decreases |s|
  {
    if s == "" {
      assert part + s == part;
    } else {
      assert s + "" == s;
      ShortRun(s, "");
      SuffixNoRuns(s);
      ChunkWhole(s[1..], part + [s[0]]);
      assert part + [s[0]] + s[1..] == part + s;
    }
  }

  lemma SuffixNoRuns(s: string)
    requires s != "" && NoRuns(s)
    ensures NoRuns(s[1..])
  {
    forall i | 0 <= i < |s[1..]| - 2 ensures !(s[1..][i] == ' ' && s[1..][i + 1] == ' ' && s[1..][i + 2] == ' ') {
      assert s[1..][i] == s[i + 1] && s[1..][i + 1] == s[i + 2] && s[1..][i + 2] == s[i + 3];
    }
  }
}
