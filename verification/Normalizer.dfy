/** The normalizer (internal/normalizer/normalizer.go): field mapping, value replacement, defaults,
    validation (internal/schema/validator.go) and URI generation (pkg/utils/uri.go). */
module Normalizer {
  import opened Common
  import opened GraphModel
  import opened Schema

  // ---------------------------------------------------------------- field mapping

  /** One turn of the loop: moves the value of `src` to its target, in place. */
  function RenameOne(m: map<string, string>, props: Props, src: string): Props
    requires src in m
  {
    if src in props then props[m[src] := props[src]] - {src} else props
  }

  /** The loop when the map is iterated in the given order. */
  function RenameIn(m: map<string, string>, order: seq<string>, props: Props): Props
    requires forall s :: s in order ==> s in m
  {
    if order == [] then props
    else
      var last := |order| - 1;
      assert forall s :: s in order[..last] ==> s in order;
      RenameOne(m, RenameIn(m, order[..last], props), order[last])
  }

  /** All renamings at once; the value of a source wins over what its target held. */
  ghost function Renamed(m: map<string, string>, props: Props): Props {
    (map k | k in props && k !in m :: props[k]) + Arriving(m, props)
  }

  ghost function Arriving(m: map<string, string>, props: Props): Props {
    var targets := set s | s in m && s in props :: m[s];
    map t | t in targets :: var s :| s in m && s in props && m[s] == t; props[s]
  }

  ghost predicate Enumerates(order: seq<string>, m: map<string, string>) {
    NoRepeats(order) && Elements(order) == m.Keys
  }

  /** No target is a source, and no two sources share a target. */
  ghost predicate CleanMapping(m: map<string, string>) {
    && (forall s :: s in m ==> m[s] !in m)
    && (forall s, t :: s in m && t in m && s != t ==> m[s] != m[t])
  }

  /** The value at k when the sources in `done` have been moved. */
  ghost function RenamedAt(m: map<string, string>, done: set<string>, props: Props, k: string): Option<Value> {
    if k in done then None
    else if exists s :: s in done && s in m && m[s] == k && s in props then
      var s :| s in done && s in m && m[s] == k && s in props; Some(props[s])
    else Lookup(props, k)
  }

  function Lookup(props: Props, k: string): Option<Value> {
    if k in props then Some(props[k]) else None
  }

  lemma SameProps(p: Props, q: Props)
    requires forall k :: Lookup(p, k) == Lookup(q, k)
    ensures p == q
  {
    forall k ensures k in p <==> k in q
      ensures k in p ==> p[k] == q[k]
    {
      assert Lookup(p, k) == Lookup(q, k);
    }
  }

  /** Moving one more source, at key k. */
  lemma RenameOneAt(m: map<string, string>, done: set<string>, src: string, props: Props, p: Props, k: string)
    requires CleanMapping(m) && done <= m.Keys && src in m && src !in done
    requires Lookup(p, k) == RenamedAt(m, done, props, k) && Lookup(p, src) == RenamedAt(m, done, props, src)
    ensures Lookup(RenameOne(m, p, src), k) == RenamedAt(m, done + {src}, props, k)
  {
    assert Lookup(p, src) == Lookup(props, src);
  }

  lemma {:induction false} RenameInAt(m: map<string, string>, order: seq<string>, props: Props, k: string)
    requires CleanMapping(m) && NoRepeats(order) && Elements(order) <= m.Keys
    ensures Lookup(RenameIn(m, order, props), k) == RenamedAt(m, Elements(order), props, k)
    decreases |order|
  {
    if order != [] {
      var last := |order| - 1;
      var before, src := order[..last], order[last];
      assert order == before + [src];
      assert Elements(order) == Elements(before) + {src};
      RenameInAt(m, before, props, k);
      RenameInAt(m, before, props, src);
      RenameOneAt(m, Elements(before), src, props, RenameIn(m, before, props), k);
    }
  }

  lemma RenamedIsAt(m: map<string, string>, props: Props, k: string)
    requires CleanMapping(m)
    ensures Lookup(Renamed(m, props), k) == RenamedAt(m, m.Keys, props, k)
  {
    if k in m {
      assert k !in Arriving(m, props);
    }
  }

  /** For a clean mapping the loop gives the same properties in every iteration order. */
  lemma CleanIsSimultaneous(m: map<string, string>, order: seq<string>, props: Props)
    requires CleanMapping(m) && Enumerates(order, m)
    ensures RenameIn(m, order, props) == Renamed(m, props)
  {
    forall k ensures Lookup(RenameIn(m, order, props), k) == Lookup(Renamed(m, props), k) {
      RenameInAt(m, order, props, k);
      RenamedIsAt(m, props, k);
    }
    SameProps(RenameIn(m, order, props), Renamed(m, props));
  }

  lemma {:induction false} AnyOrder(keys: set<string>) returns (order: seq<string>)
    ensures NoRepeats(order) && Elements(order) == keys
    decreases keys
  {
    if keys == {} {
      order := [];
    } else {
      var k :| k in keys;
      var rest := AnyOrder(keys - {k});
      order := rest + [k];
      assert Elements(order) == Elements(rest) + {k};
      assert forall i :: 0 <= i < |rest| ==> rest[i] in Elements(rest);
    }
  }

  lemma {:induction false} NothingToRename(m: map<string, string>, order: seq<string>, props: Props)
    requires forall s :: s in order ==> s in m && s !in props
    ensures RenameIn(m, order, props) == props
    decreases |order|
  {
    if order != [] {
      assert order[|order| - 1] in order;
      NothingToRename(m, order[..|order| - 1], props);
    }
  }

  lemma RenameLast(m: map<string, string>, order: seq<string>, src: string, props: Props)
    requires src in m && forall s :: s in order ==> s in m
    ensures RenameIn(m, order + [src], props) == RenameOne(m, RenameIn(m, order, props), src)
  {
    assert (order + [src])[..|order|] == order;
  }

  ghost predicate AlwaysSimultaneous(m: map<string, string>) {
    forall order, props: Props | Enumerates(order, m) :: RenameIn(m, order, props) == Renamed(m, props)
  }

  lemma OrderEndingAt(m: map<string, string>, s: string, props: Props) returns (order: seq<string>)
    requires s in m && props.Keys <= {s}
    ensures Enumerates(order, m) && RenameIn(m, order, props) == RenameOne(m, props, s)
  {
    var rest := AnyOrder(m.Keys - {s});
    forall i | 0 <= i < |rest| ensures rest[i] in m && rest[i] != s {
      assert rest[i] in Elements(rest);
    }
    NothingToRename(m, rest, props);
    RenameLast(m, rest, s, props);
    order := rest + [s];
    assert Elements(order) == Elements(rest) + {s};
  }

  /** A source that is its own target is dropped. */
  lemma SelfTargetFails(m: map<string, string>, s: string)
    requires s in m && m[s] == s
    ensures !AlwaysSimultaneous(m)
  {
    var props := map[s := Int(1)];
    var order := OrderEndingAt(m, s, props);
    assert s !in RenameOne(m, props, s);
    assert m[s] in (set t | t in m && t in props :: m[t]);
    assert s in Renamed(m, props);
  }

  /** An iteration order that moves s and then t at the very end. */
  lemma OrderEnding(m: map<string, string>, s: string, t: string, props: Props) returns (order: seq<string>)
    requires s in m && t in m && s != t && props.Keys <= {s, t}
    ensures Enumerates(order, m) && RenameIn(m, order, props) == RenameOne(m, RenameOne(m, props, s), t)
  {
    var rest := AnyOrder(m.Keys - {s, t});
    forall i | 0 <= i < |rest| ensures rest[i] in m && rest[i] != s && rest[i] != t {
      assert rest[i] in Elements(rest);
    }
    NothingToRename(m, rest, props);
    RenameLast(m, rest, s, props);
    RenameLast(m, rest + [s], t, props);
    order := rest + [s] + [t];
    assert Elements(order) == Elements(rest) + {s, t};
  }

  /** Two sources whose outcome depends on which is moved last. */
  lemma LastTwo(m: map<string, string>, s: string, t: string, props: Props)
    requires s in m && t in m && s != t && props.Keys <= {s, t}
    requires RenameOne(m, RenameOne(m, props, s), t) != RenameOne(m, RenameOne(m, props, t), s)
    ensures !AlwaysSimultaneous(m)
  {
    var one := OrderEnding(m, s, t, props);
    var two := OrderEnding(m, t, s, props);
    assert RenameIn(m, one, props) != RenameIn(m, two, props);
  }

  /** The in-place loop is simultaneous renaming, for all properties and iteration orders, exactly
      for clean mappings. */
  lemma SimultaneousExactly(m: map<string, string>)
    ensures AlwaysSimultaneous(m) <==> CleanMapping(m)
  {
    if CleanMapping(m) {
      forall order, props: Props | Enumerates(order, m) ensures RenameIn(m, order, props) == Renamed(m, props) {
        CleanIsSimultaneous(m, order, props);
      }
    } else if s :| s in m && m[s] in m {
      var t := m[s];
      if t == s {
        SelfTargetFails(m, s);
      } else {
        var props := map[s := Int(1)];
        assert RenameOne(m, RenameOne(m, props, t), s) == map[t := Int(1)];
        var through := RenameOne(m, RenameOne(m, props, s), t);
        assert t !in through;
        LastTwo(m, s, t, props);
      }
    } else {
      var s, t :| s in m && t in m && s != t && m[s] == m[t];
      var props := map[s := Int(1), t := Int(2)];
      var st, ts := RenameOne(m, RenameOne(m, props, s), t), RenameOne(m, RenameOne(m, props, t), s);
      assert st[m[s]] == Int(2) && ts[m[s]] == Int(1);
      LastTwo(m, s, t, props);
    }
  }

  /** The loop itself, over a map iterated in no particular order. */
  method ApplyFieldMapping(m: map<string, string>, props: Props) returns (r: Props)
    ensures exists order :: Enumerates(order, m) && r == RenameIn(m, order, props)
    ensures CleanMapping(m) ==> r == Renamed(m, props)
  {
    r := props;
    ghost var order: seq<string> := [];
    var todo := m.Keys;
    while todo != {}
      invariant todo <= m.Keys && NoRepeats(order) && Elements(order) == m.Keys - todo
      invariant forall s :: s in order ==> s in m
      invariant r == RenameIn(m, order, props)
    {
      var src :| src in todo;
      todo := todo - {src};
      assert src !in order by { assert src !in Elements(order); }
      RenameLast(m, order, src, props);
      assert Elements(order + [src]) == Elements(order) + {src};
      order := order + [src];
      if src in r {
        r := r[m[src] := r[src]];
        r := r - {src};
      }
    }
    assert Enumerates(order, m);
    if CleanMapping(m) {
      CleanIsSimultaneous(m, order, props);
    }
  }

  // ---------------------------------------------------------------- value replacement

  function Between(s: string, repl: string): string {
    if s == "" then repl else repl + [s[0]] + Between(s[1..], repl)
  }

  /** strings.ReplaceAll: leftmost matches, not overlapping; an empty pattern matches around
      every character. */
  function ReplaceAll(s: string, pattern: string, repl: string): string
    decreases |s|
  {
    if pattern == "" then Between(s, repl)
    else if |s| < |pattern| then s
    else if pattern <= s then repl + ReplaceAll(s[|pattern|..], pattern, repl)
    else [s[0]] + ReplaceAll(s[1..], pattern, repl)
  }

  /** The pieces with the separator between them. */
  function JoinBy(pieces: seq<string>, sep: string): string {
    if pieces == [] then ""
    else if |pieces| == 1 then pieces[0]
    else pieces[0] + sep + JoinBy(pieces[1..], sep)
  }

  /** The pattern stands at position i of s. */
  predicate StandsAt(s: string, pattern: string, i: int) {
    0 <= i && i + |pattern| <= |s| && s[i..i + |pattern|] == pattern
  }

  /** Between two pieces the pattern stands for the first time right behind the first one; it does not
      stand in the last one. */
  ghost predicate Leftmost(pieces: seq<string>, pattern: string) {
    forall n :: 0 <= n < |pieces| ==> CleanPiece(pieces, pattern, n)
  }

  ghost predicate CleanPiece(pieces: seq<string>, pattern: string, n: nat)
    requires n < |pieces|
  {
    if n < |pieces| - 1 then forall i :: 0 <= i < |pieces[n]| ==> !StandsAt(pieces[n] + pattern, pattern, i)
    else forall i :: !StandsAt(pieces[n], pattern, i)
  }

  lemma JoinHead(head: string, pieces: seq<string>, sep: string)
    requires pieces != []
    ensures JoinBy([head] + pieces, sep) == head + sep + JoinBy(pieces, sep)
  {
    assert ([head] + pieces)[1..] == pieces;
  }

  lemma JoinLonger(head: string, pieces: seq<string>, sep: string)
    requires pieces != []
    ensures JoinBy([head + pieces[0]] + pieces[1..], sep) == head + JoinBy(pieces, sep)
  {
    var longer := [head + pieces[0]] + pieces[1..];
    assert longer[1..] == pieces[1..];
    if |pieces| > 1 {
      assert (head + pieces[0]) + sep + JoinBy(pieces[1..], sep) == head + (pieces[0] + sep + JoinBy(pieces[1..], sep));
    }
  }

  lemma CutAtStart(pattern: string, rest: seq<string>)
    requires rest != [] && Leftmost(rest, pattern)
    ensures Leftmost([""] + rest, pattern)
  {
    var pieces := [""] + rest;
    forall n | 0 <= n < |pieces| ensures CleanPiece(pieces, pattern, n) {
      if n > 0 { OneLater("", rest, pattern, n - 1); }
    }
  }

  lemma OneLater(head: string, rest: seq<string>, pattern: string, n: nat)
    requires n < |rest| && CleanPiece(rest, pattern, n)
    ensures CleanPiece([head] + rest, pattern, n + 1)
  {
    assert ([head] + rest)[n + 1] == rest[n];
  }

  lemma ShortIsWhole(s: string, pattern: string, repl: string)
    requires |s| < |pattern|
    ensures Leftmost([s], pattern) && s == JoinBy([s], pattern) && ReplaceAll(s, pattern, repl) == JoinBy([s], repl)
  {
    assert CleanPiece([s], pattern, 0);
  }

  /** Replacing cuts the text at the leftmost occurrences of the pattern, which do not overlap, and joins
      the pieces with the replacement. */
  lemma {:induction false} ReplaceAllPieces(s: string, pattern: string, repl: string) returns (pieces: seq<string>)
    requires pattern != ""
    ensures pieces != [] && Leftmost(pieces, pattern)
    ensures s == JoinBy(pieces, pattern) && ReplaceAll(s, pattern, repl) == JoinBy(pieces, repl)
    decreases |s|
  {
    if |s| < |pattern| {
      pieces := [s];
      ShortIsWhole(s, pattern, repl);
    } else if pattern <= s {
      var rest := ReplaceAllPieces(s[|pattern|..], pattern, repl);
      pieces := [""] + rest;
      CutHere(s, pattern, repl, rest);
    } else {
      var rest := ReplaceAllPieces(s[1..], pattern, repl);
      pieces := [s[..1] + rest[0]] + rest[1..];
      OneLonger(s, pattern, rest);
      KeepOne(s, pattern, repl, rest);
    }
  }

  lemma CutHere(s: string, pattern: string, repl: string, rest: seq<string>)
    requires pattern != "" && pattern <= s && rest != [] && Leftmost(rest, pattern)
    requires s[|pattern|..] == JoinBy(rest, pattern) && ReplaceAll(s[|pattern|..], pattern, repl) == JoinBy(rest, repl)
    ensures Leftmost([""] + rest, pattern)
    ensures s == JoinBy([""] + rest, pattern) && ReplaceAll(s, pattern, repl) == JoinBy([""] + rest, repl)
  {
    CutAtStart(pattern, rest);
    JoinEmpty(rest, pattern);
    JoinEmpty(rest, repl);
    assert s == pattern + s[|pattern|..];
  }

  lemma JoinEmpty(pieces: seq<string>, sep: string)
    requires pieces != []
    ensures JoinBy([""] + pieces, sep) == sep + JoinBy(pieces, sep)
  {
    JoinHead("", pieces, sep);
    assert "" + sep == sep;
  }

  lemma KeepOne(s: string, pattern: string, repl: string, rest: seq<string>)
    requires pattern != "" && |pattern| <= |s| && !(pattern <= s) && rest != []
    requires s[1..] == JoinBy(rest, pattern) && ReplaceAll(s[1..], pattern, repl) == JoinBy(rest, repl)
    ensures s == JoinBy([s[..1] + rest[0]] + rest[1..], pattern)
    ensures ReplaceAll(s, pattern, repl) == JoinBy([s[..1] + rest[0]] + rest[1..], repl)
  {
    SkipsChar(s, pattern, repl);
    JoinLonger(s[..1], rest, pattern);
    JoinLonger(s[..1], rest, repl);
    assert s == s[..1] + s[1..] && s[..1] == [s[0]];
  }

  lemma OneLonger(s: string, pattern: string, rest: seq<string>)
    requires s != "" && !(pattern <= s) && rest != [] && Leftmost(rest, pattern) && s[1..] == JoinBy(rest, pattern)
    ensures Leftmost([s[..1] + rest[0]] + rest[1..], pattern)
  {
    var pieces := [s[..1] + rest[0]] + rest[1..];
    forall n | 0 <= n < |pieces| ensures CleanPiece(pieces, pattern, n) {
      assert CleanPiece(rest, pattern, n);
      if n == 0 { LongerHead(s, pattern, rest); }
    }
  }

  lemma LongerHead(s: string, pattern: string, rest: seq<string>)
    requires s != "" && !(pattern <= s) && rest != [] && CleanPiece(rest, pattern, 0) && s[1..] == JoinBy(rest, pattern)
    ensures CleanPiece([s[..1] + rest[0]] + rest[1..], pattern, 0)
  {
    var head := s[..1];
    var piece := head + rest[0];
    if |rest| > 1 {
      assert s == piece + pattern + JoinBy(rest[1..], pattern);
      assert piece + pattern == head + (rest[0] + pattern);
      forall i | 0 <= i < |piece| ensures !StandsAt(piece + pattern, pattern, i) {
        NotAtStart(s, piece + pattern, pattern);
        if i > 0 { ShiftedBack(head, rest[0] + pattern, pattern, i); }
      }
    } else {
      assert s == piece;
      forall i ensures !StandsAt(piece, pattern, i) {
        NotAtStart(s, piece, pattern);
        if i > 0 { ShiftedBack(head, rest[0], pattern, i); }
      }
    }
  }

  lemma NotAtStart(s: string, t: string, pattern: string)
    requires !(pattern <= s) && t <= s
    ensures !StandsAt(t, pattern, 0)
  {
    if |pattern| <= |t| {
      assert t[..|pattern|] == s[..|pattern|];
    }
  }

  lemma ShiftedBack(head: string, t: string, pattern: string, i: int)
    requires |head| == 1 && i > 0
    ensures StandsAt(head + t, pattern, i) ==> StandsAt(t, pattern, i - 1)
  {
    if StandsAt(head + t, pattern, i) {
      assert (head + t)[i..i + |pattern|] == t[i - 1..i - 1 + |pattern|];
    }
  }

  /** An empty pattern stands around every character. */
  lemma {:induction false} ReplaceNothing(s: string, repl: string)
    ensures ReplaceAll(s, "", repl) == JoinBy([""] + seq(|s|, i requires 0 <= i < |s| => [s[i]]) + [""], repl)
  {
    var chars := seq(|s|, i requires 0 <= i < |s| => [s[i]]);
    assert [""] + chars + [""] == [""] + (chars + [""]);
    JoinHead("", chars + [""], repl);
    BetweenJoins(s, repl);
  }

  lemma {:induction false} BetweenJoins(s: string, repl: string)
    ensures Between(s, repl) == repl + JoinBy(seq(|s|, i requires 0 <= i < |s| => [s[i]]) + [""], repl)
  {
    var chars := seq(|s|, i requires 0 <= i < |s| => [s[i]]);
    if s == "" {
      assert chars + [""] == [""];
    } else {
      var rest := seq(|s[1..]|, i requires 0 <= i < |s[1..]| => [s[1..][i]]);
      BetweenJoins(s[1..], repl);
      assert chars + [""] == [[s[0]]] + (rest + [""]);
      JoinHead([s[0]], rest + [""], repl);
    }
  }

  function ApplyRule(props: Props, rule: NormalizeRule): Props {
    if rule.field in props && props[rule.field].Str? then
      props[rule.field := Str(ReplaceAll(props[rule.field].str, rule.pattern, rule.replace))]
    else props
  }

  function ApplyRules(props: Props, rules: seq<NormalizeRule>): Props
    decreases |rules|
  {
    if rules == [] then props else ApplyRules(ApplyRule(props, rules[0]), rules[1..])
  }

  // ---------------------------------------------------------------- defaults and validation

  function ApplyDefaults(et: EntityType, props: Props): Props {
    (map k | k in et.properties && et.properties[k].default != Null :: et.properties[k].default) + props
  }

  /** Fills in the defaults of properties that are not there; what is there stays. */
  method FillDefaults(et: EntityType, props: Props) returns (r: Props)
    ensures forall k :: k in props ==> Lookup(r, k) == Some(props[k])
    ensures forall k :: k !in props && k !in et.properties ==> Lookup(r, k) == None
    ensures forall k :: k !in props && k in et.properties ==> Lookup(r, k) == Shown(et.properties[k].default)
    ensures r == ApplyDefaults(et, props)
  {
    r := props;
    var todo := et.properties.Keys;
    while todo != {}
      invariant todo <= et.properties.Keys
      invariant forall k :: k in props ==> Lookup(r, k) == Some(props[k])
      invariant forall k :: k !in props && (k !in et.properties || k in todo) ==> Lookup(r, k) == None
      invariant forall k :: k !in props && k in et.properties && k !in todo ==> Lookup(r, k) == Shown(et.properties[k].default)
    {
      var name :| name in todo;
      todo := todo - {name};
      assert name !in props ==> Lookup(r, name) == None;
      if name !in r && et.properties[name].default != Null {
        r := r[name := et.properties[name].default];
      }
    }
    SameProps(r, ApplyDefaults(et, props));
  }

  predicate IsEmpty(v: Value) {
    v == Null || v == Str("")
  }

  predicate HasType(v: Value, typ: string) {
    match typ
    case "string" => v.Str?
    case "int" => v.Int? || v.Float?
    case "float" => v.Int? || v.Float?
    case "bool" => v.Bool?
    case _ => true
  }

  predicate Validates(et: EntityType, props: Props) {
    && (forall k :: k in et.properties && et.properties[k].required ==> k in props && !IsEmpty(props[k]))
    && (forall k :: k in et.properties && k in props ==> HasType(props[k], et.properties[k].typ))
    && (forall k :: k in et.properties && et.properties[k].options != [] && k in props ==>
          props[k].Str? && props[k].str in et.properties[k].options)
    && (forall k :: k in et.stableKeys ==> k in props && !IsEmpty(props[k]))
  }

  /** What validation can complain about. */
  datatype Violation = MissingField(field: string) | WrongType(field: string) | NotAnOption(field: string) | EmptyKey(field: string)

  /** A required property is absent, null or the empty string; a property has a value of another type (an
      integer may stand for a float and the other way round, and unknown types accept everything); a
      property with options has a value that is none of them; a stable key is absent, null or empty. */
  predicate Violates(et: EntityType, props: Props, v: Violation) {
    var f := v.field;
    match v
    case MissingField(_) => f in et.properties && et.properties[f].required && (f !in props || props[f] == Null || props[f] == Str(""))
    case WrongType(_) =>
      f in et.properties && f in props &&
      (match et.properties[f].typ
       case "string" => !props[f].Str?
       case "bool" => !props[f].Bool?
       case typ => (typ == "int" || typ == "float") && !props[f].Int? && !props[f].Float?)
    case NotAnOption(_) =>
      f in et.properties && et.properties[f].options != [] && f in props && forall x :: x in et.properties[f].options ==> props[f] != Str(x)
    case EmptyKey(_) => f in et.stableKeys && (f !in props || props[f] == Null || props[f] == Str(""))
  }

  /** All complaints; properties are valid exactly when there is none. */
  method Validate(et: EntityType, props: Props) returns (found: set<Violation>)
    ensures forall v :: v in found <==> Violates(et, props, v)
    ensures found == {} <==> Validates(et, props)
  {
    found := {};
    var todo := et.properties.Keys;
    while todo != {}
      invariant todo <= et.properties.Keys
      invariant forall v :: v in found <==> !v.EmptyKey? && v.field !in todo && Violates(et, props, v)
    {
      var f :| f in todo;
      todo := todo - {f};
      var p := et.properties[f];
      if p.required && (f !in props || IsEmpty(props[f])) {
        found := found + {MissingField(f)};
      }
      if f in props && !HasType(props[f], p.typ) {
        found := found + {WrongType(f)};
      }
      if p.options != [] && f in props && !(props[f].Str? && props[f].str in p.options) {
        found := found + {NotAnOption(f)};
      }
    }
    for i := 0 to |et.stableKeys|
      invariant forall v :: v in found <==> (v.EmptyKey? ==> v.field in et.stableKeys[..i]) && Violates(et, props, v)
    {
      var k := et.stableKeys[i];
      assert et.stableKeys[..i + 1] == et.stableKeys[..i] + [k];
      if k !in props || IsEmpty(props[k]) {
        found := found + {EmptyKey(k)};
      }
    }
    assert et.stableKeys[..|et.stableKeys|] == et.stableKeys;
    ValidatesExactly(et, props);
    if v :| Violates(et, props, v) { assert v in found; }
  }

  lemma ValidatesExactly(et: EntityType, props: Props)
    ensures Validates(et, props) <==> forall v :: !Violates(et, props, v)
  {
    if forall v :: !Violates(et, props, v) {
      forall k | k in et.properties && et.properties[k].required ensures k in props && !IsEmpty(props[k]) {
        assert !Violates(et, props, MissingField(k));
      }
      forall k | k in et.properties && k in props ensures HasType(props[k], et.properties[k].typ) {
        assert !Violates(et, props, WrongType(k));
      }
      forall k | k in et.properties && et.properties[k].options != [] && k in props
        ensures props[k].Str? && props[k].str in et.properties[k].options
      {
        assert !Violates(et, props, NotAnOption(k));
      }
      forall k | k in et.stableKeys ensures k in props && !IsEmpty(props[k]) {
        assert !Violates(et, props, EmptyKey(k));
      }
    }
  }

  // ---------------------------------------------------------------- URI generation

  /** fmt.Sprintf("%v", v) for values that are not strings. */
  type Show = Value -> string

  function ShowValue(show: Show, v: Value): string {
    if v.Str? then v.str else show(v)
  }

  function GenerateURI(show: Show, uri: string, stableKeys: seq<string>, props: Props): Option<string>
    decreases |stableKeys|
  {
    if stableKeys == [] then Some(uri)
    else
      var k := stableKeys[0];
      if k !in props || props[k] == Null || ShowValue(show, props[k]) == "" then None
      else GenerateURI(show, ReplaceAll(uri, "{" + k + "}", ShowValue(show, props[k])), stableKeys[1..], props)
  }

  /** The fixed text of a template before its first parameter. */
  function Prefix(template: string): string {
    if template == "" || template[0] == '{' then "" else [template[0]] + Prefix(template[1..])
  }

  lemma {:induction false} ReplaceAllKeepsPrefix(s: string, key: string, repl: string)
    ensures Prefix(s) <= ReplaceAll(s, "{" + key + "}", repl)
    ensures Prefix(s) <= Prefix(ReplaceAll(s, "{" + key + "}", repl))
    decreases |s|
  {
    var pattern := "{" + key + "}";
    if s != "" && s[0] != '{' {
      assert pattern[0] == '{';
      if |s| >= |pattern| {
        ReplaceAllKeepsPrefix(s[1..], key, repl);
        assert ReplaceAll(s, pattern, repl)[1..] == ReplaceAll(s[1..], pattern, repl);
      } else {
        PrefixOf(s);
      }
    }
  }

  lemma {:induction false} PrefixOf(s: string)
    ensures Prefix(s) <= s
  {
    if s != "" && s[0] != '{' {
      PrefixOf(s[1..]);
    }
  }

  /** Substituting the stable keys leaves the fixed prefix of the template alone. */
  lemma {:induction false} UriKeepsPrefix(show: Show, uri: string, stableKeys: seq<string>, props: Props, prefix: string)
    requires prefix <= Prefix(uri)
    ensures GenerateURI(show, uri, stableKeys, props).Some? ==> prefix <= GenerateURI(show, uri, stableKeys, props).value
    decreases |stableKeys|
  {
    PrefixOf(uri);
    if stableKeys != [] {
      var k := stableKeys[0];
      if k in props && props[k] != Null && ShowValue(show, props[k]) != "" {
        ReplaceAllKeepsPrefix(uri, k, ShowValue(show, props[k]));
        UriKeepsPrefix(show, ReplaceAll(uri, "{" + k + "}", ShowValue(show, props[k])), stableKeys[1..], props, prefix);
      }
    }
  }

  // ---------------------------------------------------------------- what a template stands for

  datatype Part = Text(text: string) | Key(name: string)

  function Spelled(parts: seq<Part>): string {
    if parts == [] then ""
    else (match parts[0] case Text(t) => t case Key(k) => "{" + k + "}") + Spelled(parts[1..])
  }

  /** No braces but those around keys. */
  predicate CleanParts(parts: seq<Part>) {
    forall p :: p in parts ==>
      match p
      case Text(t) => '{' !in t
      case Key(k) => '{' !in k && '}' !in k
  }

  /** The value of the key in its places. */
  function FilledIn(parts: seq<Part>, key: string, v: string): seq<Part> {
    seq(|parts|, i requires 0 <= i < |parts| => if parts[i] == Key(key) then Text(v) else parts[i])
  }

  lemma SkipsChar(s: string, pattern: string, v: string)
    requires s != "" && pattern != "" && !(pattern <= s)
    ensures ReplaceAll(s, pattern, v) == [s[0]] + ReplaceAll(s[1..], pattern, v)
  {
    assert s == [s[0]] + s[1..];
  }

  /** Text without an opening brace is copied. */
  lemma {:induction false} CopiesText(t: string, rest: string, key: string, v: string)
    requires '{' !in t
    ensures ReplaceAll(t + rest, "{" + key + "}", v) == t + ReplaceAll(rest, "{" + key + "}", v)
    decreases |t|
  {
    var pattern := "{" + key + "}";
    if t == "" {
      assert t + rest == rest;
    } else {
      assert t[0] in t && pattern[0] == '{' && (t + rest)[0] == t[0];
      assert (t + rest)[1..] == t[1..] + rest;
      SkipsChar(t + rest, pattern, v);
      CopiesText(t[1..], rest, key, v);
      assert t == [t[0]] + t[1..];
    }
  }

  lemma FillsKey(rest: string, key: string, v: string)
    ensures ReplaceAll("{" + key + "}" + rest, "{" + key + "}", v) == v + ReplaceAll(rest, "{" + key + "}", v)
  {
    var pattern := "{" + key + "}";
    assert (pattern + rest)[|pattern|..] == rest;
  }

  lemma OtherKey(name: string, rest: string, key: string, v: string)
    requires '{' !in name && '}' !in name && '}' !in key && name != key
    ensures ReplaceAll("{" + name + "}" + rest, "{" + key + "}", v) == "{" + name + "}" + ReplaceAll(rest, "{" + key + "}", v)
  {
    var pattern, s := "{" + key + "}", "{" + name + "}" + rest;
    if pattern <= s { MatchesOwn(name, rest, key); }
    SkipsChar(s, pattern, v);
    assert s[1..] == (name + "}") + rest;
    CopiesText(name + "}", rest, key, v);
  }

  /** The first closing brace. */
  lemma Closing(name: string, rest: string)
    requires '}' !in name
    ensures var s := "{" + name + "}" + rest; s[|name| + 1] == '}' && forall i :: 0 <= i <= |name| ==> s[i] != '}'
  {
    var s := "{" + name + "}" + rest;
    forall i | 0 <= i <= |name| ensures s[i] != '}' {
      if i > 0 { assert s[i] == name[i - 1] && name[i - 1] in name; }
    }
  }

  lemma MatchesOwn(name: string, rest: string, key: string)
    requires '}' !in name && '}' !in key && "{" + key + "}" <= "{" + name + "}" + rest
    ensures key == name
  {
    var pattern, s := "{" + key + "}", "{" + name + "}" + rest;
    Closing(name, rest);
    Closing(key, "");
    assert pattern + "" == pattern;
    assert pattern[|key| + 1] == s[|key| + 1];
    assert |key| == |name|;
    assert key == pattern[1..|key| + 1] == s[1..|name| + 1] == name;
  }

  /** Replacing a key in a template fills it in. */
  lemma {:induction false} ReplaceFillsIn(parts: seq<Part>, key: string, v: string)
    requires CleanParts(parts) && '{' !in key && '}' !in key
    ensures ReplaceAll(Spelled(parts), "{" + key + "}", v) == Spelled(FilledIn(parts, key, v))
    decreases |parts|
  {
    if parts != [] {
      assert parts[0] in parts && forall p :: p in parts[1..] ==> p in parts;
      ReplaceFillsIn(parts[1..], key, v);
      var rest := Spelled(parts[1..]);
      assert FilledIn(parts, key, v)[1..] == FilledIn(parts[1..], key, v);
      match parts[0]
      case Text(t) => CopiesText(t, rest, key, v);
      case Key(k) => if k == key { FillsKey(rest, key, v); } else { OtherKey(k, rest, key, v); }
    }
  }

  /** The stable keys of the list are there and not empty, and their values hold no opening brace. */
  predicate PlainKeys(show: Show, keys: seq<string>, props: Props) {
    forall k :: k in keys ==>
      k in props && props[k] != Null && ShowValue(show, props[k]) != "" && '{' !in ShowValue(show, props[k]) && '{' !in k && '}' !in k
  }

  /** Every stable key in its places. */
  function AllFilledIn(show: Show, parts: seq<Part>, keys: seq<string>, props: Props): seq<Part>
    requires PlainKeys(show, keys, props)
  {
    seq(|parts|, i requires 0 <= i < |parts| =>
      if parts[i].Key? && parts[i].name in keys then Text(ShowValue(show, props[parts[i].name])) else parts[i])
  }

  lemma StaysClean(parts: seq<Part>, key: string, v: string)
    requires CleanParts(parts) && '{' !in v
    ensures CleanParts(FilledIn(parts, key, v))
  {
    var next := FilledIn(parts, key, v);
    forall p | p in next ensures p == Text(v) || p in parts {
      var i :| 0 <= i < |next| && next[i] == p;
      assert parts[i] in parts;
    }
  }

  /** The URI is the template with the values of the stable keys in their places. */
  lemma {:induction false} UriOfTemplate(show: Show, parts: seq<Part>, keys: seq<string>, props: Props)
    requires CleanParts(parts) && PlainKeys(show, keys, props)
    ensures GenerateURI(show, Spelled(parts), keys, props) == Some(Spelled(AllFilledIn(show, parts, keys, props)))
    decreases |keys|
  {
    if keys == [] {
      assert AllFilledIn(show, parts, keys, props) == parts;
    } else {
      var k := keys[0];
      assert k in keys && forall x :: x in keys[1..] ==> x in keys;
      var v := ShowValue(show, props[k]);
      var next := FilledIn(parts, k, v);
      ReplaceFillsIn(parts, k, v);
      StaysClean(parts, k, v);
      UriOfTemplate(show, next, keys[1..], props);
      assert keys == [k] + keys[1..];
      assert AllFilledIn(show, next, keys[1..], props) == AllFilledIn(show, parts, keys, props);
    }
  }

  /** There is no URI exactly when a stable key is absent, null or shown as nothing. */
  lemma {:induction false} NoUriExactly(show: Show, uri: string, keys: seq<string>, props: Props)
    ensures GenerateURI(show, uri, keys, props) == None <==>
      exists k :: k in keys && (k !in props || props[k] == Null || ShowValue(show, props[k]) == "")
    decreases |keys|
  {
    if keys != [] {
      var k := keys[0];
      assert keys == [k] + keys[1..] && k in keys;
      if k in props && props[k] != Null && ShowValue(show, props[k]) != "" {
        NoUriExactly(show, ReplaceAll(uri, "{" + k + "}", ShowValue(show, props[k])), keys[1..], props);
      }
    }
  }

  // ---------------------------------------------------------------- Normalize

  datatype Resource = Resource(kind: string, properties: Props)

  datatype Normalized = Normalized(kind: string, uri: string, properties: Props)

  /** Properties after field mapping, replacement and defaults. */
  ghost function Standardized(et: EntityType, props: Props): Props {
    ApplyDefaults(et, ApplyRules(Renamed(et.fieldMapping, props), et.normalize))
  }

  function Finished(et: EntityType, show: Show, kind: string, props: Props): Option<Normalized> {
    if !Validates(et, props) then None
    else
      match GenerateURI(show, et.uriTemplate, et.stableKeys, props)
      case None => None
      case Some(uri) => Some(Normalized(kind, uri, props))
  }

  ghost function NormalizedFrom(types: Types, show: Show, r: Resource): Option<Normalized> {
    if r.kind !in types then None
    else Finished(types[r.kind], show, r.kind, Standardized(types[r.kind], r.properties))
  }

  /** A text after the rules for field k, in order. */
  function Replaced(x: string, rules: seq<NormalizeRule>, k: string): string
    decreases |rules|
  {
    if rules == [] then x
    else Replaced(if rules[0].field == k then ReplaceAll(x, rules[0].pattern, rules[0].replace) else x, rules[1..], k)
  }

  /** v is what is at key k when every source has moved to its target. */
  ghost predicate MovedTo(m: map<string, string>, props: Props, k: string, v: Option<Value>) {
    && (forall s :: s in m && m[s] == k && s in props ==> v == Some(props[s]))
    && ((forall s :: s in m && m[s] == k ==> s !in props) ==> v == if k in m then None else Lookup(props, k))
  }

  /** Then texts have been through the rules, and what is not there has its default. */
  function Standard(et: EntityType, k: string, v: Option<Value>): Option<Value> {
    match v
    case Some(x) => Some(if x.Str? then Str(Replaced(x.str, et.normalize, k)) else x)
    case None => if k in et.properties then Shown(et.properties[k].default) else None
  }

  ghost predicate StandardAt(et: EntityType, props: Props, k: string, v: Option<Value>) {
    exists v0 :: MovedTo(et.fieldMapping, props, k, v0) && v == Standard(et, k, v0)
  }

  ghost predicate StandardProps(et: EntityType, props: Props, p: Props) {
    forall k :: StandardAt(et, props, k, Lookup(p, k))
  }

  /** What a resource of type et comes to: its standard properties, which violate nothing, and the URI they
      give; or nothing. */
  ghost predicate ComesTo(et: EntityType, show: Show, r: Resource, n: Option<Normalized>) {
    exists p :: StandardProps(et, r.properties, p) &&
      match GenerateURI(show, et.uriTemplate, et.stableKeys, p)
      case Some(uri) => n == if exists v :: Violates(et, p, v) then None else Some(Normalized(r.kind, uri, p))
      case None => n == None
  }

  lemma {:induction false} RulesAt(props: Props, rules: seq<NormalizeRule>, k: string)
    ensures Lookup(ApplyRules(props, rules), k) ==
      match Lookup(props, k)
      case Some(x) => Some(if x.Str? then Str(Replaced(x.str, rules, k)) else x)
      case None => None
    decreases |rules|
  {
    if rules != [] {
      RulesAt(ApplyRule(props, rules[0]), rules[1..], k);
    }
  }

  lemma RenamedMoves(m: map<string, string>, props: Props, k: string)
    requires CleanMapping(m)
    ensures MovedTo(m, props, k, Lookup(Renamed(m, props), k))
  {
    var targets := set s | s in m && s in props :: m[s];
    forall s | s in m && m[s] == k && s in props ensures Lookup(Renamed(m, props), k) == Some(props[s]) {
      assert k in targets && k in Arriving(m, props);
    }
    if forall s :: s in m && m[s] == k ==> s !in props {
      assert k !in targets;
    }
  }

  /** Normalizing comes to that. */
  lemma NormalizedComesTo(types: Types, show: Show, r: Resource)
    requires r.kind in types && CleanMapping(types[r.kind].fieldMapping)
    ensures ComesTo(types[r.kind], show, r, NormalizedFrom(types, show, r))
  {
    var et := types[r.kind];
    var p := Standardized(et, r.properties);
    forall k ensures StandardAt(et, r.properties, k, Lookup(p, k)) {
      RenamedMoves(et.fieldMapping, r.properties, k);
      RulesAt(Renamed(et.fieldMapping, r.properties), et.normalize, k);
      assert Lookup(p, k) == Standard(et, k, Lookup(Renamed(et.fieldMapping, r.properties), k));
    }
    assert StandardProps(et, r.properties, p);
    ValidatesExactly(et, p);
  }

  /** What normalizing may yield when the field mapping is visited in the given order. */
  function NormalizedIn(et: EntityType, show: Show, r: Resource, order: seq<string>): Option<Normalized>
    requires forall s :: s in order ==> s in et.fieldMapping
  {
    Finished(et, show, r.kind, ApplyDefaults(et, ApplyRules(RenameIn(et.fieldMapping, order, r.properties), et.normalize)))
  }

  /** Nothing for an unknown kind; otherwise the result for some order of the field mapping, which
      for a clean one is the result for all. */
  method Normalize(types: Types, show: Show, r: Resource) returns (n: Option<Normalized>)
    ensures r.kind !in types ==> n == None
    ensures r.kind in types ==>
      exists order :: Enumerates(order, types[r.kind].fieldMapping) && n == NormalizedIn(types[r.kind], show, r, order)
    ensures r.kind in types && CleanMapping(types[r.kind].fieldMapping) ==>
      n == NormalizedFrom(types, show, r) && ComesTo(types[r.kind], show, r, n)
  {
    if r.kind !in types {
      return None;
    }
    var et := types[r.kind];
    if CleanMapping(et.fieldMapping) { NormalizedComesTo(types, show, r); }
    var props := ApplyFieldMapping(et.fieldMapping, r.properties);
    ghost var mapped := props;
    for i := 0 to |et.normalize|
      invariant ApplyRules(props, et.normalize[i..]) == ApplyRules(mapped, et.normalize)
    {
      var rule := et.normalize[i];
      if rule.field in props && props[rule.field].Str? {
        props := props[rule.field := Str(ReplaceAll(props[rule.field].str, rule.pattern, rule.replace))];
      }
      assert et.normalize[i..][1..] == et.normalize[i + 1..];
    }
    assert et.normalize[|et.normalize|..] == [];
    props := FillDefaults(et, props);
    var found := Validate(et, props);
    if found != {} {
      return None;
    }
    n := Finished(et, show, r.kind, props);
  }

  /** Two kinds whose templates start differently never produce the same URI. */
  lemma UriDeterminesKind(types: Types, show: Show, a: Resource, b: Resource)
    requires NormalizedFrom(types, show, a).Some? && NormalizedFrom(types, show, b).Some?
    requires NormalizedFrom(types, show, a).value.uri == NormalizedFrom(types, show, b).value.uri
    requires a.kind != b.kind ==>
      && !(Prefix(types[a.kind].uriTemplate) <= Prefix(types[b.kind].uriTemplate))
      && !(Prefix(types[b.kind].uriTemplate) <= Prefix(types[a.kind].uriTemplate))
    ensures a.kind == b.kind
  {
    if a.kind != b.kind {
      var p, q := Prefix(types[a.kind].uriTemplate), Prefix(types[b.kind].uriTemplate);
      var uri := NormalizedFrom(types, show, a).value.uri;
      var ea, eb := types[a.kind], types[b.kind];
      UriKeepsPrefix(show, ea.uriTemplate, ea.stableKeys, Standardized(ea, a.properties), p);
      UriKeepsPrefix(show, eb.uriTemplate, eb.stableKeys, Standardized(eb, b.properties), q);
      PrefixesNest(p, q, uri);
    }
  }

  lemma PrefixesNest(p: string, q: string, s: string)
    requires p <= s && q <= s
    ensures p <= q || q <= p
  {
    if |p| <= |q| {
      assert p == s[..|p|] == q[..|p|];
    } else {
      assert q == s[..|q|] == p[..|q|];
    }
  }
}
