/** The ontology registry (internal/schema/registry.go): cycle detection and topological sort of
    the inheritance map, merging of inherited definitions, and label chains. */
module Schema {
  import opened Common
  import opened GraphModel

  datatype NormalizeRule = NormalizeRule(field: string, pattern: string, replace: string)

  datatype PropertySpec = PropertySpec(typ: string, required: bool, options: seq<string>, default: Value)

  /** An entity type whose normalize rules are an R. */
  datatype EntityOf<R> = Entity(
    base: string,   // Spec.Extends, empty when there is none
    stableKeys: seq<string>,
    uriTemplate: string,
    fieldMapping: map<string, string>,
    normalize: R,
    relationFields: map<string, string>,
    properties: map<string, PropertySpec>)

  type EntityType = EntityOf<seq<NormalizeRule>>

  datatype RelationType = RelationType(source: seq<string>, target: seq<string>)

  type Types = map<string, EntityType>

  // ---------------------------------------------------------------- ancestors in a child-to-parent map

  type Parents = map<string, string>

  /** The k-th ancestor of n. */
  function Up(m: Parents, n: string, k: nat): Option<string>
    decreases k
  {
    if k == 0 then Some(n) else if n in m then Up(m, m[n], k - 1) else None
  }

  ghost predicate OnCycle(m: Parents, n: string) {
    exists k: nat :: 0 < k && Up(m, n, k) == Some(n)
  }

  ghost predicate Acyclic(m: Parents) {
    forall n :: !OnCycle(m, n)
  }

  /** Following parents from n ends. */
  ghost predicate Rooted(m: Parents, n: string) {
    exists k: nat :: Up(m, n, k) == None
  }

  function Names(m: Parents): set<string> {
    m.Keys + m.Values
  }

  lemma {:induction false} UpAdd(m: Parents, n: string, j: nat, k: nat)
    ensures Up(m, n, j + k) == match Up(m, n, j) case Some(p) => Up(m, p, k) case None => None
    decreases j
  {
    if j > 0 && n in m {
      UpAdd(m, m[n], j - 1, k);
      assert j + k - 1 == (j - 1) + k;
    }
  }

  lemma {:induction false} AroundAgain(m: Parents, n: string, k: nat, times: nat)
    requires Up(m, n, k) == Some(n)
    ensures Up(m, n, k * times) == Some(n)
    decreases times
  {
    if times > 0 {
      AroundAgain(m, n, k, times - 1);
      UpAdd(m, n, k * (times - 1), k);
      assert k * (times - 1) + k == k * times;
    }
  }

  /** A node that reaches a root is on no cycle. */
  lemma RootedNotOnCycle(m: Parents, n: string)
    requires Rooted(m, n)
    ensures !OnCycle(m, n)
  {
    if OnCycle(m, n) {
      var k: nat :| 0 < k && Up(m, n, k) == Some(n);
      var j: nat :| Up(m, n, j) == None;
      AroundAgain(m, n, k, j);
      assert k * j >= j by { assert (k - 1) * j >= 0; }
      UpAdd(m, n, j, k * j - j);
    }
  }

  lemma RootedParent(m: Parents, n: string)
    requires n in m
    ensures Rooted(m, n) <==> Rooted(m, m[n])
  {
    if Rooted(m, n) {
      var k: nat :| Up(m, n, k) == None;
      assert Up(m, m[n], k - 1) == None;
    }
    if Rooted(m, m[n]) {
      var k: nat :| Up(m, m[n], k) == None;
      assert Up(m, n, k + 1) == None;
    }
  }

  // ---------------------------------------------------------------- detectCycle

  /** The nodes from the start of a depth-first search to the node about to be visited. */
  ghost predicate Leads(m: Parents, path: seq<string>, node: string) {
    forall i :: 0 <= i < |path| ==> path[i] in m && m[path[i]] == (path + [node])[i + 1]
  }

  lemma LeadsOn(m: Parents, path: seq<string>, node: string)
    requires Leads(m, path, node) && node in m
    ensures Leads(m, path + [node], m[node])
  {
    var longer := path + [node];
    forall i | 0 <= i < |longer| ensures longer[i] in m && m[longer[i]] == (longer + [m[node]])[i + 1] {
      if i < |path| {
        assert path[i] in m;
      }
    }
  }

  lemma {:induction false} LeadsUp(m: Parents, path: seq<string>, node: string, i: nat)
    requires Leads(m, path, node) && i <= |path|
    ensures Up(m, (path + [node])[i], |path| - i) == Some(node)
    decreases |path| - i
  {
    if i < |path| {
      LeadsUp(m, path, node, i + 1);
    }
  }

  class CycleDetector {
    const inheritance: Parents
    var visited: set<string>
    var inStack: set<string>

    constructor (inheritance: Parents)
      ensures this.inheritance == inheritance && visited == {} && inStack == {}
    {
      this.inheritance := inheritance;
      visited, inStack := {}, {};
    }

    /** A node that was visited and is not on the stack has been followed to its root. */
    ghost predicate Finished()
      reads this
    {
      forall n :: n in visited && n !in inStack ==> Rooted(inheritance, n)
    }

    method Dfs(node: string, ghost path: seq<string>) returns (circular: Option<string>)
      requires node in Names(inheritance)
      requires Leads(inheritance, path, node)
      requires Finished() && inStack == (set n | n in path) && inStack <= visited
      modifies this
      ensures circular.Some? ==> OnCycle(inheritance, circular.value)
      ensures circular.None? ==> Finished() && inStack == old(inStack) && inStack <= visited
      ensures circular.None? ==> Rooted(inheritance, node)
      decreases Names(inheritance) - visited
    {
      if node in inStack {
        ghost var i :| 0 <= i < |path| && path[i] == node;
        LeadsUp(inheritance, path, node, i);
        return Some(node);
      }
      if node in visited {
        return None;
      }
      visited := visited + {node};
      inStack := inStack + {node};
      if node in inheritance {
        var parent := inheritance[node];
        assert parent in inheritance.Values;
        assert (set n | n in path + [node]) == (set n | n in path) + {node};
        LeadsOn(inheritance, path, node);
        circular := Dfs(parent, path + [node]);
        if circular.Some? {
          return;
        }
        RootedParent(inheritance, node);
      } else {
        assert Up(inheritance, node, 1) == None;
      }
      inStack := inStack - {node};
      circular := None;
    }
  }

  /** Reports a node on a cycle exactly when there is one. */
  method DetectCycle(inheritance: Parents) returns (circular: Option<string>)
    ensures circular.None? <==> Acyclic(inheritance)
    ensures circular.Some? ==> OnCycle(inheritance, circular.value)
  {
    var d := new CycleDetector(inheritance);
    var keys := inheritance.Keys;
    while keys != {}
      invariant keys <= inheritance.Keys
      invariant d.inheritance == inheritance && d.Finished() && d.inStack == {}
      invariant forall n :: n in inheritance && n !in keys ==> Rooted(inheritance, n)
    {
      var node :| node in keys;
      keys := keys - {node};
      circular := d.Dfs(node, []);
      if circular.Some? {
        return;
      }
    }
    forall n ensures !OnCycle(inheritance, n) {
      if n !in inheritance {
        assert Up(inheritance, n, 1) == None;
      }
      RootedNotOnCycle(inheritance, n);
    }
    circular := None;
  }

  // ---------------------------------------------------------------- topoSort

  ghost predicate ParentFirst(m: Parents, s: seq<string>) {
    forall i :: 0 <= i < |s| && s[i] in m ==> m[s[i]] in s[..i]
  }

  class TopoSorter {
    const inheritance: Parents
    var visited: set<string>
    var result: seq<string>

    constructor (inheritance: Parents)
      ensures this.inheritance == inheritance && visited == {} && result == []
    {
      this.inheritance := inheritance;
      visited, result := {}, [];
    }

    ghost predicate Valid()
      reads this
    {
      && NoRepeats(result)
      && Elements(result) <= visited
      && (Acyclic(inheritance) ==> ParentFirst(inheritance, result))
    }

    /** Visited nodes not yet in the result are waiting for an ancestor: `node`, or one above it. */
    ghost predicate Waiting(node: string)
      reads this
    {
      forall n :: n in visited && n !in result ==> exists k: nat :: 0 < k && Up(inheritance, n, k) == Some(node)
    }

    method Visit(node: string)
      requires Valid() && Waiting(node) && node in Names(inheritance)
      modifies this
      ensures Valid() && node in visited && old(visited) <= visited <= old(visited) + Names(inheritance)
      ensures old(result) <= result
      ensures visited - Elements(result) == old(visited - Elements(result))
      ensures Acyclic(inheritance) ==> node in result
      decreases Names(inheritance) - visited
    {
      if node in visited {
        if Acyclic(inheritance) && node !in result {
          assert exists k: nat :: 0 < k && Up(inheritance, node, k) == Some(node);
          assert OnCycle(inheritance, node);
          assert false;
        }
        return;
      }
      visited := visited + {node};
      if node in inheritance {
        var parent := inheritance[node];
        assert parent in inheritance.Values;
        forall n | n in visited && n !in result
          ensures exists k: nat :: 0 < k && Up(inheritance, n, k) == Some(parent)
        {
          if n == node {
            assert Up(inheritance, n, 1) == Some(parent);
          } else {
            var k: nat :| 0 < k && Up(inheritance, n, k) == Some(node);
            UpAdd(inheritance, n, k, 1);
            assert Up(inheritance, n, k + 1) == Some(parent);
          }
        }
        Visit(parent);
      }
      ghost var before := result;
      assert visited - Elements(before) == old(visited - Elements(result)) + {node};
      assert node !in before by { assert node in visited - Elements(before); }
      result := result + [node];
      assert Elements(result) == Elements(before) + {node};
      forall i | Acyclic(inheritance) && 0 <= i < |result| && result[i] in inheritance
        ensures inheritance[result[i]] in result[..i]
      {
        if i < |before| {
          assert result[..i] == before[..i];
        } else {
          assert result[..i] == before;
        }
      }
    }
  }

  lemma NothingLeft(a: set<string>, b: set<string>)
    requires a - b == {} && b <= a
    ensures a == b
  {
    forall n ensures n in a <==> n in b {
      assert n !in a - b;
    }
  }

  /** Every node of the map exactly once; parents before their children exactly when the map has
      no cycle. */
  method TopoSort(inheritance: Parents) returns (order: seq<string>)
    ensures NoRepeats(order) && Elements(order) == Names(inheritance)
    ensures ParentFirst(inheritance, order) <==> Acyclic(inheritance)
  {
    var t := new TopoSorter(inheritance);
    var keys := Names(inheritance);
    while keys != {}
      invariant keys <= Names(inheritance)
      invariant t.inheritance == inheritance && t.Valid()
      invariant t.visited == Elements(t.result) && t.visited <= Names(inheritance)
      invariant Names(inheritance) - keys <= t.visited
    {
      var node :| node in keys;
      keys := keys - {node};
      t.Visit(node);
      NothingLeft(t.visited, Elements(t.result));
    }
    order := t.result;
    if ParentFirst(inheritance, order) {
      ParentFirstAcyclic(inheritance, order);
    }
  }

  lemma {:induction false} ParentFirstRooted(m: Parents, s: seq<string>, i: nat)
    requires ParentFirst(m, s) && i < |s|
    ensures Rooted(m, s[i])
    decreases i
  {
    if s[i] in m {
      var j :| 0 <= j < i && s[j] == m[s[i]];
      ParentFirstRooted(m, s, j);
      RootedParent(m, s[i]);
    } else {
      assert Up(m, s[i], 1) == None;
    }
  }

  /** No parent-first order of all nodes exists for a map with a cycle. */
  lemma ParentFirstAcyclic(m: Parents, s: seq<string>)
    requires ParentFirst(m, s) && Names(m) <= Elements(s)
    ensures Acyclic(m)
  {
    forall n ensures !OnCycle(m, n) {
      if n in m {
        var i :| 0 <= i < |s| && s[i] == n;
        ParentFirstRooted(m, s, i);
      } else {
        assert Up(m, n, 1) == None;
      }
      RootedNotOnCycle(m, n);
    }
  }
}
