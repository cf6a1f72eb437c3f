/**
 The package graph of src/host/dep_graph.cpp: the depth-first install order, for any
 graph with or without cycles, and its split into batches for parallel machines.
 */
module DepGraph {

  datatype Package = Package(name: string, deps: seq<string>)

  /** `keys` is the iteration order of the node table: every package once. */
  datatype Graph = Graph(keys: seq<string>, nodes: map<string, Package>)

  ghost predicate WellFormed(g: Graph) {
    && (forall i, j :: 0 <= i < j < |g.keys| ==> g.keys[i] != g.keys[j])
    && (forall k :: k in g.keys <==> k in g.nodes)
  }

  datatype Option<T> = None | Some(value: T)

  /** The first package of that name, in iteration order. */
  function FirstNamed(keys: seq<string>, nodes: map<string, Package>, name: string): (r: Option<string>)
    ensures r.Some? ==> r.value in keys && r.value in nodes && nodes[r.value].name == name
  {
    if keys == [] then None
    else if keys[0] in nodes && nodes[keys[0]].name == name then Some(keys[0])
    else FirstNamed(keys[1..], nodes, name)
  }

  function Resolve(g: Graph, dep: string): Option<string> {
    FirstNamed(g.keys, g.nodes, dep)
  }

  lemma {:induction false} TableIsGraph(g: Graph)
    requires forall i, j :: 0 <= i < j < |g.keys| ==> g.keys[i] != g.keys[j]
    requires forall k :: k in g.keys <==> k in g.nodes
    ensures WellFormed(g)
  {
  }

  /** The first key whose package has the name, wherever its own version places it. */
  lemma {:induction false} FirstIs(keys: seq<string>, nodes: map<string, Package>, name: string, i: nat)
    requires i < |keys| && (forall k :: k in keys ==> k in nodes) && nodes[keys[i]].name == name
    requires forall j :: 0 <= j < i ==> keys[j] in nodes && nodes[keys[j]].name != name
    ensures FirstNamed(keys, nodes, name) == Some(keys[i])
    decreases i
  {
    if i > 0 {
      assert keys[0] in nodes && nodes[keys[0]].name != name;
      FirstIs(keys[1..], nodes, name, i - 1);
    }
  }

  lemma {:induction false} NoneNamed(keys: seq<string>, nodes: map<string, Package>, name: string)
    requires forall j :: 0 <= j < |keys| ==> keys[j] in nodes && nodes[keys[j]].name != name
    ensures FirstNamed(keys, nodes, name) == None
    decreases |keys|
  {
    if keys != [] {
      assert keys[0] in nodes && nodes[keys[0]].name != name;
      NoneNamed(keys[1..], nodes, name);
    }
  }

  /** A resolved dependency of u on v. */
  ghost predicate Edge(g: Graph, u: string, v: string) {
    u in g.nodes && exists i :: 0 <= i < |g.nodes[u].deps| && Resolve(g, g.nodes[u].deps[i]) == Some(v)
  }

  /** Dependency i of u names v: v's package is the first of that name. */
  lemma {:induction false} EdgeBy(g: Graph, u: string, i: nat, m: nat)
    requires WellFormed(g) && u in g.nodes && i < |g.nodes[u].deps| && m < |g.keys|
    requires g.nodes[g.keys[m]].name == g.nodes[u].deps[i]
    requires forall j :: 0 <= j < m ==> g.nodes[g.keys[j]].name != g.nodes[u].deps[i]
    ensures Edge(g, u, g.keys[m])
  {
    FirstIs(g.keys, g.nodes, g.nodes[u].deps[i], m);
  }

  /** There are no other edges. */
  lemma {:induction false} EdgeFrom(g: Graph, u: string, v: string) returns (i: nat, m: nat)
    requires WellFormed(g) && Edge(g, u, v)
    ensures u in g.nodes && i < |g.nodes[u].deps| && m < |g.keys| && g.keys[m] == v
    ensures g.nodes[g.keys[m]].name == g.nodes[u].deps[i]
    ensures forall j :: 0 <= j < m ==> g.nodes[g.keys[j]].name != g.nodes[u].deps[i]
  {
    i :| 0 <= i < |g.nodes[u].deps| && Resolve(g, g.nodes[u].deps[i]) == Some(v);
    m := FirstFound(g.keys, g.nodes, g.nodes[u].deps[i]);
  }

  lemma {:induction false} FirstFound(keys: seq<string>, nodes: map<string, Package>, name: string) returns (m: nat)
    requires FirstNamed(keys, nodes, name).Some? && forall k :: k in keys ==> k in nodes
    ensures m < |keys| && Some(keys[m]) == FirstNamed(keys, nodes, name) && nodes[keys[m]].name == name
    ensures forall j :: 0 <= j < m ==> nodes[keys[j]].name != name
    decreases |keys|
  {
    assert keys[0] in keys;
    if nodes[keys[0]].name == name {
      m := 0;
    } else {
      m := FirstFound(keys[1..], nodes, name);
      m := m + 1;
      forall j | 0 <= j < m
        ensures nodes[keys[j]].name != name
      {
        if j > 0 {
          assert keys[1..][j - 1] == keys[j];
        }
      }
    }
  }

  ghost predicate Path(g: Graph, path: seq<string>) {
    path != [] && forall i :: 0 <= i < |path| - 1 ==> Edge(g, path[i], path[i + 1])
  }

  /** A path from u to v with no package of `avoid` on it, the ends included. */
  ghost predicate Avoiding(g: Graph, avoid: set<string>, u: string, v: string) {
    exists path :: Joins(g, avoid, path, u, v)
  }

  ghost predicate Joins(g: Graph, avoid: set<string>, path: seq<string>, u: string, v: string) {
    Path(g, path) && path[0] == u && path[|path| - 1] == v && forall i :: 0 <= i < |path| ==> path[i] !in avoid
  }

  ghost predicate Reaches(g: Graph, u: string, v: string) {
    Avoiding(g, {}, u, v)
  }

  /** A chain of dependencies between packages outside `avoid` is such a path. */
  lemma {:induction false} AvoidingBy(g: Graph, avoid: set<string>, path: seq<string>)
    requires path != [] && forall i :: 0 <= i < |path| ==> path[i] !in avoid
    requires forall i :: 0 <= i < |path| - 1 ==> Edge(g, path[i], path[i + 1])
    ensures Avoiding(g, avoid, path[0], path[|path| - 1])
    ensures Reaches(g, path[0], path[|path| - 1])
  {
    assert Joins(g, avoid, path, path[0], path[|path| - 1]);
    assert Joins(g, {}, path, path[0], path[|path| - 1]);
  }

  /** And there are no others. */
  lemma {:induction false} AvoidingFrom(g: Graph, avoid: set<string>, u: string, v: string) returns (path: seq<string>)
    requires Avoiding(g, avoid, u, v)
    ensures path != [] && path[0] == u && path[|path| - 1] == v
    ensures forall i :: 0 <= i < |path| ==> path[i] !in avoid
    ensures forall i :: 0 <= i < |path| - 1 ==> Edge(g, path[i], path[i + 1])
  {
    path :| Joins(g, avoid, path, u, v);
  }

  lemma {:induction false} AvoidsItself(g: Graph, avoid: set<string>, u: string)
    requires u !in avoid
    ensures Avoiding(g, avoid, u, u)
  {
    assert Joins(g, avoid, [u], u, u);
  }

  lemma {:induction false} ReachesOn(g: Graph, x: string, u: string, v: string)
    requires Reaches(g, x, u) && Edge(g, u, v)
    ensures Reaches(g, x, v)
  {
    hide Edge;
    var path :| Joins(g, {}, path, x, u);
    var longer := path + [v];
    forall i | 0 <= i < |longer| - 1
      ensures Edge(g, longer[i], longer[i + 1])
    {
      if i < |path| - 1 {
        assert Edge(g, path[i], path[i + 1]);
      }
    }
    assert Joins(g, {}, longer, x, v);
  }

  lemma {:induction false} AvoidingVia(g: Graph, avoid: set<string>, more: set<string>, u: string, w: string, v: string)
    requires u !in avoid && avoid <= more && Edge(g, u, w) && Avoiding(g, more, w, v)
    ensures Avoiding(g, avoid, u, v)
  {
    hide Edge;
    var path :| Joins(g, more, path, w, v);
    var longer := [u] + path;
    forall i | 0 <= i < |longer| - 1
      ensures Edge(g, longer[i], longer[i + 1])
    {
      if i > 0 {
        assert Edge(g, path[i - 1], path[i - 1 + 1]);
      }
    }
    assert Joins(g, avoid, longer, u, v);
  }

  /** Every dependency of a listed package is listed or on the stack. */
  ghost predicate Closed(g: Graph, visited: set<string>, stack: set<string>) {
    forall u, v :: u in visited && Edge(g, u, v) ==> v in visited || v in stack
  }

  lemma {:induction false} ClosedAlong(g: Graph, visited: set<string>, stack: set<string>, path: seq<string>, k: nat)
    requires Closed(g, visited, stack) && Path(g, path) && path[0] in visited && k < |path|
    requires forall i :: 0 <= i < |path| ==> path[i] !in stack
    ensures path[k] in visited
  {
    hide Edge;
    if k > 0 {
      ClosedAlong(g, visited, stack, path, k - 1);
      assert Edge(g, path[k - 1], path[k - 1 + 1]);
    }
  }

  lemma {:induction false} ClosedReaches(g: Graph, visited: set<string>, stack: set<string>, avoid: set<string>,
      u: string, v: string)
    requires Closed(g, visited, stack) && stack <= avoid && u in visited && Avoiding(g, avoid, u, v)
    ensures v in visited
  {
    hide Edge, Closed;
    var path :| Joins(g, avoid, path, u, v);
    ClosedAlong(g, visited, stack, path, |path| - 1);
  }

  // ----- the order -----

  /** Dependencies first, wherever no cycle forbids it. */
  ghost predicate DependenciesFirst(g: Graph, order: seq<string>) {
    forall i, v :: 0 <= i < |order| && Edge(g, order[i], v) && !Reaches(g, v, order[i]) ==> v in order[..i]
  }

  ghost predicate NoRepeats(s: seq<string>) {
    forall i, j :: 0 <= i < j < |s| ==> s[i] != s[j]
  }

  lemma {:induction false} RankFalls(g: Graph, rank: string -> nat, path: seq<string>, k: nat)
    requires (forall u, v :: Edge(g, u, v) ==> rank(v) < rank(u)) && Path(g, path) && k < |path|
    ensures rank(path[k]) <= rank(path[0])
  {
    hide Edge;
    if k > 0 {
      RankFalls(g, rank, path, k - 1);
      assert Edge(g, path[k - 1], path[k - 1 + 1]);
    }
  }

  /** In a graph without cycles every dependency of a listed package is listed before it. */
  lemma {:induction false} ListedBefore(g: Graph, order: seq<string>, rank: string -> nat, a: nat, i: nat, m: nat)
    returns (b: nat)
    requires WellFormed(g) && DependenciesFirst(g, order) && forall u, v :: Edge(g, u, v) ==> rank(v) < rank(u)
    requires a < |order| && order[a] in g.nodes && i < |g.nodes[order[a]].deps| && m < |g.keys|
    requires g.nodes[g.keys[m]].name == g.nodes[order[a]].deps[i]
    requires forall j :: 0 <= j < m ==> g.nodes[g.keys[j]].name != g.nodes[order[a]].deps[i]
    ensures b < a && order[b] == g.keys[m]
  {
    hide Edge, WellFormed;
    var u, v := order[a], g.keys[m];
    EdgeBy(g, u, i, m);
    if Reaches(g, v, u) {
      var path :| Joins(g, {}, path, v, u);
      RankFalls(g, rank, path, |path| - 1);
    }
    assert v in order[..a];
    b :| 0 <= b < a && order[b] == v;
  }

  function Listed(order: seq<string>): (r: set<string>) {
    set k | k in order
  }

  /** The list after topo_visit of `key`, with `order` listed and `stack` being visited. */
  ghost function Visit(g: Graph, key: string, stack: set<string>, order: seq<string>): (r: seq<string>)
    ensures order <= r
    decreases g.nodes.Keys - stack - Listed(order), 0
  {
    if key in order || key in stack then order
    else if key !in g.nodes then order + [key]
    else
      assert key in g.nodes.Keys - stack - Listed(order);
      VisitDeps(g, g.nodes[key].deps, stack + {key}, order) + [key]
  }

  ghost function VisitDeps(g: Graph, deps: seq<string>, stack: set<string>, order: seq<string>): (r: seq<string>)
    ensures order <= r
    decreases g.nodes.Keys - stack - Listed(order), |deps|
  {
    if deps == [] then order
    else
      var dep := Resolve(g, deps[0]);
      if dep.None? then VisitDeps(g, deps[1..], stack, order)
      else
        var next := Visit(g, dep.value, stack, order);
        assert Listed(order) <= Listed(next);
        VisitDeps(g, deps[1..], stack, next)
  }

  ghost function VisitAll(g: Graph, keys: seq<string>, order: seq<string>): (r: seq<string>) {
    if keys == [] then order else VisitAll(g, keys[1..], Visit(g, keys[0], {}, order))
  }

  /** The order in which topological_order lists the packages. */
  ghost function InstallOrder(g: Graph): (r: seq<string>) {
    VisitAll(g, g.keys, [])
  }

  /** Dependencies are visited in the order in which the package lists them, and the package behind all of them. */
  lemma {:induction false} DependenciesInOrder(g: Graph, a: seq<string>, b: seq<string>, stack: set<string>,
      order: seq<string>)
    ensures VisitDeps(g, a + b, stack, order) == VisitDeps(g, b, stack, VisitDeps(g, a, stack, order))
    ensures forall key :: key in g.nodes && key !in order && key !in stack && g.nodes[key].deps == a ==>
      Visit(g, key, stack, order) == VisitDeps(g, a, stack + {key}, order) + [key]
    decreases |a|
  {
    hide Visit;
    if a == [] {
      assert a + b == b;
    } else {
      var dep := Resolve(g, a[0]);
      var next := if dep.None? then order else Visit(g, dep.value, stack, order);
      assert (a + b)[0] == a[0] && (a + b)[1..] == a[1..] + b;
      DependenciesInOrder(g, a[1..], b, stack, next);
    }
    ListedLast(g, a, stack, order);
  }

  lemma {:induction false} ListedLast(g: Graph, deps: seq<string>, stack: set<string>, order: seq<string>)
    ensures forall key :: key in g.nodes && key !in order && key !in stack && g.nodes[key].deps == deps ==>
      Visit(g, key, stack, order) == VisitDeps(g, deps, stack + {key}, order) + [key]
  {
    hide VisitDeps;
  }

  /** One dependency: what it resolves to, unless that is listed or being visited. */
  lemma {:induction false} OneDependency(g: Graph, dep: string, stack: set<string>, order: seq<string>)
    ensures VisitDeps(g, [dep], stack, order) ==
      if Resolve(g, dep).None? then order else Visit(g, Resolve(g, dep).value, stack, order)
    ensures forall key :: key in order || key in stack ==> Visit(g, key, stack, order) == order
  {
    assert [dep][1..] == [];
  }

  /** Packages are visited in the iteration order of the table. */
  lemma {:induction false} KeysInOrder(g: Graph, a: seq<string>, key: string, order: seq<string>)
    ensures VisitAll(g, [], order) == order
    ensures VisitAll(g, a + [key], order) == Visit(g, key, {}, VisitAll(g, a, order))
    decreases |a|
  {
    hide Visit;
    if a == [] {
      assert a + [key] == [key] && [key][1..] == [];
      assert VisitAll(g, [key], order) == VisitAll(g, [], Visit(g, key, {}, order));
    } else {
      assert (a + [key])[1..] == a[1..] + [key];
      KeysInOrder(g, a[1..], key, Visit(g, a[0], {}, order));
    }
  }

  /** The sets and the list that topo_visit updates. */
  class Dfs {
    const g: Graph
    var visited: set<string>
    var inStack: set<string>
    var order: seq<string>

    constructor (g: Graph)
      requires WellFormed(g)
      ensures this.g == g && Valid() && visited == {} && inStack == {} && order == []
    {
      this.g := g;
      visited, inStack, order := {}, {}, [];
    }

    ghost predicate Valid()
      reads this
    {
      && WellFormed(g) && NoRepeats(order)
      && (forall k :: k in order <==> k in visited)
      && visited !! inStack && (forall k :: k in visited || k in inStack ==> k in g.nodes)
      && DependenciesFirst(g, order) && Closed(g, visited, inStack)
    }

    /** Packages not yet touched. */
    ghost function Fresh(): set<string>
      reads this
    {
      g.nodes.Keys - visited - inStack
    }

    /** The inner search of topo_visit: the first key whose package has the name, None when no package has it. */
    method Find(dep: string) returns (r: Option<string>)
      requires WellFormed(g)
      ensures r == Resolve(g, dep)
      ensures r == None <==> forall i :: 0 <= i < |g.keys| ==> g.nodes[g.keys[i]].name != dep
      ensures r.Some? ==> exists i ::
        && 0 <= i < |g.keys| && g.keys[i] == r.value && g.nodes[g.keys[i]].name == dep
        && forall j :: 0 <= j < i ==> g.nodes[g.keys[j]].name != dep
    {
      var i := 0;
      while i < |g.keys|
        invariant 0 <= i <= |g.keys| && forall j :: 0 <= j < i ==> g.nodes[g.keys[j]].name != dep
      {
        if g.nodes[g.keys[i]].name == dep {
          FirstIs(g.keys, g.nodes, dep, i);
          return Some(g.keys[i]);
        }
        i := i + 1;
      }
      NoneNamed(g.keys, g.nodes, dep);
      r := None;
    }

    /** topo_visit: lists, behind their dependencies and once each, exactly the untouched packages
        that untouched packages lead to from key. */
    method TopoVisit(key: string)
      requires Valid() && key in g.nodes && forall x :: x in inStack ==> Reaches(g, x, key)
      modifies this
      ensures Valid() && inStack == old(inStack)
      ensures order == Visit(g, key, old(inStack), old(order))
      ensures forall v :: v in visited <==> v in old(visited) || Avoiding(g, old(visited) + inStack, key, v)
      ensures key in visited || key in inStack
      decreases Fresh(), 0
    {
      hide Avoiding, Edge, WellFormed, Resolve, Closed, DependenciesFirst, NoRepeats;
      ghost var avoid := visited + inStack;
      if key in visited || key in inStack {
        NothingAvoids(g, avoid, key);
        return;
      }
      AvoidsItself(g, avoid, key);
      AvoidsItself(g, {}, key);
      StackGrows(g, visited, inStack, key);
      assert key in Fresh();
      inStack := inStack + {key};
      ghost var stack := inStack;
      var deps := g.nodes[key].deps;
      var i := 0;
      assert deps[0..] == deps;
      while i < |deps|
        invariant 0 <= i <= |deps| && Valid() && inStack == stack && old(visited) <= visited
        invariant VisitDeps(g, deps[i..], stack, order) == VisitDeps(g, deps, stack, old(order))
        invariant forall v :: v in visited && v !in old(visited) ==> Avoiding(g, avoid, key, v)
        invariant forall j :: 0 <= j < i && Resolve(g, deps[j]).Some? ==> Resolve(g, deps[j]).value in visited + inStack
      {
        var dep := Find(deps[i]);
        assert deps[i..][0] == deps[i] && deps[i..][1..] == deps[i + 1..];
        if dep.Some? {
          VisitDependency(key, i, dep.value, avoid);
        }
        i := i + 1;
      }
      Finish(key, avoid);
    }

    /** One turn of the loop over the dependencies. */
    method VisitDependency(key: string, i: nat, dep: string, ghost avoid: set<string>)
      requires Valid() && key in g.nodes && key in inStack && forall x :: x in inStack ==> Reaches(g, x, key)
      requires i < |g.nodes[key].deps| && Resolve(g, g.nodes[key].deps[i]) == Some(dep)
      requires key !in avoid && avoid <= visited + inStack
      modifies this
      ensures Valid() && inStack == old(inStack) && old(visited) <= visited && dep in visited + inStack
      ensures order == Visit(g, dep, old(inStack), old(order))
      ensures forall v :: v in visited && v !in old(visited) ==> Avoiding(g, avoid, key, v)
      decreases Fresh(), 1
    {
      hide Avoiding, Edge, WellFormed, Resolve, Closed, DependenciesFirst, NoRepeats;
      EdgeTo(g, key, i, dep);
      forall x | x in inStack
        ensures Reaches(g, x, dep)
      {
        ReachesOn(g, x, key, dep);
      }
      ghost var before := visited;
      TopoVisit(dep);
      forall v | v in visited && v !in before
        ensures Avoiding(g, avoid, key, v)
      {
        AvoidingVia(g, avoid, before + inStack, key, dep, v);
      }
    }

    /** The last three statements of topo_visit. */
    method Finish(key: string, ghost avoid: set<string>)
      requires Valid() && key in g.nodes && key in inStack && forall x :: x in inStack ==> Reaches(g, x, key)
      requires inStack - {key} <= avoid
      requires
        var deps := g.nodes[key].deps;
        forall j :: 0 <= j < |deps| && Resolve(g, deps[j]).Some? ==> Resolve(g, deps[j]).value in visited + inStack
      modifies this
      ensures Valid() && inStack == old(inStack) - {key} && visited == old(visited) + {key}
      ensures order == old(order) + [key]
      ensures forall v :: Avoiding(g, avoid, key, v) ==> v in visited
    {
      hide Avoiding, Edge, WellFormed, Resolve;
      ListedAfterDependencies(g, order, key, visited, inStack);
      StillClosed(g, visited, inStack, key);
      inStack := inStack - {key};
      visited := visited + {key};
      order := order + [key];
      forall v | Avoiding(g, avoid, key, v)
        ensures v in visited
      {
        ClosedReaches(g, visited, inStack, avoid, key, v);
      }
    }
  }

  lemma {:induction false} NothingAvoids(g: Graph, avoid: set<string>, u: string)
    requires u in avoid
    ensures forall v :: !Avoiding(g, avoid, u, v)
  {
  }

  lemma {:induction false} StackGrows(g: Graph, visited: set<string>, stack: set<string>, key: string)
    requires Closed(g, visited, stack)
    ensures Closed(g, visited, stack + {key})
  {
  }

  lemma {:induction false} StillClosed(g: Graph, visited: set<string>, stack: set<string>, key: string)
    requires Closed(g, visited, stack) && key in stack && key in g.nodes
    requires
      var deps := g.nodes[key].deps;
      forall j :: 0 <= j < |deps| && Resolve(g, deps[j]).Some? ==> Resolve(g, deps[j]).value in visited + stack
    ensures Closed(g, visited + {key}, stack - {key})
  {
    hide Resolve;
  }

  lemma {:induction false} EdgeTo(g: Graph, u: string, i: nat, v: string)
    requires WellFormed(g) && u in g.nodes && i < |g.nodes[u].deps| && Resolve(g, g.nodes[u].deps[i]) == Some(v)
    ensures Edge(g, u, v) && v in g.nodes
  {
  }

  /** A package goes behind its dependencies: those not listed yet are on the stack, and so reach it. */
  lemma {:induction false} ListedAfterDependencies(g: Graph, order: seq<string>, key: string, visited: set<string>,
      stack: set<string>)
    requires DependenciesFirst(g, order) && key in g.nodes && (forall k :: k in order <==> k in visited)
    requires forall x :: x in stack ==> Reaches(g, x, key)
    requires
      var deps := g.nodes[key].deps;
      forall j :: 0 <= j < |deps| && Resolve(g, deps[j]).Some? ==> Resolve(g, deps[j]).value in visited + stack
    ensures DependenciesFirst(g, order + [key])
  {
    hide Reaches, Resolve;
    var longer := order + [key];
    forall i, v | 0 <= i < |longer| && Edge(g, longer[i], v) && !Reaches(g, v, longer[i])
      ensures v in longer[..i]
    {
      if i < |order| {
        assert longer[..i] == order[..i];
      } else {
        assert longer[..i] == order;
      }
    }
  }

  lemma {:induction false} NotAgain(g: Graph, key: string, order: seq<string>)
    requires key in order
    ensures Visit(g, key, {}, order) == order
  {
  }

  lemma {:induction false} NextVisited(g: Graph, i: nat, order: seq<string>)
    requires i < |g.keys|
    ensures VisitAll(g, g.keys[i..], order) == VisitAll(g, g.keys[i + 1..], Visit(g, g.keys[i], {}, order))
  {
    hide Visit;
    assert g.keys[i..][0] == g.keys[i] && g.keys[i..][1..] == g.keys[i + 1..];
  }

  lemma {:induction false} NoneLeft(g: Graph, order: seq<string>)
    ensures VisitAll(g, g.keys[|g.keys|..], order) == order
  {
  }

  /** topological_order: every package exactly once, dependencies before dependents unless they form a cycle. */
  method TopologicalOrder(g: Graph) returns (order: seq<string>)
    requires WellFormed(g)
    ensures NoRepeats(order) && (forall k :: k in order <==> k in g.nodes) && DependenciesFirst(g, order)
    ensures forall i, j :: 0 <= i < j < |order| ==> order[i] != order[j]
    ensures order == InstallOrder(g)
  {
    hide DependenciesFirst, Closed, Avoiding, Visit, VisitAll;
    var dfs := new Dfs(g);
    var i := 0;
    assert g.keys[0..] == g.keys;
    while i < |g.keys|
      invariant 0 <= i <= |g.keys| && dfs.g == g && dfs.Valid() && dfs.inStack == {} && fresh(dfs)
      invariant forall j :: 0 <= j < i ==> g.keys[j] in dfs.visited
      invariant VisitAll(g, g.keys[i..], dfs.order) == InstallOrder(g)
    {
      NextVisited(g, i, dfs.order);
      if g.keys[i] !in dfs.visited {
        dfs.TopoVisit(g.keys[i]);
      } else {
        NotAgain(g, g.keys[i], dfs.order);
      }
      i := i + 1;
    }
    order := dfs.order;
    NoneLeft(g, order);
  }

  // ----- batches -----

  function Concat(parts: seq<seq<string>>): seq<string> {
    if parts == [] then [] else Concat(parts[..|parts| - 1]) + parts[|parts| - 1]
  }

  lemma {:induction false} ConcatSnoc(parts: seq<seq<string>>, last: seq<string>)
    ensures Concat(parts + [last]) == Concat(parts) + last
  {
    assert (parts + [last])[..|parts|] == parts;
  }

  /** Runs of perVm packages, the last one possibly shorter. */
  ghost predicate Runs(parts: seq<seq<string>>, perVm: nat) {
    && (forall i :: 0 <= i < |parts| ==> 0 < |parts[i]| <= perVm)
    && (forall i :: 0 <= i < |parts| - 1 ==> |parts[i]| == perVm)
  }

  /** The greedy loop: the order cut into consecutive runs. */
  method CutIntoRuns(order: seq<string>, perVm: nat) returns (parts: seq<seq<string>>)
    requires perVm > 0
    ensures Concat(parts) == order && Runs(parts, perVm)
    ensures order != [] ==> |parts| > 0 && (|parts| - 1) * perVm < |order|
    ensures order == [] ==> parts == []
  {
    hide Concat;
    parts := [];
    var current: seq<string> := [];
    NoRuns(perVm);
    var i := 0;
    while i < |order|
      invariant 0 <= i <= |order| && |current| < perVm
      invariant Concat(parts) + current == order[..i]
      invariant forall k :: 0 <= k < |parts| ==> |parts[k]| == perVm
    {
      current := current + [order[i]];
      if |current| >= perVm {
        ConcatSnoc(parts, current);
        parts := parts + [current];
        current := [];
      }
      i := i + 1;
    }
    assert order[..i] == order;
    if current != [] {
      ConcatSnoc(parts, current);
      parts := parts + [current];
    }
    RunsCover(parts, perVm);
  }

  lemma {:induction false} NoRuns(perVm: nat)
    ensures Runs([], perVm) && Concat([]) == []
  {
  }

  lemma {:induction false} FullRuns(parts: seq<seq<string>>, perVm: nat)
    requires forall i :: 0 <= i < |parts| ==> |parts[i]| == perVm
    ensures |Concat(parts)| == |parts| * perVm
    decreases |parts|
  {
    if parts != [] {
      FullRuns(parts[..|parts| - 1], perVm);
    }
  }

  /** All runs but the last are full and the last is not empty. */
  lemma {:induction false} RunsCover(parts: seq<seq<string>>, perVm: nat)
    requires Runs(parts, perVm)
    ensures parts == [] <==> Concat(parts) == []
    ensures parts != [] ==> (|parts| - 1) * perVm < |Concat(parts)|
  {
    if parts != [] {
      FullRuns(parts[..|parts| - 1], perVm);
    }
  }

  /** The loop that merges the last two batches while there are too many. */
  method MergeDown(parts: seq<seq<string>>, maxVms: nat) returns (merged: seq<seq<string>>)
    requires maxVms > 0
    ensures Concat(merged) == Concat(parts) && |merged| <= maxVms
    ensures |parts| <= maxVms ==> merged == parts
  {
    merged := parts;
    while |merged| > maxVms
      invariant Concat(merged) == Concat(parts) && (|parts| <= maxVms ==> merged == parts)
      decreases |merged|
    {
      var k := |merged| - 2;
      var last := merged[k + 1];
      var joined := merged[k] + last;
      MergeLastTwo(merged, k);
      merged := merged[..k] + [joined];
    }
  }

  lemma {:induction false} MergeLastTwo(parts: seq<seq<string>>, k: nat)
    requires |parts| == k + 2
    ensures Concat(parts[..k] + [parts[k] + parts[k + 1]]) == Concat(parts)
  {
    ConcatSnoc(parts[..k], parts[k] + parts[k + 1]);
    ConcatSnoc(parts[..k], parts[k]);
    ConcatSnoc(parts[..k + 1], parts[k + 1]);
    assert parts[..k + 1] == parts[..k] + [parts[k]] && parts == parts[..k + 1] + [parts[k + 1]];
  }

  /** Rounded up, so that maxVms runs always hold everything. */
  function PerVm(n: nat, maxVms: nat): nat
    requires maxVms > 0
  {
    (n + maxVms - 1) / maxVms
  }

  /** The least size of which maxVms batches hold n packages. */
  lemma {:induction false} PerVmIsLeast(n: nat, maxVms: nat, size: nat)
    requires maxVms > 0
    ensures n <= PerVm(n, maxVms) * maxVms
    ensures n <= size * maxVms ==> PerVm(n, maxVms) <= size
  {
    RoundedUp(n, maxVms);
    var per := PerVm(n, maxVms);
    assert per * maxVms <= n + maxVms - 1 && (size + 1) * maxVms == size * maxVms + maxVms;
    if n <= size * maxVms && size < per {
      MulOrder(size + 1, per, maxVms);
    }
  }

  lemma {:induction false} RoundedUp(n: nat, maxVms: nat)
    requires maxVms > 0
    ensures n <= PerVm(n, maxVms) * maxVms && (n > 0 ==> PerVm(n, maxVms) > 0)
  {
    var q := (n + maxVms - 1) / maxVms;
    assert n + maxVms - 1 == q * maxVms + (n + maxVms - 1) % maxVms;
  }

  /** Cutting never makes more than maxVms runs: the merge loop has nothing to do. */
  lemma {:induction false} NeverTooMany(n: nat, maxVms: nat, parts: nat)
    requires maxVms > 0 && n > 0 && parts > 0 && (parts - 1) * PerVm(n, maxVms) < n
    ensures parts <= maxVms
  {
    RoundedUp(n, maxVms);
    var per := PerVm(n, maxVms);
    if parts - 1 >= maxVms {
      MulOrder(maxVms, parts - 1, per);
    }
  }

  lemma {:induction false} MulOrder(a: nat, b: nat, c: nat)
    requires a <= b
    ensures c * a <= b * c
  {
    assert b * c == a * c + (b - a) * c;
  }

  /** extract_parallel_subgraphs: the install order in at most maxVms consecutive batches of nearly equal size. */
  method ExtractParallelSubgraphs(g: Graph, maxVms: nat, cores: nat) returns (subgraphs: seq<seq<string>>)
    requires WellFormed(g)
    ensures NoRepeats(Concat(subgraphs)) && (forall k :: k in Concat(subgraphs) <==> k in g.nodes)
    ensures DependenciesFirst(g, Concat(subgraphs)) && Concat(subgraphs) == InstallOrder(g)
    ensures
      var limit := if maxVms == 0 then (if cores / 2 > 1 then cores / 2 else 1) else maxVms;
      var perVm := PerVm(|InstallOrder(g)|, limit);
      && |subgraphs| <= limit && Runs(subgraphs, perVm)
      && (Independent(g, subgraphs) <==> WithinRuns(g, InstallOrder(g), perVm))
  {
    hide DependenciesFirst, NoRepeats, PerVm, InstallOrder, Runs, Independent, WithinRuns;
    var limit := if maxVms == 0 then (if cores / 2 > 1 then cores / 2 else 1) else maxVms;
    var order := TopologicalOrder(g);
    var perVm := PerVm(|order|, limit);
    RoundedUp(|order|, limit);
    var parts: seq<seq<string>> := [];
    if |order| > 0 {
      parts := CutIntoRuns(order, perVm);
      NeverTooMany(|order|, limit, |parts|);
    }
    subgraphs := MergeDown(parts, limit);
    if parts == [] {
      NoRuns(perVm);
    }
    IndependentIff(g, subgraphs, perVm);
  }

  // ----- when the batches are independent -----

  /** No resolved dependency crosses from one batch to another. */
  ghost predicate Independent(g: Graph, parts: seq<seq<string>>) {
    forall a, b, u, v :: 0 <= a < |parts| && 0 <= b < |parts| && u in parts[a] && v in parts[b] && Edge(g, u, v) ==>
      a == b
  }

  /** The run of perVm places that place k is in. */
  function RunOf(k: nat, perVm: nat): nat {
    if perVm == 0 then 0 else k / perVm
  }

  /** The two ends of every resolved dependency stand in the same run of perVm places of the order. */
  ghost predicate WithinRuns(g: Graph, order: seq<string>, perVm: nat) {
    forall i, j :: 0 <= i < |order| && 0 <= j < |order| && Edge(g, order[i], order[j]) ==>
      RunOf(i, perVm) == RunOf(j, perVm)
  }

  lemma {:induction false} Divides(q: nat, r: nat, d: nat)
    requires r < d
    ensures (q * d + r) / d == q && (q * d + r) % d == r
  {
    var n := q * d + r;
    assert n == (n / d) * d + n % d;
    if n / d > q {
      MulOrder(q + 1, n / d, d);
    } else if n / d < q {
      MulOrder(n / d + 1, q, d);
    }
  }

  /** Package j of batch a stands at place a * perVm + j. */
  lemma {:induction false} PlaceOf(parts: seq<seq<string>>, perVm: nat, a: nat, j: nat)
    requires Runs(parts, perVm) && a < |parts| && j < |parts[a]|
    ensures a * perVm + j < |Concat(parts)| && Concat(parts)[a * perVm + j] == parts[a][j]
    ensures RunOf(a * perVm + j, perVm) == a
  {
    BatchOf(parts, a, j);
    FullRuns(parts[..a], perVm);
    Divides(a, j, perVm);
  }

  lemma {:induction false} Locate(parts: seq<seq<string>>, k: nat) returns (a: nat, j: nat)
    requires k < |Concat(parts)|
    ensures a < |parts| && j < |parts[a]| && k == |Concat(parts[..a])| + j
    decreases |parts|
  {
    var m := |parts| - 1;
    var before := |Concat(parts[..m])|;
    if k < before {
      a, j := Locate(parts[..m], k);
      assert parts[..m][..a] == parts[..a];
    } else {
      a, j := m, k - before;
    }
  }

  /** Place k of the order is package k % perVm of batch k / perVm. */
  lemma {:induction false} BatchAt(parts: seq<seq<string>>, perVm: nat, k: nat)
    requires Runs(parts, perVm) && k < |Concat(parts)|
    ensures perVm > 0 && RunOf(k, perVm) == k / perVm && k / perVm < |parts| && k % perVm < |parts[k / perVm]|
    ensures Concat(parts)[k] == parts[k / perVm][k % perVm]
  {
    var a, j := Locate(parts, k);
    BatchOf(parts, a, j);
    FullRuns(parts[..a], perVm);
    Divides(a, j, perVm);
  }

  lemma {:induction false} IndependentWithin(g: Graph, parts: seq<seq<string>>, perVm: nat)
    requires Runs(parts, perVm) && Independent(g, parts)
    ensures WithinRuns(g, Concat(parts), perVm)
  {
    hide Edge, Runs, Concat, RunOf;
    var order := Concat(parts);
    forall i, j | 0 <= i < |order| && 0 <= j < |order| && Edge(g, order[i], order[j])
      ensures RunOf(i, perVm) == RunOf(j, perVm)
    {
      BatchAt(parts, perVm, i);
      BatchAt(parts, perVm, j);
    }
  }

  lemma {:induction false} WithinIndependent(g: Graph, parts: seq<seq<string>>, perVm: nat)
    requires Runs(parts, perVm) && WithinRuns(g, Concat(parts), perVm)
    ensures Independent(g, parts)
  {
    hide Edge, Runs, Concat, RunOf;
    forall a, b, u, v | 0 <= a < |parts| && 0 <= b < |parts| && u in parts[a] && v in parts[b] && Edge(g, u, v)
      ensures a == b
    {
      var x :| 0 <= x < |parts[a]| && parts[a][x] == u;
      var y :| 0 <= y < |parts[b]| && parts[b][y] == v;
      PlaceOf(parts, perVm, a, x);
      PlaceOf(parts, perVm, b, y);
    }
  }

  lemma {:induction false} IndependentIff(g: Graph, parts: seq<seq<string>>, perVm: nat)
    requires Runs(parts, perVm)
    ensures Independent(g, parts) <==> WithinRuns(g, Concat(parts), perVm)
  {
    hide Runs, Independent, WithinRuns;
    if Independent(g, parts) {
      IndependentWithin(g, parts, perVm);
    }
    if WithinRuns(g, Concat(parts), perVm) {
      WithinIndependent(g, parts, perVm);
    }
  }

  /** No dependency crosses batches exactly when the places of both ends of each lie in the same run of the order. */
  lemma {:induction false} IndependentExactly(g: Graph, parts: seq<seq<string>>, perVm: nat)
    requires Runs(parts, perVm) && perVm > 0
    ensures Independent(g, parts) <==> forall a, b, u, v ::
      0 <= a < |parts| && 0 <= b < |parts| && u in parts[a] && v in parts[b] && Edge(g, u, v) ==> a == b
    ensures Independent(g, parts) <==> forall i, j ::
      0 <= i < |Concat(parts)| && 0 <= j < |Concat(parts)| && Edge(g, Concat(parts)[i], Concat(parts)[j]) ==>
        i / perVm == j / perVm
  {
    hide Runs, Edge, Concat;
    IndependentIff(g, parts, perVm);
  }

  /** Everything before a position in batch a is in batches up to a. */
  lemma {:induction false} BatchOf(parts: seq<seq<string>>, a: nat, j: nat)
    requires a < |parts| && j < |parts[a]|
    ensures |Concat(parts[..a])| + |parts[a]| <= |Concat(parts)|
    ensures Concat(parts)[|Concat(parts[..a])| + j] == parts[a][j]
    ensures Concat(parts)[..|Concat(parts[..a])| + |parts[a]|] == Concat(parts[..a]) + parts[a]
    decreases |parts|
  {
    var k := |parts| - 1;
    if a < k {
      BatchOf(parts[..k], a, j);
      assert parts[..k][..a] == parts[..a];
      var cut := |Concat(parts[..a])| + |parts[a]|;
      assert Concat(parts)[..cut] == Concat(parts[..k])[..cut];
    }
  }

  lemma {:induction false} InSomeBatch(parts: seq<seq<string>>, v: string) returns (b: nat)
    requires v in Concat(parts)
    ensures b < |parts| && v in parts[b]
    decreases |parts|
  {
    var k := |parts| - 1;
    if v in parts[k] {
      b := k;
    } else {
      b := InSomeBatch(parts[..k], v);
    }
  }

  /** A dependency that is not part of a cycle with its dependent lies in the same or an earlier batch. */
  lemma {:induction false} SameOrEarlierBatch(g: Graph, parts: seq<seq<string>>, a: nat, u: string, v: string)
    returns (b: nat)
    requires DependenciesFirst(g, Concat(parts)) && a < |parts| && u in parts[a] && Edge(g, u, v) && !Reaches(g, v, u)
    ensures b <= a && v in parts[b]
  {
    hide Edge, Reaches;
    var j :| 0 <= j < |parts[a]| && parts[a][j] == u;
    BatchOf(parts, a, j);
    var at := |Concat(parts[..a])| + j;
    var cut := |Concat(parts[..a])| + |parts[a]|;
    assert v in Concat(parts)[..at];
    assert Concat(parts)[..cut][..at] == Concat(parts)[..at];
    ConcatSnoc(parts[..a], parts[a]);
    b := InSomeBatch(parts[..a] + [parts[a]], v);
  }

  /** Batches are not independent: with two machines, a package and its only dependency are put on different ones. */
  lemma {:induction false} BatchesDepend(g: Graph, parts: seq<seq<string>>)
    requires g == Graph(["a", "b"], map["a" := Package("a", ["b"]), "b" := Package("b", [])])
    requires NoRepeats(Concat(parts)) && (forall k :: k in Concat(parts) <==> k in g.nodes)
    requires DependenciesFirst(g, Concat(parts))
    requires |parts| == 2 && Runs(parts, 1)
    ensures parts == [["b"], ["a"]] && !Independent(g, parts)
  {
    hide Edge, Reaches, Concat;
    OnlyEdge(g);
    var order := Concat(parts);
    TwoParts(parts);
    assert |order| == 2 && "a" in order && "b" in order && order[..0] == [];
    assert order[0] != "a";
    assert parts[0] == ["b"] && parts[1] == ["a"];
    assert "a" in parts[1] && "b" in parts[0];
  }

  lemma {:induction false} TwoParts(parts: seq<seq<string>>)
    requires |parts| == 2
    ensures Concat(parts) == parts[0] + parts[1]
  {
    var none: seq<seq<string>> := [];
    ConcatSnoc(none, parts[0]);
    ConcatSnoc(none + [parts[0]], parts[1]);
    assert parts == none + [parts[0]] + [parts[1]];
  }

  lemma {:induction false} OnlyEdge(g: Graph)
    requires g == Graph(["a", "b"], map["a" := Package("a", ["b"]), "b" := Package("b", [])])
    ensures Edge(g, "a", "b") && !Reaches(g, "b", "a")
  {
    assert g.keys[1..] == ["b"];
    assert FirstNamed(g.keys[1..], g.nodes, "b") == Some("b");
    assert Resolve(g, "b") == Some("b");
    assert g.nodes["a"].deps[0] == "b";
    forall path
      ensures !Joins(g, {}, path, "b", "a")
    {
      assert |path| > 1 ==> !Edge(g, "b", path[0 + 1]);
    }
  }
}
