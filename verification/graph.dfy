/** The graph facade around a root node: alias resolution, the registry of
    named subsets, and validation of read paths and write payloads against a
    subset.

    What a node computes (its aliases, its readable and assignable paths, the
    nested path structure used to flatten write payloads) is done by node code
    that is not part of this model; the facade receives it as `NodeViews`. */
module Graphs {
  import opened Wrappers
  import opened Nodes
  import opened Seqs

  /** An alias name mapped to the paths it stands for, a flat list. */
  type Aliases = map<Path, seq<Path>>

  /** The node-side views the facade reads. `patherize` flattens a nested
      write payload into dotted paths, guided by a node's nested paths. */
  datatype NodeViews = NodeViews(
    aliases: Node -> Aliases,
    getPaths: Node -> seq<Path>,
    setPaths: Node -> seq<Path>,
    nestPaths: Node -> Value,
    patherize: (Value, Value) -> seq<Path>)

  /** A registered subset: the graph itself, or the graph built over a
      narrowed node (a graph made without options is determined by its node). */
  datatype Subset = Itself | SubGraph(node: Node)

  datatype Graph = Graph(node: Node, aliases: Aliases, subsets: map<Name, Subset>)

  /** `raise "..."` and `InaccessiblePathError`, which carries every offending
      path. */
  datatype Error = RuntimeError(message: string) | InaccessiblePathError(paths: seq<Path>)

  const DefaultSubset: Name := "default"

  /** `aliases[path] || path`, as a list. */
  function Expansion(aliases: Aliases, path: Path): seq<Path> {
    if path in aliases then aliases[path] else [path]
  }

  function Expansions(aliases: Aliases, paths: seq<Path>): (ex: seq<seq<Path>>)
    ensures |ex| == |paths|
    ensures forall i :: 0 <= i < |paths| ==> ex[i] == Expansion(aliases, paths[i])
  {
    seq(|paths|, i requires 0 <= i < |paths| => Expansion(aliases, paths[i]))
  }

  /** `resolve(paths)`: every path is replaced by its alias expansion, if it
      has one, and the result is flattened and freed of duplicates, first
      occurrences first. Expansions are not themselves resolved. */
  function Resolve(aliases: Aliases, paths: seq<Path>): (r: seq<Path>)
    ensures NoDup(r)
  {
    Uniq(Flatten(Expansions(aliases, paths)))
  }

  /** A path is in the resolution exactly when it is in the expansion of some
      requested path: an alias's whole expansion, or the path itself when it
      is not an alias. */
  lemma ResolveMembers(aliases: Aliases, paths: seq<Path>, q: Path)
    ensures q in Resolve(aliases, paths) <==> exists p <- paths :: q in Expansion(aliases, p)
  {
    var ex := Expansions(aliases, paths);
    var flat := Flatten(ex);
    var r := Uniq(flat);
    assert q in r <==> q in flat by {
      if q in r {
        var i :| 0 <= i < |r| && r[i] == q;
      }
      if q in flat {
        var i :| 0 <= i < |flat| && flat[i] == q;
      }
    }
    FlattenMembers(ex, q);
    if q in flat {
      var i :| 0 <= i < |ex| && q in ex[i];
      assert paths[i] in paths;
    }
    if exists p <- paths :: q in Expansion(aliases, p) {
      var p :| p in paths && q in Expansion(aliases, p);
      var i :| 0 <= i < |paths| && paths[i] == p;
      assert q in ex[i];
    }
  }

  /** Resolution keeps first occurrences: the resolved paths appear in the
      order in which they first occur in the flattened expansions. */
  lemma ResolveKeepsFirstOccurrenceOrder(aliases: Aliases, paths: seq<Path>)
    ensures var flat := Flatten(Expansions(aliases, paths));
      var r := Resolve(aliases, paths);
      forall i, j :: 0 <= i < j < |r| ==> FirstIndex(flat, r[i]) < FirstIndex(flat, r[j])
  {
    UniqKeepsFirstOccurrenceOrder(Flatten(Expansions(aliases, paths)));
  }

  /** Resolution substitutes one level only: an alias whose expansion names
      another alias resolves to that name, not to the second expansion. */
  lemma ResolveIsOneLevel()
    ensures Resolve(map["a" := ["b"], "b" := ["c"]], ["a"]) == ["b"]
    ensures Resolve(map["a" := ["b"], "b" := ["c"]], ["b"]) == ["c"]
  {
  }

  /** Resolving twice gives what resolving once gives, provided no expansion
      names an alias; without that proviso it fails (see `ResolveIsOneLevel`). */
  lemma ResolveIdempotent(aliases: Aliases, paths: seq<Path>)
    requires forall a <- aliases.Keys :: forall q <- aliases[a] :: q !in aliases
    ensures Resolve(aliases, Resolve(aliases, paths)) == Resolve(aliases, paths)
  {
    var r := Resolve(aliases, paths);
    forall q <- r
      ensures q !in aliases
    {
      ResolveMembers(aliases, paths, q);
    }
    FlattenSingletons(Expansions(aliases, r), r);
    UniqOfNoDup(r);
  }

  /** The constructor's alias table: the node's aliases, overridden key by key
      by the ones given in the options. */
  function MergeAliases(base: Aliases, given: Option<Aliases>): (merged: Aliases)
    ensures given.None? ==> merged == base
    ensures given.Some? ==> merged.Keys == base.Keys + given.value.Keys
    ensures given.Some? ==> forall a <- given.value.Keys :: merged[a] == given.value[a]
    ensures forall a <- base.Keys :: (given.None? || a !in given.value) ==> merged[a] == base[a]
  {
    match given
    case None => base
    case Some(overrides) => base + overrides
  }

  /** What `register` returns besides the updated graph: the new subset, or
      the entry it removed (`nil` if there was none). */
  datatype Registered = Registered(graph: Graph, returned: Option<Subset>)

  /** `register(type, paths)`: `nil` paths remove the entry for `type`; other
      paths register the subset `only(paths)` under it. No other entry, nor
      the node or aliases, changes. */
  function Register(g: Graph, kind: Name, paths: Option<seq<Path>>): (r: Registered)
    ensures r.graph.node == g.node && r.graph.aliases == g.aliases
    ensures forall t :: t != kind ==>
      && (t in r.graph.subsets <==> t in g.subsets)
      && (t in g.subsets ==> r.graph.subsets[t] == g.subsets[t])
    ensures paths.None? ==> kind !in r.graph.subsets
    ensures paths.None? ==> r.returned == if kind in g.subsets then Some(g.subsets[kind]) else None
    ensures paths.Some? ==>
      && kind in r.graph.subsets
      && r.graph.subsets[kind] == SubGraph(Only(g.node, Resolve(g.aliases, paths.value)))
      && r.returned == Some(r.graph.subsets[kind])
  {
    match paths
    case None =>
      var removed := if kind in g.subsets then Some(g.subsets[kind]) else None;
      Registered(g.(subsets := g.subsets - {kind}), removed)
    case Some(ps) =>
      var sub := SubGraph(Only(g.node, Resolve(g.aliases, ps)));
      Registered(g.(subsets := g.subsets[kind := sub]), Some(sub))
  }

  /** Unregistering undoes registering: the entry is gone, every other entry
      is as before, and the subset just registered is what comes back. */
  lemma RegisterThenUnregister(g: Graph, kind: Name, paths: seq<Path>)
    ensures var added := Register(g, kind, Some(paths));
      var removed := Register(added.graph, kind, None);
      && removed.graph == g.(subsets := g.subsets - {kind})
      && removed.returned == added.returned
  {
  }

  /** The subset entries given to the constructor are registered in order. */
  function RegisterAll(g: Graph, entries: seq<(Name, Option<seq<Path>>)>): Graph {
    if |entries| == 0 then g
    else
      var n := |entries| - 1;
      Register(RegisterAll(g, entries[..n]), entries[n].0, entries[n].1).graph
  }

  /** No entry names `t`. */
  predicate NotGiven(entries: seq<(Name, Option<seq<Path>>)>, t: Name) {
    forall i :: 0 <= i < |entries| ==> entries[i].0 != t
  }

  /** Registering the constructor's entries leaves the entry of a name no
      entry gives as it was. */
  lemma {:induction false} RegisterAllKeepsOthers(g: Graph, entries: seq<(Name, Option<seq<Path>>)>, t: Name)
    requires NotGiven(entries, t)
    ensures t in RegisterAll(g, entries).subsets <==> t in g.subsets
    ensures t in g.subsets ==> RegisterAll(g, entries).subsets[t] == g.subsets[t]
  {
    if |entries| > 0 {
      var n := |entries| - 1;
      assert NotGiven(entries[..n], t);
      RegisterAllKeepsOthers(g, entries[..n], t);
    }
  }

  /** The last entry for a name decides it: removed for `nil` paths, otherwise
      the subset over the node narrowed to the resolved paths. */
  lemma {:induction false} RegisterAllLastWins(g: Graph, entries: seq<(Name, Option<seq<Path>>)>, i: nat)
    requires i < |entries|
    requires forall j :: i < j < |entries| ==> entries[j].0 != entries[i].0
    ensures entries[i].1.None? ==> entries[i].0 !in RegisterAll(g, entries).subsets
    ensures entries[i].1.Some? ==>
      && entries[i].0 in RegisterAll(g, entries).subsets
      && RegisterAll(g, entries).subsets[entries[i].0] == SubGraph(Only(g.node, Resolve(g.aliases, entries[i].1.value)))
  {
    var n := |entries| - 1;
    var prefix := entries[..n];
    if i < n {
      assert prefix[i] == entries[i];
      RegisterAllLastWins(g, prefix, i);
    } else {
      assert NotGiven([], entries[i].0);
    }
    RegisterAllKeepsNodeAndAliases(g, prefix);
  }

  lemma {:induction false} RegisterAllKeepsNodeAndAliases(g: Graph, entries: seq<(Name, Option<seq<Path>>)>)
    ensures RegisterAll(g, entries).node == g.node && RegisterAll(g, entries).aliases == g.aliases
  {
    if |entries| > 0 {
      RegisterAllKeepsNodeAndAliases(g, entries[..|entries| - 1]);
    }
  }

  /** `Graph.new(node, options)`: the alias table is merged, `:default` maps
      to the graph itself, and the given subsets are registered. */
  function NewGraph(node: Node, views: NodeViews, aliases: Option<Aliases>,
                    subsets: seq<(Name, Option<seq<Path>>)>): (g: Graph)
    ensures g.node == node
    ensures g.aliases == MergeAliases(views.aliases(node), aliases)
    ensures forall t :: NotGiven(subsets, t) ==>
      (t in g.subsets <==> t == DefaultSubset) && (t in g.subsets ==> g.subsets[t] == Itself)
  {
    var g0 := Graph(node, MergeAliases(views.aliases(node), aliases), map[DefaultSubset := Itself]);
    RegisterAllKeepsNodeAndAliases(g0, subsets);
    assert forall t :: NotGiven(subsets, t) ==>
      (t in RegisterAll(g0, subsets).subsets <==> t in g0.subsets)
      && (t in g0.subsets ==> RegisterAll(g0, subsets).subsets[t] == g0.subsets[t]) by {
      forall t | NotGiven(subsets, t)
        ensures t in RegisterAll(g0, subsets).subsets <==> t in g0.subsets
        ensures t in g0.subsets ==> RegisterAll(g0, subsets).subsets[t] == g0.subsets[t]
      {
        RegisterAllKeepsOthers(g0, subsets, t);
      }
    }
    RegisterAll(g0, subsets)
  }

  /** `only(paths)` / `except(paths)`: a new graph over the narrowed node, the
      paths resolved through this graph's aliases first. */
  function Narrowed(g: Graph, views: NodeViews, how: Narrowing, paths: seq<Path>): (r: Graph)
    ensures r.node == Narrow(g.node, how, Resolve(g.aliases, paths))
    ensures r.aliases == views.aliases(r.node)
    ensures r.subsets == map[DefaultSubset := Itself]
  {
    NewGraph(Narrow(g.node, how, Resolve(g.aliases, paths)), views, None, [])
  }

  /** `subset(type)`: the entry registered for `type`, else the default entry;
      an error only when both are missing. */
  function SubsetOf(g: Graph, kind: Name): (r: Result<Subset, Error>)
    ensures r.Failure? <==> kind !in g.subsets && DefaultSubset !in g.subsets
    ensures kind in g.subsets ==> r == Success(g.subsets[kind])
    ensures kind !in g.subsets && DefaultSubset in g.subsets ==> r == Success(g.subsets[DefaultSubset])
    ensures r.Failure? ==> r.error.RuntimeError?
  {
    if kind in g.subsets then Success(g.subsets[kind])
    else if DefaultSubset in g.subsets then Success(g.subsets[DefaultSubset])
    else Failure(RuntimeError("no such subset: :" + kind))
  }

  /** A fresh graph without subset options answers every lookup with itself;
      once its default entry is unregistered, every unregistered name fails. */
  lemma DefaultSubsetFallback(node: Node, views: NodeViews, aliases: Option<Aliases>, t: Name)
    ensures SubsetOf(NewGraph(node, views, aliases, []), t) == Success(Itself)
    ensures t != DefaultSubset ==>
      SubsetOf(Register(NewGraph(node, views, aliases, []), DefaultSubset, None).graph, t).Failure?
  {
  }

  /** The node of a subset graph. */
  function SubsetNode(g: Graph, s: Subset): Node {
    match s
    case Itself => g.node
    case SubGraph(n) => n
  }

  /** The paths of `paths` that `allowed` does not contain, in input order,
      reported all together. */
  function Check<T>(paths: seq<Path>, allowed: seq<Path>, value: T): (r: Result<T, Error>)
    ensures r.Success? <==> forall p <- paths :: p in allowed
    ensures r.Success? ==> r.value == value
    ensures r.Failure? ==> r.error.InaccessiblePathError?
    ensures r.Failure? ==> forall p <- r.error.paths :: p in paths && p !in allowed
    ensures r.Failure? ==> forall p <- paths :: p !in allowed ==> p in r.error.paths
  {
    var inaccessible := Minus(paths, allowed);
    if inaccessible == [] then Success(value) else Failure(InaccessiblePathError(inaccessible))
  }

  /** `validate(type, paths)`: the paths are returned unchanged when the
      subset can read all of them; otherwise every unreadable path is
      reported. Aliases are not applied. */
  function Validate(g: Graph, views: NodeViews, kind: Name, paths: seq<Path>): (r: Result<seq<Path>, Error>)
    ensures SubsetOf(g, kind).Failure? ==> r == Failure(SubsetOf(g, kind).error)
    ensures SubsetOf(g, kind).Success? ==>
      var allowed := views.getPaths(SubsetNode(g, SubsetOf(g, kind).value));
      && (r.Success? <==> forall p <- paths :: p in allowed)
      && (r.Success? ==> r.value == paths)
      && (r.Failure? ==> r.error == InaccessiblePathError(Minus(paths, allowed)))
  {
    var s :- SubsetOf(g, kind);
    Check(paths, views.getPaths(SubsetNode(g, s)), paths)
  }

  /** The write paths of a payload, flattened with the graph's own nested
      paths (not the subset's). */
  function AttrPaths(g: Graph, views: NodeViews, attrs: Value): seq<Path> {
    views.patherize(attrs, views.nestPaths(g.node))
  }

  /** `validate_attrs(type, attrs)`: the payload is returned unchanged when the
      subset can assign every path in it; otherwise every unassignable path is
      reported. */
  function ValidateAttrs(g: Graph, views: NodeViews, kind: Name, attrs: Value): (r: Result<Value, Error>)
    ensures SubsetOf(g, kind).Failure? ==> r == Failure(SubsetOf(g, kind).error)
    ensures SubsetOf(g, kind).Success? ==>
      var allowed := views.setPaths(SubsetNode(g, SubsetOf(g, kind).value));
      var paths := AttrPaths(g, views, attrs);
      && (r.Success? <==> forall p <- paths :: p in allowed)
      && (r.Success? ==> r.value == attrs)
      && (r.Failure? ==> r.error == InaccessiblePathError(Minus(paths, allowed)))
  {
    var paths := AttrPaths(g, views, attrs);
    var s :- SubsetOf(g, kind);
    Check(paths, views.setPaths(SubsetNode(g, s)), attrs)
  }

  /** The error lists every offending path, not only the first, in request
      order: validating a concatenated request reports the concatenation of
      the two reports. */
  lemma ValidateReportsAllInOrder(g: Graph, views: NodeViews, kind: Name, a: seq<Path>, b: seq<Path>)
    requires SubsetOf(g, kind).Success?
    requires Validate(g, views, kind, a).Failure? || Validate(g, views, kind, b).Failure?
    ensures Validate(g, views, kind, a + b).Failure?
    ensures Validate(g, views, kind, a + b).error.paths ==
      Reported(Validate(g, views, kind, a)) + Reported(Validate(g, views, kind, b))
  {
    var allowed := views.getPaths(SubsetNode(g, SubsetOf(g, kind).value));
    MinusConcat(a, b, allowed);
    if Validate(g, views, kind, a).Failure? {
      var p :| p in a && p !in allowed;
      assert p in a + b;
    } else {
      var p :| p in b && p !in allowed;
      assert p in a + b;
    }
  }

  /** The paths an outcome reports as inaccessible, none for a success. */
  function Reported<T>(r: Result<T, Error>): seq<Path> {
    if r.Failure? && r.error.InaccessiblePathError? then r.error.paths else []
  }
}
