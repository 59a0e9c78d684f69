/** The vocabulary shared by linkages and graphs: names and paths, the Ruby
    hashes used for options and write payloads, and nodes.

    A node's internals (policy computation, `only`/`except`, the `[]` lookup
    of a nested node, `find`) are not part of this model. A node is therefore
    represented by the way it was built, as a term: two nodes are the same
    exactly when they were built by the same steps from the same
    configuration. */
module Nodes {

  /** A model class, relation, column or symbol name. */
  type Name = string

  /** A dotted path such as "job.name". */
  type Path = string

  /** A Ruby value as it appears in an options hash or a write payload. Hash
      keys are symbols or strings, written here by their name. */
  datatype Value =
    | Nil
    | Bool(b: bool)
    | Int(i: int)
    | Str(s: string)
    | List(items: seq<Value>)
    | Hash(entries: map<Name, Value>)

  /** An options hash such as `{:only => [...], :include => {...}}`. */
  type Options = map<Name, Value>

  /** `options[key]`, which is `nil` for a missing key. */
  function Lookup(options: Options, key: Name): (v: Value)
    ensures key !in options ==> v == Nil
    ensures key in options ==> v == options[key]
  {
    if key in options then options[key] else Nil
  }

  /** The two narrowing messages a linkage forwards to its child node. */
  datatype Narrowing = OnlyPaths | ExceptPaths

  /** A node, identified by its construction. */
  datatype Node =
    | NewNode(klass: Name, options: Options)     // Node.new(klass, options)
    | Only(base: Node, paths: seq<Path>)         // base.only(paths)
    | Except(base: Node, paths: seq<Path>)       // base.except(paths)
    | Nested(base: Node, relation: Name)         // base[relation]

  /** `node.send(method_name, paths)` for the two narrowing messages. */
  function Narrow(n: Node, how: Narrowing, paths: seq<Path>): (r: Node)
    ensures r.Only? || r.Except?
    ensures r.base == n && r.paths == paths
    ensures r.Only? <==> how == OnlyPaths
  {
    match how
    case OnlyPaths => Only(n, paths)
    case ExceptPaths => Except(n, paths)
  }
}
