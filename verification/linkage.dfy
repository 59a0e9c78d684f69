/** A linkage is one edge of the fetch tree: an association of the parent
    model, the join columns on each side, an optional intermediate ("through")
    hop, and the child node that fetches the associated records. */
module Linkages {
  import opened Wrappers
  import opened Nodes

  /** The association macro. Only the first three are supported. */
  datatype Macro = BelongsTo | HasOne | HasMany | OtherMacro(symbol: Name)

  /** What the association reflection of the host ORM reports about one
      association. `foreignKey` and `referenceKey` are the column lists the
      library's key helpers compute for it; how they compute them is not part
      of this model. */
  datatype Reflection = Reflection(
    macro: Macro,
    name: Name,
    foreignKey: seq<Name>,
    referenceKey: seq<Name>,
    klass: Name,
    tableName: Name,
    conditions: Option<string>,
    through: Option<ThroughHop>)

  /** The `through_reflection` of an indirect association, together with the
      name of its `source_reflection`. */
  datatype ThroughHop = ThroughHop(reflection: Reflection, sourceName: Name)

  datatype Linkage = Linkage(
    macro: Macro,
    name: Name,
    through: Option<Name>,
    tableName: Name,
    parentColumns: seq<Name>,
    childColumns: seq<Name>,
    childNode: Node,
    order: Value,
    limit: Value,
    group: Value,
    readonly: Value,
    assocConditions: Option<string>)
  {
    /** The macro is one the constructor accepts. */
    predicate Supported() {
      !macro.OtherMacro?
    }
  }

  const UnsupportedMacroMessage := "currently unsupported association macro: "

  /** The options of the intermediate node of a through association: select no
      column of the intermediate record and include the source association,
      configured by the caller's options. */
  function ThroughOptions(source: Name, options: Options): Options {
    map["only" := List([]), "include" := Hash(map[source := Hash(options)])]
  }

  /** `options[:include][name]`, when that is a hash. */
  function IncludedOptions(options: Options, name: Name): Option<Options> {
    match Lookup(options, "include")
    case Hash(included) =>
      if name in included && included[name].Hash? then Some(included[name].entries) else None
    case _ => None
  }

  /** `Linkage.new(assoc, options)`: dispatch on the macro. A `belongs_to`
      joins its foreign key to the target's reference key; `has_many` and
      `has_one` join the other way round, and when indirect they are
      re-targeted at the intermediate association, with the caller's options
      pushed down to the included source association. Any other macro raises. */
  function NewLinkage(assoc: Reflection, options: Options): (r: Result<Linkage, string>)
    ensures r.Success? <==> !assoc.macro.OtherMacro?
    ensures assoc.macro.OtherMacro? ==> r == Failure(UnsupportedMacroMessage + assoc.macro.symbol)
    ensures r.Success? ==> r.value.Supported() && r.value.macro == assoc.macro && r.value.name == assoc.name
    ensures assoc.macro == BelongsTo ==>
      && r.value.parentColumns == assoc.foreignKey
      && r.value.childColumns == assoc.referenceKey
      && r.value.through == None
    ensures (assoc.macro == HasMany || assoc.macro == HasOne) && assoc.through.None? ==>
      && r.value.parentColumns == assoc.referenceKey
      && r.value.childColumns == assoc.foreignKey
      && r.value.through == None
    ensures (assoc.macro == HasMany || assoc.macro == HasOne) && assoc.through.Some? ==>
      && r.value.parentColumns == assoc.through.value.reflection.referenceKey
      && r.value.childColumns == assoc.through.value.reflection.foreignKey
      && r.value.through == Some(assoc.through.value.sourceName)
    ensures r.Success? && r.value.through.None? ==>
      && r.value.childNode == NewNode(assoc.klass, options)
      && r.value.tableName == assoc.tableName
      && r.value.order == Lookup(options, "order")
      && r.value.limit == Lookup(options, "limit")
      && r.value.group == Lookup(options, "group")
      && r.value.readonly == Lookup(options, "readonly")
    ensures r.Success? && r.value.through.Some? ==>
      && r.value.order == Nil && r.value.limit == Nil
      && r.value.group == Nil && r.value.readonly == Nil
  {
    match assoc.macro
    case BelongsTo =>
      Success(Build(assoc, None, assoc, options, assoc.foreignKey, assoc.referenceKey))
    case HasMany | HasOne =>
      if assoc.through.Some? then
        var hop := assoc.through.value;
        var wrapped := ThroughOptions(hop.sourceName, options);
        Success(Build(assoc, Some(hop.sourceName), hop.reflection, wrapped,
                      hop.reflection.referenceKey, hop.reflection.foreignKey))
      else
        Success(Build(assoc, None, assoc, options, assoc.referenceKey, assoc.foreignKey))
    case OtherMacro(symbol) =>
      Failure(UnsupportedMacroMessage + symbol)
  }

  /** The field assignments shared by every supported macro: macro and name come
      from the original association, everything else from `target` (the
      intermediate association when indirect). */
  function Build(assoc: Reflection, through: Option<Name>, target: Reflection, options: Options,
                 parentColumns: seq<Name>, childColumns: seq<Name>): Linkage
  {
    Linkage(
      assoc.macro, assoc.name, through, target.tableName, parentColumns, childColumns,
      NewNode(target.klass, options),
      Lookup(options, "order"), Lookup(options, "limit"),
      Lookup(options, "group"), Lookup(options, "readonly"),
      match target.conditions
      case Some(c) => Some(" AND " + c)
      case None => None)
  }

  /** For an indirect association the fetch goes to the intermediate model,
      which selects none of its own columns and carries the caller's
      configuration, unchanged, on the included source association; the node
      exposed for the association is that nested one. */
  lemma ThroughLinkageCarriesOptions(assoc: Reflection, options: Options)
    requires assoc.macro == HasMany || assoc.macro == HasOne
    requires assoc.through.Some?
    ensures NewLinkage(assoc, options).Success?
    ensures var l := NewLinkage(assoc, options).value;
      && l.childNode.NewNode?
      && l.childNode.klass == assoc.through.value.reflection.klass
      && Lookup(l.childNode.options, "only") == List([])
      && IncludedOptions(l.childNode.options, assoc.through.value.sourceName) == Some(options)
      && NodeOf(l) == Nested(l.childNode, assoc.through.value.sourceName)
  {
  }

  /** `node`: the node holding the associated records, which for an indirect
      association is nested one level below the intermediate node. */
  function NodeOf(l: Linkage): (n: Node)
    ensures l.through.None? ==> n == l.childNode
    ensures l.through.Some? ==> n.Nested? && n.base == l.childNode && n.relation == l.through.value
  {
    if l.through.Some? then Nested(l.childNode, l.through.value) else l.childNode
  }

  /** The paths forwarded to the child node by `inherit`: prefixed with the
      through name and a dot when the association is indirect. */
  function InheritedPaths(through: Option<Name>, paths: seq<Path>): (r: seq<Path>)
    ensures |r| == |paths|
    ensures through.None? ==> r == paths
    ensures through.Some? ==> forall i :: 0 <= i < |r| ==>
      && |r[i]| == |through.value| + 1 + |paths[i]|
      && r[i][..|through.value|] == through.value
      && r[i][|through.value|] == '.'
  {
    match through
    case None => paths
    case Some(t) => seq(|paths|, i requires 0 <= i < |paths| => t + "." + paths[i])
  }

  /** Prefixing loses nothing: the original path is the suffix after the
      through name and the dot, so distinct path lists stay distinct. */
  lemma InheritedPathsInvertible(through: Option<Name>, paths: seq<Path>)
    ensures forall i :: 0 <= i < |paths| ==>
      var p := InheritedPaths(through, paths)[i];
      match through
      case None => p == paths[i]
      case Some(t) => p[|t| + 1..] == paths[i]
  {
  }

  /** `inherit(method_name, paths)`: a copy of the linkage whose child node is
      narrowed by `method_name` over the inherited paths. Because linkages are
      values here, the original is unchanged, which is what `inherit` promises
      by duplicating before `inherit!`. */
  function Inherit(l: Linkage, how: Narrowing, paths: seq<Path>): (r: Linkage)
    ensures r == l.(childNode := r.childNode)
    ensures r.childNode.Only? || r.childNode.Except?
    ensures r.childNode.Only? <==> how == OnlyPaths
    ensures r.childNode.base == l.childNode && |r.childNode.paths| == |paths|
    ensures l.through.None? ==> r.childNode.paths == paths
    ensures l.through.Some? ==> forall i :: 0 <= i < |paths| ==>
      var p := r.childNode.paths[i];
      var t := l.through.value;
      |p| == |t| + 1 + |paths[i]| && p[..|t|] == t && p[|t|] == '.' && p[|t| + 1..] == paths[i]
  {
    InheritedPathsInvertible(l.through, paths);
    l.(childNode := Narrow(l.childNode, how, InheritedPaths(l.through, paths)))
  }

  /** `Array#at(0)`: the first column, or nil for an empty list. */
  function First(columns: seq<Name>): Option<Name> {
    if |columns| == 0 then None else Some(columns[0])
  }

  /** The `conditions` of the batched child fetch: the first child join column
      of the child table restricted to the given keys, and-ed with the
      association's own conditions. */
  datatype Conditions<K> = Conditions(table: Name, column: Option<Name>, keys: seq<K>, extra: Option<string>)

  /** The arguments of the one `find(:all, ...)` issued per batch. */
  datatype FetchRequest<K> = FetchRequest(
    node: Node,
    select: seq<Name>,
    conditions: Conditions<K>,
    order: Value,
    limit: Value,
    group: Value,
    readonly: Value)

  /** The record store and the record accessors, which the model does not look
      inside. `read` is `read_attribute_before_type_cast` and returns the join
      key as stored, possibly a tuple for a composite column; `target` reads
      the record loaded for an association of a fetched record. */
  datatype Store<!R, !K> = Store(
    fetch: FetchRequest<K> -> seq<R>,
    read: (R, Option<Name>) -> K,
    target: (R, Name) -> Option<R>)

  /** `parent_id`: the join key of a parent record. */
  function ParentId<R, K>(l: Linkage, store: Store<R, K>, record: R): K {
    store.read(record, First(l.parentColumns))
  }

  /** `child_id`: the join key of a fetched record. */
  function ChildId<R, K>(l: Linkage, store: Store<R, K>, record: R): K {
    store.read(record, First(l.childColumns))
  }

  /** Only the first entry of each column list is read: linkages that agree on
      it compute the same keys whatever the remaining entries are. */
  lemma IdsReadFirstColumnOnly<R, K>(l1: Linkage, l2: Linkage, store: Store<R, K>, record: R)
    requires |l1.parentColumns| > 0 && |l2.parentColumns| > 0
    requires |l1.childColumns| > 0 && |l2.childColumns| > 0
    requires l1.parentColumns[0] == l2.parentColumns[0]
    requires l1.childColumns[0] == l2.childColumns[0]
    ensures ParentId(l1, store, record) == ParentId(l2, store, record)
    ensures ChildId(l1, store, record) == ChildId(l2, store, record)
  {
  }

  /** The request issued for the distinct parent keys `keys`. */
  function Request<K>(l: Linkage, keys: seq<K>): (q: FetchRequest<K>)
    ensures q.node == l.childNode && q.select == l.childColumns
    ensures q.conditions.keys == keys && q.conditions.column == First(l.childColumns)
  {
    FetchRequest(
      l.childNode, l.childColumns,
      Conditions(l.tableName, First(l.childColumns), keys, l.assocConditions),
      l.order, l.limit, l.group, l.readonly)
  }
}
