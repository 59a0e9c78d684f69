# data_graph core, modelled in Dafny

This project models the core of `data_graph`, a Ruby library that eagerly loads
a tree of ActiveRecord associations. It issues one query per association per
level and then links the fetched children back to their parents. It also
checks requested read paths and write payloads against named access subsets.

Two pieces are modelled:

- **Linkage** (`linkage.dfy`, `linking.dfy`). One edge of the fetch tree.
  - Construction dispatches on the association macro. `belongs_to` joins its
    foreign key to the target's reference key. `has_many`/`has_one` join the
    other way round. When indirect ("through"), they are re-targeted at the
    intermediate association, and the caller's options are pushed down onto
    the included source association. Any other macro is an error.
  - `node` exposes the nested node of an indirect association.
  - `parent_id`/`child_id` read only the first join column.
  - `inherit` narrows the child node on a copy, prefixing paths with the
    through name.
  - `link` groups the parent batch by join key, issues one fetch for the
    distinct keys, and attaches each fetched record to every parent with its
    key. Plural indirect lists are then de-duplicated. Every unmatched parent
    is given `nil` explicitly.

  The algorithm is written as a method with loops (`Linking.Link`). Its result
  is proved equal, parent by parent, to a declarative reference definition
  (`Linking.Expected`): the matching records in fetch order, unwrapped through
  the intermediate record when indirect. A plural relation keeps all of them,
  de-duplicated when indirect. A singular relation keeps the last one, or
  `nil`.

- **Graph** (`graph.dfy`). The facade around a root node.
  - Constructor alias merge and the `:default` subset.
  - Alias resolution: one-level substitution, then flatten, then `uniq`.
  - The subset registry: `register` and `subset` with its fallback to
    `:default`.
  - `validate` and `validate_attrs`. Each reports every inaccessible path, in
    request order, in one `InaccessiblePathError`.

Supporting modules:

- `wrappers.dfy`: `Option`/`Result`.
- `seqs.dfy`: Ruby's `select`, `uniq`, `flatten` and `Array#-` on sequences,
  with their lemmas.
- `nodes.dfy`: option hashes, and nodes as construction terms.
- `scenarios.dfy`: concrete cases. These are the composite-key associations of
  the library's test, and an indirect association whose join rows reach the
  same target twice.

Abstractions:

- Records, the database and the ORM are parameters. A `Store` bundles three
  functions:
  - `fetch`: from the full request (node, select, conditions, order, limit,
    group, readonly) to the ordered rows;
  - `read`: the stored value of a column, which may be a tuple for a
    composite key;
  - `target`: the record loaded for a named association of a fetched record,
    or none when that association holds no record.
- Join keys are an opaque type compared by equality.
- Parents are identified by their position in the batch. The relation value
  of each parent is an explicit slot:
  - `Unset`;
  - `Single(Option<record>)` for `belongs_to`/`has_one`;
  - `Many(seq<record>)` for a loaded `has_many`.
- What a node computes is outside this model, and so is what the key helpers
  compute. This covers aliases, `get_paths`, `set_paths`, `nest_paths`,
  `patherize_attrs`, `foreign_key` and `reference_key`. These are inputs:
  fields of `Reflection`, and the functions of `Graphs.NodeViews`.

## Model

| member | source | states |
|---|---|---|
| Linkages.NewLinkage | lib/data_graph/linkage.rb:21-54 | Succeeds exactly for `belongs_to`, `has_one` and `has_many`. Any other macro fails with "currently unsupported association macro: " and the macro's name. `belongs_to` takes the foreign key as parent columns and the reference key as child columns. `has_*` swaps the two, and when indirect uses the intermediate association's keys and records the source name. order/limit/group/readonly come from the options when direct, and are nil when indirect because the wrapped options carry none. |
| Linkages.ThroughLinkageCarriesOptions | lib/data_graph/linkage.rb:31-36 | An indirect linkage's child node is built on the intermediate class. Its options select no column (`only => []`) and include the source association with exactly the caller's options. The node it exposes is the child node nested at the source name. |
| Linkages.NodeOf | lib/data_graph/linkage.rb:56-58 | The exposed node is the child node itself when direct. When indirect, it is the child node's nested node for the through name. |
| Linkages.InheritedPathsInvertible | lib/data_graph/linkage.rb:147 | Prefixing with `"<through>."` loses nothing: each original path is the suffix after the prefix. |
| Linkages.Inherit | lib/data_graph/linkage.rb:142-150 | Only the child node changes. It becomes the old child node narrowed by `only` or `except`, as asked. Its paths are the given ones when direct. When indirect, each path is `through + "." + path`, one per given path in order. |
| Linkages.IdsReadFirstColumnOnly | lib/data_graph/linkage.rb:60-66 | Parent and child keys depend only on the first entry of each column list. |
| Linkages.Request | lib/data_graph/linkage.rb:68-70 | The fetch goes to the child node, selects the child columns, and restricts the first child column to exactly the keys given. |
| Linking.Group | lib/data_graph/linkage.rb:107-110 | The keys of `id_map` are the distinct parent keys in first-seen order. Every parent position is in the group of its own key and in no other. Each group lists its positions in input order. |
| Linking.SetChild | lib/data_graph/linkage.rb:158-173 | A singular relation holds the child, unwrapped through the intermediate record when indirect, `nil` included. A plural relation becomes loaded, keeps its list as a prefix, and grows by one element exactly when the unwrapped child is not `nil`; that element is the unwrapped child. Any other macro leaves the slot alone. |
| Linking.Expected | lib/data_graph/linkage.rb:120-137 | The reference value of a parent's slot is never unset for a supported macro. It is singular for `belongs_to`/`has_one` and plural for `has_many`. It is free of duplicates for an indirect `has_many`. |
| Linking.AttachedStep | lib/data_graph/linkage.rb:122-127 | Attaching one more fetched record changes exactly the slots whose key equals that record's key. It makes those parents count as visited. |
| Linking.AttachedShape | lib/data_graph/linkage.rb:122-127 | Attaching the fetched records in order leaves a parent with the slot built from its matching records: all of them unwrapped (plural) or the last one unwrapped (singular). |
| Linking.StepsMeetExpected | lib/data_graph/linkage.rb:120-137 | The three steps of `link` produce the reference value: attach, then `uniq!` on visited parents of an indirect `has_many`, then `set_child(nil)` on unvisited parents. |
| Linking.GroupOfKey | lib/data_graph/linkage.rb:123 | `id_map[child_id(child)]` lists, in increasing order, exactly the positions of the parents whose key equals the child's key; it is empty for a key no parent has. |
| Linking.AttachToGroup | lib/data_graph/linkage.rb:123-126 | `set_child` is applied to exactly the parents of the child's group and each is recorded as visited. Other slots are unchanged. |
| Linking.AttachAll | lib/data_graph/linkage.rb:120-127 | After the attach loop, each slot is the in-order attachment of the fetched records with the parent's key. A parent is visited exactly when some fetched record has its key. |
| Linking.DedupVisited | lib/data_graph/linkage.rb:129-133 | Exactly the visited parents' slots are de-duplicated. Visiting a parent twice does no harm. |
| Linking.AssignUnvisited | lib/data_graph/linkage.rb:135-137 | Exactly the parents never visited receive `set_child(nil)`. |
| Linking.Link | lib/data_graph/linkage.rb:103-140 | An empty batch returns no records and issues no fetch. Otherwise exactly one fetch is issued, for the distinct parent keys in first-seen order, and its records are returned. Every parent ends with the reference value for its own key. |
| Linking.UnwrappedMembers | lib/data_graph/linkage.rb:159-169 | The values attached for an indirect relation are exactly the non-`nil` targets of the fetched intermediate records. |
| Linking.ManyHoldsExactlyTheMatches | lib/data_graph/linkage.rb:122-127 | A plural slot holds a record exactly when it is the unwrapped value of some fetched record whose key equals the parent's key. |
| Linking.SingleHoldsLastMatch | lib/data_graph/linkage.rb:163-165 | A singular slot holds the unwrapped last fetched record with the parent's key: the last write wins. |
| Linking.SingleIsNilWithoutMatch | lib/data_graph/linkage.rb:135-137 | A singular relation with no matching record is `nil`, not unset. |
| Linking.DirectManyKeepsFetchOrder | lib/data_graph/linkage.rb:166-169 | A direct plural list keeps fetch order and is not de-duplicated. Lists for concatenated fetch results concatenate. Each record occurs exactly as often as among the fetched records with the parent's key. |
| Linking.ThroughManyKeepsFirstArrivals | lib/data_graph/linkage.rb:129-133 | An indirect plural list has no duplicates and holds the same records as the attached list. Each record sits in the order of its first arrival. |
| Linking.DedupIdempotent | lib/data_graph/linkage.rb:131 | `uniq!` applied twice is `uniq!` applied once. |
| Seqs.Uniq | lib/data_graph/graph.rb:146 | `uniq` leaves no duplicates and keeps exactly the input's elements. |
| Seqs.UniqKeepsFirstOccurrenceOrder | lib/data_graph/graph.rb:146 | `uniq` orders its survivors by their first occurrence in the input. |
| Seqs.Minus | lib/data_graph/graph.rb:170 | `a - b` holds only elements of `a` not in `b`, and each such element of `a` as often as it occurs in `a`. It is empty exactly when every element of `a` is in `b`. A one-element `a` is kept or dropped whole. |
| Seqs.MinusConcat | lib/data_graph/graph.rb:170 | `a - b` is taken element by element: the difference of a concatenation is the concatenation of the differences, so the survivors keep the order of `a`. |
| Seqs.MinusMultiplicity | lib/data_graph/graph.rb:170 | An element not in `b` occurs in `a - b` as often as in `a`. |
| Graphs.Resolve | lib/data_graph/graph.rb:143-148 | The resolved paths contain no duplicates. |
| Seqs.FlattenMembers | lib/data_graph/graph.rb:145 | An element is in the flattened list exactly when it is in one of the parts. |
| Graphs.ResolveMembers | lib/data_graph/graph.rb:143-145 | A path is resolved exactly when it lies in the expansion of some requested path: an alias's expansion, or the path itself when it is not an alias. |
| Graphs.ResolveKeepsFirstOccurrenceOrder | lib/data_graph/graph.rb:146-147 | The resolved paths keep the order of their first occurrence in the flattened expansions. |
| Graphs.ResolveIsOneLevel | lib/data_graph/graph.rb:144 | Expansions are not resolved again. With `a => [b]` and `b => [c]`, `a` resolves to `b`, not to `c`. |
| Graphs.ResolveIdempotent | lib/data_graph/graph.rb:143-148 | When no expansion names an alias, resolving twice equals resolving once. |
| Graphs.MergeAliases | lib/data_graph/graph.rb:86-88 | The constructor's aliases are the node's aliases. Any alias given in the options overrides the node's alias of the same name, and the result has the names of both. |
| Graphs.Register | lib/data_graph/graph.rb:152-158 | `register(type, nil)` removes only `type` and returns what was registered there, or `nil`. `register(type, paths)` sets only `type`, to the graph over `node.only(resolve(paths))`, and returns it. The node, the aliases and every other entry are unchanged. |
| Graphs.RegisterThenUnregister | lib/data_graph/graph.rb:152-158 | Unregistering right after registering removes just that entry and returns the subset that was registered. |
| Graphs.RegisterAllLastWins | lib/data_graph/graph.rb:90-94 | The constructor's subset entries are registered in order, so the last entry for a name decides it: `nil` paths leave the name unregistered, other paths register the graph over `node.only(resolve(paths))`. |
| Graphs.RegisterAllKeepsOthers | lib/data_graph/graph.rb:90-94 | A name that no constructor entry gives keeps the entry it had before registration, or stays absent. |
| Graphs.NewGraph | lib/data_graph/graph.rb:82-95 | A new graph wraps the node and has the merged aliases. `:default` is the only entry not given in the options, and it maps to the graph itself. |
| Graphs.Narrowed | lib/data_graph/graph.rb:132-140 | `only`/`except` build a fresh graph over the node narrowed by the resolved paths. It has that node's aliases and only the default subset. |
| Graphs.SubsetOf | lib/data_graph/graph.rb:162-164 | `subset(type)` returns the entry registered for `type`, otherwise the `:default` entry. It fails, with a runtime error rather than an inaccessible-path error, exactly when both are missing. |
| Graphs.DefaultSubsetFallback | lib/data_graph/graph.rb:84 | A fresh graph without subset options answers every name with itself. Once `:default` is unregistered, every other unregistered name fails. |
| Graphs.Check | lib/data_graph/graph.rb:170-175 | Succeeds, returning the given value, exactly when every path is allowed. Otherwise it reports an `InaccessiblePathError` holding every disallowed path and nothing else. |
| Graphs.Validate | lib/data_graph/graph.rb:169-176 | A failed subset lookup is passed on. Otherwise the paths are returned unchanged exactly when the subset's `get_paths` contain them all. If not, the error carries `paths - get_paths`, in request order and without alias resolution. |
| Graphs.ValidateAttrs | lib/data_graph/graph.rb:181-190 | As `Validate`, but against the subset's `set_paths`, over the paths derived from the payload with the graph's own `nest_paths`. The payload is returned unchanged on success. |
| Graphs.ValidateReportsAllInOrder | lib/data_graph/graph.rb:194-200 | The error reports every offending path, not the first one. Validating `a + b` reports the report for `a` followed by the report for `b`. |
| Scenarios.CompositeBelongsTo | test/data_graph_test.rb:90-112 | For `belongs_to :cpk_two` (foreign key `p`, primary key `q`) over the three `one` rows, the distinct keys fetched are 1, 2, 3. The parents with `p` = 1, 2, 3 get the `two` rows with `q` = 1, 2, 3. |
| Scenarios.CompositeHasMany | test/data_graph_test.rb:90-112 | For `has_many :cpk_twos` on the pair `(x, y)`, the parents' keys are their `(a, b)` pairs in row order, and each parent gets only the row whose pair equals its `(a, b)`. A pair with no row gets an empty loaded list. |
| Scenarios.ThroughManyDeduplicates | lib/data_graph/linkage.rb:129-133 | An indirect plural relation whose join rows reach the same target twice lists it once, before the later target. A join row whose source association holds no record adds nothing (see `Linking.Unwrap` under Left out). |
| Scenarios.DirectManyKeepsDuplicates | lib/data_graph/linkage.rb:129-133 | The direct relation over the same rows keeps every row. |

## Left out

- `find`, `paginate`, the SQL text of the conditions and column quoting (linkage.rb:69), and connections. The fetch is the abstract `Store.fetch` of the full request.
- Linkages.Request: the IN-list holds the distinct keys as opaque values. Ruby's `id_map.keys.flatten` also splices array-valued (composite) keys into their components. That is a detail of the SQL parameters, which the opaque key type does not expose.
- order/limit/group/readonly and the association conditions are carried into the request unchanged and not interpreted.
- Node internals (policy computation, `only`/`except` semantics, `[]`, `get_paths`/`set_paths`/`nest_paths`, aliases). Neither they nor Utils (`foreign_key`, `reference_key`, `patherize_attrs`) are part of this model. They enter as inputs.
- The descent into the child node after a fetch, which lives in the node code.
- Memoization of `paths`, `get_paths`, `set_paths`, `nest_paths` and `aliases` (graph.rb:98-120). It is caching only.
- `arrayify` (linkage.rb:154-156): parents and fetched records are always sequences here.
- Record identity. Parents are identified by position. A batch containing the same record object twice gets one slot per position, where Ruby would attach to the one object twice. `parents - visited` and `uniq!` use Ruby's `eql?`/`hash`; here they are value equality.
- The `association_proxy.loaded` flag is the `Many` slot itself. `set_#{name}_target` is the `Single` slot.
- Error messages: the raised string for an unknown subset is modelled as `"no such subset: :" + name`, which is what `inspect` gives for a symbol key. String keys, and the message text of `InaccessiblePathError`, are not modelled; only its path list is.
- Graphs.ResolveIdempotent: proved only when no alias expansion names another alias. `resolve` substitutes once (graph.rb:144), so idempotence needs such expansions; `Graphs.ResolveIsOneLevel` is the counterexample otherwise.
- Linking.Unwrap: a fetched intermediate record whose source association holds no record is modelled as a `nil` target, which attaches nothing. In Ruby, `child.send(through)` then returns `nil` and `.target` on it raises `NoMethodError` (linkage.rb:159-161); that error is not modelled.
- Graphs.Resolve: alias expansions and requested paths are flat lists of path strings. Ruby's `flatten!` (graph.rb:145) flattens nested arrays of any depth, so a nested array inside an alias expansion or a request would also be spliced in; the model's types cannot express such nesting.
- JSON serialization in the test file, and the eager-loading probe test, which exercises ActiveRecord rather than this library.
- Composite keys in the scenarios: a composite column pair is written as one column name (`a_b`, `x_y`) whose stored value is the pair. This stands for whatever the key helpers return for a composite key.
