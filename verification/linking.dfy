/** The batched link algorithm of a linkage: group a batch of parent records by
    join key, issue one child fetch for all the distinct keys, attach every
    fetched record to every parent sharing its key, de-duplicate indirect
    plural relations and give every unmatched parent an explicit empty value.

    Parents are identified by their position in the batch, and the relation
    value of each parent is an explicit slot of the result. */
module Linking {
  import opened Wrappers
  import opened Nodes
  import opened Seqs
  import opened Linkages

  /** The relation slot of one parent: not yet assigned, a singular relation's
      target (`nil` when absent), or a loaded plural relation's list. */
  datatype Slot<R> = Unset | Single(child: Option<R>) | Many(children: seq<R>)

  /** The `id_map` of `link`: the distinct keys in insertion order, and for each
      key the positions of the parents that have it. */
  datatype IdMap<K> = IdMap(keys: seq<K>, groups: map<K, seq<nat>>)

  /** `m` groups the parent keys `ks`: every position lies in exactly the group
      of its own key, and each group lists its positions in input order. */
  ghost predicate GroupedBy<K>(ks: seq<K>, m: IdMap<K>) {
    && (forall k <- m.groups.Keys :: k in m.keys)
    && (forall k <- m.keys :: k in m.groups)
    && (forall k <- m.groups.Keys :: Increasing(m.groups[k]))
    && (forall k <- m.groups.Keys :: forall i <- m.groups[k] :: i < |ks| && ks[i] == k)
    && (forall i :: 0 <= i < |ks| ==> ks[i] in m.groups && i in m.groups[ks[i]])
  }

  /** `id_map[key] << position`, the group being created on first sight of
      the key. */
  function Insert<K(==)>(m: IdMap<K>, k: K, position: nat): IdMap<K> {
    if k in m.groups then IdMap(m.keys, m.groups[k := m.groups[k] + [position]])
    else IdMap(m.keys + [k], m.groups[k := [position]])
  }

  /** Building `id_map`: each parent key in turn is appended to its group. */
  function Group<K(==)>(ks: seq<K>): (m: IdMap<K>)
    ensures m.keys == Uniq(ks)
    ensures GroupedBy(ks, m)
  {
    if |ks| == 0 then IdMap([], map[])
    else
      var m0 := Group(ks[..|ks| - 1]);
      GroupStep(ks, m0);
      Insert(m0, ks[|ks| - 1], |ks| - 1)
  }

  lemma GroupStep<K>(ks: seq<K>, m0: IdMap<K>)
    requires |ks| > 0
    requires GroupedBy(ks[..|ks| - 1], m0)
    ensures GroupedBy(ks, Insert(m0, ks[|ks| - 1], |ks| - 1))
    ensures ks[|ks| - 1] in m0.groups <==> ks[|ks| - 1] in m0.keys
  {
    var n := |ks| - 1;
    var k := ks[n];
    var m := Insert(m0, k, n);
    assert forall i :: 0 <= i < n ==> ks[..n][i] == ks[i];
    forall k' <- m.groups.Keys
      ensures Increasing(m.groups[k'])
      ensures forall i <- m.groups[k'] :: i < |ks| && ks[i] == k'
    {
      if k' == k && k in m0.groups {
        var g0 := m0.groups[k];
        assert m.groups[k'] == g0 + [n];
        assert k in m0.groups.Keys;
        assert forall i <- g0 :: i < |ks[..n]| && ks[..n][i] == k;
        assert forall i <- g0 :: i < n && ks[i] == k;
        assert Increasing(g0);
        forall a | 0 <= a < |g0| ensures g0[a] < n {
          assert g0[a] in g0;
        }
        var g := g0 + [n];
        forall a, b | 0 <= a < b < |g|
          ensures g[a] < g[b]
        {
          assert g[a] == g0[a];
          if b < |g0| {
            assert g[b] == g0[b];
          }
        }
      } else if k' == k {
        assert m.groups[k'] == [n];
      } else {
        var g0 := m0.groups[k'];
        assert m.groups[k'] == g0;
        assert k' in m0.groups.Keys;
        assert forall i <- g0 :: i < |ks[..n]| && ks[..n][i] == k';
      }
    }
    forall i | 0 <= i < |ks|
      ensures ks[i] in m.groups && i in m.groups[ks[i]]
    {
      if i < n && ks[i] != k {
        assert ks[..n][i] == ks[i];
      } else if i < n {
        assert i in m0.groups[k];
      }
    }
  }

  /** The join keys of the parent batch, position by position. */
  function ParentKeys<R, K>(l: Linkage, store: Store<R, K>, parents: seq<R>): (ks: seq<K>)
    ensures |ks| == |parents|
    ensures forall i :: 0 <= i < |parents| ==> ks[i] == ParentId(l, store, parents[i])
  {
    seq(|parents|, i requires 0 <= i < |parents| => ParentId(l, store, parents[i]))
  }

  /** The record attached for a fetched record: for an indirect relation the
      target of the source association on the intermediate record, which may be
      `nil`; otherwise the fetched record itself. */
  function Unwrap<R, K>(l: Linkage, store: Store<R, K>, fetched: R): Option<R> {
    if l.through.Some? then store.target(fetched, l.through.value) else Some(fetched)
  }

  /** The list of a plural slot; a slot not yet loaded counts as empty. */
  function Items<R>(slot: Slot<R>): seq<R> {
    if slot.Many? then slot.children else []
  }

  /** `set_child(parent, child)` on one slot. A singular relation takes the
      (unwrapped) child as its target, `nil` included; a plural relation is
      marked loaded and the child is appended unless it is `nil`. */
  function SetChild<R, K>(l: Linkage, store: Store<R, K>, slot: Slot<R>, child: Option<R>): (r: Slot<R>)
    ensures l.Supported() ==> r != Unset
    ensures (l.macro == BelongsTo || l.macro == HasOne) ==>
      r == Single(if child.Some? then Unwrap(l, store, child.value) else None)
    ensures l.macro == HasMany ==>
      && r.Many?
      && Items(slot) <= r.children
      && |r.children| <= |Items(slot)| + 1
      && (|r.children| == |Items(slot)| + 1 <==> child.Some? && Unwrap(l, store, child.value).Some?)
      && (|r.children| == |Items(slot)| + 1 ==> r.children[|Items(slot)|] == Unwrap(l, store, child.value).value)
    ensures l.macro.OtherMacro? ==> r == slot
  {
    var c := if child.Some? && l.through.Some? then store.target(child.value, l.through.value) else child;
    match l.macro
    case BelongsTo => Single(c)
    case HasOne => Single(c)
    case HasMany => Many(if c.Some? then Items(slot) + [c.value] else Items(slot))
    case OtherMacro(_) => slot
  }

  /** `uniq!` on a plural slot. */
  function Dedup<R(==)>(slot: Slot<R>): Slot<R> {
    match slot
    case Many(xs) => Many(Uniq(xs))
    case _ => slot
  }

  lemma DedupIdempotent<R>(slot: Slot<R>)
    ensures Dedup(Dedup(slot)) == Dedup(slot)
  {
    if slot.Many? {
      UniqIdempotent(slot.children);
    }
  }

  /** The predicate "the fetched record has join key `k`". */
  function Matches<R, K(==)>(l: Linkage, store: Store<R, K>, k: K): R -> bool {
    c => ChildId(l, store, c) == k
  }

  /** Some fetched record among `cs` has join key `k`. */
  predicate Matched<R, K(==)>(l: Linkage, store: Store<R, K>, cs: seq<R>, k: K) {
    Filter(cs, Matches(l, store, k)) != []
  }

  /** The slot of a parent with key `k` after the fetched records `cs` have been
      attached in order, before de-duplication and before unmatched parents are
      assigned. */
  function Attached<R, K(==)>(l: Linkage, store: Store<R, K>, cs: seq<R>, k: K): Slot<R> {
    if |cs| == 0 then Unset
    else
      var before := Attached(l, store, cs[..|cs| - 1], k);
      var c := cs[|cs| - 1];
      if ChildId(l, store, c) == k then SetChild(l, store, before, Some(c)) else before
  }

  /** The unwrapped records of `cs`, skipping those whose unwrapping is `nil`. */
  function Unwrapped<R, K>(l: Linkage, store: Store<R, K>, cs: seq<R>): (r: seq<R>)
    ensures l.through.None? ==> r == cs
  {
    if |cs| == 0 then []
    else
      var rest := Unwrapped(l, store, cs[1..]);
      match Unwrap(l, store, cs[0])
      case Some(x) => [x] + rest
      case None => rest
  }

  /** Unwrapping keeps exactly the non-`nil` unwrapped values. */
  lemma {:induction false} UnwrappedMembers<R, K>(l: Linkage, store: Store<R, K>, cs: seq<R>)
    ensures forall x <- Unwrapped(l, store, cs) :: exists c <- cs :: Unwrap(l, store, c) == Some(x)
    ensures forall c <- cs :: Unwrap(l, store, c).Some? ==> Unwrap(l, store, c).value in Unwrapped(l, store, cs)
  {
    if |cs| > 0 {
      UnwrappedMembers(l, store, cs[1..]);
      assert forall c <- cs :: c == cs[0] || c in cs[1..];
      assert forall c <- cs[1..] :: c in cs;
    }
  }

  lemma {:induction false} UnwrappedConcat<R, K>(l: Linkage, store: Store<R, K>, a: seq<R>, b: seq<R>)
    ensures Unwrapped(l, store, a + b) == Unwrapped(l, store, a) + Unwrapped(l, store, b)
  {
    if |a| > 0 {
      assert (a + b)[1..] == a[1..] + b;
      UnwrappedConcat(l, store, a[1..], b);
    } else {
      assert a + b == b;
    }
  }

  /** The value a parent with join key `k` holds once linking is over, stated
      without reference to the order of the algorithm's steps: a plural
      relation lists the unwrapped matching records in fetch order
      (first occurrences only, when indirect); a singular relation holds the
      unwrapped last matching record, or `nil` when nothing matched. */
  function Expected<R(==), K(==)>(l: Linkage, store: Store<R, K>, children: seq<R>, k: K): (s: Slot<R>)
    ensures (l.macro == BelongsTo || l.macro == HasOne) ==> s.Single?
    ensures l.macro == HasMany ==> s.Many?
    ensures l.macro == HasMany && l.through.Some? ==> NoDup(s.children)
    ensures l.macro.OtherMacro? ==> s == Unset
  {
    var m := Filter(children, Matches(l, store, k));
    match l.macro
    case HasMany =>
      var xs := Unwrapped(l, store, m);
      Many(if l.through.Some? then Uniq(xs) else xs)
    case BelongsTo => Single(if |m| == 0 then None else Unwrap(l, store, m[|m| - 1]))
    case HasOne => Single(if |m| == 0 then None else Unwrap(l, store, m[|m| - 1]))
    case OtherMacro(_) => Unset
  }

  /** One more fetched record changes only the slots of parents with its key. */
  lemma AttachedStep<R, K>(l: Linkage, store: Store<R, K>, cs: seq<R>, j: nat, k: K)
    requires j < |cs|
    ensures Attached(l, store, cs[..j + 1], k) ==
      if ChildId(l, store, cs[j]) == k then SetChild(l, store, Attached(l, store, cs[..j], k), Some(cs[j]))
      else Attached(l, store, cs[..j], k)
    ensures Matched(l, store, cs[..j + 1], k) <==> Matched(l, store, cs[..j], k) || ChildId(l, store, cs[j]) == k
  {
    assert cs[..j + 1][..j] == cs[..j];
    assert cs[..j + 1] == cs[..j] + [cs[j]];
    FilterConcat(cs[..j], [cs[j]], Matches(l, store, k));
  }

  /** The slot built from the matching records `m`: nothing when there are
      none, otherwise the unwrapped matches in order (plural) or the last one
      (singular). */
  function Shape<R, K>(l: Linkage, store: Store<R, K>, m: seq<R>): Slot<R> {
    if |m| == 0 || l.macro.OtherMacro? then Unset
    else if l.macro == HasMany then Many(Unwrapped(l, store, m))
    else Single(Unwrap(l, store, m[|m| - 1]))
  }

  /** One more matching record extends the shape as `set_child` does. */
  lemma ShapeAppend<R, K>(l: Linkage, store: Store<R, K>, m: seq<R>, c: R)
    ensures Shape(l, store, m + [c]) == SetChild(l, store, Shape(l, store, m), Some(c))
  {
    match l.macro
    case HasMany =>
      UnwrappedConcat(l, store, m, [c]);
      assert Items(Shape(l, store, m)) == Unwrapped(l, store, m);
    case BelongsTo =>
      assert (m + [c])[|m + [c]| - 1] == c;
    case HasOne =>
      assert (m + [c])[|m + [c]| - 1] == c;
    case OtherMacro(_) =>
  }

  /** Attaching in fetch order leaves a parent with the slot built from its
      matching records. */
  lemma {:induction false} AttachedShape<R, K>(l: Linkage, store: Store<R, K>, cs: seq<R>, k: K)
    ensures Attached(l, store, cs, k) == Shape(l, store, Filter(cs, Matches(l, store, k)))
  {
    if |cs| > 0 {
      var n := |cs| - 1;
      var init := cs[..n];
      var c := cs[n];
      var p := Matches(l, store, k);
      assert cs == init + [c];
      FilterConcat(init, [c], p);
      AttachedShape(l, store, init, k);
      if p(c) {
        assert Filter([c], p) == [c];
        ShapeAppend(l, store, Filter(init, p), c);
      } else {
        assert Filter([c], p) == [];
        assert Filter(cs, p) == Filter(init, p);
      }
    }
  }

  /** Linking step by step (attach in fetch order, de-duplicate indirect plural
      slots of matched parents, assign `nil` to unmatched ones) yields the
      value `Expected` describes. */
  lemma StepsMeetExpected<R, K>(l: Linkage, store: Store<R, K>, cs: seq<R>, k: K)
    ensures var a := Attached(l, store, cs, k);
      (if Matched(l, store, cs, k) then
         (if l.macro == HasMany && l.through.Some? then Dedup(a) else a)
       else SetChild(l, store, a, None))
      == Expected(l, store, cs, k)
  {
    AttachedShape(l, store, cs, k);
  }

  /** What `link` returns: the fetched records, the slot of every parent, and
      the fetch requests issued, in order. */
  datatype LinkOutcome<R, K> = LinkOutcome(children: seq<R>, slots: seq<Slot<R>>, fetches: seq<FetchRequest<K>>)

  /** The inner loop of the attach step: `set_child(parent, child)` for every
      parent position of one group, recording each as visited. */
  method AttachToGroup<R, K>(l: Linkage, store: Store<R, K>, slots: seq<Slot<R>>, visited: seq<nat>,
                             group: seq<nat>, child: R)
    returns (slots': seq<Slot<R>>, visited': seq<nat>)
    requires Increasing(group)
    requires forall p <- group :: p < |slots|
    requires forall v <- visited :: v < |slots|
    ensures |slots'| == |slots|
    ensures forall v <- visited' :: v < |slots|
    ensures forall i :: 0 <= i < |slots| ==>
      slots'[i] == if i in group then SetChild(l, store, slots[i], Some(child)) else slots[i]
    ensures forall i :: 0 <= i < |slots| ==> (i in visited' <==> i in visited || i in group)
  {
    slots' := slots;
    visited' := visited;
    var g := 0;
    while g < |group|
      invariant 0 <= g <= |group|
      invariant |slots'| == |slots|
      invariant forall v <- visited' :: v < |slots|
      invariant forall i :: 0 <= i < |slots| ==>
        slots'[i] == if i in group[..g] then SetChild(l, store, slots[i], Some(child)) else slots[i]
      invariant forall i :: 0 <= i < |slots| ==> (i in visited' <==> i in visited || i in group[..g])
    {
      var p := group[g];
      assert p in group;
      assert p !in group[..g];
      assert group[..g + 1] == group[..g] + [p];
      visited' := visited' + [p];
      slots' := slots'[p := SetChild(l, store, slots'[p], Some(child))];
      g := g + 1;
    }
    assert group[..g] == group;
  }

  /** `id_map[key]`: the positions grouped under `key`, none for a key no
      parent has. */
  function GroupOf<K>(m: IdMap<K>, key: K): seq<nat> {
    if key in m.groups then m.groups[key] else []
  }

  /** The group of a key lists, in increasing order, exactly the positions of
      the parents with that key. */
  lemma GroupOfKey<K>(keys: seq<K>, m: IdMap<K>, key: K)
    requires GroupedBy(keys, m)
    ensures Increasing(GroupOf(m, key))
    ensures forall p <- GroupOf(m, key) :: p < |keys|
    ensures forall i :: 0 <= i < |keys| ==> (i in GroupOf(m, key) <==> keys[i] == key)
  {
  }

  /** The attach step of `link`: every fetched record, in fetch order, is
      attached to every parent of its key's group. */
  method AttachAll<R, K(==)>(l: Linkage, store: Store<R, K>, keys: seq<K>, idMap: IdMap<K>, children: seq<R>)
    returns (slots: seq<Slot<R>>, visited: seq<nat>)
    requires GroupedBy(keys, idMap)
    ensures |slots| == |keys|
    ensures forall v <- visited :: v < |keys|
    ensures forall i :: 0 <= i < |keys| ==> slots[i] == Attached(l, store, children, keys[i])
    ensures forall i :: 0 <= i < |keys| ==> (i in visited <==> Matched(l, store, children, keys[i]))
  {
    slots := seq(|keys|, _ => Unset);
    visited := [];
    var j := 0;
    while j < |children|
      invariant 0 <= j <= |children|
      invariant |slots| == |keys|
      invariant forall v <- visited :: v < |keys|
      invariant forall i :: 0 <= i < |keys| ==> slots[i] == Attached(l, store, children[..j], keys[i])
      invariant forall i :: 0 <= i < |keys| ==> (i in visited <==> Matched(l, store, children[..j], keys[i]))
    {
      var child := children[j];
      var id := ChildId(l, store, child);
      var group := GroupOf(idMap, id);
      GroupOfKey(keys, idMap, id);
      forall i | 0 <= i < |keys|
        ensures Attached(l, store, children[..j + 1], keys[i]) ==
          if keys[i] == id then SetChild(l, store, Attached(l, store, children[..j], keys[i]), Some(child))
          else Attached(l, store, children[..j], keys[i])
        ensures Matched(l, store, children[..j + 1], keys[i]) <==>
          Matched(l, store, children[..j], keys[i]) || keys[i] == id
      {
        AttachedStep(l, store, children, j, keys[i]);
      }
      slots, visited := AttachToGroup(l, store, slots, visited, group, child);
      j := j + 1;
    }
    assert children[..j] == children;
  }

  /** `parent.send(name).uniq!` for every visited parent. Visiting a parent
      twice is harmless because de-duplication is idempotent. */
  method DedupVisited<R(==)>(slots: seq<Slot<R>>, visited: seq<nat>) returns (slots': seq<Slot<R>>)
    requires forall v <- visited :: v < |slots|
    ensures |slots'| == |slots|
    ensures forall i :: 0 <= i < |slots| ==> slots'[i] == if i in visited then Dedup(slots[i]) else slots[i]
  {
    slots' := slots;
    var v := 0;
    while v < |visited|
      invariant 0 <= v <= |visited|
      invariant |slots'| == |slots|
      invariant forall i :: 0 <= i < |slots| ==> slots'[i] == if i in visited[..v] then Dedup(slots[i]) else slots[i]
    {
      var p := visited[v];
      assert p in visited;
      DedupIdempotent(slots[p]);
      assert visited[..v + 1] == visited[..v] + [p];
      slots' := slots'[p := Dedup(slots'[p])];
      v := v + 1;
    }
    assert visited[..v] == visited;
  }

  /** `(parents - visited).each {|parent| set_child(parent, nil) }`. */
  method AssignUnvisited<R, K>(l: Linkage, store: Store<R, K>, slots: seq<Slot<R>>, visited: seq<nat>)
    returns (slots': seq<Slot<R>>)
    ensures |slots'| == |slots|
    ensures forall i :: 0 <= i < |slots| ==>
      slots'[i] == if i in visited then slots[i] else SetChild(l, store, slots[i], None)
  {
    slots' := slots;
    var i := 0;
    while i < |slots|
      invariant 0 <= i <= |slots|
      invariant |slots'| == |slots|
      invariant forall x :: 0 <= x < |slots| ==>
        slots'[x] == if x < i && x !in visited then SetChild(l, store, slots[x], None) else slots[x]
    {
      if i !in visited {
        slots' := slots'[i := SetChild(l, store, slots'[i], None)];
      }
      i := i + 1;
    }
  }

  /** `link(parents)`. An empty batch returns at once without fetching.
      Otherwise exactly one fetch is issued, for the distinct parent keys in
      first-seen order, the fetched records are returned, and every parent
      ends up with the value `Expected` describes for its own key. */
  method Link<R(==), K(==)>(l: Linkage, store: Store<R, K>, parents: seq<R>) returns (out: LinkOutcome<R, K>)
    ensures |parents| == 0 ==> out == LinkOutcome([], [], [])
    ensures |parents| > 0 ==>
      && out.fetches == [Request(l, Uniq(ParentKeys(l, store, parents)))]
      && out.children == store.fetch(out.fetches[0])
    ensures |out.slots| == |parents|
    ensures forall i :: 0 <= i < |parents| ==>
      out.slots[i] == Expected(l, store, out.children, ParentId(l, store, parents[i]))
  {
    if |parents| == 0 {
      return LinkOutcome([], [], []);
    }
    var keys := ParentKeys(l, store, parents);
    var idMap := Group(keys);
    var request := Request(l, idMap.keys);
    var children := store.fetch(request);

    var slots, visited := AttachAll(l, store, keys, idMap, children);
    if l.macro == HasMany && l.through.Some? {
      slots := DedupVisited(slots, visited);
    }
    slots := AssignUnvisited(l, store, slots, visited);

    forall x | 0 <= x < |parents|
      ensures slots[x] == Expected(l, store, children, keys[x])
    {
      StepsMeetExpected(l, store, children, keys[x]);
    }
    return LinkOutcome(children, slots, [request]);
  }

  /** Key-correct matching for a plural relation: a parent's list holds a record
      exactly when it is the unwrapped value of some fetched record with the
      parent's key. */
  lemma ManyHoldsExactlyTheMatches<R, K>(l: Linkage, store: Store<R, K>, children: seq<R>, k: K)
    requires l.macro == HasMany
    ensures forall x <- Expected(l, store, children, k).children ::
      exists c <- children :: ChildId(l, store, c) == k && Unwrap(l, store, c) == Some(x)
    ensures forall c <- children :: ChildId(l, store, c) == k && Unwrap(l, store, c).Some? ==>
      Unwrap(l, store, c).value in Expected(l, store, children, k).children
  {
    var p := Matches(l, store, k);
    var m := Filter(children, p);
    var xs := Unwrapped(l, store, m);
    UnwrappedMembers(l, store, m);
    forall c <- children | ChildId(l, store, c) == k && Unwrap(l, store, c).Some?
      ensures Unwrap(l, store, c).value in Expected(l, store, children, k).children
    {
      var j :| 0 <= j < |children| && children[j] == c;
      assert c in m;
      assert Unwrap(l, store, c).value in xs;
    }
    forall x <- Expected(l, store, children, k).children
      ensures exists c <- children :: ChildId(l, store, c) == k && Unwrap(l, store, c) == Some(x)
    {
      assert x in xs;
      var c :| c in m && Unwrap(l, store, c) == Some(x);
      var j :| 0 <= j < |m| && m[j] == c;
    }
  }

  /** A singular relation holds the unwrapped LAST fetched record with the
      parent's key (the last write wins), and `nil` when none has it. */
  lemma SingleHoldsLastMatch<R, K>(l: Linkage, store: Store<R, K>, children: seq<R>, k: K, j: nat)
    requires l.macro == BelongsTo || l.macro == HasOne
    requires j < |children| && ChildId(l, store, children[j]) == k
    requires forall j' :: j < j' < |children| ==> ChildId(l, store, children[j']) != k
    ensures Expected(l, store, children, k) == Single(Unwrap(l, store, children[j]))
  {
    var p := Matches(l, store, k);
    var before := children[..j + 1];
    var after := children[j + 1..];
    assert children == before + after;
    FilterConcat(before, after, p);
    assert before == children[..j] + [children[j]];
    FilterConcat(children[..j], [children[j]], p);
  }

  lemma SingleIsNilWithoutMatch<R, K>(l: Linkage, store: Store<R, K>, children: seq<R>, k: K)
    requires l.macro == BelongsTo || l.macro == HasOne
    requires forall j :: 0 <= j < |children| ==> ChildId(l, store, children[j]) != k
    ensures Expected(l, store, children, k) == Single(None)
  {
  }

  /** A direct plural relation keeps the fetch order and every duplicate row:
      the lists for two consecutive fetch results concatenate, and each record
      occurs as often as among the fetched records with the parent's key. */
  lemma DirectManyKeepsFetchOrder<R, K>(l: Linkage, store: Store<R, K>, a: seq<R>, b: seq<R>, k: K, x: R)
    requires l.macro == HasMany && l.through.None?
    ensures Expected(l, store, a + b, k).children ==
      Expected(l, store, a, k).children + Expected(l, store, b, k).children
    ensures multiset(Expected(l, store, a, k).children)[x] ==
      if ChildId(l, store, x) == k then multiset(a)[x] else 0
  {
    FilterConcat(a, b, Matches(l, store, k));
    FilterMultiplicity(a, Matches(l, store, k), x);
  }

  /** An indirect plural relation lists each record once, at the position of
      its first arrival, among the values the attach step appended. */
  lemma ThroughManyKeepsFirstArrivals<R, K>(l: Linkage, store: Store<R, K>, children: seq<R>, k: K)
    requires l.macro == HasMany && l.through.Some?
    ensures var raw := Items(Attached(l, store, children, k));
      var xs := Expected(l, store, children, k).children;
      && NoDup(xs)
      && (forall x <- xs :: x in raw)
      && (forall x <- raw :: x in xs)
      && (forall i, j :: 0 <= i < j < |xs| ==> FirstIndex(raw, xs[i]) < FirstIndex(raw, xs[j]))
  {
    AttachedShape(l, store, children, k);
    UniqKeepsFirstOccurrenceOrder(Items(Attached(l, store, children, k)));
  }
}
