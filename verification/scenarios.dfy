/** Concrete linking scenarios over a small two-table schema with composite
    keys, and over an indirect association whose intermediate rows reach the
    same target twice. */
module Scenarios {
  import opened Wrappers
  import opened Nodes
  import opened Linkages
  import opened Linking
  import opened Seqs

  /** Rows of table `one` (primary key `(a, b)`, column `p`), of table `two`
      (columns `x`, `y`, primary key `q`), and of a join table `via` whose
      source association `target` points at a row of `two`. */
  datatype Row =
    | One(a: int, b: int, p: int)
    | Two(x: int, y: int, q: int)
    | Via(owner: int, target: Option<Row>)

  /** The stored value of a join column; the composite columns `a_b` and `x_y`
      read as pairs. */
  function ReadColumn(r: Row, column: Option<Name>): seq<int> {
    if column == Some("p") && r.One? then [r.p]
    else if column == Some("a_b") && r.One? then [r.a, r.b]
    else if column == Some("q") && r.Two? then [r.q]
    else if column == Some("x_y") && r.Two? then [r.x, r.y]
    else if column == Some("owner") && r.Via? then [r.owner]
    else []
  }

  function SourceTarget(r: Row, source: Name): Option<Row> {
    if r.Via? && source == "target" then r.target else None
  }

  function Ones(): seq<Row> {
    [One(1, 1, 1), One(1, 2, 2), One(2, 1, 3)]
  }

  function Twos(): seq<Row> {
    [Two(1, 1, 3), Two(1, 2, 2), Two(2, 1, 1)]
  }

  /** A store whose fetch answers with the given rows. */
  function FixedStore(rows: seq<Row>): Store<Row, seq<int>> {
    Store(_ => rows, ReadColumn, SourceTarget)
  }

  function CpkTwo(): Reflection {
    Reflection(BelongsTo, "cpk_two", ["p"], ["q"], "CpkTwo", "two", None, None)
  }

  function CpkTwos(): Reflection {
    Reflection(HasMany, "cpk_twos", ["x_y"], ["a_b"], "CpkTwo", "two", None, None)
  }

  /** The parents' keys for `cpk_two` are their `p` values. */
  lemma OnesKeys(l: Linkage)
    requires l.parentColumns == ["p"]
    ensures ParentKeys(l, FixedStore(Twos()), Ones()) == [[1], [2], [3]]
  {
  }

  /** Read on the pair `(a, b)`, the `one` rows give the keys in row order. */
  lemma OnesPairs(l: Linkage)
    requires l.parentColumns == ["a_b"]
    ensures ParentKeys(l, FixedStore(Twos()), Ones()) == [[1, 1], [1, 2], [2, 1]]
  {
  }

  /** `belongs_to :cpk_two, :primary_key => :q, :foreign_key => :p`: one
      fetch for the keys 1, 2, 3, and each parent gets the row whose `q`
      equals its `p`. */
  lemma CompositeBelongsTo()
    ensures var l := NewLinkage(CpkTwo(), map[]);
      && l.Success?
      && Uniq(ParentKeys(l.value, FixedStore(Twos()), Ones())) == [[1], [2], [3]]
      && Expected(l.value, FixedStore(Twos()), Twos(), [1]) == Single(Some(Two(2, 1, 1)))
      && Expected(l.value, FixedStore(Twos()), Twos(), [2]) == Single(Some(Two(1, 2, 2)))
      && Expected(l.value, FixedStore(Twos()), Twos(), [3]) == Single(Some(Two(1, 1, 3)))
  {
    var l := NewLinkage(CpkTwo(), map[]).value;
    OnesKeys(l);
    assert NoDup([[1], [2], [3]]);
    UniqOfNoDup([[1], [2], [3]]);
    RowByPrimaryKey(l, 2);
    RowByPrimaryKey(l, 1);
    RowByPrimaryKey(l, 0);
  }

  /** A `belongs_to` joined on `q` picks, for the key `[q]`, the one `two`
      row with that primary key. */
  lemma RowByPrimaryKey(l: Linkage, j: nat)
    requires l.macro == BelongsTo && l.through.None? && l.childColumns == ["q"]
    requires j < |Twos()|
    ensures Expected(l, FixedStore(Twos()), Twos(), [Twos()[j].q]) == Single(Some(Twos()[j]))
  {
  }

  /** `has_many :cpk_twos, :foreign_key => [:x, :y]`: parents are matched on
      the whole pair, so each gets only the row whose `(x, y)` equals its
      `(a, b)`, and a pair no row has gets an empty loaded list. */
  lemma CompositeHasMany()
    ensures var l := NewLinkage(CpkTwos(), map[]);
      && l.Success?
      && ParentKeys(l.value, FixedStore(Twos()), Ones()) == [[1, 1], [1, 2], [2, 1]]
      && Expected(l.value, FixedStore(Twos()), Twos(), [1, 1]) == Many([Two(1, 1, 3)])
      && Expected(l.value, FixedStore(Twos()), Twos(), [1, 2]) == Many([Two(1, 2, 2)])
      && Expected(l.value, FixedStore(Twos()), Twos(), [2, 1]) == Many([Two(2, 1, 1)])
      && Expected(l.value, FixedStore(Twos()), Twos(), [3, 3]) == Many([])
  {
    var l := NewLinkage(CpkTwos(), map[]).value;
    OnesPairs(l);
    RowsByPair(l, 0);
    RowsByPair(l, 1);
    RowsByPair(l, 2);
    NoRowForPair(l);
  }

  /** No `two` row has the pair `(3, 3)`, so a parent with it gets an empty
      loaded list. */
  lemma NoRowForPair(l: Linkage)
    requires l.macro == HasMany && l.through.None? && l.childColumns == ["x_y"]
    ensures Expected(l, FixedStore(Twos()), Twos(), [3, 3]) == Many([])
  {
    FilterNone(Twos(), Matches(l, FixedStore(Twos()), [3, 3]));
  }

  /** A direct `has_many` joined on the pair `x_y` lists, for the key
      `[x, y]`, the one `two` row with that pair. */
  lemma RowsByPair(l: Linkage, j: nat)
    requires l.macro == HasMany && l.through.None? && l.childColumns == ["x_y"]
    requires j < |Twos()|
    ensures Expected(l, FixedStore(Twos()), Twos(), [Twos()[j].x, Twos()[j].y]) == Many([Twos()[j]])
  {
    FilterOnlyMatch(Twos(), Matches(l, FixedStore(Twos()), [Twos()[j].x, Twos()[j].y]), j);
  }

  function Target(): Row { Two(1, 1, 3) }
  function Other(): Row { Two(1, 2, 2) }

  /** Four join rows of one owner: two lead to `Target()`, one to `Other()`
      and one to nothing. */
  function JoinRows(): seq<Row> {
    [Via(1, Some(Target())), Via(1, Some(Target())), Via(1, Some(Other())), Via(1, None)]
  }

  function ViasReflection(): Reflection {
    Reflection(HasMany, "vias", ["owner"], ["p"], "Via", "via", None, None)
  }

  /** An indirect plural association whose two join rows lead to the same
      target lists it once, before the later distinct target, and skips the
      join row without a target. */
  lemma ThroughManyDeduplicates()
    ensures var through := NewLinkage(Reflection(HasMany, "targets", [], [], "Two", "two", None,
                                                 Some(ThroughHop(ViasReflection(), "target"))), map[]);
      && through.Success?
      && Expected(through.value, FixedStore(JoinRows()), JoinRows(), [1]) == Many([Target(), Other()])
  {
    var through := NewLinkage(Reflection(HasMany, "targets", [], [], "Two", "two", None,
                                         Some(ThroughHop(ViasReflection(), "target"))), map[]).value;
    var rows := JoinRows();
    var store := FixedStore(rows);
    var t, u := Target(), Other();
    assert through.childColumns == ["owner"] && through.through == Some("target");
    assert forall i :: 0 <= i < |rows| ==> ChildId(through, store, rows[i]) == [1];
    FilterKeepsAll(rows, Matches(through, store, [1]));
    UnwrapJoinRows(through);
    UniqDropsRepeat(t, u);
  }

  /** Following `target` from the join rows yields the target twice, then the
      other row; the join row without a target contributes nothing. */
  lemma UnwrapJoinRows(l: Linkage)
    requires l.through == Some("target")
    ensures Unwrapped(l, FixedStore(JoinRows()), JoinRows()) == [Target(), Target(), Other()]
  {
    var rows, store := JoinRows(), FixedStore(JoinRows());
    assert rows[1..][1..][1..] == [Via(1, None)];
    assert Unwrapped(l, store, rows[1..][1..][1..]) == [];
    assert Unwrapped(l, store, rows[1..][1..]) == [Other()];
    assert Unwrapped(l, store, rows[1..]) == [Target(), Other()];
  }

  /** The direct association over the same join rows keeps every row,
      repeated targets included. */
  lemma DirectManyKeepsDuplicates()
    ensures var direct := NewLinkage(ViasReflection(), map[]);
      && direct.Success?
      && Expected(direct.value, FixedStore(JoinRows()), JoinRows(), [1]) == Many(JoinRows())
  {
    var direct := NewLinkage(ViasReflection(), map[]).value;
    var rows := JoinRows();
    var store := FixedStore(rows);
    assert direct.childColumns == ["owner"] && direct.through == None;
    assert forall i :: 0 <= i < |rows| ==> ChildId(direct, store, rows[i]) == [1];
    FilterKeepsAll(rows, Matches(direct, store, [1]));
  }

  lemma UniqDropsRepeat(t: Row, u: Row)
    requires t != u
    ensures Uniq([t, t, u]) == [t, u]
  {
  }
}
