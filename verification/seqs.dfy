/** The Ruby array operations the library relies on, over immutable sequences:
    `select`, `uniq`, `flatten` of a list of flat lists, and the difference
    `a - b`. */
module Seqs {

  /** No element occurs twice. */
  predicate NoDup<T(==)>(s: seq<T>) {
    forall i, j :: 0 <= i < j < |s| ==> s[i] != s[j]
  }

  /** Strictly increasing, so in particular free of duplicates. */
  predicate Increasing(s: seq<int>) {
    forall i, j :: 0 <= i < j < |s| ==> s[i] < s[j]
  }

  /** `s.select(&p)`: the elements satisfying `p`, in their original order,
      each as often as it occurs in `s`. */
  function Filter<T>(s: seq<T>, p: T -> bool): (r: seq<T>)
    ensures |r| <= |s|
    ensures forall i :: 0 <= i < |r| ==> r[i] in s && p(r[i])
    ensures forall i :: 0 <= i < |s| && p(s[i]) ==> s[i] in r
  {
    if |s| == 0 then []
    else if p(s[0]) then [s[0]] + Filter(s[1..], p)
    else Filter(s[1..], p)
  }

  /** Selecting distributes over concatenation: together with the behaviour on a
      one-element sequence this pins down that `Filter` keeps the input order. */
  lemma {:induction false} FilterConcat<T>(a: seq<T>, b: seq<T>, p: T -> bool)
    ensures Filter(a + b, p) == Filter(a, p) + Filter(b, p)
  {
    if |a| == 0 {
      assert a + b == b;
    } else {
      assert (a + b)[1..] == a[1..] + b;
      FilterConcat(a[1..], b, p);
    }
  }

  /** Selecting never merges or duplicates elements: every kept value occurs as
      often as in the input. */
  lemma {:induction false} FilterMultiplicity<T>(s: seq<T>, p: T -> bool, x: T)
    ensures multiset(Filter(s, p))[x] == if p(x) then multiset(s)[x] else 0
  {
    if |s| == 0 {
    } else {
      FilterMultiplicity(s[1..], p, x);
      assert s == [s[0]] + s[1..];
      assert multiset(s) == multiset([s[0]]) + multiset(s[1..]);
    }
  }

  /** A selection no element passes is empty. */
  lemma {:induction false} FilterNone<T>(s: seq<T>, p: T -> bool)
    requires forall i :: 0 <= i < |s| ==> !p(s[i])
    ensures Filter(s, p) == []
  {
    if |s| > 0 {
      FilterNone(s[1..], p);
    }
  }

  /** A selection only the element at `j` passes is that element alone. */
  lemma {:induction false} FilterOnlyMatch<T>(s: seq<T>, p: T -> bool, j: nat)
    requires j < |s| && p(s[j])
    requires forall i :: 0 <= i < |s| && i != j ==> !p(s[i])
    ensures Filter(s, p) == [s[j]]
  {
    if j == 0 {
      FilterNone(s[1..], p);
    } else {
      FilterOnlyMatch(s[1..], p, j - 1);
    }
  }

  /** A selection every element passes keeps the whole sequence. */
  lemma {:induction false} FilterKeepsAll<T>(s: seq<T>, p: T -> bool)
    requires forall i :: 0 <= i < |s| ==> p(s[i])
    ensures Filter(s, p) == s
  {
    if |s| > 0 {
      FilterKeepsAll(s[1..], p);
    }
  }

  /** The position of the first occurrence of `x`. */
  function FirstIndex<T(==)>(s: seq<T>, x: T): (i: nat)
    requires x in s
    ensures i < |s| && s[i] == x && x !in s[..i]
  {
    if s[0] == x then 0 else 1 + FirstIndex(s[1..], x)
  }

  lemma {:induction false} FirstIndexInPrefix<T>(a: seq<T>, b: seq<T>, x: T)
    requires x in a
    ensures FirstIndex(a + b, x) == FirstIndex(a, x)
  {
    if a[0] != x {
      assert (a + b)[1..] == a[1..] + b;
      FirstIndexInPrefix(a[1..], b, x);
    }
  }

  /** `s.uniq`: the first occurrence of every element, in input order. */
  function Uniq<T(==)>(s: seq<T>): (r: seq<T>)
    ensures NoDup(r)
    ensures forall i :: 0 <= i < |r| ==> r[i] in s
    ensures forall i :: 0 <= i < |s| ==> s[i] in r
    ensures |r| <= |s|
  {
    if |s| == 0 then []
    else
      var u := Uniq(s[..|s| - 1]);
      var x := s[|s| - 1];
      assert forall i :: 0 <= i < |s| - 1 ==> s[i] == s[..|s| - 1][i];
      if x in u then u else u + [x]
  }

  /** `uniq` keeps first occurrences: the survivors appear in the order in
      which they first occur in the input. */
  lemma {:induction false} UniqKeepsFirstOccurrenceOrder<T>(s: seq<T>)
    ensures forall i, j :: 0 <= i < j < |Uniq(s)| ==>
      FirstIndex(s, Uniq(s)[i]) < FirstIndex(s, Uniq(s)[j])
  {
    if |s| > 0 {
      var init := s[..|s| - 1];
      var x := s[|s| - 1];
      assert s == init + [x];
      UniqKeepsFirstOccurrenceOrder(init);
      var u := Uniq(init);
      forall y | y in init
        ensures FirstIndex(s, y) == FirstIndex(init, y) < |init|
      {
        FirstIndexInPrefix(init, [x], y);
      }
      if x !in u {
        assert FirstIndex(s, x) == |init| by {
          assert s[..|init|] == init;
        }
      }
    }
  }

  /** A sequence that is already free of duplicates is left as it is. */
  lemma {:induction false} UniqOfNoDup<T>(s: seq<T>)
    requires NoDup(s)
    ensures Uniq(s) == s
  {
    if |s| > 0 {
      var init := s[..|s| - 1];
      assert NoDup(init);
      UniqOfNoDup(init);
      assert s[|s| - 1] !in init;
      assert init + [s[|s| - 1]] == s;
    }
  }

  /** Applying `uniq` twice is the same as applying it once. */
  lemma UniqIdempotent<T>(s: seq<T>)
    ensures Uniq(Uniq(s)) == Uniq(s)
  {
    UniqOfNoDup(Uniq(s));
  }

  /** `ss.flatten` where every part is a flat list: the concatenation of the
      parts. */
  function Flatten<T>(ss: seq<seq<T>>): seq<T> {
    if |ss| == 0 then [] else ss[0] + Flatten(ss[1..])
  }

  /** An element is in the flattening exactly when it is in one of the parts. */
  lemma {:induction false} FlattenMembers<T>(ss: seq<seq<T>>, x: T)
    ensures x in Flatten(ss) <==> exists i :: 0 <= i < |ss| && x in ss[i]
  {
    if |ss| > 0 {
      FlattenMembers(ss[1..], x);
      if exists i :: 1 <= i < |ss| && x in ss[i] {
        var i :| 1 <= i < |ss| && x in ss[i];
        assert x in ss[1..][i - 1];
      }
      if exists i :: 0 <= i < |ss[1..]| && x in ss[1..][i] {
        var i :| 0 <= i < |ss[1..]| && x in ss[1..][i];
        assert x in ss[i + 1];
      }
    }
  }

  /** Flattening one-element parts gives back the elements. */
  lemma {:induction false} FlattenSingletons<T>(parts: seq<seq<T>>, s: seq<T>)
    requires |parts| == |s|
    requires forall i :: 0 <= i < |s| ==> parts[i] == [s[i]]
    ensures Flatten(parts) == s
  {
    if |s| > 0 {
      assert forall i :: 0 <= i < |s| - 1 ==> parts[1..][i] == parts[i + 1];
      FlattenSingletons(parts[1..], s[1..]);
      assert s == [s[0]] + s[1..];
    }
  }

  /** The predicate "not an element of `b`". */
  function NotIn<T(==)>(b: seq<T>): T -> bool {
    x => x !in b
  }

  /** Ruby's `a - b`: the elements of `a` that do not occur in `b`, in the
      order of `a` and with their repetitions. The contract fixes the
      contents and the multiplicities; the order follows from the one-element
      case together with `MinusConcat`. */
  function Minus<T(==)>(a: seq<T>, b: seq<T>): (r: seq<T>)
    ensures forall i :: 0 <= i < |r| ==> r[i] in a && r[i] !in b
    ensures forall i :: 0 <= i < |a| && a[i] !in b ==> a[i] in r
    ensures r == [] <==> forall i :: 0 <= i < |a| ==> a[i] in b
    ensures forall i :: 0 <= i < |a| && a[i] !in b ==> multiset(r)[a[i]] == multiset(a)[a[i]]
    ensures |a| == 1 ==> r == if a[0] in b then [] else a
  {
    var r := Filter(a, NotIn(b));
    assert r != [] ==> exists i :: 0 <= i < |a| && a[i] !in b by {
      if r != [] {
        var i :| 0 <= i < |a| && a[i] == r[0];
      }
    }
    assert forall i :: 0 <= i < |a| && a[i] !in b ==> multiset(r)[a[i]] == multiset(a)[a[i]] by {
      forall i | 0 <= i < |a| && a[i] !in b {
        FilterMultiplicity(a, NotIn(b), a[i]);
      }
    }
    r
  }

  /** The difference keeps every surviving element as often as it occurs in
      `a`. */
  lemma MinusMultiplicity<T>(a: seq<T>, b: seq<T>, x: T)
    requires x !in b
    ensures multiset(Minus(a, b))[x] == multiset(a)[x]
  {
    FilterMultiplicity(a, NotIn(b), x);
  }

  /** The difference is taken element by element, so it keeps the order of
      `a`: it distributes over concatenation of the left operand. */
  lemma MinusConcat<T>(a1: seq<T>, a2: seq<T>, b: seq<T>)
    ensures Minus(a1 + a2, b) == Minus(a1, b) + Minus(a2, b)
  {
    FilterConcat(a1, a2, NotIn(b));
  }
}
