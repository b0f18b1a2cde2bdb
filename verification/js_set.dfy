/**
 * A JavaScript `Set` as the components use it: membership plus insertion
 * order, which `Array.from` exposes. It is represented by the sequence of its
 * elements in insertion order, without repetitions.
 */
module JsSet {

  /** No element occurs twice. */
  predicate NoDup<T(==)>(xs: seq<T>) {
    forall i, j :: 0 <= i < j < |xs| ==> xs[i] != xs[j]
  }

  datatype OrderedSet<T(==)> = OrderedSet(elements: seq<T>)
  {
    predicate Valid() {
      NoDup(elements)
    }

    /** The elements as a mathematical set. */
    ghost function Contents(): set<T> {
      set x | x in elements
    }

    /** `set.has(x)`. */
    predicate Has(x: T) {
      x in elements
    }

    /** `set.size`. */
    function Size(): nat {
      |elements|
    }
  }

  /** `new Set()`. */
  function Empty<T(==)>(): (r: OrderedSet<T>)
    ensures r.Valid() && r.Contents() == {}
  {
    OrderedSet([])
  }

  /** `set.add(x)`: a new element goes last; an element already present keeps its place. */
  function Add<T(==)>(s: OrderedSet<T>, x: T): (r: OrderedSet<T>)
    requires s.Valid()
    ensures r.Valid()
    ensures r.Contents() == s.Contents() + {x}
    ensures x in s.elements ==> r == s
    ensures x !in s.elements ==> r.elements == s.elements + [x]
  {
    if x in s.elements then s else OrderedSet(s.elements + [x])
  }

  /** `xs` with every occurrence of `x` removed, the rest in order. */
  function Without<T(==)>(xs: seq<T>, x: T): (r: seq<T>)
    ensures x !in r
    ensures forall i :: 0 <= i < |r| ==> r[i] in xs
    ensures forall i :: 0 <= i < |xs| && xs[i] != x ==> xs[i] in r
    ensures |r| <= |xs|
    ensures NoDup(xs) ==> NoDup(r)
    ensures x !in xs ==> r == xs
  {
    if |xs| == 0 then []
    else if xs[0] == x then Without(xs[1..], x)
    else [xs[0]] + Without(xs[1..], x)
  }

  /** Without repeats, the tail has no repeats and does not hold the head. */
  lemma NoDupTail<T>(xs: seq<T>)
    requires NoDup(xs) && |xs| > 0
    ensures NoDup(xs[1..]) && xs[0] !in xs[1..]
  {
    forall i | 0 <= i < |xs[1..]| ensures xs[1..][i] != xs[0] {
      assert xs[1..][i] == xs[i + 1];
    }
    forall i, j | 0 <= i < j < |xs[1..]| ensures xs[1..][i] != xs[1..][j] {
      assert xs[1..][i] == xs[i + 1] && xs[1..][j] == xs[j + 1];
    }
  }

  /** Putting the head back in front of a tail with a gap at `k`. */
  lemma ConsSplit<T>(xs: seq<T>, k: nat)
    requires 0 < k < |xs|
    ensures [xs[0]] + (xs[1..][..k - 1] + xs[1..][k..]) == xs[..k] + xs[k + 1..]
  {
    assert xs[1..][..k - 1] == xs[1..k] && xs[1..][k..] == xs[k + 1..];
    assert [xs[0]] + xs[1..k] == xs[..k];
  }

  /** Without repeats, removing the element at `k` closes the gap and keeps the order. */
  lemma {:induction false} WithoutAt<T>(xs: seq<T>, x: T, k: nat)
    requires NoDup(xs) && k < |xs| && xs[k] == x
    ensures Without(xs, x) == xs[..k] + xs[k + 1..]
    decreases |xs|
  {
    NoDupTail(xs);
    var tail := xs[1..];
    if k == 0 {
      assert Without(xs, x) == Without(tail, x);
      assert xs[..k] + xs[k + 1..] == tail;
    } else {
      assert tail[k - 1] == x;
      WithoutAt(tail, x, k - 1);
      ConsSplit(xs, k);
    }
  }

  /** `set.delete(x)`: `x` leaves, every other element keeps its place. */
  function Delete<T(==)>(s: OrderedSet<T>, x: T): (r: OrderedSet<T>)
    requires s.Valid()
    ensures r.Valid()
    ensures r.Contents() == s.Contents() - {x}
    ensures x !in s.elements ==> r == s
    ensures forall k :: 0 <= k < |s.elements| && s.elements[k] == x ==> r.elements == s.elements[..k] + s.elements[k + 1..]
  {
    forall k | 0 <= k < |s.elements| && s.elements[k] == x
      ensures Without(s.elements, x) == s.elements[..k] + s.elements[k + 1..]
    {
      WithoutAt(s.elements, x, k);
    }
    OrderedSet(Without(s.elements, x))
  }

  /** The components' toggle: delete `x` when present, otherwise add it. */
  function Toggle<T(==)>(s: OrderedSet<T>, x: T): (r: OrderedSet<T>)
    requires s.Valid()
    ensures r.Valid()
    ensures r.Has(x) <==> !s.Has(x)
    ensures r.Contents() == if x in s.Contents() then s.Contents() - {x} else s.Contents() + {x}
  {
    if s.Has(x) then Delete(s, x) else Add(s, x)
  }

  /** `new Set(xs)`: the elements of `xs`, each at its first occurrence. */
  function FromSeq<T(==)>(xs: seq<T>): (r: OrderedSet<T>)
    ensures r.Valid()
    ensures r.Contents() == set x | x in xs
    ensures r.Size() <= |xs|
    ensures forall i :: 0 <= i < |r.elements| ==> r.elements[i] in xs
    ensures forall i :: 0 <= i < |xs| ==> r.Has(xs[i])
    ensures NoDup(xs) ==> r.elements == xs
    decreases |xs|
  {
    if |xs| == 0 then Empty()
    else
      var init := FromSeq(xs[..|xs| - 1]);
      assert xs == xs[..|xs| - 1] + [xs[|xs| - 1]];
      Add(init, xs[|xs| - 1])
  }

  /** The size of a set is the number of distinct elements it holds. */
  lemma {:induction false} SizeIsCardinality<T>(s: OrderedSet<T>)
    requires s.Valid()
    ensures s.Size() == |s.Contents()|
    decreases |s.elements|
  {
    if |s.elements| > 0 {
      var rest := OrderedSet(s.elements[1..]);
      SizeIsCardinality(rest);
      assert s.Contents() == rest.Contents() + {s.elements[0]};
      assert s.elements[0] !in rest.Contents();
    }
  }

  /** A subset is no larger than its superset, and a proper subset is smaller. */
  lemma SubsetCardinality<T>(a: set<T>, b: set<T>)
    requires a <= b
    ensures |a| <= |b|
    ensures a < b ==> |a| < |b|
  {
    assert b == a + (b - a);
    if a < b {
      var x :| x in b - a;
    }
  }

  /** Toggling twice restores the members. */
  lemma ToggleTwice<T>(s: OrderedSet<T>, x: T)
    requires s.Valid()
    ensures Toggle(Toggle(s, x), x).Contents() == s.Contents()
  {
  }

  /** Toggling a member off and on again moves it from its place to the end. */
  lemma ToggleTwiceMovesToEnd<T>(s: OrderedSet<T>, x: T, k: nat)
    requires s.Valid() && k < |s.elements| && s.elements[k] == x
    ensures Toggle(Toggle(s, x), x).elements == s.elements[..k] + s.elements[k + 1..] + [x]
  {
  }

  /** ...but not necessarily the order: a re-added element goes last. */
  lemma ToggleTwiceReorders()
    ensures Toggle(Toggle(OrderedSet([1, 2]), 1), 1).elements == [2, 1]
  {
    assert OrderedSet([1, 2]).Valid();
    assert Without([1, 2], 1) == [2];
  }
}
