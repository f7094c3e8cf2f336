/** Generic sequence operations the rest of the model is built from: sums,
    order-preserving filters, first-occurrence de-duplication (what
    `[...new Set(xs)]` computes), sorting and listing a set of keys. */
module Sequences {

  // ---------------------------------------------------------------------------
  // Sums

  /** The sum of a sequence of integers. */
  function Sum(xs: seq<int>): int {
    if |xs| == 0 then 0 else Sum(xs[..|xs| - 1]) + xs[|xs| - 1]
  }

  lemma SumAppend(xs: seq<int>, x: int)
    ensures Sum(xs + [x]) == Sum(xs) + x
  {
    assert (xs + [x])[..|xs|] == xs;
  }

  /** Summing distributes over concatenation. */
  lemma {:induction false} SumConcat(xs: seq<int>, ys: seq<int>)
    ensures Sum(xs + ys) == Sum(xs) + Sum(ys)
    decreases |ys|
  {
    if |ys| > 0 {
      var init := ys[..|ys| - 1];
      SumConcat(xs, init);
      assert xs + ys == (xs + init) + [ys[|ys| - 1]];
      SumAppend(xs + init, ys[|ys| - 1]);
    } else {
      assert xs + ys == xs;
    }
  }

  // ---------------------------------------------------------------------------
  // Order-preserving selection

  /** `a` is `b` with some elements left out, the rest kept in order. */
  ghost predicate IsSubsequence<T>(a: seq<T>, b: seq<T>)
    decreases |b|
  {
    if |a| == 0 then true
    else if |b| == 0 then false
    else (a[0] == b[0] && IsSubsequence(a[1..], b[1..])) || IsSubsequence(a, b[1..])
  }

  lemma {:induction false} SubsequenceOfSelf<T>(xs: seq<T>)
    ensures IsSubsequence(xs, xs)
    decreases |xs|
  {
    if |xs| > 0 {
      SubsequenceOfSelf(xs[1..]);
    }
  }

  /** JavaScript's `xs.filter(keep)`: the elements satisfying `keep`, in
      their original order, and all of `xs` when every element satisfies
      it. */
  function Filter<T(!new)>(xs: seq<T>, keep: T -> bool): (r: seq<T>)
    ensures |r| <= |xs|
    ensures forall x :: x in r <==> x in xs && keep(x)
    ensures IsSubsequence(r, xs)
    ensures (forall i :: 0 <= i < |xs| ==> keep(xs[i])) ==> r == xs
  {
    if |xs| == 0 then []
    else
      var rest := Filter(xs[1..], keep);
      assert forall x :: x in xs[1..] ==> x in xs;
      if keep(xs[0]) then
        var r := [xs[0]] + rest;
        assert r[1..] == rest;
        r
      else rest
  }

  /** The number of elements satisfying `p` (`xs.filter(p).length`). */
  function Count<T>(xs: seq<T>, p: T -> bool): nat {
    if |xs| == 0 then 0
    else Count(xs[..|xs| - 1], p) + (if p(xs[|xs| - 1]) then 1 else 0)
  }

  lemma CountAppend<T>(xs: seq<T>, x: T, p: T -> bool)
    ensures Count(xs + [x], p) == Count(xs, p) + (if p(x) then 1 else 0)
  {
    assert (xs + [x])[..|xs|] == xs;
  }

  /** Counting the elements satisfying `p` is measuring the filtered
      sequence. */
  lemma {:induction false} CountIsFilterLength<T(!new)>(xs: seq<T>, p: T -> bool)
    ensures Count(xs, p) == |Filter(xs, p)|
    decreases |xs|
  {
    if |xs| > 0 {
      var t := xs[1..];
      CountIsFilterLength(t, p);
      CountFront(xs, p);
    }
  }

  /** `Count` peeled from the front. */
  lemma {:induction false} CountFront<T>(xs: seq<T>, p: T -> bool)
    requires |xs| > 0
    ensures Count(xs, p) == (if p(xs[0]) then 1 else 0) + Count(xs[1..], p)
    decreases |xs|
  {
    if |xs| > 1 {
      var init := xs[..|xs| - 1];
      CountFront(init, p);
      assert init[1..] == xs[1..][..|xs| - 2];
    } else {
      assert xs[..0] == [] && xs[1..] == [];
    }
  }

  // ---------------------------------------------------------------------------
  // Projection

  /** `xs.map(f)`: one value per element, in the same order. */
  function Map<T, U>(xs: seq<T>, f: T -> U): (r: seq<U>)
    ensures |r| == |xs|
    ensures forall i :: 0 <= i < |xs| ==> r[i] == f(xs[i])
  {
    seq(|xs|, i requires 0 <= i < |xs| => f(xs[i]))
  }

  // ---------------------------------------------------------------------------
  // De-duplication in first-occurrence order

  ghost predicate NoDuplicates<T>(xs: seq<T>) {
    forall i, j :: 0 <= i < j < |xs| ==> xs[i] != xs[j]
  }

  /** The position of the first occurrence of `x` in `xs`. */
  function IndexOf<T(==)>(xs: seq<T>, x: T): (k: nat)
    requires x in xs
    ensures k < |xs| && xs[k] == x && x !in xs[..k]
  {
    if xs[0] == x then 0
    else
      var k := 1 + IndexOf(xs[1..], x);
      assert xs[..k] == [xs[0]] + xs[1..][..k - 1];
      k
  }

  /** The elements of `xs` not in `seen`, each once, in the order of their
      first occurrence: what inserting `xs` one by one into a JavaScript
      `Set` already holding `seen` adds, in the set's iteration order. */
  function Distinct<T(==)>(xs: seq<T>, seen: set<T>): seq<T>
    decreases |xs|
  {
    if |xs| == 0 then []
    else if xs[0] in seen then Distinct(xs[1..], seen)
    else [xs[0]] + Distinct(xs[1..], seen + {xs[0]})
  }

  /** `y` is listed by `Distinct` exactly when it occurs in `xs` and is
      not in `seen`. */
  lemma {:induction false} DistinctMember<T>(xs: seq<T>, seen: set<T>, y: T)
    ensures y in Distinct(xs, seen) <==> y in xs && y !in seen
    decreases |xs|
  {
    if |xs| > 0 {
      var x := xs[0];
      assert xs == [x] + xs[1..];
      if x in seen {
        DistinctMember(xs[1..], seen, y);
      } else {
        DistinctMember(xs[1..], seen + {x}, y);
      }
    }
  }

  /** `Distinct` lists exactly the elements of `xs` outside `seen`. */
  lemma DistinctMembers<T>(xs: seq<T>, seen: set<T>)
    ensures forall y :: y in Distinct(xs, seen) <==> y in xs && y !in seen
  {
    forall y {
      DistinctMember(xs, seen, y);
    }
  }

  /** `Distinct` lists nothing twice. */
  lemma {:induction false} DistinctNoDuplicates<T>(xs: seq<T>, seen: set<T>)
    ensures NoDuplicates(Distinct(xs, seen))
    decreases |xs|
  {
    if |xs| > 0 {
      var x := xs[0];
      if x in seen {
        DistinctNoDuplicates(xs[1..], seen);
      } else {
        var rest := Distinct(xs[1..], seen + {x});
        DistinctNoDuplicates(xs[1..], seen + {x});
        var r := [x] + rest;
        forall i, j | 0 <= i < j < |r|
          ensures r[i] != r[j]
        {
          assert r[j] == rest[j - 1];
          DistinctMember(xs[1..], seen + {x}, rest[j - 1]);
          if i > 0 {
            assert r[i] == rest[i - 1];
          }
        }
      }
    }
  }

  /** `Distinct` keeps the elements in the order in which they first occur
      in `xs`. */
  lemma {:induction false} DistinctFirstOccurrenceOrder<T>(xs: seq<T>, seen: set<T>)
    ensures var r := Distinct(xs, seen);
            (forall i :: 0 <= i < |r| ==> r[i] in xs) &&
            (forall i, j :: 0 <= i < j < |r| ==> IndexOf(xs, r[i]) < IndexOf(xs, r[j]))
    decreases |xs|
  {
    var r := Distinct(xs, seen);
    forall i | 0 <= i < |r|
      ensures r[i] in xs
    {
      DistinctMember(xs, seen, r[i]);
    }
    if |xs| > 0 {
      var x := xs[0];
      var seen' := if x in seen then seen else seen + {x};
      var rest := Distinct(xs[1..], seen');
      assert r == if x in seen then rest else [x] + rest;
      DistinctFirstOccurrenceOrder(xs[1..], seen');
      forall i, j | 0 <= i < j < |r|
        ensures IndexOf(xs, r[i]) < IndexOf(xs, r[j])
      {
        var k := if x in seen then j else j - 1;
        assert r[j] == rest[k];
        DistinctMember(xs[1..], seen', rest[k]);
        ShiftIndex(xs, rest[k]);
        if x in seen {
          DistinctMember(xs[1..], seen', rest[i]);
          ShiftIndex(xs, rest[i]);
        } else if i > 0 {
          assert r[i] == rest[i - 1];
          DistinctMember(xs[1..], seen', rest[i - 1]);
          ShiftIndex(xs, rest[i - 1]);
        } else {
          assert r[i] == x;
        }
      }
    }
  }

  /** Past the head, positions in `xs` are one more than in its tail. */
  lemma ShiftIndex<T>(xs: seq<T>, y: T)
    requires |xs| > 0 && y in xs[1..] && y != xs[0]
    ensures y in xs && IndexOf(xs, y) == 1 + IndexOf(xs[1..], y)
  {
  }

  /** One step of `Distinct`. */
  lemma DistinctStep<T>(xs: seq<T>, i: nat, seen: set<T>)
    requires i < |xs|
    ensures Distinct(xs[i..], seen) ==
            if xs[i] in seen then Distinct(xs[i + 1..], seen)
            else [xs[i]] + Distinct(xs[i + 1..], seen + {xs[i]})
  {
    assert xs[i..][0] == xs[i] && xs[i..][1..] == xs[i + 1..];
  }

  /** `[...new Set(xs)]` computed the way the browser does: walk `xs`,
      emitting each element the first time it is met. */
  method DistinctValues<T(==)>(xs: seq<T>) returns (r: seq<T>)
    ensures r == Distinct(xs, {})
  {
    var seen: set<T> := {};
    r := [];
    var i := 0;
    assert xs[0..] == xs;
    while i < |xs|
      invariant 0 <= i <= |xs|
      invariant r + Distinct(xs[i..], seen) == Distinct(xs, {})
      invariant forall x :: x in seen <==> x in xs[..i]
    {
      DistinctStep(xs, i, seen);
      assert xs[..i + 1] == xs[..i] + [xs[i]];
      if xs[i] !in seen {
        r := r + [xs[i]];
        seen := seen + {xs[i]};
      }
      i := i + 1;
    }
    assert xs[i..] == [];
  }

  // ---------------------------------------------------------------------------
  // Sorting

  /** Neighbouring elements are in order under `le`. */
  ghost predicate SortedBy<T>(xs: seq<T>, le: (T, T) -> bool) {
    forall i :: 0 <= i < |xs| - 1 ==> le(xs[i], xs[i + 1])
  }

  ghost predicate Total<T(!new)>(le: (T, T) -> bool) {
    forall a, b :: le(a, b) || le(b, a)
  }

  /** `x` inserted into the sorted `xs` at its place. */
  function Insert<T(!new)>(x: T, xs: seq<T>, le: (T, T) -> bool): (r: seq<T>)
    requires Total(le) && SortedBy(xs, le)
    ensures SortedBy(r, le)
    ensures multiset(r) == multiset(xs) + multiset{x}
    ensures |r| == |xs| + 1
    ensures r[0] == x || (|xs| > 0 && r[0] == xs[0])
  {
    if |xs| == 0 then [x]
    else if le(x, xs[0]) then [x] + xs
    else
      var rest := Insert(x, xs[1..], le);
      assert xs == [xs[0]] + xs[1..];
      [xs[0]] + rest
  }

  /** `xs` rearranged into order under the total preorder `le`. */
  function SortBy<T(!new)>(xs: seq<T>, le: (T, T) -> bool): (r: seq<T>)
    requires Total(le)
    ensures SortedBy(r, le)
    ensures multiset(r) == multiset(xs)
    ensures |r| == |xs|
  {
    if |xs| == 0 then []
    else
      assert xs == [xs[0]] + xs[1..];
      Insert(xs[0], SortBy(xs[1..], le), le)
  }

  // ---------------------------------------------------------------------------
  // Listing the keys of a finite set

  /** Every finite, non-empty set of integers has a least element. */
  lemma {:induction false} HasMinimum(s: set<int>)
    requires s != {}
    ensures exists m :: m in s && forall y :: y in s ==> m <= y
    decreases |s|
  {
    assert (forall y :: y !in s) ==> s == {};
    var x :| x in s;
    var rest := s - {x};
    if rest == {} {
      forall y | y in s
        ensures x <= y
      {
        assert y !in rest;
      }
    } else {
      HasMinimum(rest);
      var m :| m in rest && forall y :: y in rest ==> m <= y;
      var least := if x < m then x else m;
      forall y | y in s
        ensures least <= y
      {
        if y != x {
          assert y in rest;
        }
      }
      assert least in s;
    }
  }

  /** The least element of a non-empty set of integers. */
  function Least(s: set<int>): (m: int)
    requires s != {}
    ensures m in s && forall y :: y in s ==> m <= y
  {
    HasMinimum(s);
    var m :| m in s && forall y :: y in s ==> m <= y;
    m
  }

  /** The elements of `s` in increasing order. */
  function Ascending(s: set<int>): (r: seq<int>)
    ensures |r| == |s|
    ensures forall x :: x in r <==> x in s
    decreases |s|
  {
    if s == {} then []
    else
      var m := Least(s);
      [m] + Ascending(s - {m})
  }

  /** `Ascending` lists the set in strictly increasing order. */
  lemma {:induction false} AscendingIncreasing(s: set<int>)
    ensures forall i, j :: 0 <= i < j < |Ascending(s)| ==> Ascending(s)[i] < Ascending(s)[j]
    decreases |s|
  {
    if s != {} {
      var m := Least(s);
      var rest := Ascending(s - {m});
      AscendingIncreasing(s - {m});
      var r := Ascending(s);
      assert r == [m] + rest;
      forall i, j | 0 <= i < j < |r|
        ensures r[i] < r[j]
      {
        if i == 0 {
          assert r[j] in rest;
        } else {
          assert r[i] == rest[i - 1] && r[j] == rest[j - 1];
        }
      }
    }
  }
}
