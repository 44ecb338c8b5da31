/** The stable sort the scripts call (`sorted`, `list.sort`), as a function with its proofs, and
    the index permutation that connects a list to its sorted form. */
module Sorting {

  ghost predicate TotalPreorder<T(!new)>(le: (T, T) -> bool) {
    && (forall x, y :: le(x, y) || le(y, x))
    && (forall x, y, z :: le(x, y) && le(y, z) ==> le(x, z))
  }

  ghost predicate SortedBy<T>(le: (T, T) -> bool, s: seq<T>) {
    forall i, j | 0 <= i < j < |s| :: le(s[i], s[j])
  }

  /** `x` placed before the first element it may precede, so equal elements keep their order. */
  function Insert<T>(le: (T, T) -> bool, x: T, s: seq<T>): (r: seq<T>)
    ensures multiset(r) == multiset(s) + multiset{x}
  {
    if s == [] || le(x, s[0]) then
      [x] + s
    else
      assert s == [s[0]] + s[1..];
      [s[0]] + Insert(le, x, s[1..])
  }

  function Sort<T>(le: (T, T) -> bool, s: seq<T>): (r: seq<T>)
    ensures multiset(r) == multiset(s)
    ensures |r| == |s|
  {
    if s == [] then
      []
    else
      assert s == [s[0]] + s[1..];
      var r := Insert(le, s[0], Sort(le, s[1..]));
      assert |multiset(r)| == |multiset(s)|;
      r
  }

  lemma {:induction false} InsertSorted<T(!new)>(le: (T, T) -> bool, x: T, s: seq<T>)
    requires TotalPreorder(le) && SortedBy(le, s)
    ensures SortedBy(le, Insert(le, x, s))
  {
    if s != [] && !le(x, s[0]) {
      var rest := Insert(le, x, s[1..]);
      InsertSorted(le, x, s[1..]);
      forall k | 0 <= k < |rest|
        ensures le(s[0], rest[k])
      {
        assert rest[k] in multiset(rest);
        assert rest[k] in multiset(s[1..]) + multiset{x};
      }
    }
  }

  lemma {:induction false} SortSorted<T(!new)>(le: (T, T) -> bool, s: seq<T>)
    requires TotalPreorder(le)
    ensures SortedBy(le, Sort(le, s))
  {
    if s != [] {
      SortSorted(le, s[1..]);
      InsertSorted(le, s[0], Sort(le, s[1..]));
    }
  }

  lemma SortMembers<T>(le: (T, T) -> bool, s: seq<T>)
    ensures forall x :: x in Sort(le, s) <==> x in s
  {
    forall x
      ensures x in Sort(le, s) <==> x in s
    {
      assert x in Sort(le, s) <==> x in multiset(Sort(le, s));
      assert x in s <==> x in multiset(s);
    }
  }

  /** A list that is already sorted is left alone. */
  lemma {:induction false} SortFixed<T>(le: (T, T) -> bool, s: seq<T>)
    requires SortedBy(le, s)
    ensures Sort(le, s) == s
  {
    if s != [] {
      SortFixed(le, s[1..]);
      assert |s| > 1 ==> le(s[0], s[1..][0]);
    }
  }

  /** `r` is what stands at the positions `at` of `s`, in order. */
  ghost predicate Picks<T>(at: seq<nat>, s: seq<T>, r: seq<T>) {
    && |at| == |r|
    && (forall k | 0 <= k < |at| :: at[k] < |s| && r[k] == s[at[k]])
    && forall j, k | 0 <= j < k < |at| :: at[j] < at[k]
  }

  lemma PicksMore<T>(at: seq<nat>, s: seq<T>, r: seq<T>, x: T)
    requires Picks(at, s, r)
    ensures Picks(at, s + [x], r) && Picks(at + [|s|], s + [x], r + [x])
  {
  }

  lemma {:induction false} PicksShort<T>(at: seq<nat>, s: seq<T>, r: seq<T>)
    requires Picks(at, s, r)
    ensures |at| <= |s|
  {
    if at != [] {
      PositionGrows(at, |at| - 1);
    }
  }

  lemma {:induction false} PositionGrows(at: seq<nat>, k: nat)
    requires k < |at| && forall i, j | 0 <= i < j < |at| :: at[i] < at[j]
    ensures at[k] >= k
  {
    if k > 0 {
      PositionGrows(at, k - 1);
    }
  }

  /** `rest` is `s` without the elements that `keep` drops, in order; `at` says where they stood. */
  ghost predicate Filters<T>(keep: T -> bool, at: seq<nat>, s: seq<T>, rest: seq<T>) {
    Picks(at, s, rest) && forall k: nat | k < |s| :: k in at <==> keep(s[k])
  }

  lemma FiltersMore<T>(keep: T -> bool, at: seq<nat>, s: seq<T>, rest: seq<T>, x: T, more: seq<nat>)
    requires Filters(keep, at, s, rest) && more == if keep(x) then at + [|s|] else at
    ensures Filters(keep, more, s + [x], if keep(x) then rest + [x] else rest)
  {
    PicksMore(at, s, rest, x);
    forall k: nat | k < |s + [x]| ensures k in more <==> keep((s + [x])[k]) {
    }
  }

  /** No element is taken more often than it is there. */
  lemma {:induction false} PickedMultiset<T>(at: seq<nat>, s: seq<T>, r: seq<T>)
    requires Picks(at, s, r)
    ensures multiset(r) <= multiset(s)
    decreases |s|
  {
    if at != [] {
      var n, m := |at| - 1, at[|at| - 1];
      PickedMultiset(at[..n], s[..m], r[..n]);
      assert r == r[..n] + [r[n]] && s == s[..m] + [s[m]] + s[m + 1..];
      assert multiset(s) == multiset(s[..m]) + multiset{s[m]} + multiset(s[m + 1..]);
    }
  }

  // --- permutations -----------------------------------------------------------------------------

  /** `f` sends every position of `a` to its own position of `b` holding the same value. */
  ghost predicate Relocates<T>(f: seq<nat>, a: seq<T>, b: seq<T>) {
    && |f| == |a| == |b|
    && (forall k | 0 <= k < |f| :: f[k] < |b| && a[k] == b[f[k]])
    && (forall k, l | 0 <= k < l < |f| :: f[k] != f[l])
  }

  lemma {:induction false} PermutationRelocates<T>(a: seq<T>, b: seq<T>) returns (f: seq<nat>)
    requires multiset(a) == multiset(b)
    ensures Relocates(f, a, b)
    decreases |a|
  {
    assert |multiset(a)| == |multiset(b)|;
    if a == [] {
      return [];
    }
    assert a == [a[0]] + a[1..];
    assert a[0] in multiset(a);
    var j :| 0 <= j < |b| && b[j] == a[0];
    assert multiset(b[..j] + b[j + 1..]) == multiset(a[1..]) by {
      assert b == b[..j] + [b[j]] + b[j + 1..];
      assert multiset(b) == multiset(b[..j]) + multiset{b[j]} + multiset(b[j + 1..]);
      assert multiset(b[..j] + b[j + 1..]) == multiset(b) - multiset{b[j]};
      assert multiset(a[1..]) == multiset(a) - multiset{a[0]};
    }
    var g := PermutationRelocates(a[1..], b[..j] + b[j + 1..]);
    f := Relocated(a, b, j, g);
  }

  lemma Relocated<T>(a: seq<T>, b: seq<T>, j: nat, g: seq<nat>) returns (f: seq<nat>)
    requires a != [] && j < |b| && b[j] == a[0]
    requires Relocates(g, a[1..], b[..j] + b[j + 1..])
    ensures Relocates(f, a, b)
  {
    var rest := b[..j] + b[j + 1..];
    f := [j] + seq(|g|, k requires 0 <= k < |g| => if g[k] < j then g[k] else g[k] + 1);
    forall k | 0 <= k < |f|
      ensures f[k] < |b| && a[k] == b[f[k]]
    {
      if k > 0 {
        assert a[k] == a[1..][k - 1] == rest[g[k - 1]];
      }
    }
    forall k, l | 0 <= k < l < |f|
      ensures f[k] != f[l]
    {
      if k > 0 {
        assert g[k - 1] != g[l - 1];
      }
    }
  }

  /** An image under a map that is injective on `s` has as many elements as `s`. */
  lemma {:induction false} ImageSize<T(!new), U>(s: set<T>, f: T -> U, image: set<U>)
    requires forall x | x in s :: f(x) in image
    requires forall y | y in image :: exists x :: x in s && f(x) == y
    requires forall x, y | x in s && y in s && x != y :: f(x) != f(y)
    ensures |image| == |s|
    decreases |s|
  {
    if x :| x in s {
      ImageSize(s - {x}, f, image - {f(x)});
    }
  }
}
