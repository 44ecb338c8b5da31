/** The shot-cut scorer of `scripts/eval/auto_reframe.py`: a greedy pass over both sorted cut
    lists that finds the largest one-to-one matching. */
module CutMatching {
  import opened Sorting

  function Le(x: int, y: int): bool { x <= y }

  ghost predicate Close(x: int, y: int, tolerance: int) {
    -tolerance <= x - y <= tolerance
  }

  /** A one-to-one matching: pairs of positions, no position used twice, values close. */
  ghost predicate IsMatching(p: seq<int>, t: seq<int>, tolerance: int, m: set<(nat, nat)>) {
    && (forall x | x in m :: x.0 < |p| && x.1 < |t| && Close(p[x.0], t[x.1], tolerance))
    && (forall x, y | x in m && y in m && x != y :: x.0 != y.0 && x.1 != y.1)
  }

  /** `n` is the size of a largest matching. */
  ghost predicate IsLargest(p: seq<int>, t: seq<int>, tolerance: int, n: nat) {
    && (exists m :: IsMatching(p, t, tolerance, m) && |m| == n)
    && (forall m | IsMatching(p, t, tolerance, m) :: |m| <= n)
  }

  /** What the greedy pass still adds from cut `i` and label `j` on. */
  function Greedy(p: seq<int>, t: seq<int>, tolerance: int, i: nat, j: nat): nat
    requires i <= |p| && j <= |t|
    decreases |p| - i + |t| - j
  {
    if i == |p| || j == |t| then 0
    else if t[j] < p[i] - tolerance then Greedy(p, t, tolerance, i, j + 1)
    else if t[j] > p[i] + tolerance then Greedy(p, t, tolerance, i + 1, j)
    else 1 + Greedy(p, t, tolerance, i + 1, j + 1)
  }

  lemma GreedyWitness(p: seq<int>, t: seq<int>, tolerance: int, i: nat, j: nat)
      returns (m: set<(nat, nat)>)
    requires i <= |p| && j <= |t|
    ensures IsMatching(p, t, tolerance, m)
    ensures forall x | x in m :: x.0 >= i && x.1 >= j
    ensures |m| == Greedy(p, t, tolerance, i, j)
    decreases |p| - i + |t| - j
  {
    if i == |p| || j == |t| {
      m := {};
    } else if t[j] < p[i] - tolerance {
      m := GreedyWitness(p, t, tolerance, i, j + 1);
    } else if t[j] > p[i] + tolerance {
      m := GreedyWitness(p, t, tolerance, i + 1, j);
    } else {
      var rest := GreedyWitness(p, t, tolerance, i + 1, j + 1);
      m := rest + {(i, j)};
    }
  }

  /** Two pairs that use the close front positions `i` and `j` can be re-paired with each other:
      the partners left over are close as well. */
  lemma Exchange(p: seq<int>, t: seq<int>, tolerance: int, i: nat, j: nat,
                 m: set<(nat, nat)>, a: (nat, nat), b: (nat, nat)) returns (rest: set<(nat, nat)>)
    requires SortedBy(Le, p) && SortedBy(Le, t)
    requires i < |p| && j < |t|
    requires IsMatching(p, t, tolerance, m)
    requires a in m && b in m && a != b && a.0 == i && b.1 == j && b.0 > i && a.1 > j
    ensures IsMatching(p, t, tolerance, rest)
    ensures rest == m - {a} - {b} + {(b.0, a.1)}
    ensures |rest| == |m| - 1
  {
    assert Le(p[i], p[b.0]) && Le(t[j], t[a.1]);
    assert Close(p[b.0], t[a.1], tolerance);
    var kept := m - {a} - {b};
    assert |kept| == |m| - 2;
    rest := kept + {(b.0, a.1)};
    assert (b.0, a.1) !in kept;
  }

  /** Of the at most two pairs that use the close front positions `i` and `j`, one can be given up
      so that the rest avoids both. */
  lemma FreeFront(p: seq<int>, t: seq<int>, tolerance: int, i: nat, j: nat,
                  m: set<(nat, nat)>) returns (rest: set<(nat, nat)>)
    requires SortedBy(Le, p) && SortedBy(Le, t)
    requires i < |p| && j < |t|
    requires IsMatching(p, t, tolerance, m)
    requires forall x | x in m :: x.0 >= i && x.1 >= j
    ensures IsMatching(p, t, tolerance, rest)
    ensures forall x | x in rest :: x.0 >= i + 1 && x.1 >= j + 1
    ensures |rest| >= |m| - 1
  {
    if a :| a in m && a.0 == i {
      if b :| b in m && b.1 == j && b != a {
        rest := FreeBoth(p, t, tolerance, i, j, m, a, b);
      } else {
        rest := Dropped(p, t, tolerance, m, a);
      }
    } else if b :| b in m && b.1 == j {
      rest := Dropped(p, t, tolerance, m, b);
    } else {
      rest := m;
    }
  }

  lemma FreeBoth(p: seq<int>, t: seq<int>, tolerance: int, i: nat, j: nat,
                 m: set<(nat, nat)>, a: (nat, nat), b: (nat, nat)) returns (rest: set<(nat, nat)>)
    requires SortedBy(Le, p) && SortedBy(Le, t) && i < |p| && j < |t| && IsMatching(p, t, tolerance, m)
    requires forall x | x in m :: x.0 >= i && x.1 >= j
    requires a in m && b in m && a != b && a.0 == i && b.1 == j
    ensures IsMatching(p, t, tolerance, rest) && |rest| == |m| - 1
    ensures forall x | x in rest :: x.0 >= i + 1 && x.1 >= j + 1
  {
    OnlyPair(p, t, tolerance, m, a);
    OnlyPair(p, t, tolerance, m, b);
    rest := Exchange(p, t, tolerance, i, j, m, a, b);
  }

  /** No other pair uses a position of `a`. */
  lemma OnlyPair(p: seq<int>, t: seq<int>, tolerance: int, m: set<(nat, nat)>, a: (nat, nat))
    requires IsMatching(p, t, tolerance, m) && a in m
    ensures forall x | x in m && x != a :: x.0 != a.0 && x.1 != a.1
  {
  }

  lemma Dropped(p: seq<int>, t: seq<int>, tolerance: int, m: set<(nat, nat)>, a: (nat, nat))
      returns (rest: set<(nat, nat)>)
    requires IsMatching(p, t, tolerance, m) && a in m
    ensures rest == m - {a} && IsMatching(p, t, tolerance, rest) && |rest| == |m| - 1
    ensures forall x | x in rest :: x.0 != a.0 && x.1 != a.1
  {
    OnlyPair(p, t, tolerance, m, a);
    rest := m - {a};
  }

  lemma {:induction false} GreedyBound(p: seq<int>, t: seq<int>, tolerance: int, i: nat, j: nat,
                                       m: set<(nat, nat)>)
    requires SortedBy(Le, p) && SortedBy(Le, t)
    requires i <= |p| && j <= |t|
    requires IsMatching(p, t, tolerance, m)
    requires forall x | x in m :: x.0 >= i && x.1 >= j
    ensures |m| <= Greedy(p, t, tolerance, i, j)
    decreases |p| - i + |t| - j
  {
    if i == |p| || j == |t| {
      assert m == {};
    } else if t[j] < p[i] - tolerance {
      forall x | x in m ensures x.1 >= j + 1 {
        assert x.0 == i || Le(p[i], p[x.0]);
      }
      GreedyBound(p, t, tolerance, i, j + 1, m);
    } else if t[j] > p[i] + tolerance {
      forall x | x in m ensures x.0 >= i + 1 {
        assert x.1 == j || Le(t[j], t[x.1]);
      }
      GreedyBound(p, t, tolerance, i + 1, j, m);
    } else {
      var rest := FreeFront(p, t, tolerance, i, j, m);
      GreedyBound(p, t, tolerance, i + 1, j + 1, rest);
    }
  }

  /** A matching of two lists is a matching, of the same size, of any rearrangement of them. */
  lemma MoveMatching(p: seq<int>, t: seq<int>, p': seq<int>, t': seq<int>, tolerance: int,
                     m: set<(nat, nat)>) returns (m': set<(nat, nat)>)
    requires multiset(p) == multiset(p') && multiset(t) == multiset(t')
    requires IsMatching(p, t, tolerance, m)
    ensures IsMatching(p', t', tolerance, m') && |m'| == |m|
  {
    var f := PermutationRelocates(p, p');
    var g := PermutationRelocates(t, t');
    m' := set x | x in m :: (f[x.0], g[x.1]);
    forall x, y | x in m && y in m && x != y
      ensures f[x.0] != f[y.0] && g[x.1] != g[y.1]
    {
      assert x.0 < y.0 || y.0 < x.0;
      assert x.1 < y.1 || y.1 < x.1;
    }
    forall x | x in m
      ensures f[x.0] < |p'| && g[x.1] < |t'| && Close(p'[f[x.0]], t'[g[x.1]], tolerance)
    {
      assert p[x.0] == p'[f[x.0]] && t[x.1] == t'[g[x.1]];
    }
    ImageSize(m, (x: (nat, nat)) => if x in m then (f[x.0], g[x.1]) else x, m');
  }

  function TruePositives(predicted: seq<int>, truth: seq<int>, tolerance: int): nat {
    Greedy(Sort(Le, predicted), Sort(Le, truth), tolerance, 0, 0)
  }

  /** The docstring's claim, for every pair of lists (unsorted, with repeats) and every
      tolerance. */
  lemma GreedyIsOptimal(predicted: seq<int>, truth: seq<int>, tolerance: int)
    ensures IsLargest(predicted, truth, tolerance, TruePositives(predicted, truth, tolerance))
  {
    var p, t := Sort(Le, predicted), Sort(Le, truth);
    SortSorted(Le, predicted);
    SortSorted(Le, truth);
    var w := GreedyWitness(p, t, tolerance, 0, 0);
    var w' := MoveMatching(p, t, predicted, truth, tolerance, w);
    forall m | IsMatching(predicted, truth, tolerance, m)
      ensures |m| <= TruePositives(predicted, truth, tolerance)
    {
      var m' := MoveMatching(predicted, truth, p, t, tolerance, m);
      GreedyBound(p, t, tolerance, 0, 0, m');
    }
  }

  /** One cut and one label match exactly when they are at most the tolerance apart. */
  lemma OnePair(x: int, y: int, tolerance: int)
    ensures TruePositives([x], [y], tolerance) == if x - y <= tolerance && y - x <= tolerance then 1 else 0
  {
    SortFixed(Le, [x]);
    SortFixed(Le, [y]);
    OneStep([x], [y], tolerance);
  }

  lemma OneStep(p: seq<int>, t: seq<int>, tolerance: int)
    requires |p| == |t| == 1
    ensures Greedy(p, t, tolerance, 0, 0) == if p[0] - t[0] <= tolerance && t[0] - p[0] <= tolerance then 1 else 0
  {
  }

  /** What the count says, in the lists themselves: so many cuts can be given a label each, no label twice,
      with every pair at most the tolerance apart; and not one more. */
  lemma CountIsAssignment(predicted: seq<int>, truth: seq<int>, tolerance: int)
      returns (cuts: seq<nat>, labels: seq<nat>)
    ensures |cuts| == |labels| == TruePositives(predicted, truth, tolerance)
    ensures Assigns(predicted, truth, tolerance, cuts, labels)
    ensures forall c, l | Assigns(predicted, truth, tolerance, c, l) :: |c| <= |cuts|
  {
    GreedyIsOptimal(predicted, truth, tolerance);
    var m :| IsMatching(predicted, truth, tolerance, m) && |m| == TruePositives(predicted, truth, tolerance);
    cuts, labels := ListMatching(predicted, truth, tolerance, m);
    forall c, l | Assigns(predicted, truth, tolerance, c, l) ensures |c| <= |cuts| {
      var pairs := AssignmentMatches(predicted, truth, tolerance, c, l);
    }
  }

  /** Cut `cuts[k]` is given label `labels[k]`. */
  ghost predicate Assigns(p: seq<int>, t: seq<int>, tolerance: int, cuts: seq<nat>, labels: seq<nat>) {
    && |cuts| == |labels|
    && (forall k | 0 <= k < |cuts| :: cuts[k] < |p| && labels[k] < |t|
          && p[cuts[k]] - t[labels[k]] <= tolerance && t[labels[k]] - p[cuts[k]] <= tolerance)
    && forall j, k | 0 <= j < k < |cuts| :: cuts[j] != cuts[k] && labels[j] != labels[k]
  }

  lemma {:induction false} ListMatching(p: seq<int>, t: seq<int>, tolerance: int, m: set<(nat, nat)>)
      returns (cuts: seq<nat>, labels: seq<nat>)
    requires IsMatching(p, t, tolerance, m)
    ensures |cuts| == |m| && Assigns(p, t, tolerance, cuts, labels)
    ensures forall k | 0 <= k < |cuts| :: (cuts[k], labels[k]) in m
    decreases |m|
  {
    cuts, labels := [], [];
    if x :| x in m {
      var rest := m - {x};
      cuts, labels := ListMatching(p, t, tolerance, rest);
      forall k | 0 <= k < |cuts| ensures cuts[k] != x.0 && labels[k] != x.1 {
        assert (cuts[k], labels[k]) in rest;
      }
      cuts, labels := cuts + [x.0], labels + [x.1];
    }
  }

  lemma {:induction false} AssignmentMatches(p: seq<int>, t: seq<int>, tolerance: int, cuts: seq<nat>,
                                             labels: seq<nat>) returns (m: set<(nat, nat)>)
    requires Assigns(p, t, tolerance, cuts, labels)
    ensures IsMatching(p, t, tolerance, m) && |m| == |cuts|
    ensures forall x | x in m :: x.0 in cuts && x.1 in labels
    decreases |cuts|
  {
    m := {};
    if cuts != [] {
      var n := |cuts| - 1;
      var front, others := cuts[..n], labels[..n];
      LastIsNew(p, t, tolerance, cuts, labels, front, others, n);
      var rest := AssignmentMatches(p, t, tolerance, front, others);
      forall x | x in rest ensures x.0 != cuts[n] && x.1 != labels[n] && x.0 in cuts && x.1 in labels {
        assert x.0 in front && x.1 in others;
      }
      m := PairAdded(p, t, tolerance, rest, cuts[n], labels[n]);
    }
  }

  lemma LastIsNew(p: seq<int>, t: seq<int>, tolerance: int, cuts: seq<nat>, labels: seq<nat>, front: seq<nat>,
                  others: seq<nat>, n: nat)
    requires Assigns(p, t, tolerance, cuts, labels) && n == |cuts| - 1 && front == cuts[..n] && others == labels[..n]
    ensures Assigns(p, t, tolerance, front, others) && cuts[n] !in front && labels[n] !in others
    ensures (forall x | x in front :: x in cuts) && forall x | x in others :: x in labels
  {
  }

  lemma PairAdded(p: seq<int>, t: seq<int>, tolerance: int, rest: set<(nat, nat)>, c: nat, l: nat)
      returns (m: set<(nat, nat)>)
    requires IsMatching(p, t, tolerance, rest) && c < |p| && l < |t| && Close(p[c], t[l], tolerance)
    requires forall x | x in rest :: x.0 != c && x.1 != l
    ensures m == rest + {(c, l)} && IsMatching(p, t, tolerance, m) && |m| == |rest| + 1
  {
    m := rest + {(c, l)};
  }

  lemma FlipMatching(p: seq<int>, t: seq<int>, tolerance: int, m: set<(nat, nat)>)
      returns (m': set<(nat, nat)>)
    requires IsMatching(p, t, tolerance, m)
    ensures IsMatching(t, p, tolerance, m') && |m'| == |m|
  {
    m' := set x | x in m :: (x.1, x.0);
    ImageSize(m, (x: (nat, nat)) => (x.1, x.0), m');
  }

  /** Swapping prediction and label swaps false positives and false negatives and nothing else. */
  lemma TruePositivesSymmetric(p: seq<int>, t: seq<int>, tolerance: int)
    ensures TruePositives(p, t, tolerance) == TruePositives(t, p, tolerance)
  {
    GreedyIsOptimal(p, t, tolerance);
    GreedyIsOptimal(t, p, tolerance);
    var m :| IsMatching(p, t, tolerance, m) && |m| == TruePositives(p, t, tolerance);
    var m' := FlipMatching(p, t, tolerance, m);
    var w :| IsMatching(t, p, tolerance, w) && |w| == TruePositives(t, p, tolerance);
    var w' := FlipMatching(t, p, tolerance, w);
  }

  lemma TruePositivesMonotone(p: seq<int>, t: seq<int>, narrow: int, wide: int)
    requires narrow <= wide
    ensures TruePositives(p, t, narrow) <= TruePositives(p, t, wide)
  {
    GreedyIsOptimal(p, t, narrow);
    GreedyIsOptimal(p, t, wide);
    var m :| IsMatching(p, t, narrow, m) && |m| == TruePositives(p, t, narrow);
    assert IsMatching(p, t, wide, m);
  }

  lemma MatchingSize(p: seq<int>, t: seq<int>, tolerance: int, m: set<(nat, nat)>)
    requires IsMatching(p, t, tolerance, m)
    ensures |m| <= |p| && |m| <= |t|
  {
    var left, right := set x | x in m :: x.0, set x | x in m :: x.1;
    ImageSize(m, (x: (nat, nat)) => x.0, left);
    ImageSize(m, (x: (nat, nat)) => x.1, right);
    RangeSize(left, |p|);
    RangeSize(right, |t|);
  }

  lemma {:induction false} RangeSize(s: set<nat>, n: nat)
    requires forall x | x in s :: x < n
    ensures |s| <= n
  {
    if n == 0 {
      assert s == {};
    } else {
      RangeSize(s - {n - 1}, n - 1);
    }
  }

  lemma TruePositivesBounded(predicted: seq<int>, truth: seq<int>, tolerance: int)
    ensures TruePositives(predicted, truth, tolerance) <= |predicted|
    ensures TruePositives(predicted, truth, tolerance) <= |truth|
  {
    GreedyIsOptimal(predicted, truth, tolerance);
    var n := TruePositives(predicted, truth, tolerance);
    var m :| IsMatching(predicted, truth, tolerance, m) && |m| == n;
    MatchingSize(predicted, truth, tolerance, m);
  }

  /** The labels between `start` and `next` are used, those from `next` on are not. */
  ghost predicate Cursor(used: seq<bool>, start: nat, next: nat) {
    start <= next <= |used|
    && (forall k | start <= k < next :: used[k])
    && forall k | next <= k < |used| :: !used[k]
  }

  /** The cursor moves past the labels that are used or too far before the cut. */
  method Advance(cuts: seq<int>, labels: seq<int>, tolerance: int, i: nat, used: seq<bool>, from: nat, ghost first: nat)
      returns (start: nat, ghost next: nat)
    requires i < |cuts| && |labels| == |used| && Cursor(used, from, first)
    ensures Cursor(used, start, next)
    ensures Greedy(cuts, labels, tolerance, i, next) == Greedy(cuts, labels, tolerance, i, first)
    ensures start < |labels| ==> !used[start] && labels[start] >= cuts[i] - tolerance
  {
    start, next := from, first;
    while start < |labels| && (used[start] || labels[start] < cuts[i] - tolerance)
      invariant Cursor(used, start, next)
      invariant Greedy(cuts, labels, tolerance, i, next) == Greedy(cuts, labels, tolerance, i, first)
    {
      if next == start {
        next := next + 1;
      }
      start := start + 1;
    }
  }

  /** The inner loop: the first label in reach that is not used is taken. */
  method Take(cuts: seq<int>, labels: seq<int>, tolerance: int, i: nat, before: seq<bool>, start: nat, ghost first: nat)
      returns (used: seq<bool>, taken: bool, ghost next: nat)
    requires i < |cuts| && SortedBy(Le, labels) && |labels| == |before| && Cursor(before, start, first)
    requires start < |labels| ==> labels[start] >= cuts[i] - tolerance
    ensures |used| == |labels| && Cursor(used, start, next)
    ensures Greedy(cuts, labels, tolerance, i, first)
         == (if taken then 1 else 0) + Greedy(cuts, labels, tolerance, i + 1, next)
  {
    used, next := before, first;
    var index := start;
    while index < |labels| && labels[index] <= cuts[i] + tolerance
      invariant start <= index <= first
    {
      if !used[index] {
        used := used[index := true];
        TakesOne(cuts, labels, tolerance, i, start, first);
        return used, true, first + 1;
      }
      index := index + 1;
    }
    taken := false;
    TakesNone(cuts, labels, tolerance, i, start, index, first);
  }

  lemma TakesOne(cuts: seq<int>, labels: seq<int>, tolerance: int, i: nat, start: nat, j: nat)
    requires i < |cuts| && start <= j < |labels| && SortedBy(Le, labels)
    requires labels[start] >= cuts[i] - tolerance && labels[j] <= cuts[i] + tolerance
    ensures Greedy(cuts, labels, tolerance, i, j) == 1 + Greedy(cuts, labels, tolerance, i + 1, j + 1)
  {
    assert start == j || Le(labels[start], labels[j]);
  }

  lemma TakesNone(cuts: seq<int>, labels: seq<int>, tolerance: int, i: nat, start: nat, index: nat, j: nat)
    requires i < |cuts| && start <= index <= j <= |labels| && SortedBy(Le, labels)
    requires start < |labels| ==> labels[start] >= cuts[i] - tolerance
    requires index < |labels| ==> labels[index] > cuts[i] + tolerance
    ensures Greedy(cuts, labels, tolerance, i, j) == Greedy(cuts, labels, tolerance, i + 1, j)
  {
    if j < |labels| {
      assert index == j || Le(labels[index], labels[j]);
      assert start == j || Le(labels[start], labels[j]);
    }
  }

  /** `match_cuts`. */
  method MatchCuts(predicted: seq<int>, truth: seq<int>, tolerance: int)
      returns (matched: nat, falsePositives: nat, falseNegatives: nat)
    ensures matched == TruePositives(predicted, truth, tolerance)
    ensures IsLargest(predicted, truth, tolerance, matched)
    ensures matched + falsePositives == |predicted|
    ensures matched + falseNegatives == |truth|
  {
    var cuts, labels := Sort(Le, predicted), Sort(Le, truth);
    SortSorted(Le, truth);
    var used := seq(|labels|, _ => false);
    var start: nat := 0;
    matched := 0;
    ghost var next: nat := 0;  // the first label that no earlier cut has used or ruled out
    for i := 0 to |cuts|
      invariant |labels| == |used| && Cursor(used, start, next)
      invariant matched + Greedy(cuts, labels, tolerance, i, next) == TruePositives(predicted, truth, tolerance)
    {
      start, next := Advance(cuts, labels, tolerance, i, used, start, next);
      var taken;
      used, taken, next := Take(cuts, labels, tolerance, i, used, start, next);
      if taken {
        matched := matched + 1;
      }
    }
    GreedyIsOptimal(predicted, truth, tolerance);
    TruePositivesBounded(predicted, truth, tolerance);
    falsePositives := |predicted| - matched;
    falseNegatives := |labels| - matched;
  }
}
