/** Maximal runs of kept frames: what a time-map piece is, independently of how it is computed. */
module Runs {

  /** `[lo, hi)` is kept, cannot be extended either way, and is at least `least` frames long. */
  ghost predicate Run(kept: int -> bool, least: nat, lo: int, hi: int) {
    && lo + least <= hi
    && (forall sf | lo <= sf < hi :: kept(sf))
    && !kept(lo - 1) && !kept(hi)
  }

  ghost predicate Ascending(l: seq<(int, int)>) {
    forall i, j | 0 <= i < j < |l| :: l[i].1 < l[j].0
  }

  /** `l` lists exactly the maximal runs, in source order. */
  ghost predicate ListsRuns(kept: int -> bool, least: nat, l: seq<(int, int)>) {
    && (forall r | r in l :: Run(kept, least, r.0, r.1))
    && (forall lo, hi | Run(kept, least, lo, hi) :: (lo, hi) in l)
    && Ascending(l)
  }

  /** There is only one such list. */
  lemma {:induction false} RunListUnique(kept: int -> bool, least: nat, l: seq<(int, int)>, l': seq<(int, int)>)
    requires least >= 1
    requires ListsRuns(kept, least, l) && ListsRuns(kept, least, l')
    ensures l == l'
  {
    forall r ensures r in l <==> r in l' {
      assert r in l ==> Run(kept, least, r.0, r.1) && (r.0, r.1) == r;
      assert r in l' ==> Run(kept, least, r.0, r.1) && (r.0, r.1) == r;
    }
    assert forall r | r in l :: r.0 < r.1;
    assert forall r | r in l' :: r.0 < r.1;
    SameAscending(l, l');
  }

  lemma {:induction false} SameAscending(l: seq<(int, int)>, l': seq<(int, int)>)
    requires Ascending(l) && Ascending(l')
    requires forall r :: r in l <==> r in l'
    requires forall r | r in l :: r.0 < r.1
    ensures l == l'
    decreases |l|
  {
    if l == [] {
      assert forall i | 0 <= i < |l'| :: l'[i] in l;
    } else {
      assert l[0] in l';
      var j :| 0 <= j < |l'| && l'[j] == l[0];
      assert l'[0] in l;
      var i :| 0 <= i < |l| && l[i] == l'[0];
      assert i == 0 && j == 0;
      forall r ensures r in l[1..] <==> r in l'[1..] {
        TailMember(l, r);
        TailMember(l', r);
      }
      SameAscending(l[1..], l'[1..]);
    }
  }

  lemma TailMember(l: seq<(int, int)>, r: (int, int))
    requires Ascending(l) && l != [] && l[0].0 < l[0].1
    ensures r in l[1..] <==> r in l && r != l[0]
  {
    assert l == [l[0]] + l[1..];
  }

  /** The frame-by-frame scan: `[lo, sf)` is the open run, closed by a removed frame or the end. */
  function Scan(kept: int -> bool, least: nat, lo: int, sf: int, end: int): seq<(int, int)>
    requires sf <= end
    decreases end - sf
  {
    if sf < end && kept(sf) then
      Scan(kept, least, lo, sf + 1, end)
    else
      (if sf - lo >= least then [(lo, sf)] else [])
      + (if sf < end then Scan(kept, least, sf + 1, sf + 1, end) else [])
  }

  /** `kept` inside `[a, b)`, nothing outside it. */
  ghost function Within(kept: int -> bool, a: int, b: int): int -> bool {
    (sf: int) => a <= sf < b && kept(sf)
  }

  ghost predicate ScanOpen(kept: int -> bool, a: int, lo: int, sf: int, end: int) {
    && a <= lo <= sf <= end
    && (forall x | lo <= x < sf :: kept(x))
    && (lo == a || !kept(lo - 1))
  }

  /** From an open run on, the scan lists the runs that start there or later. */
  lemma {:induction false} ScanLists(kept: int -> bool, least: nat, a: int, lo: int, sf: int, end: int)
    requires least >= 1
    requires ScanOpen(kept, a, lo, sf, end)
    ensures forall r | r in Scan(kept, least, lo, sf, end) :: Run(Within(kept, a, end), least, r.0, r.1) && lo <= r.0
    ensures forall x, y | lo <= x && Run(Within(kept, a, end), least, x, y) :: (x, y) in Scan(kept, least, lo, sf, end)
    ensures Ascending(Scan(kept, least, lo, sf, end))
    decreases end - sf
  {
    var inside := Within(kept, a, end);
    if sf < end && kept(sf) {
      ScanLists(kept, least, a, lo, sf + 1, end);
    } else {
      if sf < end {
        ScanLists(kept, least, a, sf + 1, sf + 1, end);
      }
      forall x, y | lo <= x && Run(inside, least, x, y)
        ensures (x, y) in Scan(kept, least, lo, sf, end)
      {
        assert inside(x);
        if x < sf {
          // the run that starts inside the open one is the open one
          assert x == lo || inside(x - 1);
          assert y >= sf || inside(y);
          assert y <= sf || inside(sf);
        }
      }
    }
  }

  lemma ScanIsRunList(kept: int -> bool, least: nat, a: int, b: int)
    requires least >= 1 && a <= b
    ensures ListsRuns(Within(kept, a, b), least, Scan(kept, least, a, a, b))
  {
    ScanLists(kept, least, a, a, a, b);
    forall x, y | Run(Within(kept, a, b), least, x, y)
      ensures (x, y) in Scan(kept, least, a, a, b)
    {
      assert Within(kept, a, b)(x);
    }
  }

  /** Only the kept frames matter. */
  lemma {:induction false} ScanCongruent(kept: int -> bool, kept': int -> bool, least: nat, lo: int, sf: int, end: int)
    requires sf <= end
    requires forall x | sf <= x < end :: kept(x) == kept'(x)
    ensures Scan(kept, least, lo, sf, end) == Scan(kept', least, lo, sf, end)
    decreases end - sf
  {
    if sf < end {
      if kept(sf) {
        ScanCongruent(kept, kept', least, lo, sf + 1, end);
      } else {
        ScanCongruent(kept, kept', least, sf + 1, sf + 1, end);
      }
    }
  }

  /** A frame lies in some run of two or more exactly when it is kept and has a kept neighbour. */
  lemma RunOfTwo(kept: int -> bool, sf: int, a: int, b: int)
    ensures (exists lo, hi :: lo <= sf < hi && Run(Within(kept, a, b), 2, lo, hi))
        <==> Within(kept, a, b)(sf) && (Within(kept, a, b)(sf - 1) || Within(kept, a, b)(sf + 1))
  {
    var inside := Within(kept, a, b);
    if inside(sf) && (inside(sf - 1) || inside(sf + 1)) {
      var lo, hi := sf, sf + 1;
      while inside(lo - 1)
        invariant a <= lo <= sf && forall x | lo <= x < hi :: inside(x)
        decreases lo - a
      {
        lo := lo - 1;
      }
      while inside(hi)
        invariant sf < hi <= b && forall x | lo <= x < hi :: inside(x)
        decreases b - hi
      {
        hi := hi + 1;
      }
      assert Run(inside, 2, lo, hi);
    }
    if lo, hi :| lo <= sf < hi && Run(inside, 2, lo, hi) {
      assert inside(sf);
      if lo < sf { assert inside(sf - 1); } else { assert inside(sf + 1); }
    }
  }
}
