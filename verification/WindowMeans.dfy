/** Sums and means of values over a finite set, and what part of the set is enough to know them. */
module WindowMeans {
  import opened Arithmetic

  ghost function SumOver<T(!new)>(value: T -> real, s: set<T>): real {
    if s == {} then 0.0
    else
      var w :| w in s;
      value(w) + SumOver(value, s - {w})
  }

  /** The order of the elements does not matter. */
  lemma {:induction false} SumTakesAny<T(!new)>(value: T -> real, s: set<T>, w: T)
    requires w in s
    ensures SumOver(value, s) == value(w) + SumOver(value, s - {w})
    decreases |s|
  {
    var v :| v in s && SumOver(value, s) == value(v) + SumOver(value, s - {v});
    if v != w {
      SumTakesAny(value, s - {v}, w);
      SumTakesAny(value, s - {w}, v);
      assert s - {v} - {w} == s - {w} - {v};
    }
  }

  /** Elements of value 1 need not be evaluated. */
  lemma {:induction false} SumWithOnes<T(!new)>(value: T -> real, s: set<T>, part: set<T>)
    requires part <= s && forall w | w in s - part :: value(w) == 1.0
    ensures SumOver(value, s) == SumOver(value, part) + (|s| - |part|) as real
    decreases |s|
  {
    if w :| w in s - part {
      SumTakesAny(value, s, w);
      SumWithOnes(value, s - {w}, part);
    } else {
      assert s - part == {} && s == part + (s - part);
    }
  }

  lemma {:induction false} SumRange<T(!new)>(value: T -> real, s: set<T>)
    requires forall w | w in s :: -1.0 <= value(w) <= 1.0
    ensures -(|s| as real) <= SumOver(value, s) <= |s| as real
    ensures SumOver(value, s) == |s| as real <==> forall w | w in s :: value(w) == 1.0
    decreases |s|
  {
    if w :| w in s {
      SumTakesAny(value, s, w);
      SumRange(value, s - {w});
      assert forall v | v in s :: v == w || v in s - {w};
    }
  }

  /** The mean; of nothing, 1. */
  ghost function Mean<T(!new)>(value: T -> real, s: set<T>): real {
    if s == {} then 1.0 else SumOver(value, s) / |s| as real
  }

  function SumList<T>(value: T -> real, l: seq<T>): real {
    if l == [] then 0.0 else SumList(value, l[..|l| - 1]) + value(l[|l| - 1])
  }

  /** The mean in terms of any list of the elements. */
  lemma MeanOfList<T(!new)>(value: T -> real, s: set<T>, l: seq<T>)
    requires s != {} && (forall w :: w in s <==> w in l) && forall i, j | 0 <= i < j < |l| :: l[i] != l[j]
    ensures |l| == |s| && Mean(value, s) * |l| as real == SumList(value, l)
  {
    SumOfList(value, s, l);
  }

  lemma {:induction false} SumOfList<T(!new)>(value: T -> real, s: set<T>, l: seq<T>)
    requires (forall w :: w in s <==> w in l) && forall i, j | 0 <= i < j < |l| :: l[i] != l[j]
    ensures |l| == |s| && SumOver(value, s) == SumList(value, l)
    decreases |l|
  {
    if l != [] {
      var n := |l| - 1;
      var front, w := l[..n], l[n];
      assert l == front + [w] && w in l;
      forall v ensures v in s - {w} <==> v in front {
        assert v in l <==> v in front || v == w;
      }
      SumOfList(value, s - {w}, front);
      SumTakesAny(value, s, w);
    } else {
      assert s == {};
    }
  }

  /** Values in [-1, 1] have a mean in [-1, 1], which is 1 exactly when each is. */
  lemma MeanRange<T(!new)>(value: T -> real, s: set<T>)
    requires forall w | w in s :: -1.0 <= value(w) <= 1.0
    ensures -1.0 <= Mean(value, s) <= 1.0
    ensures Mean(value, s) == 1.0 <==> forall w | w in s :: value(w) == 1.0
  {
    SumRange(value, s);
    if s != {} {
      RealQuotient(SumOver(value, s), |s| as real);
    }
  }

  /** What `ssim` returns: the sum over `done` of `count` windows, and 1 for each of the others. */
  function FilledMean(sum: real, count: nat, done: nat): real
    requires count > 0
  {
    (sum + (count - done) as real) / count as real
  }

  /** The mean from the values of a part, when each of the others is 1. */
  lemma MeanFromPart<T(!new)>(value: T -> real, s: set<T>, part: set<T>, sum: real)
    requires s != {} && part <= s && sum == SumOver(value, part)
    requires forall w | w in s - part :: value(w) == 1.0
    ensures FilledMean(sum, |s|, |part|) == Mean(value, s)
  {
    SumWithOnes(value, s, part);
  }

  method SumValues<T(!new, ==)>(ghost value: T -> real, values: map<T, real>) returns (sum: real)
    requires forall w | w in values :: values[w] == value(w)
    ensures sum == SumOver(value, values.Keys)
  {
    sum := 0.0;
    var left := values.Keys;
    while left != {}
      invariant left <= values.Keys
      invariant sum + SumOver(value, left) == SumOver(value, values.Keys)
      decreases |left|
    {
      var w :| w in left;
      SumTakesAny(value, left, w);
      sum := sum + values[w];
      left := left - {w};
    }
  }
}
