/** The editor's removal list (`_Builder.remove` and `set_cold_open` of
    `scripts/editor/gen_t37_fixtures.py`): a stateful interval merge in one pass. */
module RemovalList {
  import opened Arithmetic
  import opened Pieces
  import opened Sorting
  import opened Wrappers

  /** A removal entry; `number` is the n of its id `rm_n`, `words` its word ids. */
  datatype Entry = Entry(number: nat, seg: string, inSf: int, outSf: int, words: set<string>,
                         reason: string, origin: string)

  // --- names --------------------------------------------------------------------------------------

  /** Python's order on strings: by the first character that differs. */
  function NameLe(a: string, b: string): bool {
    a == [] || (b != [] && (a[0] < b[0] || (a[0] == b[0] && NameLe(a[1..], b[1..]))))
  }

  lemma {:induction false} NameTotal(a: string, b: string)
    ensures NameLe(a, b) || NameLe(b, a)
    ensures NameLe(a, b) && NameLe(b, a) ==> a == b
  {
    if a != [] && b != [] && a[0] == b[0] {
      NameTotal(a[1..], b[1..]);
    }
  }

  lemma {:induction false} NameTransitive(a: string, b: string, c: string)
    requires NameLe(a, b) && NameLe(b, c)
    ensures NameLe(a, c)
  {
    if a != [] && a[0] == b[0] && b[0] == c[0] {
      NameTransitive(a[1..], b[1..], c[1..]);
    }
  }

  /** In characters: one name begins the other, or the first character that differs decides. */
  lemma {:induction false} NameLeMeans(a: string, b: string)
    ensures NameLe(a, b) <==> a <= b || exists i :: 0 <= i < |a| && i < |b| && a[..i] == b[..i] && a[i] < b[i]
  {
    if a != [] && b != [] && a[0] == b[0] {
      NameLeMeans(a[1..], b[1..]);
      if i :| 0 <= i < |a[1..]| && i < |b[1..]| && a[1..][..i] == b[1..][..i] && a[1..][i] < b[1..][i] {
        assert a[..i + 1] == [a[0]] + a[1..][..i] && b[..i + 1] == [b[0]] + b[1..][..i];
        assert a[i + 1] < b[i + 1];
      }
      if i :| 0 <= i < |a| && i < |b| && a[..i] == b[..i] && a[i] < b[i] {
        assert i > 0 && a[1..][..i - 1] == a[..i][1..] && b[1..][..i - 1] == b[..i][1..];
      }
      assert a <= b <==> a[1..] <= b[1..] by {
        assert a == [a[0]] + a[1..] && b == [b[0]] + b[1..];
      }
    } else if a != [] && b != [] {
      assert a[..0] == b[..0] == [];
      forall i | 0 < i < |a| && i < |b| ensures a[..i] != b[..i] {
        assert a[..i][0] == a[0] && b[..i][0] == b[0];
      }
    }
  }

  /** The sort key `(seg, in_sf)`. */
  function EntryLe(x: Entry, y: Entry): bool {
    if x.seg == y.seg then x.inSf <= y.inSf else NameLe(x.seg, y.seg)
  }

  lemma EntryOrder()
    ensures TotalPreorder(EntryLe)
  {
    forall x, y ensures EntryLe(x, y) || EntryLe(y, x) {
      NameTotal(x.seg, y.seg);
    }
    forall x, y, z | EntryLe(x, y) && EntryLe(y, z) ensures EntryLe(x, z) {
      NameTotal(x.seg, y.seg);
      NameTotal(y.seg, z.seg);
      if x.seg != y.seg && y.seg != z.seg {
        NameTransitive(x.seg, y.seg, z.seg);
      }
    }
  }

  // --- one pass -----------------------------------------------------------------------------------

  predicate Touches(x: Entry, m: Entry) {
    x.seg == m.seg && x.inSf <= m.outSf && m.inSf <= x.outSf
  }

  function Absorb(m: Entry, x: Entry): Entry {
    m.(inSf := Min(m.inSf, x.inSf), outSf := Max(m.outSf, x.outSf), words := m.words + x.words,
       reason := "user")
  }

  /** The pass: `merged` grows as it goes, so a later entry is tested against what was absorbed. */
  function Pass(l: seq<Entry>, m: Entry): (Entry, seq<Entry>) {
    if l == [] then (m, [])
    else
      var (merged, keep) := Pass(l[..|l| - 1], m);
      var x := l[|l| - 1];
      if Touches(x, merged) then (Absorb(merged, x), keep) else (merged, keep + [x])
  }

  function Renumber(l: seq<Entry>): (r: seq<Entry>)
    ensures |r| == |l|
  {
    seq(|l|, k requires 0 <= k < |l| => l[k].(number := k + 1))
  }

  /** The list after removing `m`. */
  function After(l: seq<Entry>, m: Entry): seq<Entry> {
    var (merged, keep) := Pass(l, m);
    Renumber(Sort(EntryLe, keep + [merged]))
  }

  // --- what a list means ----------------------------------------------------------------------------

  ghost predicate Proper(l: seq<Entry>) {
    forall x | x in l :: x.inSf <= x.outSf
  }

  ghost predicate Covers(l: seq<Entry>, seg: string, sf: int) {
    exists x :: x in l && x.seg == seg && x.inSf <= sf < x.outSf
  }

  ghost predicate HasWord(l: seq<Entry>, w: string) {
    exists x :: x in l && w in x.words
  }

  /** At least `gap` frames lie between two entries of one segment. */
  ghost predicate Apart(x: Entry, y: Entry, gap: nat) {
    x.seg != y.seg || x.outSf + gap <= y.inSf || y.outSf + gap <= x.inSf
  }

  /** With gap 0 an entry must hold a frame; with gap 1 it may be empty. */
  ghost predicate Wide(x: Entry, gap: nat) { x.inSf + 1 <= x.outSf + gap }

  /** Pairwise apart, whatever the order of the list: `gap` 1 is strict separation, 0 allows
      entries that touch (what the validator accepts). */
  ghost predicate Separated(l: seq<Entry>, gap: nat) {
    && (forall x | x in l :: Wide(x, gap))
    && (forall i, j | 0 <= i < j < |l| :: Apart(l[i], l[j], gap))
  }

  ghost predicate Numbered(l: seq<Entry>) {
    forall k | 0 <= k < |l| :: l[k].number == k + 1
  }

  ghost predicate Canonical(l: seq<Entry>, gap: nat) {
    Proper(l) && Separated(l, gap) && SortedBy(EntryLe, l) && Numbered(l)
  }

  // --- the pass -------------------------------------------------------------------------------------

  lemma {:induction false} PassCovers(l: seq<Entry>, m: Entry)
    requires Proper(l)
    ensures var (merged, keep) := Pass(l, m);
            (m.inSf <= m.outSf ==> Proper(keep + [merged])) && merged.seg == m.seg
            && (forall seg, sf :: Covers(keep + [merged], seg, sf) <==> Covers(l, seg, sf) || Covers([m], seg, sf))
            && (forall w :: HasWord(keep + [merged], w) <==> HasWord(l, w) || w in m.words)
    decreases |l|
  {
    if l == [] {
      assert [] + [m] == [m];
    } else {
      var front, x := l[..|l| - 1], l[|l| - 1];
      assert l == front + [x];
      PassCovers(front, m);
      var (merged, keep) := Pass(front, m);
      var (merged', keep') := Pass(l, m);
      StepCovers(merged, keep, x);
      forall seg, sf
        ensures Covers(keep' + [merged'], seg, sf) <==> Covers(l, seg, sf) || Covers([m], seg, sf)
      {
        assert Covers(l, seg, sf) <==> Covers(front, seg, sf) || Covers([x], seg, sf);
        assert Covers(keep' + [merged'], seg, sf) <==> Covers(keep + [merged], seg, sf) || Covers([x], seg, sf);
      }
      forall w
        ensures HasWord(keep' + [merged'], w) <==> HasWord(l, w) || w in m.words
      {
        assert HasWord(l, w) <==> HasWord(front, w) || w in x.words;
      }
    }
  }

  ghost function Step(merged: Entry, keep: seq<Entry>, x: Entry): seq<Entry> {
    if Touches(x, merged) then keep + [Absorb(merged, x)] else (keep + [x]) + [merged]
  }

  lemma StepCovers(merged: Entry, keep: seq<Entry>, x: Entry)
    requires x.inSf <= x.outSf
    ensures Proper(keep + [merged]) ==> Proper(Step(merged, keep, x))
    ensures forall seg, sf :: Covers(Step(merged, keep, x), seg, sf)
                         <==> Covers(keep + [merged], seg, sf) || Covers([x], seg, sf)
    ensures forall w :: HasWord(Step(merged, keep, x), w) <==> HasWord(keep + [merged], w) || w in x.words
  {
    var after := Step(merged, keep, x);
    assert merged in keep + [merged];
    forall seg, sf
      ensures Covers(after, seg, sf) <==> Covers(keep + [merged], seg, sf) || Covers([x], seg, sf)
    {
      CoversLast(keep, merged, seg, sf);
      CoversLast([], x, seg, sf);
      assert [] + [x] == [x];
      if Touches(x, merged) {
        CoversLast(keep, Absorb(merged, x), seg, sf);
      } else {
        CoversLast(keep, x, seg, sf);
        CoversLast(keep + [x], merged, seg, sf);
      }
    }
    forall w
      ensures HasWord(after, w) <==> HasWord(keep + [merged], w) || w in x.words
    {
      HasWordLast(keep, merged, w);
      if Touches(x, merged) {
        HasWordLast(keep, Absorb(merged, x), w);
      } else {
        HasWordLast(keep, x, w);
        HasWordLast(keep + [x], merged, w);
      }
    }
  }

  lemma CoversLast(l: seq<Entry>, x: Entry, seg: string, sf: int)
    ensures Covers(l + [x], seg, sf) <==> Covers(l, seg, sf) || (x.seg == seg && x.inSf <= sf < x.outSf)
  {
    if y :| y in l && y.seg == seg && y.inSf <= sf < y.outSf {
      assert y in l + [x];
    }
    assert x in l + [x];
  }

  lemma HasWordLast(l: seq<Entry>, x: Entry, w: string)
    ensures HasWord(l + [x], w) <==> HasWord(l, w) || w in x.words
  {
    if y :| y in l && w in y.words {
      assert y in l + [x];
    }
    assert x in l + [x];
  }

  /** What was kept before `merged` grew is apart from everything the rest can add to it. */
  lemma GrownStaysApart(y: Entry, merged: Entry, x: Entry, gap: nat)
    requires gap <= 1 && y.inSf <= y.outSf && Wide(y, gap) && x.inSf <= x.outSf && merged.inSf <= merged.outSf
    requires Apart(y, merged, gap) && Apart(y, x, gap) && Touches(x, merged)
    ensures Apart(y, Absorb(merged, x), gap)
  {
  }

  ghost predicate Kept(l: seq<Entry>, merged: Entry, keep: seq<Entry>, gap: nat) {
    && Separated(keep, gap) && merged.inSf <= merged.outSf && Wide(merged, gap)
    && (forall y | y in keep :: y in l && Apart(y, merged, gap))
  }

  /** Why one pass is enough. */
  lemma {:induction false} PassSeparates(l: seq<Entry>, m: Entry, gap: nat)
    requires Proper(l) && Separated(l, gap) && gap <= 1 && m.inSf <= m.outSf && Wide(m, gap)
    ensures Kept(l, Pass(l, m).0, Pass(l, m).1, gap)
    decreases |l|
  {
    if l != [] {
      var front, x := l[..|l| - 1], l[|l| - 1];
      assert l == front + [x];
      assert x in l && forall y | y in front :: y in l;
      assert Separated(front, gap);
      PassSeparates(front, m, gap);
      var (merged, keep) := Pass(front, m);
      KeptNext(l, front, x, merged, keep, gap);
    }
  }

  lemma KeptNext(l: seq<Entry>, front: seq<Entry>, x: Entry, merged: Entry, keep: seq<Entry>, gap: nat)
    requires Proper(l) && Separated(l, gap) && gap <= 1 && l != [] && front == l[..|l| - 1] && x == l[|l| - 1]
    requires Kept(front, merged, keep, gap)
    ensures if Touches(x, merged) then Kept(l, Absorb(merged, x), keep, gap) else Kept(l, merged, keep + [x], gap)
  {
    assert l == front + [x];
    assert x in l && forall y | y in front :: y in l;
    LastIsApart(l, front, keep, gap);
    if Touches(x, merged) {
      forall y | y in keep ensures Apart(y, Absorb(merged, x), gap) {
        GrownStaysApart(y, merged, x, gap);
      }
    } else {
      KeepOneMore(keep, x, gap);
    }
  }

  lemma LastIsApart(l: seq<Entry>, front: seq<Entry>, keep: seq<Entry>, gap: nat)
    requires Separated(l, gap) && l != [] && front == l[..|l| - 1] && forall y | y in keep :: y in front
    ensures forall y | y in keep :: Apart(y, l[|l| - 1], gap)
  {
    forall y | y in keep ensures Apart(y, l[|l| - 1], gap) {
      var j :| 0 <= j < |front| && front[j] == y;
      assert l[j] == y;
    }
  }

  lemma KeepOneMore(keep: seq<Entry>, x: Entry, gap: nat)
    requires Separated(keep, gap) && Wide(x, gap) && forall y | y in keep :: Apart(y, x, gap)
    ensures Separated(keep + [x], gap)
  {
    var more := keep + [x];
    forall i, j | 0 <= i < j < |more| ensures Apart(more[i], more[j], gap) {
      assert keep[i] in keep;
    }
  }

  lemma SeparatedRearranged(l: seq<Entry>, l': seq<Entry>, gap: nat)
    requires multiset(l) == multiset(l') && Separated(l, gap)
    ensures Separated(l', gap)
  {
    var f := PermutationRelocates(l', l);
    forall x | x in l' ensures Wide(x, gap) {
      var i :| 0 <= i < |l'| && l'[i] == x;
      assert l[f[i]] in l;
    }
    forall i, j | 0 <= i < j < |l'| ensures Apart(l'[i], l'[j], gap) {
      assert f[i] != f[j] && l'[i] == l[f[i]] && l'[j] == l[f[j]];
      assert f[i] < f[j] || f[j] < f[i];
    }
  }

  /** The main statement: from a proper list with gap 0 or 1 the new one is canonical with the same
      gap, and covers exactly the old frames and the new ones, and holds exactly the old words and
      the new ones. */
  lemma AfterIsCanonical(l: seq<Entry>, m: Entry, gap: nat)
    requires Proper(l) && Separated(l, gap) && gap <= 1 && m.inSf <= m.outSf && Wide(m, gap)
    ensures Canonical(After(l, m), gap)
  {
    var (merged, keep) := Pass(l, m);
    var sorted := Sort(EntryLe, keep + [merged]);
    PassCovers(l, m);
    PassSeparates(l, m, gap);
    KeepOneMore(keep, merged, gap);
    SeparatedRearranged(keep + [merged], sorted, gap);
    EntryOrder();
    SortSorted(EntryLe, keep + [merged]);
    SortMembers(EntryLe, keep + [merged]);
    RenumberKeeps(sorted, gap);
  }

  /** Sorted and numbered, whatever the list was. */
  lemma AfterIsSorted(l: seq<Entry>, m: Entry)
    ensures SortedBy(EntryLe, After(l, m)) && Numbered(After(l, m))
  {
    var (merged, keep) := Pass(l, m);
    var sorted := Sort(EntryLe, keep + [merged]);
    EntryOrder();
    SortSorted(EntryLe, keep + [merged]);
    forall j, k | 0 <= j < k < |sorted| ensures EntryLe(After(l, m)[j], After(l, m)[k]) {
      assert EntryLe(sorted[j], sorted[k]);
    }
  }

  lemma RenumberKeeps(l: seq<Entry>, gap: nat)
    requires Proper(l) && Separated(l, gap) && SortedBy(EntryLe, l)
    ensures Canonical(Renumber(l), gap)
  {
    var r := Renumber(l);
    forall x | x in r ensures x.inSf <= x.outSf && Wide(x, gap) {
      var k :| 0 <= k < |r| && r[k] == x;
      assert l[k] in l;
    }
    forall i, j | 0 <= i < j < |r| ensures Apart(r[i], r[j], gap) && EntryLe(r[i], r[j]) {
      assert Apart(l[i], l[j], gap) && EntryLe(l[i], l[j]);
    }
  }

  lemma RenumberCovers(l: seq<Entry>, seg: string, sf: int, w: string)
    ensures Covers(Renumber(l), seg, sf) <==> Covers(l, seg, sf)
    ensures HasWord(Renumber(l), w) <==> HasWord(l, w)
  {
    var r := Renumber(l);
    forall k | 0 <= k < |l| ensures r[k] in r && l[k] in l && r[k] == l[k].(number := k + 1) {
    }
  }

  /** No frame and no word is lost or added, even for a list that is not separated or a range that ends
      before it starts, which covers nothing. */
  lemma AfterCovers(l: seq<Entry>, m: Entry)
    requires Proper(l)
    ensures forall seg, sf :: Covers(After(l, m), seg, sf)
                         <==> Covers(l, seg, sf) || (seg == m.seg && m.inSf <= sf < m.outSf)
    ensures forall w :: HasWord(After(l, m), w) <==> HasWord(l, w) || w in m.words
    ensures m.inSf <= m.outSf ==> Proper(After(l, m))
  {
    var (merged, keep) := Pass(l, m);
    var sorted := Sort(EntryLe, keep + [merged]);
    PassCovers(l, m);
    SortMembers(EntryLe, keep + [merged]);
    forall seg, sf
      ensures Covers(After(l, m), seg, sf)
         <==> Covers(l, seg, sf) || (seg == m.seg && m.inSf <= sf < m.outSf)
    {
      RenumberCovers(sorted, seg, sf, "");
      CoversLast([], m, seg, sf);
      assert [] + [m] == [m];
      assert Covers(sorted, seg, sf) <==> Covers(keep + [merged], seg, sf);
    }
    forall w ensures HasWord(After(l, m), w) <==> HasWord(l, w) || w in m.words {
      RenumberCovers(sorted, "", 0, w);
      assert HasWord(sorted, w) <==> HasWord(keep + [merged], w);
    }
    forall x | m.inSf <= m.outSf && x in Renumber(sorted) ensures x.inSf <= x.outSf {
      var k :| 0 <= k < |sorted| && Renumber(sorted)[k] == x;
      assert sorted[k] in sorted;
    }
  }

  /** Separation is what one pass relies on: from two overlapping entries, one kept before and one
      absorbed after, the result overlaps. */
  lemma OnePassNeedsSeparation()
    ensures var m := Entry(0, "s", 15, 30, {}, "user", "user");
            var l := [m.(inSf := 0, outSf := 10), m.(inSf := 9, outSf := 20)];
            Proper(l) && !Separated(l, 0) && !Separated(After(l, m), 0)
  {
    var m := Entry(0, "s", 15, 30, {}, "user", "user");
    var a, b := m.(inSf := 0, outSf := 10), m.(inSf := 9, outSf := 20);
    var l := [a, b];
    assert !Apart(l[0], l[1], 0);
    assert l[..1] == [a] && [a][..0] == [];
    assert Pass([a], m) == (m, [a]) by {
      assert Pass([], m) == (m, []);
      assert [] + [a] == [a];
    }
    var merged := m.(inSf := 9);
    assert Touches(b, m) && Absorb(m, b).words == merged.words;
    assert Pass(l, m) == (merged, [a]);
    assert Sort(EntryLe, [merged]) == [merged] by {
      assert [merged][1..] == [];
      assert Sort<Entry>(EntryLe, []) == [];
    }
    assert ([a] + [merged])[1..] == [merged];
    assert Sort(EntryLe, [a] + [merged]) == [a] + [merged];
    var r := After(l, m);
    assert r[0].inSf == 0 && r[0].outSf == 10 && r[1].inSf == 9;
    assert !Apart(r[0], r[1], 0);
  }

  // --- which entry is which -----------------------------------------------------------------------------

  /** What the pass makes of the new entry: it keeps its segment and its origin, takes the words of every
      entry that is not kept, and becomes the user's as soon as there is one. */
  ghost predicate MergedOf(l: seq<Entry>, m: Entry, kept: seq<nat>, merged: Entry) {
    && merged.seg == m.seg && merged.origin == m.origin
    && merged.reason == (if |kept| == |l| then m.reason else "user")
    && merged.inSf <= m.inSf && m.outSf <= merged.outSf
    && (forall k: nat | k < |l| && k !in kept ::
          l[k].seg == m.seg && merged.inSf <= l[k].inSf && l[k].outSf <= merged.outSf)
    && (forall w :: w in merged.words <==> w in m.words || HasWordBut(l, kept, w))
  }

  /** An entry that is not kept has the word. */
  ghost predicate HasWordBut(l: seq<Entry>, kept: seq<nat>, w: string) {
    exists k: nat :: k < |l| && k !in kept && w in l[k].words
  }

  /** What the pass leaves: the entries at `kept`, and the merged one. */
  ghost predicate Passed(l: seq<Entry>, m: Entry, kept: seq<nat>, merged: Entry, keep: seq<Entry>) {
    Picks(kept, l, keep) && MergedOf(l, m, kept, merged)
  }

  lemma {:induction false} PassInEntries(l: seq<Entry>, m: Entry) returns (kept: seq<nat>)
    ensures Passed(l, m, kept, Pass(l, m).0, Pass(l, m).1)
    decreases |l|
  {
    if l == [] {
      kept := [];
      NothingPassed(m);
    } else {
      var front, x := l[..|l| - 1], l[|l| - 1];
      var before := PassInEntries(front, m);
      kept := PassedNext(front, x, l, m, before, Pass(front, m).0, Pass(front, m).1);
    }
  }

  lemma NothingPassed(m: Entry)
    ensures Passed([], m, [], Pass([], m).0, Pass([], m).1)
  {
  }

  lemma PassedNext(front: seq<Entry>, x: Entry, l: seq<Entry>, m: Entry, before: seq<nat>, merged: Entry,
                   keep: seq<Entry>) returns (kept: seq<nat>)
    requires l != [] && front == l[..|l| - 1] && x == l[|l| - 1]
    requires Passed(front, m, before, merged, keep) && Pass(front, m) == (merged, keep)
    ensures Passed(l, m, kept, Pass(l, m).0, Pass(l, m).1)
  {
    var more := before + [|front|];
    assert l == front + [x];
    PicksShort(before, front, keep);
    PicksMore(before, front, keep, x);
    PassLast(l, front, x, m, merged, keep);
    kept := if Touches(x, merged) then before else more;
    MergedNext(front, x, l, m, before, kept, merged);
    assert Picks(kept, l, Pass(l, m).1);
  }

  lemma PassLast(l: seq<Entry>, front: seq<Entry>, x: Entry, m: Entry, merged: Entry, keep: seq<Entry>)
    requires l != [] && front == l[..|l| - 1] && x == l[|l| - 1] && Pass(front, m) == (merged, keep)
    ensures Pass(l, m) == if Touches(x, merged) then (Absorb(merged, x), keep) else (merged, keep + [x])
  {
  }

  lemma MergedNext(front: seq<Entry>, x: Entry, l: seq<Entry>, m: Entry, before: seq<nat>, kept: seq<nat>,
                   merged: Entry)
    requires l == front + [x] && MergedOf(front, m, before, merged) && |before| <= |front|
    requires forall j | 0 <= j < |before| :: before[j] < |front|
    requires kept == if Touches(x, merged) then before else before + [|front|]
    ensures MergedOf(l, m, kept, if Touches(x, merged) then Absorb(merged, x) else merged)
  {
    forall k: nat | k < |front| ensures l[k] == front[k] && (k in kept <==> k in before) {
    }
    WordsNext(front, x, l, before, kept, Touches(x, merged));
  }

  lemma WordsNext(front: seq<Entry>, x: Entry, l: seq<Entry>, before: seq<nat>, kept: seq<nat>, taken: bool)
    requires l == front + [x] && forall j | 0 <= j < |before| :: before[j] < |front|
    requires kept == if taken then before else before + [|front|]
    ensures forall w :: HasWordBut(l, kept, w) <==> HasWordBut(front, before, w) || (taken && w in x.words)
  {
    forall w ensures HasWordBut(l, kept, w) <==> HasWordBut(front, before, w) || (taken && w in x.words) {
      if taken && w in x.words {
        assert l[|front|] == x && |front| !in kept;
      }
      if k: nat :| k < |front| && k !in before && w in front[k].words {
        assert l[k] == front[k] && k !in kept;
      }
      if k: nat :| k < |l| && k !in kept && w in l[k].words {
        assert k < |front| ==> l[k] == front[k] && k !in before;
      }
    }
  }

  /** The entry without its number. */
  function Bared(x: Entry): Entry { x.(number := 0) }

  /** An entry of the new list is one of those kept, but for its number, or the merged one; and each of
      those is there. */
  lemma AfterInEntries(l: seq<Entry>, m: Entry) returns (kept: seq<nat>, merged: Entry)
    ensures MergedOf(l, m, kept, merged) && |After(l, m)| == |kept| + 1
    ensures forall k | 0 <= k < |kept| :: kept[k] < |l|
    ensures forall j, k | 0 <= j < k < |kept| :: kept[j] < kept[k]
    ensures forall x | x in After(l, m) :: Bared(x) == Bared(merged) || IsKept(l, kept, x)
    ensures exists x :: x in After(l, m) && Bared(x) == Bared(merged)
    ensures forall k | 0 <= k < |kept| :: exists x :: x in After(l, m) && Bared(x) == Bared(l[kept[k]])
  {
    kept := PassInEntries(l, m);
    merged := Pass(l, m).0;
    var keep := Pass(l, m).1;
    var all := keep + [merged];
    var sorted := Sort(EntryLe, all);
    SortMembers(EntryLe, all);
    var after := Renumber(sorted);
    forall x | x in after ensures Bared(x) == Bared(merged) || IsKept(l, kept, x) {
      var k :| 0 <= k < |after| && after[k] == x;
      assert sorted[k] in sorted && sorted[k] in all;
      var j :| 0 <= j < |all| && all[j] == sorted[k];
      assert j < |keep| ==> l[kept[j]] == keep[j];
    }
    forall y | y in all ensures exists x :: x in after && Bared(x) == Bared(y) {
      assert y in sorted;
      var k :| 0 <= k < |sorted| && sorted[k] == y;
      assert after[k] in after && Bared(after[k]) == Bared(y);
    }
    assert merged in all;
    forall k | 0 <= k < |kept| ensures exists x :: x in after && Bared(x) == Bared(l[kept[k]]) {
      assert keep[k] in all && keep[k] == l[kept[k]];
    }
  }

  ghost predicate IsKept(l: seq<Entry>, kept: seq<nat>, x: Entry)
    requires forall k | 0 <= k < |kept| :: kept[k] < |l|
  {
    exists k :: 0 <= k < |kept| && Bared(x) == Bared(l[kept[k]])
  }

  // --- the pieces a list gives ------------------------------------------------------------------------

  /** The removals as the time map reads them. */
  function Bare(l: seq<Entry>): seq<Removal> {
    seq(|l|, k requires 0 <= k < |l| => Removal(l[k].seg, l[k].inSf, l[k].outSf))
  }

  lemma BareRemoves(l: seq<Entry>, seg: string, sf: int)
    ensures Removed(Bare(l), seg, sf) <==> Covers(l, seg, sf)
  {
    var b := Bare(l);
    forall k | 0 <= k < |l| ensures b[k] in b && l[k] in l && b[k] == Removal(l[k].seg, l[k].inSf, l[k].outSf) {
    }
    if Removed(b, seg, sf) {
      var r :| r in b && r.seg == seg && r.inSf <= sf < r.outSf;
      var k :| 0 <= k < |b| && b[k] == r;
      assert l[k] in l;
    }
    if Covers(l, seg, sf) {
      var x :| x in l && x.seg == seg && x.inSf <= sf < x.outSf;
      var k :| 0 <= k < |l| && l[k] == x;
      assert b[k] in b;
    }
  }

  /** Merging changes no piece: the time map of the merged list is that of the raw one. */
  lemma MergedPiecesAreRawPieces(segments: seq<Segment>, l: seq<Entry>, m: Entry)
    requires Proper(l)
    ensures PiecesOf(segments, Bare(After(l, m))) == PiecesOf(segments, Bare(l + [m]))
  {
    AfterCovers(l, m);
    forall s, sf | 0 <= s < |segments| && segments[s].inSf <= sf < segments[s].outSf
      ensures Removed(Bare(After(l, m)), segments[s].id, sf) == Removed(Bare(l + [m]), segments[s].id, sf)
    {
      BareRemoves(After(l, m), segments[s].id, sf);
      BareRemoves(l + [m], segments[s].id, sf);
      CoversLast(l, m, segments[s].id, sf);
    }
    OnlyRemovedFramesMatter(segments, Bare(After(l, m)), Bare(l + [m]));
  }

  // --- any number of calls ------------------------------------------------------------------------------

  function AfterAll(l: seq<Entry>, calls: seq<Entry>): seq<Entry> {
    if calls == [] then l else After(AfterAll(l, calls[..|calls| - 1]), calls[|calls| - 1])
  }

  /** Over any sequence of calls the list stays canonical and covers exactly the union. */
  lemma {:induction false} CallsKeepCanonical(l: seq<Entry>, calls: seq<Entry>, gap: nat)
    requires Proper(l) && Separated(l, gap) && gap <= 1
    requires Proper(calls) && forall m | m in calls :: Wide(m, gap)
    ensures Proper(AfterAll(l, calls)) && Separated(AfterAll(l, calls), gap)
    ensures calls != [] ==> Canonical(AfterAll(l, calls), gap)
    ensures forall seg, sf :: Covers(AfterAll(l, calls), seg, sf) <==> Covers(l + calls, seg, sf)
    decreases |calls|
  {
    if calls == [] {
      assert l + calls == l;
    } else {
      var front, m := calls[..|calls| - 1], calls[|calls| - 1];
      assert calls == front + [m];
      CallsKeepCanonical(l, front, gap);
      AfterIsCanonical(AfterAll(l, front), m, gap);
      AfterCovers(AfterAll(l, front), m);
      assert l + calls == (l + front) + [m];
      forall seg, sf ensures Covers(AfterAll(l, calls), seg, sf) <==> Covers(l + calls, seg, sf) {
        CoversLast(l + front, m, seg, sf);
      }
    }
  }

  // --- the builder ------------------------------------------------------------------------------------

  const COLD_OPEN := "seg_co"

  function WithoutColdOpen(l: seq<Entry>): seq<Entry> {
    if l == [] then []
    else WithoutColdOpen(l[..|l| - 1]) + if l[|l| - 1].seg != COLD_OPEN then [l[|l| - 1]] else []
  }

  /** In a canonical list whose other names sort before `seg_co`, dropping the cold open's entries
      drops a suffix: the list stays canonical, numbering included. */
  lemma {:induction false} DroppingColdOpenKeepsCanonical(l: seq<Entry>, gap: nat)
    requires Canonical(l, gap)
    requires forall x | x in l :: NameLe(x.seg, COLD_OPEN)
    ensures WithoutColdOpen(l) <= l && Canonical(WithoutColdOpen(l), gap)
    ensures forall x :: x in WithoutColdOpen(l) <==> x in l && x.seg != COLD_OPEN
    decreases |l|
  {
    if l != [] {
      var front, x := l[..|l| - 1], l[|l| - 1];
      assert l == front + [x];
      DroppingColdOpenKeepsCanonical(front, gap);
      if x.seg != COLD_OPEN {
        NoneBefore(l, front);
        NothingDropped(front);
      }
    }
  }

  /** The cold open's entries are a suffix. */
  lemma NoneBefore(l: seq<Entry>, front: seq<Entry>)
    requires l != [] && front == l[..|l| - 1] && SortedBy(EntryLe, l)
    requires l[|l| - 1].seg != COLD_OPEN && NameLe(l[|l| - 1].seg, COLD_OPEN)
    ensures forall k | 0 <= k < |front| :: front[k].seg != COLD_OPEN
  {
    var x := l[|l| - 1];
    forall k | 0 <= k < |front| ensures front[k].seg != COLD_OPEN {
      assert front[k] == l[k] && EntryLe(l[k], x);
      if l[k].seg == COLD_OPEN {
        NameTotal(COLD_OPEN, x.seg);
      }
    }
  }

  lemma {:induction false} NothingDropped(l: seq<Entry>)
    requires forall k | 0 <= k < |l| :: l[k].seg != COLD_OPEN
    ensures WithoutColdOpen(l) == l
    decreases |l|
  {
    if l != [] {
      assert l == l[..|l| - 1] + [l[|l| - 1]];
      NothingDropped(l[..|l| - 1]);
    }
  }

  /** A transition after a segment. */
  datatype Join = Join(after: string, style: string, audioFadeMs: int)

  class Builder {
    var segments: seq<Segment>
    var removals: seq<Entry>
    var joins: seq<Join>

    constructor (segments: seq<Segment>, removals: seq<Entry>, joins: seq<Join>)
      ensures this.segments == segments && this.removals == removals && this.joins == joins
    {
      this.segments := segments;
      this.removals := removals;
      this.joins := joins;
    }

    /** `remove`, for the frames `[start, end)` that the call's arguments resolve to. */
    method Remove(seg: string, start: int, end: int, words: set<string>, reason: string)
      requires Proper(removals)
      modifies this`removals
      ensures removals == After(old(removals), Entry(0, seg, start, end, words, reason, "user"))
      ensures forall s, sf :: Covers(removals, s, sf)
                         <==> Covers(old(removals), s, sf) || (s == seg && start <= sf < end)
      ensures forall j, k | 0 <= j < k < |removals| ::
        if removals[j].seg == removals[k].seg then removals[j].inSf <= removals[k].inSf
        else NameLe(removals[j].seg, removals[k].seg)
      ensures forall k | 0 <= k < |removals| :: removals[k].number == k + 1
      ensures Separated(old(removals), 1) && start <= end ==> Canonical(removals, 1)
      ensures Separated(old(removals), 0) && start < end ==> Canonical(removals, 0)
    {
      ghost var m := Entry(0, seg, start, end, words, reason, "user");
      var merged := Entry(0, seg, start, end, words, reason, "user");
      var keep: seq<Entry> := [];
      for k := 0 to |removals|
        invariant removals == old(removals)
        invariant (merged, keep) == Pass(removals[..k], m)
      {
        assert removals[..k + 1][..k] == removals[..k];
        var removal := removals[k];
        if removal.seg == seg && removal.inSf <= merged.outSf && merged.inSf <= removal.outSf {
          merged := merged.(inSf := Min(merged.inSf, removal.inSf));
          merged := merged.(outSf := Max(merged.outSf, removal.outSf));
          merged := merged.(words := merged.words + removal.words);
          merged := merged.(reason := "user");
        } else {
          keep := keep + [removal];
        }
        PassSegment(removals[..k], m);
      }
      assert removals[..|removals|] == removals;
      keep := Sort(EntryLe, keep + [merged]);
      removals := Renumber(keep);
      AfterCovers(old(removals), m);
      AfterIsSorted(old(removals), m);
      if Separated(old(removals), 1) && start <= end {
        AfterIsCanonical(old(removals), m, 1);
      }
      if Separated(old(removals), 0) && start < end {
        AfterIsCanonical(old(removals), m, 0);
      }
    }

    /** `set_cold_open`: any cold open goes, with its removals, and the new one (if any) comes first, with
        the only join. */
    method SetColdOpen(frames: Option<(int, int)>)
        returns (ghost names: seq<nat>, ghost roles: seq<nat>, ghost rest: seq<Segment>)
      modifies this
      ensures removals == WithoutColdOpen(old(removals)) && Filters(OtherName, names, old(removals), removals)
      ensures Filters(OtherRole, roles, old(segments), rest)
      ensures frames.None? ==> segments == rest && joins == []
      ensures frames.Some? ==>
        segments == [Segment("seg_co", "cold_open", frames.value.0, frames.value.1)] + rest
        && joins == [Join("seg_co", "cut", 30)]
    {
      names := NamesFiltered(removals);
      roles := RolesFiltered(segments);
      rest := OtherRoles(segments);
      segments := DropRole(segments);
      removals := DropName(removals);
      joins := [];
      if frames.Some? {
        segments := [Segment(COLD_OPEN, "cold_open", frames.value.0, frames.value.1)] + segments;
        joins := [Join(COLD_OPEN, "cut", 30)];
      }
    }
  }

  /** `[s for s in main["segments"] if s["role"] != "cold_open"]`. */
  method DropRole(l: seq<Segment>) returns (others: seq<Segment>)
    ensures others == OtherRoles(l)
  {
    others := [];
    for k := 0 to |l|
      invariant others == OtherRoles(l[..k])
    {
      assert l[..k + 1][..k] == l[..k];
      if l[k].role != "cold_open" {
        others := others + [l[k]];
      }
    }
    assert l[..|l|] == l;
  }

  /** `[r for r in main["removals"] if r["seg"] != "seg_co"]`. */
  method DropName(l: seq<Entry>) returns (others: seq<Entry>)
    ensures others == WithoutColdOpen(l)
  {
    others := [];
    for k := 0 to |l|
      invariant others == WithoutColdOpen(l[..k])
    {
      assert l[..k + 1][..k] == l[..k];
      if l[k].seg != COLD_OPEN {
        others := others + [l[k]];
      }
    }
    assert l[..|l|] == l;
  }

  function OtherRoles(segments: seq<Segment>): seq<Segment> {
    if segments == [] then []
    else OtherRoles(segments[..|segments| - 1])
         + if segments[|segments| - 1].role != "cold_open" then [segments[|segments| - 1]] else []
  }

  predicate OtherName(x: Entry) { x.seg != "seg_co" }

  predicate OtherRole(x: Segment) { x.role != "cold_open" }

  lemma {:induction false} NamesFiltered(l: seq<Entry>) returns (at: seq<nat>)
    ensures Filters(OtherName, at, l, WithoutColdOpen(l))
    decreases |l|
  {
    at := [];
    if l != [] {
      var front, x := l[..|l| - 1], l[|l| - 1];
      assert l == front + [x];
      var before := NamesFiltered(front);
      at := if OtherName(x) then before + [|front|] else before;
      FiltersMore(OtherName, before, front, WithoutColdOpen(front), x, at);
    }
  }

  lemma {:induction false} RolesFiltered(l: seq<Segment>) returns (at: seq<nat>)
    ensures Filters(OtherRole, at, l, OtherRoles(l))
    decreases |l|
  {
    at := [];
    if l != [] {
      var front, x := l[..|l| - 1], l[|l| - 1];
      assert l == front + [x];
      var before := RolesFiltered(front);
      at := if OtherRole(x) then before + [|front|] else before;
      FiltersMore(OtherRole, before, front, OtherRoles(front), x, at);
    }
  }

  lemma {:induction false} PassSegment(l: seq<Entry>, m: Entry)
    ensures Pass(l, m).0.seg == m.seg
    decreases |l|
  {
    if l != [] {
      PassSegment(l[..|l| - 1], m);
    }
  }
}
