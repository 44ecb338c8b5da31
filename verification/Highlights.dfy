/** Greedy clip selection (`select_highlights` of `src/ai_clipper/highlight.py`). Times are exact
    reals; the score is any function of the text and the duration. */
module Highlights {
  import opened Sorting

  datatype Spoken = Spoken(start: real, end: real, text: string)
  datatype Clip = Clip(start: real, end: real, text: string, score: real)

  /** The two functions of the text that the selection does not look into. */
  datatype Scoring = Scoring(join: seq<string> -> string, score: (string, real) -> real)

  /** `Rejected` stands for the ValueError of bad arguments. */
  datatype Selection = Selected(clips: seq<Clip>) | Rejected

  ghost predicate ValidTranscript(segments: seq<Spoken>) {
    forall k | 0 <= k < |segments| :: 0.0 <= segments[k].start < segments[k].end
  }

  // --- candidates ---------------------------------------------------------------------------------

  /** The window from `i` reaches `e`: every segment after the first ends within the bound. */
  ghost predicate Reaches(segments: seq<Spoken>, maxDuration: real, i: nat, e: int) {
    && i <= e < |segments|
    && (forall k | i < k <= e :: segments[k].end - segments[i].start <= maxDuration)
  }

  /** The candidate that starts at segment `i` ends at segment `e`: the furthest reach. */
  ghost predicate Furthest(segments: seq<Spoken>, maxDuration: real, i: nat, e: nat) {
    Reaches(segments, maxDuration, i, e) && !Reaches(segments, maxDuration, i, e + 1)
  }

  function Texts(segments: seq<Spoken>): seq<string> {
    seq(|segments|, k requires 0 <= k < |segments| => segments[k].text)
  }

  function Window(segments: seq<Spoken>, scoring: Scoring, i: nat, e: nat): Clip
    requires i <= e < |segments|
  {
    var text := scoring.join(Texts(segments[i..e + 1]));
    Clip(segments[i].start, segments[e].end, text, scoring.score(text, segments[e].end - segments[i].start))
  }

  ghost predicate IsCandidate(segments: seq<Spoken>, scoring: Scoring, minDuration: real, maxDuration: real,
                              i: nat, clip: Clip)
    requires i < |segments|
  {
    exists e: nat :: Furthest(segments, maxDuration, i, e) && clip == Window(segments, scoring, i, e)
      && minDuration <= clip.end - clip.start <= maxDuration
  }

  /** One candidate at most per starting segment, in order; `from` names the segment. */
  ghost predicate AreCandidates(segments: seq<Spoken>, scoring: Scoring, minDuration: real, maxDuration: real,
                                n: nat, clips: seq<Clip>, from: seq<nat>)
    requires n <= |segments|
  {
    && |from| == |clips|
    && (forall k | 0 <= k < |clips| :: from[k] < n
          && IsCandidate(segments, scoring, minDuration, maxDuration, from[k], clips[k]))
    && Ascends(from)
    && (forall i: nat, clip | i < n && IsCandidate(segments, scoring, minDuration, maxDuration, i, clip) ::
          Listed(clips, from, i, clip))
  }

  ghost predicate Ascends(from: seq<nat>) {
    forall j, k | 0 <= j < k < |from| :: from[j] < from[k]
  }

  ghost predicate Listed(clips: seq<Clip>, from: seq<nat>, i: nat, clip: Clip)
    requires |from| == |clips|
  {
    exists k :: 0 <= k < |clips| && from[k] == i && clips[k] == clip
  }

  lemma FurthestUnique(segments: seq<Spoken>, maxDuration: real, i: nat, e: nat, e': nat)
    requires Furthest(segments, maxDuration, i, e) && Furthest(segments, maxDuration, i, e')
    ensures e == e'
  {
    if e < e' {
      ReachesShorter(segments, maxDuration, i, e', e + 1);
    } else if e' < e {
      ReachesShorter(segments, maxDuration, i, e, e' + 1);
    }
  }

  lemma ReachesShorter(segments: seq<Spoken>, maxDuration: real, i: nat, far: int, near: int)
    requires Reaches(segments, maxDuration, i, far) && i <= near <= far
    ensures Reaches(segments, maxDuration, i, near)
  {
  }

  method Candidates(segments: seq<Spoken>, scoring: Scoring, minDuration: real, maxDuration: real)
      returns (clips: seq<Clip>, ghost from: seq<nat>)
    ensures AreCandidates(segments, scoring, minDuration, maxDuration, |segments|, clips, from)
  {
    clips, from := [], [];
    for i := 0 to |segments|
      invariant AreCandidates(segments, scoring, minDuration, maxDuration, i, clips, from)
    {
      var e := i;
      while e + 1 < |segments| && segments[e + 1].end - segments[i].start <= maxDuration
        invariant Reaches(segments, maxDuration, i, e)
      {
        e := e + 1;
      }
      assert Furthest(segments, maxDuration, i, e);
      var duration := segments[e].end - segments[i].start;
      ghost var clips0, from0 := clips, from;
      var clip := Window(segments, scoring, i, e);
      if minDuration <= duration <= maxDuration {
        clips, from := clips + [clip], from + [i];
      }
      CandidatesNext(segments, scoring, minDuration, maxDuration, i, e, clip, clips0, from0, clips, from);
    }
  }

  lemma AscendsAppend(from: seq<nat>, i: nat)
    requires Ascends(from) && forall k | 0 <= k < |from| :: from[k] < i
    ensures Ascends(from + [i])
  {
  }

  lemma CandidatesNext(segments: seq<Spoken>, scoring: Scoring, minDuration: real, maxDuration: real,
                       i: nat, e: nat, clip: Clip, clips: seq<Clip>, from: seq<nat>,
                       clips': seq<Clip>, from': seq<nat>)
    requires i < |segments| && Furthest(segments, maxDuration, i, e)
    requires clip == Window(segments, scoring, i, e)
    requires AreCandidates(segments, scoring, minDuration, maxDuration, i, clips, from)
    requires if minDuration <= clip.end - clip.start <= maxDuration
             then clips' == clips + [clip] && from' == from + [i] else clips' == clips && from' == from
    ensures AreCandidates(segments, scoring, minDuration, maxDuration, i + 1, clips', from')
  {
    AscendsAppend(from, i);
    forall k | 0 <= k < |clips'|
      ensures from'[k] < i + 1
      ensures IsCandidate(segments, scoring, minDuration, maxDuration, from'[k], clips'[k])
    {
      if k < |clips| {
        assert clips'[k] == clips[k] && from'[k] == from[k];
      }
    }
    forall i': nat, c | i' < i + 1 && IsCandidate(segments, scoring, minDuration, maxDuration, i', c)
      ensures Listed(clips', from', i', c)
    {
      if i' < i {
        assert Listed(clips, from, i', c);
        var k :| 0 <= k < |clips| && from[k] == i' && clips[k] == c;
        assert clips'[k] == c && from'[k] == i';
      } else {
        var e' :| Furthest(segments, maxDuration, i, e') && c == Window(segments, scoring, i, e')
          && minDuration <= c.end - c.start <= maxDuration;
        FurthestUnique(segments, maxDuration, i, e, e');
        assert clips'[|clips|] == c && from'[|clips|] == i;
      }
    }
  }

  /** What a candidate from segment `i` is: it ends with the last segment up to which every later one ends
      within the bound, and has the texts and the score of its segments. */
  lemma CandidateMeans(segments: seq<Spoken>, scoring: Scoring, minDuration: real, maxDuration: real,
                       i: nat, clip: Clip) returns (e: nat)
    requires i < |segments| && IsCandidate(segments, scoring, minDuration, maxDuration, i, clip)
    ensures i <= e < |segments| && clip.start == segments[i].start && clip.end == segments[e].end
    ensures forall k | i < k <= e :: segments[k].end - segments[i].start <= maxDuration
    ensures e + 1 < |segments| ==> segments[e + 1].end - segments[i].start > maxDuration
    ensures minDuration <= clip.end - clip.start <= maxDuration
    ensures clip.text == scoring.join(seq(e + 1 - i, k requires 0 <= k < e + 1 - i => segments[i + k].text))
    ensures clip.score == scoring.score(clip.text, clip.end - clip.start)
  {
    e :| Furthest(segments, maxDuration, i, e) && clip == Window(segments, scoring, i, e);
    assert Texts(segments[i..e + 1]) == seq(e + 1 - i, k requires 0 <= k < e + 1 - i => segments[i + k].text);
  }

  /** And every segment from which such a window is long enough, and short enough, has one. */
  lemma CandidateExists(segments: seq<Spoken>, scoring: Scoring, minDuration: real, maxDuration: real, i: nat, e: nat)
      returns (clip: Clip)
    requires i <= e < |segments| && forall k | i < k <= e :: segments[k].end - segments[i].start <= maxDuration
    requires e + 1 < |segments| ==> segments[e + 1].end - segments[i].start > maxDuration
    requires minDuration <= segments[e].end - segments[i].start <= maxDuration
    ensures IsCandidate(segments, scoring, minDuration, maxDuration, i, clip)
    ensures clip.start == segments[i].start && clip.end == segments[e].end
  {
    clip := Window(segments, scoring, i, e);
    assert Furthest(segments, maxDuration, i, e);
  }

  // --- the greedy choice --------------------------------------------------------------------------

  predicate Overlaps(a: Clip, b: Clip) { a.start < b.end && b.start < a.end }

  /** The key `(-score, start)`. */
  function PriorityLe(a: Clip, b: Clip): bool {
    a.score > b.score || (a.score == b.score && a.start <= b.start)
  }

  function StartLe(a: Clip, b: Clip): bool { a.start <= b.start }

  predicate Clear(order: seq<Clip>, chosen: seq<nat>, k: nat)
    requires k < |order| && forall c | c in chosen :: c < |order|
  {
    forall c | c in chosen :: !Overlaps(order[k], order[c])
  }

  /** The positions chosen among the first `n`, with at most `limit` of them. */
  function Choose(order: seq<Clip>, limit: nat, n: nat): (chosen: seq<nat>)
    requires n <= |order|
    ensures forall c | c in chosen :: c < n
  {
    if n == 0 then []
    else
      var chosen := Choose(order, limit, n - 1);
      if |chosen| < limit && Clear(order, chosen, n - 1) then chosen + [n - 1] else chosen
  }

  function Clips(order: seq<Clip>, chosen: seq<nat>): seq<Clip>
    requires forall c | c in chosen :: c < |order|
  {
    seq(|chosen|, k requires 0 <= k < |chosen| => assert chosen[k] in chosen; order[chosen[k]])
  }

  /** Chosen positions ascend and do not overlap; `limit` bounds them. */
  ghost predicate Compatible(order: seq<Clip>, limit: nat, chosen: seq<nat>) {
    && |chosen| <= limit
    && (forall k | 0 <= k < |chosen| :: chosen[k] < |order|)
    && (forall j, k | 0 <= j < k < |chosen| :: chosen[j] < chosen[k])
    && (forall j, k | 0 <= j < k < |chosen| :: !Overlaps(order[chosen[j]], order[chosen[k]]))
  }

  lemma {:induction false} ChooseCompatible(order: seq<Clip>, limit: nat, n: nat)
    requires n <= |order|
    ensures Compatible(order, limit, Choose(order, limit, n))
  {
    if n > 0 {
      ChooseCompatible(order, limit, n - 1);
      var chosen := Choose(order, limit, n - 1);
      forall j | 0 <= j < |chosen| ensures chosen[j] < n - 1 {
        assert chosen[j] in chosen;
      }
      if Clear(order, chosen, n - 1) {
        forall j | 0 <= j < |chosen| ensures !Overlaps(order[chosen[j]], order[n - 1]) {
          assert chosen[j] in chosen;
        }
      }
    }
  }

  /** What was chosen by position `m` is what is chosen in the end, before anything later. */
  lemma {:induction false} ChoosePrefix(order: seq<Clip>, limit: nat, m: nat, n: nat)
    requires m <= n <= |order|
    ensures Choose(order, limit, m) <= Choose(order, limit, n)
    ensures forall k | |Choose(order, limit, m)| <= k < |Choose(order, limit, n)| :: Choose(order, limit, n)[k] >= m
    decreases n - m
  {
    if m < n {
      ChoosePrefix(order, limit, m, n - 1);
    }
  }

  /** Every position is chosen, or overlaps one chosen before it, or comes after the limit was
      filled. */
  lemma EveryPositionAccounted(order: seq<Clip>, limit: nat, k: nat)
    requires k < |order|
    ensures var all := Choose(order, limit, |order|);
            || k in all
            || (exists c :: c in all && c < k && Overlaps(order[k], order[c]))
            || |Choose(order, limit, k)| == |all| == limit
  {
    var before, all := Choose(order, limit, k), Choose(order, limit, |order|);
    ChoosePrefix(order, limit, k, |order|);
    ChoosePrefix(order, limit, k + 1, |order|);
    ChooseCompatible(order, limit, |order|);
    ChooseCompatible(order, limit, k);
    if |before| < limit {
      if Clear(order, before, k) {
        assert Choose(order, limit, k + 1)[|before|] == k;
        assert all[|before|] == k;
      } else {
        var c :| c in before && Overlaps(order[k], order[c]);
        var j :| 0 <= j < |before| && before[j] == c;
        assert all[j] == c;
      }
    }
  }

  /** Raising the limit never drops a clip: it only appends. */
  lemma {:induction false} RaisingTheLimitAppends(order: seq<Clip>, limit: nat, more: nat, n: nat)
    requires limit <= more && n <= |order|
    ensures Choose(order, limit, n) <= Choose(order, more, n)
    ensures |Choose(order, limit, n)| < limit ==> Choose(order, limit, n) == Choose(order, more, n)
  {
    if n > 0 {
      RaisingTheLimitAppends(order, limit, more, n - 1);
      ChooseCompatible(order, limit, n - 1);
    }
  }

  /** The choice is the lexicographically first of all compatible choices: against any other one it
      has the earlier position where they first differ, and no choice extends it. */
  lemma ChoiceIsFirst(order: seq<Clip>, limit: nat, other: seq<nat>)
    requires Compatible(order, limit, other)
    ensures var all := Choose(order, limit, |order|);
            other == all
            || exists d: nat :: d < |all| && d <= |other| && all[..d] == other[..d]
                 && (d == |other| || all[d] < other[d])
  {
    var all := Choose(order, limit, |order|);
    ChooseCompatible(order, limit, |order|);
    var d := 0;
    while d < |all| && d < |other| && all[d] == other[d]
      invariant d <= |all| && d <= |other| && all[..d] == other[..d]
    {
      d := d + 1;
    }
    if d < |other| && (d == |all| || other[d] < all[d]) {
      SkippedIsImpossible(order, limit, other, d);
      assert false;
    }
    if d == |all| {
      assert d == |other| && other == other[..d] == all[..d] == all;
    }
  }

  /** A choice that starts with some positions has made them before any later one. */
  lemma ChosenBefore(order: seq<Clip>, limit: nat, other: seq<nat>, d: nat)
    requires Compatible(order, limit, other) && d < |other|
    requires d <= |Choose(order, limit, |order|)| && Choose(order, limit, |order|)[..d] == other[..d]
    ensures d <= |Choose(order, limit, other[d])| && Choose(order, limit, other[d])[..d] == other[..d]
    ensures Choose(order, limit, other[d]) <= Choose(order, limit, |order|)
  {
    var all, before := Choose(order, limit, |order|), Choose(order, limit, other[d]);
    ChoosePrefix(order, limit, other[d], |order|);
    forall j | 0 <= j < d ensures all[j] < other[d] {
      assert all[j] == all[..d][j] == other[..d][j];
    }
    assert d > 0 ==> all[d - 1] < other[d];
    assert d <= |before|;
    assert before[..d] == all[..d];
  }

  lemma SkippedIsImpossible(order: seq<Clip>, limit: nat, other: seq<nat>, d: nat)
    requires Compatible(order, limit, other) && d < |other|
    requires d <= |Choose(order, limit, |order|)| && Choose(order, limit, |order|)[..d] == other[..d]
    ensures d < |Choose(order, limit, |order|)| && Choose(order, limit, |order|)[d] <= other[d]
  {
    var k := other[d];
    var before := Choose(order, limit, k);
    ChosenBefore(order, limit, other, d);
    if |before| == d {
      assert before == other[..d];
      ClearOfChosen(order, limit, other, d);
      ChoosePrefix(order, limit, k + 1, |order|);
      assert Choose(order, limit, k + 1) == before + [k];
    } else {
      assert before[d] in before;
    }
  }

  lemma ClearOfChosen(order: seq<Clip>, limit: nat, other: seq<nat>, d: nat)
    requires Compatible(order, limit, other) && d < |other|
    ensures forall c | c in other[..d] :: c < |order|
    ensures Clear(order, other[..d], other[d])
  {
    forall c | c in other[..d] ensures c < |order| && !Overlaps(order[other[d]], order[c]) {
      var j :| 0 <= j < d && other[..d][j] == c;
      assert other[j] == c && !Overlaps(order[other[j]], order[other[d]]);
    }
  }

  // --- the whole selection ------------------------------------------------------------------------

  ghost predicate GoodSelection(clips: seq<Clip>, limit: nat, minDuration: real, maxDuration: real) {
    && |clips| <= limit
    && (forall j, k | 0 <= j < k < |clips| ::
          clips[j].start <= clips[k].start
          && !(clips[j].start < clips[k].end && clips[k].start < clips[j].end))
    && (forall c | c in clips :: minDuration <= c.end - c.start <= maxDuration)
  }

  /** `clips` is what the limit lets through: the greedy choice among all candidates, by start. */
  ghost predicate SelectedBy(segments: seq<Spoken>, scoring: Scoring, minDuration: real, maxDuration: real, limit: nat,
                             clips: seq<Clip>, candidates: seq<Clip>, from: seq<nat>) {
    && AreCandidates(segments, scoring, minDuration, maxDuration, |segments|, candidates, from)
    && var order := Sort(PriorityLe, candidates);
      && SortedBy(PriorityLe, order)
      && clips == Sort(StartLe, Clips(order, Choose(order, limit, |order|)))
  }

  /** The higher score, or the same and no later. */
  ghost predicate Precedes(y: Clip, x: Clip) {
    y.score > x.score || (y.score == x.score && y.start <= x.start)
  }

  /** A candidate is selected, or a selected clip that precedes it is in its way, or the limit is filled by
      clips that precede it. */
  ghost predicate Accounted(clips: seq<Clip>, limit: nat, x: Clip) {
    || x in clips
    || (exists y :: y in clips && x.start < y.end && y.start < x.end && Precedes(y, x))
    || (|clips| == limit && forall y | y in clips :: Precedes(y, x))
  }

  lemma OrderAccounted(order: seq<Clip>, limit: nat, clips: seq<Clip>, k: nat)
    requires k < |order| && SortedBy(PriorityLe, order)
    requires clips == Sort(StartLe, Clips(order, Choose(order, limit, |order|)))
    ensures Accounted(clips, limit, order[k])
  {
    var all, before := Choose(order, limit, |order|), Choose(order, limit, k);
    var selected := Clips(order, all);
    SortMembers(StartLe, selected);
    EveryPositionAccounted(order, limit, k);
    if k in all {
      var j :| 0 <= j < |all| && all[j] == k;
      assert selected[j] in selected && selected[j] in clips;
    } else if c :| c in all && c < k && Overlaps(order[k], order[c]) {
      var j :| 0 <= j < |all| && all[j] == c;
      assert selected[j] in selected && selected[j] in clips;
      assert PriorityLe(order[c], order[k]);
    } else {
      LimitFilled(order, limit, k, clips);
    }
  }

  lemma LimitFilled(order: seq<Clip>, limit: nat, k: nat, clips: seq<Clip>)
    requires k < |order| && SortedBy(PriorityLe, order)
    requires clips == Sort(StartLe, Clips(order, Choose(order, limit, |order|)))
    requires |Choose(order, limit, k)| == |Choose(order, limit, |order|)| == limit
    ensures |clips| == limit && forall y | y in clips :: Precedes(y, order[k])
  {
    var all, before := Choose(order, limit, |order|), Choose(order, limit, k);
    var selected := Clips(order, all);
    ChoosePrefix(order, limit, k, |order|);
    assert all == before;
    SortMembers(StartLe, selected);
    forall y | y in clips ensures Precedes(y, order[k]) {
      assert y in selected;
      var j :| 0 <= j < |selected| && selected[j] == y;
      assert before[j] in before;
      assert PriorityLe(order[before[j]], order[k]);
    }
  }

  lemma AllAccounted(candidates: seq<Clip>, limit: nat, order: seq<Clip>, clips: seq<Clip>)
    requires order == Sort(PriorityLe, candidates) && SortedBy(PriorityLe, order)
    requires clips == Sort(StartLe, Clips(order, Choose(order, limit, |order|)))
    ensures forall x | x in candidates :: Accounted(clips, limit, x)
    ensures multiset(clips) <= multiset(candidates)
  {
    SortMembers(PriorityLe, candidates);
    forall x | x in candidates ensures Accounted(clips, limit, x) {
      assert x in order;
      var k :| 0 <= k < |order| && order[k] == x;
      OrderAccounted(order, limit, clips, k);
    }
    ChooseCompatible(order, limit, |order|);
    PickedMultiset(Choose(order, limit, |order|), order, Clips(order, Choose(order, limit, |order|)));
  }

  /** `select_highlights`. */
  method SelectHighlights(segments: seq<Spoken>, scoring: Scoring, minDuration: real, maxDuration: real, limit: int)
      returns (r: Selection, ghost candidates: seq<Clip>, ghost from: seq<nat>)
    requires ValidTranscript(segments)
    ensures r.Rejected? <==> minDuration <= 0.0 || maxDuration < minDuration || limit <= 0
    ensures r.Selected? ==>
      && SelectedBy(segments, scoring, minDuration, maxDuration, limit, r.clips, candidates, from)
      && GoodSelection(r.clips, limit, minDuration, maxDuration)
      && multiset(r.clips) <= multiset(candidates)
      && forall x | x in candidates :: Accounted(r.clips, limit, x)
  {
    candidates, from := [], [];
    if minDuration <= 0.0 || maxDuration < minDuration || limit <= 0 {
      return Rejected, [], [];
    }
    var found;
    found, from := Candidates(segments, scoring, minDuration, maxDuration);
    candidates := found;
    var order := Sort(PriorityLe, found);
    SortSorted(PriorityLe, found);
    var selected := PickClear(order, limit);
    var clips := Sort(StartLe, selected);
    ChosenDurations(segments, scoring, minDuration, maxDuration, candidates, from, order, limit);
    SelectionIsGood(order, limit, clips, minDuration, maxDuration);
    AllAccounted(candidates, limit, order, clips);
    r := Selected(clips);
  }

  /** The selection loop: clear candidates in priority order until the limit is filled. */
  method PickClear(order: seq<Clip>, limit: nat) returns (selected: seq<Clip>)
    ensures selected == Clips(order, Choose(order, limit, |order|))
  {
    selected := [];
    ghost var chosen: seq<nat> := [];
    var k := 0;
    while k < |order| && |selected| < limit
      invariant 0 <= k <= |order|
      invariant chosen == Choose(order, limit, k) && selected == Clips(order, chosen)
    {
      var overlaps := exists j | 0 <= j < |selected| :: Overlaps(order[k], selected[j]);
      ClearMeansNoOverlap(order, chosen, k);
      if !overlaps {
        selected := selected + [order[k]];
        chosen := chosen + [k];
      }
      k := k + 1;
    }
    FilledStays(order, limit, k);
  }

  lemma ClearMeansNoOverlap(order: seq<Clip>, chosen: seq<nat>, k: nat)
    requires k < |order| && forall c | c in chosen :: c < |order|
    ensures Clear(order, chosen, k)
       <==> forall j | 0 <= j < |chosen| :: !Overlaps(order[k], Clips(order, chosen)[j])
  {
    var clips := Clips(order, chosen);
    forall j | 0 <= j < |chosen| ensures chosen[j] in chosen && clips[j] == order[chosen[j]] {
    }
    if forall j | 0 <= j < |chosen| :: !Overlaps(order[k], clips[j]) {
      forall c | c in chosen ensures !Overlaps(order[k], order[c]) {
        var j :| 0 <= j < |chosen| && chosen[j] == c;
        assert clips[j] == order[c];
      }
    }
  }

  lemma {:induction false} FilledStays(order: seq<Clip>, limit: nat, k: nat)
    requires k <= |order| && (k == |order| || |Choose(order, limit, k)| >= limit)
    ensures Choose(order, limit, |order|) == Choose(order, limit, k)
    decreases |order| - k
  {
    if k < |order| {
      FilledStays(order, limit, k + 1);
    }
  }

  /** Every clip in priority order is a candidate, so it keeps the duration bounds. */
  lemma ChosenDurations(segments: seq<Spoken>, scoring: Scoring, minDuration: real, maxDuration: real,
                        candidates: seq<Clip>, from: seq<nat>, order: seq<Clip>, limit: nat)
    requires AreCandidates(segments, scoring, minDuration, maxDuration, |segments|, candidates, from)
    requires order == Sort(PriorityLe, candidates)
    ensures forall k | 0 <= k < |order| :: minDuration <= order[k].end - order[k].start <= maxDuration
  {
    SortMembers(PriorityLe, candidates);
    forall k | 0 <= k < |order|
      ensures minDuration <= order[k].end - order[k].start <= maxDuration
    {
      assert order[k] in order;
      var j :| 0 <= j < |candidates| && candidates[j] == order[k];
      assert IsCandidate(segments, scoring, minDuration, maxDuration, from[j], candidates[j]);
    }
  }

  lemma SelectionIsGood(order: seq<Clip>, limit: nat, clips: seq<Clip>, minDuration: real, maxDuration: real)
    requires forall k | 0 <= k < |order| :: minDuration <= order[k].end - order[k].start <= maxDuration
    requires clips == Sort(StartLe, Clips(order, Choose(order, limit, |order|)))
    ensures GoodSelection(clips, limit, minDuration, maxDuration)
  {
    var chosen := Choose(order, limit, |order|);
    var selected := Clips(order, chosen);
    ChooseCompatible(order, limit, |order|);
    SortSorted(StartLe, selected);
    SortMembers(StartLe, selected);
    forall c | c in clips ensures minDuration <= c.end - c.start <= maxDuration {
      var j :| 0 <= j < |selected| && selected[j] == c;
      assert selected[j] == order[chosen[j]];
    }
    StillClear(selected, clips);
    assert forall j, k | 0 <= j < k < |clips| :: StartLe(clips[j], clips[k]) && !Overlaps(clips[j], clips[k]);
  }

  lemma StillClear(selected: seq<Clip>, clips: seq<Clip>)
    requires multiset(clips) == multiset(selected)
    requires forall j, k | 0 <= j < k < |selected| :: !Overlaps(selected[j], selected[k])
    ensures forall j, k | 0 <= j < k < |clips| :: !Overlaps(clips[j], clips[k])
  {
    var f := PermutationRelocates(clips, selected);
    forall j, k | 0 <= j < k < |clips| ensures !Overlaps(clips[j], clips[k]) {
      assert f[j] != f[k] && clips[j] == selected[f[j]] && clips[k] == selected[f[k]];
      assert f[j] < f[k] || f[k] < f[j];
    }
  }

  // --- two limits -----------------------------------------------------------------------------------

  ghost predicate AllListed(clips: seq<Clip>, from: seq<nat>, clips': seq<Clip>, from': seq<nat>)
    requires |from| == |clips| && |from'| == |clips'|
  {
    forall k {:trigger Listed(clips', from', from[k], clips[k])} | 0 <= k < |from| ::
      Listed(clips', from', from[k], clips[k])
  }

  /** What one list of candidates holds from a segment, any other holds too. */
  lemma CandidatesListed(segments: seq<Spoken>, scoring: Scoring, minDuration: real, maxDuration: real,
                         clips: seq<Clip>, from: seq<nat>, clips': seq<Clip>, from': seq<nat>)
    requires AreCandidates(segments, scoring, minDuration, maxDuration, |segments|, clips, from)
    requires AreCandidates(segments, scoring, minDuration, maxDuration, |segments|, clips', from')
    ensures AllListed(clips, from, clips', from') && Ascends(from)
  {
    forall k | 0 <= k < |from| ensures Listed(clips', from', from[k], clips[k]) {
      assert IsCandidate(segments, scoring, minDuration, maxDuration, from[k], clips[k]);
    }
  }

  /** What comes at `n` in an ascending list cannot come earlier in one that starts alike. */
  lemma NotEarlier(from: seq<nat>, from': seq<nat>, n: nat, j: nat)
    requires Ascends(from) && n < |from| && j < |from'| && from'[j] == from[n]
    requires forall m | 0 <= m < n :: m < |from'| && from'[m] == from[m]
    ensures j >= n
  {
  }

  /** Position by position, two ascending lists that hold the same are the same. */
  lemma {:induction false} ListsAgree(clips: seq<Clip>, from: seq<nat>, clips': seq<Clip>, from': seq<nat>, n: nat)
    requires |from| == |clips| && |from'| == |clips'| && Ascends(from) && Ascends(from')
    requires AllListed(clips, from, clips', from') && AllListed(clips', from', clips, from)
    requires n <= |from|
    ensures n <= |from'| && forall m | 0 <= m < n :: from'[m] == from[m] && clips'[m] == clips[m]
  {
    if n > 0 {
      ListsAgree(clips, from, clips', from', n - 1);
      assert Listed(clips', from', from[n - 1], clips[n - 1]);
      var j :| 0 <= j < |clips'| && from'[j] == from[n - 1] && clips'[j] == clips[n - 1];
      NotEarlier(from, from', n - 1, j);
      assert Listed(clips, from, from'[n - 1], clips'[n - 1]);
      var j' :| 0 <= j' < |clips| && from[j'] == from'[n - 1] && clips[j'] == clips'[n - 1];
      NotEarlier(from', from, n - 1, j');
      assert from'[n - 1] == from[n - 1];
    }
  }

  /** A transcript and the bounds have one list of candidates. */
  lemma CandidatesUnique(segments: seq<Spoken>, scoring: Scoring, minDuration: real, maxDuration: real,
                         clips: seq<Clip>, from: seq<nat>, clips': seq<Clip>, from': seq<nat>)
    requires AreCandidates(segments, scoring, minDuration, maxDuration, |segments|, clips, from)
    requires AreCandidates(segments, scoring, minDuration, maxDuration, |segments|, clips', from')
    ensures clips == clips' && from == from'
  {
    CandidatesListed(segments, scoring, minDuration, maxDuration, clips, from, clips', from');
    CandidatesListed(segments, scoring, minDuration, maxDuration, clips', from', clips, from);
    ListsAgree(clips, from, clips', from', |from|);
    ListsAgree(clips', from', clips, from, |from'|);
  }

  /** More positions, more clips, by start or not. */
  lemma MorePositions(order: seq<Clip>, few: seq<nat>, many: seq<nat>)
    requires few <= many && forall c | c in many :: c < |order|
    ensures forall c | c in few :: c < |order|
    ensures multiset(Sort(StartLe, Clips(order, few))) <= multiset(Sort(StartLe, Clips(order, many)))
  {
    forall c | c in few ensures c < |order| {
      assert c in many;
    }
    var selected, more := Clips(order, few), Clips(order, many);
    assert more == selected + more[|selected|..];
  }

  /** Of two selections from one transcript, the one under the higher limit has every clip of the other,
      as often; and they are the same where the lower limit is not filled. */
  lemma HigherLimitKeepsClips(segments: seq<Spoken>, scoring: Scoring, minDuration: real, maxDuration: real,
                              limit: nat, clips: seq<Clip>, candidates: seq<Clip>, from: seq<nat>,
                              more: nat, clips': seq<Clip>, candidates': seq<Clip>, from': seq<nat>)
    requires limit <= more
    requires SelectedBy(segments, scoring, minDuration, maxDuration, limit, clips, candidates, from)
    requires SelectedBy(segments, scoring, minDuration, maxDuration, more, clips', candidates', from')
    ensures multiset(clips) <= multiset(clips')
    ensures |clips| < limit ==> clips == clips'
  {
    CandidatesUnique(segments, scoring, minDuration, maxDuration, candidates, from, candidates', from');
    var order := Sort(PriorityLe, candidates);
    RaisingTheLimitAppends(order, limit, more, |order|);
    MorePositions(order, Choose(order, limit, |order|), Choose(order, more, |order|));
  }
}
