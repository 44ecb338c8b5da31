/** Two single passes that stand for a whole scan: `candidates` of `scripts/eval/auto_reframe.py` and
    `loudest_window` of `scripts/parity/join_gates.py`. */
module Scans {

  // --- candidates -----------------------------------------------------------------------------------------

  const CANDIDATE_GAP: int := 3

  /** `strength` times 80: the frame difference over 40 or the scene score over 80, the larger. */
  function Strengths(diff: seq<int>, scene: seq<int>): (s: seq<int>)
    ensures |s| == if |diff| < |scene| then |diff| else |scene|
  {
    seq(if |diff| < |scene| then |diff| else |scene|, k requires 0 <= k < |diff| && k < |scene| =>
      if 2 * diff[k] > scene[k] then 2 * diff[k] else scene[k])
  }

  predicate Strong(s: seq<int>, k: int) {
    1 <= k < |s| && s[k] >= 80
  }

  /** The picks after frame `k`: it replaces a weaker pick that is near, gives way to it, or is added. */
  function Pick(s: seq<int>, before: seq<int>, k: int): seq<int> {
    if !Strong(s, k) then before
    else if |before| > 0 && Strong(s, before[|before| - 1]) && k - before[|before| - 1] <= CANDIDATE_GAP then
      if s[k] > s[before[|before| - 1]] then before[..|before| - 1] + [k] else before
    else before + [k]
  }

  /** The picks among the frames below `end`. */
  function Picks(s: seq<int>, end: nat): seq<int> {
    if end == 0 then [] else Pick(s, Picks(s, end - 1), end - 1)
  }

  /** `candidates`. */
  method Candidates(diff: seq<int>, scene: seq<int>) returns (picked: seq<int>)
    ensures picked == Picks(Strengths(diff, scene), |Strengths(diff, scene)|)
  {
    var s := Strengths(diff, scene);
    picked := [];
    for k := 1 to if |s| > 1 then |s| else 1
      invariant picked == Picks(s, k)
    {
      LastIsStrong(s, k);
      if s[k] >= 80 {
        if |picked| > 0 && k - picked[|picked| - 1] <= CANDIDATE_GAP {
          if s[k] > s[picked[|picked| - 1]] {
            picked := picked[..|picked| - 1] + [k];
          }
        } else {
          picked := picked + [k];
        }
      }
    }
  }

  lemma {:induction false} LastIsStrong(s: seq<int>, end: nat)
    ensures forall m | 0 <= m < |Picks(s, end)| :: Strong(s, Picks(s, end)[m])
  {
    if end > 0 {
      LastIsStrong(s, end - 1);
    }
  }

  /** Strong frames below `end`, in order, more than the gap apart. */
  ghost predicate Apart(s: seq<int>, picked: seq<int>, end: int) {
    && (forall m | 0 <= m < |picked| :: Strong(s, picked[m]) && picked[m] < end)
    && forall m, n | 0 <= m < n < |picked| :: picked[n] - picked[m] > CANDIDATE_GAP
  }

  /** A pick as strong as frame `k` and not far before it. */
  ghost predicate StandsFor(s: seq<int>, p: int, k: int) {
    Strong(s, p) && Strong(s, k) && p >= k - CANDIDATE_GAP && s[p] >= s[k]
  }

  ghost predicate Represented(s: seq<int>, picked: seq<int>, k: int) {
    exists m :: 0 <= m < |picked| && StandsFor(s, picked[m], k)
  }

  ghost predicate AllRepresented(s: seq<int>, picked: seq<int>, end: int) {
    forall k | 1 <= k < end && Strong(s, k) :: Represented(s, picked, k)
  }

  /** Picks are more than the gap apart, and every strong frame has one that is as strong. */
  lemma PicksStand(s: seq<int>, end: nat)
    ensures Apart(s, Picks(s, end), end) && AllRepresented(s, Picks(s, end), end)
  {
    var states := (k: nat) => Picks(s, k);
    var holds := (x: seq<int>, k: nat) => Apart(s, x, k) && AllRepresented(s, x, k);
    forall k: nat ensures Keeps(states, holds, k) {
      if holds(states(k), k) {
        StandStep(s, k, states(k));
      }
    }
    Induction(states, holds, end);
  }

  lemma StandStep(s: seq<int>, k: nat, before: seq<int>)
    requires before == Picks(s, k) && Apart(s, before, k) && AllRepresented(s, before, k)
    ensures Apart(s, Picks(s, k + 1), k + 1) && AllRepresented(s, Picks(s, k + 1), k + 1)
  {
    PickKeepsApart(s, before, k);
    PickRepresents(s, before, k);
    PicksStep(s, k, before, Openers(s, k));
  }

  lemma PickRepresents(s: seq<int>, before: seq<int>, last: nat)
    requires Apart(s, before, last) && AllRepresented(s, before, last)
    ensures AllRepresented(s, Pick(s, before, last), last + 1)
  {
    forall k | 1 <= k < last + 1 && Strong(s, k) ensures Represented(s, Pick(s, before, last), k) {
      if k < last {
        StillRepresented(s, before, last, k);
      } else {
        LastRepresented(s, before, last);
      }
    }
  }

  lemma LastRepresented(s: seq<int>, before: seq<int>, last: nat)
    requires Strong(s, last)
    requires |before| > 0 ==> Strong(s, before[|before| - 1]) && before[|before| - 1] < last
    ensures Represented(s, Pick(s, before, last), last)
  {
    var picked := Pick(s, before, last);
    assert StandsFor(s, picked[|picked| - 1], last);
  }

  lemma PickKeepsApart(s: seq<int>, before: seq<int>, k: nat)
    requires Apart(s, before, k)
    ensures Apart(s, Pick(s, before, k), k + 1)
  {
    var n := |before|;
    if Strong(s, k) && n > 0 && k - before[n - 1] <= CANDIDATE_GAP {
      AddsApart(s, before[..n - 1], k, before[n - 1]);
    } else if Strong(s, k) && n > 0 {
      AddsApart(s, before, k, k);
    }
  }

  /** Adding `k` where `from`, not after it, keeps the distance. */
  lemma AddsApart(s: seq<int>, before: seq<int>, k: int, from: int)
    requires Apart(s, before, k) && Strong(s, k) && from <= k
    requires forall m | 0 <= m < |before| :: from - before[m] > CANDIDATE_GAP
    ensures Apart(s, before + [k], k + 1)
  {
  }

  /** Replacing a pick by a later and stronger frame keeps what it stood for. */
  lemma StillRepresented(s: seq<int>, before: seq<int>, last: nat, k: int)
    requires Apart(s, before, last) && Represented(s, before, k)
    ensures Represented(s, Pick(s, before, last), k)
  {
    var m :| 0 <= m < |before| && StandsFor(s, before[m], k);
    assert StandsFor(s, Pick(s, before, last)[m], k);
  }

  // --- how far a pick moves ---------------------------------------------------------------------------------

  /** Frame `k` takes the place of the last pick. */
  predicate Moves(s: seq<int>, before: seq<int>, k: int) {
    Strong(s, k) && |before| > 0 && Strong(s, before[|before| - 1])
    && k - before[|before| - 1] <= CANDIDATE_GAP && s[k] > s[before[|before| - 1]]
  }

  /** What opened each pick after frame `k`: a pick that moves keeps its opener. */
  function Open(s: seq<int>, before: seq<int>, opener: seq<int>, k: int): seq<int> {
    if |Pick(s, before, k)| > |before| then opener + [k] else opener
  }

  /** The frame that opened each pick among the frames below `end`. */
  function Openers(s: seq<int>, end: nat): seq<int> {
    if end == 0 then [] else Open(s, Picks(s, end - 1), Openers(s, end - 1), end - 1)
  }

  /** Frame `k` takes the place of a pick that was opened more than the gap before it. */
  predicate MovesFar(s: seq<int>, before: seq<int>, opener: seq<int>, k: int) {
    Moves(s, before, k) && opener != [] && k - opener[|opener| - 1] > CANDIDATE_GAP
  }

  ghost predicate FarMove(s: seq<int>, k: nat) {
    MovesFar(s, Picks(s, k), Openers(s, k), k)
  }

  ghost predicate NoFarMove(s: seq<int>, end: nat) {
    forall k: nat | k < end :: !FarMove(s, k)
  }

  /** Within the gap on either side. */
  ghost predicate NearPick(s: seq<int>, picked: seq<int>, k: int) {
    exists m :: 0 <= m < |picked| && -CANDIDATE_GAP <= picked[m] - k <= CANDIDATE_GAP
  }

  ghost predicate AllNear(s: seq<int>, end: nat) {
    forall k | 1 <= k < end && Strong(s, k) :: NearPick(s, Picks(s, end), k)
  }

  /** Each pick was opened by a strong frame, not after it and more than the gap after the pick before. */
  ghost predicate Opened(s: seq<int>, picked: seq<int>, opener: seq<int>) {
    && |opener| == |picked|
    && (forall m | 0 <= m < |picked| :: Strong(s, opener[m]) && opener[m] <= picked[m])
    && forall m, n | 0 <= m < n < |picked| :: opener[n] - picked[m] > CANDIDATE_GAP
  }

  ghost predicate Close(picked: seq<int>, opener: seq<int>, m: int)
    requires 0 <= m < |picked| == |opener|
  {
    picked[m] - opener[m] <= CANDIDATE_GAP
  }

  /** No pick is further from its opener than the gap. */
  ghost predicate AllClose(picked: seq<int>, opener: seq<int>) {
    |opener| == |picked| && forall m | 0 <= m < |picked| :: Close(picked, opener, m)
  }

  lemma OpenedNext(s: seq<int>, before: seq<int>, opener: seq<int>, k: nat)
    requires Apart(s, before, k) && Opened(s, before, opener)
    ensures Opened(s, Pick(s, before, k), Open(s, before, opener, k))
  {
    if Moves(s, before, k) {
      MoveKeepsOpened(s, before, opener, k);
    } else if |Pick(s, before, k)| > |before| {
      AddKeepsOpened(s, before, opener, k);
    }
  }

  lemma MoveKeepsOpened(s: seq<int>, before: seq<int>, opener: seq<int>, k: int)
    requires Apart(s, before, k) && Opened(s, before, opener) && before != []
    ensures Opened(s, before[..|before| - 1] + [k], opener)
  {
    var picked := before[..|before| - 1] + [k];
    assert forall m | 0 <= m < |before| - 1 :: picked[m] == before[m];
  }

  lemma AddKeepsOpened(s: seq<int>, before: seq<int>, opener: seq<int>, k: int)
    requires Apart(s, before, k) && Opened(s, before, opener) && Strong(s, k)
    requires |before| > 0 ==> k - before[|before| - 1] > CANDIDATE_GAP
    ensures Opened(s, before + [k], opener + [k])
  {
    var picked, opener' := before + [k], opener + [k];
    forall m | 0 <= m < |before|
      ensures picked[m] == before[m] && opener'[m] == opener[m] && k - before[m] > CANDIDATE_GAP
    {
      assert m < |before| - 1 ==> before[|before| - 1] - before[m] > CANDIDATE_GAP;
    }
  }

  /** A pick moves only forward, so one that is far from its opener stays far. */
  lemma CloseNext(s: seq<int>, before: seq<int>, opener: seq<int>, k: nat)
    requires Apart(s, before, k) && Opened(s, before, opener)
    ensures AllClose(Pick(s, before, k), Open(s, before, opener, k))
       <==> AllClose(before, opener) && !MovesFar(s, before, opener, k)
  {
    if Moves(s, before, k) {
      MoveKeepsClose(before, Pick(s, before, k), opener, k);
    } else if |Pick(s, before, k)| > |before| {
      AddKeepsClose(before, opener, k);
    }
  }

  lemma NoFarMoveNext(s: seq<int>, k: nat)
    ensures NoFarMove(s, k + 1) <==> NoFarMove(s, k) && !FarMove(s, k)
  {
  }

  lemma MoveKeepsClose(before: seq<int>, picked: seq<int>, opener: seq<int>, k: int)
    requires |before| == |opener| > 0 && before[|before| - 1] < k && picked == before[..|before| - 1] + [k]
    ensures AllClose(picked, opener) <==> AllClose(before, opener) && k - opener[|opener| - 1] <= CANDIDATE_GAP
  {
    var n := |before| - 1;
    forall m | 0 <= m < n ensures Close(picked, opener, m) <==> Close(before, opener, m) {
    }
    assert Close(picked, opener, n) <==> k - opener[n] <= CANDIDATE_GAP;
  }

  lemma AddKeepsClose(before: seq<int>, opener: seq<int>, k: int)
    requires |before| == |opener|
    ensures AllClose(before + [k], opener + [k]) <==> AllClose(before, opener)
  {
    var p, o := before + [k], opener + [k];
    forall m | 0 <= m < |before| ensures Close(p, o, m) <==> Close(before, opener, m) {
    }
    assert Close(p, o, |before|);
  }

  /** Every strong frame belongs to a pick that was opened no later and picked no earlier than the gap
      before it. */
  ghost predicate Belongs(picked: seq<int>, opener: seq<int>, k: int)
    requires |opener| == |picked|
  {
    exists m :: 0 <= m < |picked| && opener[m] <= k <= picked[m] + CANDIDATE_GAP
  }

  ghost predicate AllBelong(s: seq<int>, picked: seq<int>, opener: seq<int>, end: int)
  {
    |opener| == |picked| && forall k | 1 <= k < end && Strong(s, k) :: Belongs(picked, opener, k)
  }

  lemma LastPick(s: seq<int>, before: seq<int>, opener: seq<int>, end: nat)
    requires Apart(s, before, end) && Opened(s, before, opener)
    ensures before != [] ==> Strong(s, before[|before| - 1]) && opener[|opener| - 1] <= before[|before| - 1] < end
  {
  }

  lemma BelongNext(s: seq<int>, before: seq<int>, opener: seq<int>, last: nat)
    requires AllBelong(s, before, opener, last)
    requires before != [] ==> Strong(s, before[|before| - 1]) && opener[|opener| - 1] <= before[|before| - 1] < last
    ensures AllBelong(s, Pick(s, before, last), Open(s, before, opener, last), last + 1)
  {
    forall k | 1 <= k < last + 1 && Strong(s, k)
      ensures Belongs(Pick(s, before, last), Open(s, before, opener, last), k)
    {
      if k < last {
        StillBelongs(s, before, opener, last, k);
      } else {
        NewestBelongs(s, before, opener, last);
      }
    }
  }

  lemma StillBelongs(s: seq<int>, before: seq<int>, opener: seq<int>, last: nat, k: int)
    requires |opener| == |before| && Belongs(before, opener, k)
    requires before != [] ==> before[|before| - 1] < last
    ensures |Open(s, before, opener, last)| == |Pick(s, before, last)|
    ensures Belongs(Pick(s, before, last), Open(s, before, opener, last), k)
  {
    var m :| 0 <= m < |before| && opener[m] <= k <= before[m] + CANDIDATE_GAP;
    var picked, opener' := Pick(s, before, last), Open(s, before, opener, last);
    assert opener'[m] <= k <= picked[m] + CANDIDATE_GAP;
  }

  lemma NewestBelongs(s: seq<int>, before: seq<int>, opener: seq<int>, last: nat)
    requires |opener| == |before| && Strong(s, last)
    requires before != [] ==> Strong(s, before[|before| - 1]) && opener[|opener| - 1] <= before[|before| - 1] < last
    ensures |Open(s, before, opener, last)| == |Pick(s, before, last)|
    ensures Belongs(Pick(s, before, last), Open(s, before, opener, last), last)
  {
    var picked, opener' := Pick(s, before, last), Open(s, before, opener, last);
    var m := |picked| - 1;
    assert opener'[m] <= last <= picked[m] + CANDIDATE_GAP;
  }

  /** Everything that holds of the picks below `end`. */
  ghost predicate Standing(s: seq<int>, picked: seq<int>, opener: seq<int>, end: nat) {
    && Apart(s, picked, end) && Opened(s, picked, opener) && AllBelong(s, picked, opener, end)
    && (AllClose(picked, opener) <==> NoFarMove(s, end))
  }

  lemma StandingNext(s: seq<int>, before: seq<int>, opener: seq<int>, k: nat)
    requires Standing(s, before, opener, k) && (FarMove(s, k) <==> MovesFar(s, before, opener, k))
    ensures Standing(s, Pick(s, before, k), Open(s, before, opener, k), k + 1)
  {
    PickKeepsApart(s, before, k);
    OpenedNext(s, before, opener, k);
    LastPick(s, before, opener, k);
    BelongNext(s, before, opener, k);
    CloseNext(s, before, opener, k);
    NoFarMoveNext(s, k);
  }

  lemma StandingStep(s: seq<int>, k: nat, picked: seq<int>, opener: seq<int>)
    requires picked == Picks(s, k) && opener == Openers(s, k) && Standing(s, picked, opener, k)
    ensures Standing(s, Picks(s, k + 1), Openers(s, k + 1), k + 1)
  {
    StandingNext(s, picked, opener, k);
    PicksStep(s, k, picked, opener);
  }

  ghost predicate Keeps<T(!new)>(states: nat -> T, holds: (T, nat) -> bool, k: nat) {
    holds(states(k), k) ==> holds(states(k + 1), k + 1)
  }

  /** What holds at first, and is kept by each step, holds at last. */
  lemma {:induction false} Induction<T(!new)>(states: nat -> T, holds: (T, nat) -> bool, end: nat)
    requires holds(states(0), 0) && forall k: nat :: Keeps(states, holds, k)
    ensures holds(states(end), end)
  {
    if end > 0 {
      Induction(states, holds, end - 1);
      assert Keeps(states, holds, end - 1);
    }
  }

  lemma PicksAreStanding(s: seq<int>, end: nat)
    ensures Standing(s, Picks(s, end), Openers(s, end), end)
  {
    var states := (k: nat) => (Picks(s, k), Openers(s, k));
    var holds := (x: (seq<int>, seq<int>), k: nat) => Standing(s, x.0, x.1, k);
    forall k: nat ensures Keeps(states, holds, k) {
      if holds(states(k), k) {
        StandingStep(s, k, states(k).0, states(k).1);
      }
    }
    Induction(states, holds, end);
  }

  /** The exact condition: every strong frame has a pick within the gap if and only if no frame takes
      the place of a pick that was opened more than the gap before it. */
  lemma NearExactlyWithoutFarMoves(s: seq<int>, end: nat)
    ensures AllNear(s, end) <==> NoFarMove(s, end)
  {
    PicksAreStanding(s, end);
    NearExactlyWhenClose(s, Picks(s, end), Openers(s, end), end);
  }

  lemma NearExactlyWhenClose(s: seq<int>, picked: seq<int>, opener: seq<int>, end: nat)
    requires Apart(s, picked, end) && Opened(s, picked, opener) && AllBelong(s, picked, opener, end)
    ensures (forall k | 1 <= k < end && Strong(s, k) :: NearPick(s, picked, k)) <==> AllClose(picked, opener)
  {
    if AllClose(picked, opener) {
      forall k | 1 <= k < end && Strong(s, k) ensures NearPick(s, picked, k) {
        BelongsNear(s, picked, opener, k);
      }
    } else {
      var m :| 0 <= m < |picked| && !Close(picked, opener, m);
      OpenerIsLost(s, picked, opener, m, end);
    }
  }

  lemma BelongsNear(s: seq<int>, picked: seq<int>, opener: seq<int>, k: int)
    requires AllClose(picked, opener) && Belongs(picked, opener, k)
    ensures NearPick(s, picked, k)
  {
    var m :| 0 <= m < |picked| && opener[m] <= k <= picked[m] + CANDIDATE_GAP;
    assert Close(picked, opener, m);
  }

  /** A pick that is far from its opener leaves it without a near pick. */
  lemma OpenerIsLost(s: seq<int>, picked: seq<int>, opener: seq<int>, m: nat, end: nat)
    requires Apart(s, picked, end) && Opened(s, picked, opener) && m < |picked| && !Close(picked, opener, m)
    ensures Strong(s, opener[m]) && opener[m] < end && !NearPick(s, picked, opener[m])
  {
    forall n | 0 <= n < |picked| ensures !(-CANDIDATE_GAP <= picked[n] - opener[m] <= CANDIDATE_GAP) {
      assert n < m ==> opener[m] - picked[n] > CANDIDATE_GAP;
      assert m < n ==> picked[n] - picked[m] > CANDIDATE_GAP;
    }
  }

  // --- which frame a pick is --------------------------------------------------------------------------------

  /** A frame that counts: not the first one, and either measure reaches its threshold. */
  ghost predicate High(diff: seq<int>, scene: seq<int>, k: int) {
    1 <= k < |diff| && k < |scene| && (diff[k] >= 40 || scene[k] >= 80)
  }

  lemma StrengthsMean(diff: seq<int>, scene: seq<int>, k: int)
    ensures Strong(Strengths(diff, scene), k) <==> High(diff, scene, k)
    ensures 0 <= k < |Strengths(diff, scene)| ==>
      Strengths(diff, scene)[k] == if 2 * diff[k] >= scene[k] then 2 * diff[k] else scene[k]
  {
  }

  /** From its opener on a pick is the first of the strongest, and no frame in the gap after it is
      stronger. */
  ghost predicate RecordAt(s: seq<int>, picked: seq<int>, opener: seq<int>, m: int, end: int)
    requires 0 <= m < |picked| == |opener|
  {
    && 0 <= picked[m] < |s|
    && (forall k | opener[m] <= k < picked[m] && Strong(s, k) :: s[k] < s[picked[m]])
    && (forall k | picked[m] < k <= picked[m] + 3 && k < end && Strong(s, k) :: s[k] <= s[picked[m]])
  }

  /** The opener is the first strong frame beyond the gap after the pick before. */
  ghost predicate FirstAt(s: seq<int>, picked: seq<int>, opener: seq<int>, m: int)
    requires 0 <= m < |picked| == |opener|
  {
    && (forall k | k < opener[m] && Strong(s, k) :: m > 0 && k <= picked[m - 1] + 3)
    && (m > 0 ==> opener[m] > picked[m - 1] + 3)
  }

  ghost predicate Records(s: seq<int>, picked: seq<int>, opener: seq<int>, end: int) {
    && |opener| == |picked|
    && (forall m | 0 <= m < |picked| :: RecordAt(s, picked, opener, m, end))
    && (forall m | 0 <= m < |picked| :: FirstAt(s, picked, opener, m))
    && Behind(s, picked, end)
  }

  /** No strong frame is further behind the last pick than the gap. */
  ghost predicate Behind(s: seq<int>, picked: seq<int>, end: int) {
    forall k | k < end && Strong(s, k) :: picked != [] && k <= picked[|picked| - 1] + 3
  }

  lemma RecordsNext(s: seq<int>, before: seq<int>, opener: seq<int>, k: nat)
    requires Apart(s, before, k) && Opened(s, before, opener) && Records(s, before, opener, k)
    ensures Records(s, Pick(s, before, k), Open(s, before, opener, k), k + 1)
  {
    var end := k + 1;
    if Moves(s, before, k) {
      MoveKeepsRecords(s, before, opener, k, end);
    } else if |Pick(s, before, k)| > |before| {
      AddKeepsRecords(s, before, opener, k, end);
    } else {
      StayKeepsRecords(s, before, opener, k, end);
    }
  }

  lemma StayKeepsRecords(s: seq<int>, before: seq<int>, opener: seq<int>, k: nat, end: int)
    requires Apart(s, before, k) && Records(s, before, opener, k) && end == k + 1
    requires Strong(s, k) ==> before != [] && k <= before[|before| - 1] + 3 && s[k] <= s[before[|before| - 1]]
    ensures Records(s, before, opener, end)
  {
    forall m | 0 <= m < |before| ensures RecordAt(s, before, opener, m, end) {
      RecordStays(s, before, opener, m, k, end);
    }
  }

  /** An earlier pick is more than the gap before frame `k`. */
  lemma RecordStays(s: seq<int>, before: seq<int>, opener: seq<int>, m: nat, k: nat, end: int)
    requires Apart(s, before, k) && m < |before| == |opener| && RecordAt(s, before, opener, m, k) && end == k + 1
    requires Strong(s, k) && m == |before| - 1 ==> k > before[m] + 3 || s[k] <= s[before[m]]
    requires Strong(s, k) && m < |before| - 1 ==> before[|before| - 1] < k
    ensures RecordAt(s, before, opener, m, end)
  {
    assert m < |before| - 1 ==> before[|before| - 1] - before[m] > 3;
  }

  lemma MoveKeepsRecords(s: seq<int>, before: seq<int>, opener: seq<int>, k: nat, end: int)
    requires Apart(s, before, k) && Records(s, before, opener, k) && Moves(s, before, k) && end == k + 1
    ensures Records(s, before[..|before| - 1] + [k], opener, end)
  {
    var n := |before| - 1;
    var picked := before[..n] + [k];
    assert forall m | 0 <= m < n :: picked[m] == before[m];
    forall m | 0 <= m < |picked| ensures RecordAt(s, picked, opener, m, end) && FirstAt(s, picked, opener, m) {
      assert RecordAt(s, before, opener, m, k) && FirstAt(s, before, opener, m);
      if m < n {
        RecordStays(s, before, opener, m, k, end);
      }
    }
  }

  lemma AddKeepsRecords(s: seq<int>, before: seq<int>, opener: seq<int>, k: nat, end: int)
    requires Apart(s, before, k) && Records(s, before, opener, k) && Strong(s, k) && end == k + 1
    requires before != [] ==> k > before[|before| - 1] + 3
    ensures Records(s, before + [k], opener + [k], end)
  {
    var picked, opener' := before + [k], opener + [k];
    forall m | 0 <= m < |picked| ensures RecordAt(s, picked, opener', m, end) && FirstAt(s, picked, opener', m) {
      if m < |before| {
        RecordStays(s, before, opener, m, k, end);
        assert RecordAt(s, before, opener, m, end) && FirstAt(s, before, opener, m);
        assert picked[m] == before[m] && opener'[m] == opener[m] && (m > 0 ==> picked[m - 1] == before[m - 1]);
      } else {
        assert before != [] ==> picked[m - 1] == before[|before| - 1];
      }
    }
  }

  lemma NoRecords(s: seq<int>)
    ensures Records(s, [], [], 0)
  {
  }

  /** Every pick is the first of the strongest frames since the one that opened it. */
  lemma PicksAreRecords(s: seq<int>, end: nat)
    ensures Records(s, Picks(s, end), Openers(s, end), end)
  {
    var states := (k: nat) => (Picks(s, k), Openers(s, k));
    var holds := (x: (seq<int>, seq<int>), k: nat) =>
      Apart(s, x.0, k) && Opened(s, x.0, x.1) && Records(s, x.0, x.1, k);
    forall k: nat ensures Keeps(states, holds, k) {
      if holds(states(k), k) {
        RecordsStep(s, k, states(k).0, states(k).1);
      }
    }
    NoRecords(s);
    Induction(states, holds, end);
  }

  lemma RecordsStep(s: seq<int>, k: nat, picked: seq<int>, opener: seq<int>)
    requires picked == Picks(s, k) && opener == Openers(s, k)
    requires Apart(s, picked, k) && Opened(s, picked, opener) && Records(s, picked, opener, k)
    ensures Apart(s, Picks(s, k + 1), k + 1) && Opened(s, Picks(s, k + 1), Openers(s, k + 1))
    ensures Records(s, Picks(s, k + 1), Openers(s, k + 1), k + 1)
  {
    PickKeepsApart(s, picked, k);
    OpenedNext(s, picked, opener, k);
    RecordsNext(s, picked, opener, k);
    PicksStep(s, k, picked, opener);
  }

  lemma Replaces(s: seq<int>, k: nat)
    requires k >= 4 && Strong(s, k - 3) && Strong(s, k) && s[k - 3] < s[k]
    requires !Strong(s, k - 1) && !Strong(s, k - 2) && Picks(s, k - 2) == [k - 3] && Openers(s, k - 2) == [1]
    ensures Picks(s, k + 1) == [k] && Openers(s, k + 1) == [1]
    ensures FarMove(s, k) <==> k - 1 > CANDIDATE_GAP
  {
    PicksStep(s, k - 2, [k - 3], [1]);
    PicksStep(s, k - 1, [k - 3], [1]);
    PicksStep(s, k, [k - 3], [1]);
  }

  lemma PicksStep(s: seq<int>, k: nat, picked: seq<int>, opener: seq<int>)
    requires Picks(s, k) == picked && Openers(s, k) == opener
    ensures Picks(s, k + 1) == Pick(s, picked, k) && Openers(s, k + 1) == Open(s, picked, opener, k)
  {
  }

  /** A strong frame every three frames, each stronger than the last. */
  ghost predicate Staircase(s: seq<int>) {
    && (forall k | 1 <= k < |s| :: Strong(s, k) <==> k % 3 == 1)
    && forall k | 1 <= k < |s| - 3 && Strong(s, k) :: s[k] < s[k + 3]
  }

  lemma StairsAt(s: seq<int>, k: int)
    requires Staircase(s) && 4 <= k < |s| && k % 3 == 1
    ensures Strong(s, k - 3) && Strong(s, k) && s[k - 3] < s[k] && !Strong(s, k - 1) && !Strong(s, k - 2)
  {
    assert Strong(s, k - 3);
  }

  /** Only the last frame is picked, as far from the first as one likes. */
  lemma {:induction false} PicksDrift(s: seq<int>, k: nat)
    requires Staircase(s) && 1 <= k < |s| && k % 3 == 1
    ensures Picks(s, k + 1) == [k] && Openers(s, k + 1) == [1]
    ensures k >= 7 ==> FarMove(s, k)
    decreases k
  {
    if k == 1 {
      assert Strong(s, 1);
      PicksStep(s, 0, [], []);
      PicksStep(s, 1, [], []);
    } else {
      PicksDrift(s, k - 3);
      StairsAt(s, k);
      Replaces(s, k);
    }
  }

  /** From the third step on, some strong frame has no pick within the gap. */
  lemma StaircaseIsNotNear(s: seq<int>, k: nat)
    requires Staircase(s) && 7 <= k < |s| && k % 3 == 1
    ensures !AllNear(s, k + 1)
  {
    PicksDrift(s, k);
    NearExactlyWithoutFarMoves(s, k + 1);
  }

  // --- loudest_window -------------------------------------------------------------------------------------

  /** The energy of one stereo frame. */
  function Energy(samples: seq<int>, n: nat): int
    requires 2 * n + 1 < |samples|
  {
    samples[2 * n] * samples[2 * n] + samples[2 * n + 1] * samples[2 * n + 1]
  }

  function Energies(samples: seq<int>): (e: seq<int>)
    ensures |e| == |samples| / 2
  {
    seq(|samples| / 2, n requires 0 <= n < |samples| / 2 => Energy(samples, n))
  }

  function Sum(e: seq<int>): int {
    if e == [] then 0 else e[0] + Sum(e[1..])
  }

  lemma {:induction false} SumAppend(e: seq<int>, x: int)
    ensures Sum(e + [x]) == Sum(e) + x
  {
    if e != [] {
      assert (e + [x])[1..] == e[1..] + [x];
      SumAppend(e[1..], x);
    }
  }

  /** The running total: the frame that enters less the frame that leaves. */
  lemma Slide(e: seq<int>, window: nat, start: nat)
    requires 1 <= start && start + window <= |e|
    ensures Sum(e[start..start + window])
         == Sum(e[start - 1..start - 1 + window]) + e[start + window - 1] - e[start - 1]
  {
    if window > 0 {
      var last, kept := e[start - 1..start - 1 + window], e[start..start + window - 1];
      assert last == [e[start - 1]] + kept;
      assert e[start..start + window] == kept + [e[start + window - 1]];
      SumAppend(kept, e[start + window - 1]);
    }
  }

  function SquareSum(l: seq<int>): int {
    if l == [] then 0 else SquareSum(l[..|l| - 1]) + l[|l| - 1] * l[|l| - 1]
  }

  /** The energy of `n` frames from frame `start` on is the sum of the squares of their `2n` samples. */
  lemma {:induction false} EnergyIsSquares(samples: seq<int>, start: nat, n: nat)
    requires start + n <= |samples| / 2
    ensures Sum(Energies(samples)[start..start + n]) == SquareSum(samples[2 * start..2 * (start + n)])
    decreases n
  {
    if n > 0 {
      var e, m := Energies(samples), start + n - 1;
      EnergyIsSquares(samples, start, n - 1);
      assert e[start..start + n] == e[start..m] + [e[m]];
      SumAppend(e[start..m], e[m]);
      var front, more := samples[2 * start..2 * m], samples[2 * start..2 * m + 1];
      var all := samples[2 * start..2 * (start + n)];
      assert all[..|all| - 1] == more && more[..|more| - 1] == front;
    }
  }

  function WindowSum(e: seq<int>, window: nat, start: int): int
    requires 0 <= start <= |e| - window
  {
    Sum(e[start..start + window])
  }

  /** The first of the largest sums of `window` neighbours. */
  ghost predicate FirstLargest(e: seq<int>, window: nat, best: nat) {
    best + window <= |e|
    && (forall s | 0 <= s <= |e| - window :: WindowSum(e, window, s) <= WindowSum(e, window, best))
    && forall s | 0 <= s < best :: WindowSum(e, window, s) < WindowSum(e, window, best)
  }

  /** `loudest_window`: the first of the loudest windows; 0 when there is no room for two. */
  method LoudestWindow(samples: seq<int>, window: nat) returns (best: nat)
    ensures |samples| / 2 <= window ==> best == 0
    ensures |samples| / 2 > window ==> FirstLargest(Energies(samples), window, best)
    ensures |samples| / 2 > window ==> FirstLoudest(samples, window, best)
  {
    var e := Energies(samples);
    if |e| <= window {
      return 0;
    }
    best := SlideOver(e, window);
    LargestIsLoudest(samples, window, best);
  }

  /** The squares of the samples of a window. */
  function Loudness(samples: seq<int>, window: nat, start: int): int
    requires 0 <= start <= |samples| / 2 - window
  {
    SquareSum(samples[2 * start..2 * (start + window)])
  }

  /** The first of the loudest windows. */
  ghost predicate FirstLoudest(samples: seq<int>, window: nat, best: nat) {
    best + window <= |samples| / 2
    && (forall s | 0 <= s <= |samples| / 2 - window :: Loudness(samples, window, s) <= Loudness(samples, window, best))
    && forall s | 0 <= s < best :: Loudness(samples, window, s) < Loudness(samples, window, best)
  }

  lemma LargestIsLoudest(samples: seq<int>, window: nat, best: nat)
    requires FirstLargest(Energies(samples), window, best)
    ensures FirstLoudest(samples, window, best)
  {
    var e := Energies(samples);
    forall s | 0 <= s <= |samples| / 2 - window ensures WindowSum(e, window, s) == Loudness(samples, window, s) {
      EnergyIsSquares(samples, s, window);
    }
  }

  method SlideOver(e: seq<int>, window: nat) returns (best: nat)
    requires window < |e|
    ensures FirstLargest(e, window, best)
  {
    var total := Total(e[..window]);
    var top := total;
    best := 0;
    assert e[0..window] == e[..window];
    for start := 1 to |e| - window + 1
      invariant total == WindowSum(e, window, start - 1)
      invariant best < start && top == WindowSum(e, window, best)
      invariant forall s | 0 <= s < start :: WindowSum(e, window, s) <= top
      invariant forall s | 0 <= s < best :: WindowSum(e, window, s) < top
    {
      Slide(e, window, start);
      total := total + e[start + window - 1] - e[start - 1];
      if total > top {
        top, best := total, start;
      }
    }
  }

  method Total(e: seq<int>) returns (total: int)
    ensures total == Sum(e)
  {
    total := 0;
    for n := 0 to |e|
      invariant total == Sum(e[..n])
    {
      assert e[..n + 1] == e[..n] + [e[n]];
      SumAppend(e[..n], e[n]);
      total := total + e[n];
    }
    assert e[..|e|] == e;
  }
}
