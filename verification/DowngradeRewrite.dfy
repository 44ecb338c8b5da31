/** The rewrite loop of `scripts/ops/auto_layout_downgrade.py` over the automatic jobs: how far it gets,
    and what it leaves. */
module DowngradeRewrite {
  import opened Downgrade
  import opened DowngradeJobs
  import opened JobFiles

  /** Every name on the list is that of an automatic job. */
  ghost predicate AllAuto(jobs: seq<Job>, list: seq<nat>) {
    forall m | 0 <= m < |list| :: list[m] < |jobs| && AutoJob(jobs[list[m]])
  }

  /** The jobs with those on the list rewritten. */
  function RewriteAll(c: Codec, jobs: seq<Job>, list: seq<nat>): (r: seq<Job>)
    ensures |r| == |jobs|
    ensures forall i | 0 <= i < |jobs| :: r[i].clips == jobs[i].clips
  {
    seq(|jobs|, i requires 0 <= i < |jobs| =>
      if i in list && AutoJob(jobs[i]) then jobs[i].(entry := Written(c, jobs[i].entry.file)) else jobs[i])
  }

  /** The loop cannot pass turn `m`: the file cannot be written back, or it was written before and is too
      long to be read again. */
  predicate Blocks(c: Codec, jobs: seq<Job>, list: seq<nat>, m: nat)
    requires AllAuto(jobs, list) && m < |list|
  {
    var file := jobs[list[m]].entry.file;
    !Writable(file) || (list[m] in list[..m] && !Fits(c, file))
  }

  function FirstBlockFrom(c: Codec, jobs: seq<Job>, list: seq<nat>, m: nat): (f: nat)
    requires AllAuto(jobs, list) && m <= |list|
    ensures m <= f <= |list| && (f < |list| ==> Blocks(c, jobs, list, f))
    ensures forall k | m <= k < f :: !Blocks(c, jobs, list, k)
    decreases |list| - m
  {
    if m == |list| || Blocks(c, jobs, list, m) then m else FirstBlockFrom(c, jobs, list, m + 1)
  }

  /** How many turns the loop completes. */
  function FirstBlock(c: Codec, jobs: seq<Job>, list: seq<nat>): (f: nat)
    requires AllAuto(jobs, list)
    ensures f <= |list| && (f < |list| ==> Blocks(c, jobs, list, f))
    ensures forall k | 0 <= k < f :: !Blocks(c, jobs, list, k)
  {
    FirstBlockFrom(c, jobs, list, 0)
  }

  /** The loop ends at an exception that `run` does not catch: at a file nested too deeply to be written,
      or at one that it has rewritten beyond the size limit. */
  ghost predicate LoopRaises(c: Codec, jobs: seq<Job>, list: seq<nat>)
    requires AllAuto(jobs, list)
  {
    var f := FirstBlock(c, jobs, list);
    f < |list| && (jobs[list[f]].entry.file.deep || Encodes(jobs[list[f]].entry.file))
  }

  ghost predicate ListEncodes(jobs: seq<Job>, list: seq<nat>)
    requires AllAuto(jobs, list)
  {
    forall m | 0 <= m < |list| :: Encodes(jobs[list[m]].entry.file)
  }

  /** Every file on the list can be encoded if and only if every named automatic one can. */
  lemma AutoListEncodes(jobs: seq<Job>, wanted: seq<nat>)
    requires Named(jobs, wanted)
    ensures AllAuto(jobs, AutoList(jobs, wanted))
    ensures AllEncode(jobs, wanted) <==> ListEncodes(jobs, AutoList(jobs, wanted))
  {
    AutoListIsAuto(jobs, wanted);
    AutoListMembers(jobs, wanted);
    var list := AutoList(jobs, wanted);
    if AllEncode(jobs, wanted) {
      forall m | 0 <= m < |list| ensures Encodes(jobs[list[m]].entry.file) {
        assert list[m] in list;
        var q :| 0 <= q < |wanted| && wanted[q] == list[m];
      }
    }
    if ListEncodes(jobs, list) {
      forall q | 0 <= q < |wanted| && AutoJob(jobs[wanted[q]]) ensures Encodes(jobs[wanted[q]].entry.file) {
        assert wanted[q] in wanted;
        assert wanted[q] in list;
        var m :| 0 <= m < |list| && list[m] == wanted[q];
      }
    }
  }

  lemma AutoListIsAuto(jobs: seq<Job>, wanted: seq<nat>)
    requires Named(jobs, wanted)
    ensures AllAuto(jobs, AutoList(jobs, wanted))
  {
    AutoListMembers(jobs, wanted);
    var list := AutoList(jobs, wanted);
    forall m | 0 <= m < |list| ensures list[m] < |jobs| && AutoJob(jobs[list[m]]) {
      assert list[m] in list;
    }
  }

  /** The list and where it is blocked depend on the entries only. */
  lemma SameEntries(c: Codec, was: seq<Job>, now: seq<Job>, list: seq<nat>, m: nat)
    requires |was| == |now| && forall i | 0 <= i < |was| :: now[i].entry == was[i].entry
    requires AllAuto(was, list) && m <= |list|
    ensures AllAuto(now, list) && FirstBlockFrom(c, now, list, m) == FirstBlockFrom(c, was, list, m)
    decreases |list| - m
  {
    if m < |list| && !Blocks(c, was, list, m) {
      SameEntries(c, was, now, list, m + 1);
    }
  }

  /** One more turn. */
  lemma RewriteNext(c: Codec, jobs: seq<Job>, list: seq<nat>, k: nat)
    requires AllAuto(jobs, list) && k < |list| && !Blocks(c, jobs, list, k)
    ensures var now, i := RewriteAll(c, jobs, list[..k]), list[k];
            RewriteAll(c, jobs, list[..k + 1])
              == if AutoJob(now[i]) then now[i := now[i].(entry := Written(c, now[i].entry.file))] else now
  {
    assert list[..k + 1] == list[..k] + [list[k]];
  }

  /** What a turn finds: the file as it was, or as an earlier turn has written it. */
  lemma TurnFinds(c: Codec, jobs: seq<Job>, list: seq<nat>, k: nat)
    requires AllAuto(jobs, list) && k < |list|
    ensures RewriteAll(c, jobs, list[..k])[list[k]].entry ==
      if list[k] in list[..k] then Written(c, jobs[list[k]].entry.file) else jobs[list[k]].entry
    ensures list[k] in list[..k] && (forall m | 0 <= m < k :: !Blocks(c, jobs, list, m)) ==>
      Writable(jobs[list[k]].entry.file)
  {
    if list[k] in list[..k] {
      var m :| 0 <= m < k && list[..k][m] == list[k];
      assert list[m] == list[k];
      assert !Blocks(c, jobs, list, m) ==> Writable(jobs[list[k]].entry.file);
    }
  }

  /** A turn ends the loop at the first block, and at nothing else. */
  lemma TurnStops(c: Codec, jobs: seq<Job>, list: seq<nat>, k: nat, entry: Entry)
    requires AllAuto(jobs, list) && k < |list| && k <= FirstBlock(c, jobs, list)
    requires entry == RewriteAll(c, jobs, list[..k])[list[k]].entry
    ensures !entry.Missing?
    ensures entry.Refused? ==> k == FirstBlock(c, jobs, list) && LoopRaises(c, jobs, list)
    ensures entry.Read? && Auto(entry.file) && entry.file.deep ==>
      k == FirstBlock(c, jobs, list) && LoopRaises(c, jobs, list)
    ensures entry.Read? && Auto(entry.file) && !entry.file.deep && !Encodes(entry.file) ==>
      k == FirstBlock(c, jobs, list) && !LoopRaises(c, jobs, list)
    ensures entry.Read? && (Auto(entry.file) ==> Writable(entry.file)) ==>
      k < FirstBlock(c, jobs, list) && !Blocks(c, jobs, list, k)
  {
    TurnFinds(c, jobs, list, k);
    assert Blocks(c, jobs, list, k) <==> k == FirstBlock(c, jobs, list);
  }

  /** Nothing on the list stays automatic if and only if every file on it can be encoded, unless the loop
      ends at an exception that `run` does not catch. */
  lemma RewrittenExactly(c: Codec, jobs: seq<Job>, list: seq<nat>)
    requires AllAuto(jobs, list) && !LoopRaises(c, jobs, list)
    ensures var f := FirstBlock(c, jobs, list);
            && (f == |list| <==> ListEncodes(jobs, list))
            && (f < |list| ==> list[f] !in list[..f] && AutoJob(RewriteAll(c, jobs, list[..f])[list[f]]))
  {
    var f := FirstBlock(c, jobs, list);
    if f < |list| {
      TurnFinds(c, jobs, list, f);
    } else {
      forall m | 0 <= m < |list| ensures Encodes(jobs[list[m]].entry.file) {
        assert !Blocks(c, jobs, list, m);
      }
    }
  }

  /** What stays automatic after some turns begins with the first one that was not rewritten. */
  lemma {:induction false} AutoListAfter(c: Codec, was: seq<Job>, now: seq<Job>, wanted: seq<nat>, done: seq<nat>)
    requires Named(was, wanted) && |was| == |now|
    requires forall i | 0 <= i < |was| ::
      now[i].entry == if i in done && AutoJob(was[i]) then Written(c, was[i].entry.file) else was[i].entry
    ensures Named(now, wanted) && AutoList(now, wanted) == Without(AutoList(was, wanted), done)
  {
    if wanted != [] {
      var n := |wanted| - 1;
      var i := wanted[n];
      assert AutoJob(now[i]) <==> AutoJob(was[i]) && i !in done;
      assert AutoList(was, wanted[..n]) + [] == AutoList(was, wanted[..n]);
      AutoListAfter(c, was, now, wanted[..n], done);
      WithoutLast(AutoList(was, wanted[..n]), wanted[n], done);
    }
  }

  /** The list without the names in `done`. */
  function Without(list: seq<nat>, done: seq<nat>): seq<nat> {
    if list == [] then []
    else Without(list[..|list| - 1], done) + if list[|list| - 1] in done then [] else [list[|list| - 1]]
  }

  lemma WithoutLast(list: seq<nat>, x: nat, done: seq<nat>)
    ensures Without(list + [x], done) == Without(list, done) + if x in done then [] else [x]
  {
    var more := list + [x];
    assert more[..|list|] == list;
  }

  /** The first name that is left is the first one not in `done`. */
  lemma {:induction false} FirstLeft(list: seq<nat>, done: seq<nat>, f: nat)
    requires f < |list| && list[f] !in done && forall m | 0 <= m < f :: list[m] in done
    ensures Without(list, done) != [] && Without(list, done)[0] == list[f]
  {
    var n := |list| - 1;
    if f < n {
      FirstLeft(list[..n], done, f);
    } else {
      NoneLeft(list[..n], done);
    }
  }

  lemma {:induction false} NoneLeft(list: seq<nat>, done: seq<nat>)
    requires forall m | 0 <= m < |list| :: list[m] in done
    ensures Without(list, done) == []
  {
    if list != [] {
      NoneLeft(list[..|list| - 1], done);
    }
  }
}
