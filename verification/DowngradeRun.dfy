/** The program `scripts/ops/auto_layout_downgrade.py`: the clip's two changes, the jobs, the queue lock,
    and a stop between any two writes. */
module DowngradeRun {
  import opened Downgrade
  import opened DowngradeJobs
  import opened DowngradeRewrite
  import opened JobFiles
  import opened Wrappers

  /** `Stopped`: the process ended between two writes. `Aborted`: an exception that `run` does not catch. */
  datatype Outcome = Done(changes: nat) | Failed | Stopped | Aborted

  /** Where a run ended: at its summary line, at a stop, at a stop between its `mkdir` and its `rmdir`, or
      at an exception that it does not catch. */
  datatype End = Completed | Halted | HaltedInLock | Raised

  datatype Report = Report(changes: nat, errors: nat, end: End)

  /** What a run is asked to do; the clock gives the time of each save, `process` stands for the lock
      token. */
  datatype Order = Order(apply: bool, wanted: seq<nat>, clock: (nat, nat) -> int, process: nat)

  /** The jobs root. */
  datatype Disk = Disk(jobs: seq<Job>, lock: Lock)

  // --- the job loop ------------------------------------------------------------------------------------------

  /** The clips moved, `job.json` did not, and only jobs that were seen have changed. */
  ghost predicate Visited(c: Codec, was: seq<Job>, now: seq<Job>, seen: seq<nat>) {
    |was| == |now|
    && (forall i | 0 <= i < |was| :: now[i].entry == was[i].entry && ClipsMoved(c, was[i].clips, now[i].clips))
    && forall i | 0 <= i < |was| && i !in seen :: now[i] == was[i]
  }

  /** What the job loop has established for the names it has seen. */
  ghost predicate Progress(c: Codec, order: Order, was: seq<Job>, now: seq<Job>, seen: seq<nat>, rewrite: seq<nat>,
                           r: Report)
    requires Named(was, seen) && |was| == |now|
  {
    && rewrite == AutoList(was, seen)
    && (order.apply ==> Worked(c, was, now, seen, order.clock))
    && (r.errors == 0 ==> r.changes + |rewrite| == Total(c, order.apply, was, seen) && AllRead(was, seen))
    && (order.apply && r.errors == 0 ==> ClipsAllSettled(c, now, seen))
    && (Unhindered(c, was, seen, order.clock) ==> r.errors == 0)
    && !Uncaught(c, order.apply, was, seen)
  }

  lemma OneVisited(c: Codec, was: seq<Job>, first: seq<Job>, now: seq<Job>, seen: seq<nat>, i: nat)
    requires i < |was| && Visited(c, was, first, seen) && OnlyClips(first, now, i)
    requires ClipsMoved(c, first[i].clips, now[i].clips)
    ensures Visited(c, was, now, seen + [i])
  {
    ClipsCompose(c, was[i].clips, first[i].clips, now[i].clips);
  }

  /** A job that cannot be read. */
  lemma ProgressMissing(c: Codec, order: Order, was: seq<Job>, now: seq<Job>, seen: seq<nat>, rewrite: seq<nat>,
                        r: Report, i: nat)
    requires Named(was, seen) && i < |was| && Visited(c, was, now, seen)
    requires Progress(c, order, was, now, seen, rewrite, r) && was[i].entry.Missing?
    ensures Progress(c, order, was, now, seen + [i], rewrite, r.(errors := r.errors + 1))
  {
    var more := seen + [i];
    assert more[..|seen|] == seen;
    assert forall q | 0 <= q < |seen| :: more[q] == seen[q];
    assert more[|seen|] == i;
  }

  /** What a visit to the clips of job `i` reports, in terms of how the run found them. */
  ghost predicate VisitOf(c: Codec, order: Order, was: seq<Job>, now: seq<Job>, seen: seq<nat>, before: Report, i: nat,
                          one: Report)
    requires Named(was, seen) && |was| == |now| && i < |was|
  {
    && (order.apply ==> ClipsSettled(c, was[i].clips, now[i].clips, Row(order.clock, |seen|)))
    && (before.errors == 0 && one.errors == 0 ==>
          one.changes == (if order.apply && i in seen then 0 else ClipChanges(c, was[i].clips)))
    && (order.apply && one.errors == 0 ==> AllSettled(c, now[i].clips))
    && (AllWorkable(c, was[i].clips, Row(order.clock, |seen|)) ==> one.errors == 0)
    && (order.apply ==> !AnyForeign(c, was[i].clips))
  }

  lemma VisitFromStart(c: Codec, order: Order, was: seq<Job>, first: seq<Job>, now: seq<Job>, seen: seq<nat>,
                       rewrite: seq<nat>, r: Report, i: nat, one: Report)
    requires Good(c) && Named(was, seen) && i < |was| && Visited(c, was, first, seen)
    requires Progress(c, order, was, first, seen, rewrite, r)
    requires OnlyClips(first, now, i) && (!order.apply ==> first == was)
    requires order.apply ==> ClipsSettled(c, first[i].clips, now[i].clips, Row(order.clock, |seen|))
    requires one.errors == 0 ==> one.changes == ClipChanges(c, first[i].clips)
    requires order.apply && one.errors == 0 ==> AllSettled(c, now[i].clips)
    requires AllWorkable(c, first[i].clips, Row(order.clock, |seen|)) ==> one.errors == 0
    requires order.apply ==> !AnyForeign(c, first[i].clips)
    ensures VisitOf(c, order, was, now, seen, r, i, one)
  {
    ClipsKeep(c, was[i].clips, first[i].clips, Row(order.clock, |seen|));
    if order.apply {
      SettledFrom(c, was[i].clips, first[i].clips, now[i].clips, Row(order.clock, |seen|));
      if i in seen && r.errors == 0 {
        assert AllSettled(c, first[i].clips);
        SettledChanges(c, first[i].clips);
      }
    }
  }

  lemma ProgressRead(c: Codec, order: Order, was: seq<Job>, first: seq<Job>, now: seq<Job>, seen: seq<nat>,
                     rewrite: seq<nat>, r: Report, i: nat, one: Report)
    requires Good(c) && Named(was, seen) && i < |was| && Visited(c, was, first, seen)
    requires Progress(c, order, was, first, seen, rewrite, r) && was[i].entry.Read?
    requires OnlyClips(first, now, i) && ClipsMoved(c, first[i].clips, now[i].clips)
    requires VisitOf(c, order, was, now, seen, r, i, one)
    ensures Progress(c, order, was, now, seen + [i], if AutoJob(was[i]) then rewrite + [i] else rewrite,
                     Report(r.changes + one.changes, r.errors + one.errors, Completed))
  {
    var more := seen + [i];
    assert more[..|seen|] == seen && more[|seen|] == i;
    assert forall q | 0 <= q < |seen| :: more[q] == seen[q];
    NoneUncaughtNext(c, order.apply, was, seen, i);
    if order.apply {
      WorkedNext(c, was, first, now, seen, order.clock, i);
      if r.errors == 0 && one.errors == 0 {
        SettledNext(c, first, now, seen, i);
      }
    }
  }

  lemma NoneUncaughtNext(c: Codec, apply: bool, was: seq<Job>, seen: seq<nat>, i: nat)
    requires Named(was, seen) && i < |was| && !Uncaught(c, apply, was, seen) && was[i].entry.Read?
    requires apply ==> !AnyForeign(c, was[i].clips)
    ensures Named(was, seen + [i]) && !Uncaught(c, apply, was, seen + [i])
  {
    var more := seen + [i];
    forall q | 0 <= q < |more| ensures !was[more[q]].entry.Refused? {
      assert q < |seen| ==> more[q] == seen[q] && !was[seen[q]].entry.Refused?;
    }
    forall q | apply && 0 <= q < |more| && was[more[q]].entry.Read? ensures !AnyForeign(c, was[more[q]].clips) {
      assert q < |seen| ==> more[q] == seen[q];
    }
  }

  lemma WorkedNext(c: Codec, was: seq<Job>, first: seq<Job>, now: seq<Job>, seen: seq<nat>, clock: (nat, nat) -> int,
                   i: nat)
    requires Good(c) && Named(was, seen) && |was| == |first| && OnlyClips(first, now, i)
    requires Worked(c, was, first, seen, clock) && ClipsMoved(c, first[i].clips, now[i].clips)
    requires ClipsSettled(c, was[i].clips, now[i].clips, Row(clock, |seen|))
    ensures Worked(c, was, now, seen + [i], clock)
  {
    var more := seen + [i];
    forall q: nat | q < |more| && was[more[q]].entry.Read?
      ensures ClipsSettled(c, was[more[q]].clips, now[more[q]].clips, Row(clock, q))
    {
      if q < |seen| && seen[q] == i {
        SettledUntil(c, was[i].clips, first[i].clips, now[i].clips, Row(clock, q));
      }
    }
  }

  lemma SettledNext(c: Codec, first: seq<Job>, now: seq<Job>, seen: seq<nat>, i: nat)
    requires Named(first, seen) && OnlyClips(first, now, i)
    requires ClipsAllSettled(c, first, seen) && AllSettled(c, now[i].clips)
    ensures Named(now, seen + [i]) && ClipsAllSettled(c, now, seen + [i])
  {
    var more := seen + [i];
    forall q | 0 <= q < |more| ensures AllSettled(c, now[more[q]].clips) {
      if more[q] != i {
        assert more[q] == seen[q];
      }
    }
  }

  /** What holds of the names seen so far holds of all names. */
  lemma SeenIsNamed(c: Codec, order: Order, was: seq<Job>, now: seq<Job>, q: nat)
    requires Named(was, order.wanted) && q < |order.wanted|
    requires Visited(c, was, now, order.wanted[..q + 1])
    ensures Visited(c, was, now, order.wanted)
    ensures Uncaught(c, order.apply, was, order.wanted[..q + 1]) ==> Uncaught(c, order.apply, was, order.wanted)
    ensures JobsSettled(c, was, order.wanted) ==>
      was[order.wanted[q]].entry.Read? && AllSettled(c, was[order.wanted[q]].clips)
  {
    var seen := order.wanted[..q + 1];
    assert forall p | 0 <= p <= q :: seen[p] == order.wanted[p];
    assert forall i | i in seen :: i in order.wanted;
  }

  // --- what a run does ---------------------------------------------------------------------------------------

  /** How the rewrite loop ends: with every file written; at one that cannot be encoded, which `run` catches;
      at one that is nested too deeply or has become too long, which it does not; or at a stop. */
  datatype Rewriting = AllWritten | BadText | Escapes | Cut

  /** A run that takes the lock ends at a file that is nested too deeply to be written back, or that it has
      rewritten beyond the size limit. */
  ghost predicate RewriteRaises(c: Codec, order: Order, was: Disk)
    requires Named(was.jobs, order.wanted)
  {
    AutoListIsAuto(was.jobs, order.wanted);
    order.apply && was.lock.Absent? && LoopRaises(c, was.jobs, AutoList(was.jobs, order.wanted))
  }

  /** Where a run ends, and the lock it leaves: its own only where it was stopped while it had it. */
  ghost predicate EndsSo(c: Codec, order: Order, was: Disk, now: Disk, r: Report)
    requires Named(was.jobs, order.wanted)
  {
    && (r.end.HaltedInLock? <==> was.lock.Absent? && now.lock.Present?)
    && (!r.end.HaltedInLock? ==> now.lock == was.lock)
    && (r.end.Completed? ==> !Uncaught(c, order.apply, was.jobs, order.wanted) && !RewriteRaises(c, order, was))
    && (r.end.Raised? ==> Uncaught(c, order.apply, was.jobs, order.wanted) || RewriteRaises(c, order, was))
    && (JobsSettled(c, was.jobs, order.wanted) ==> r.end.Completed?)
    && (!order.apply ==> now == was && (r.end.Completed? || r.end.Raised?))
  }

  /** What a run changes, however it ends: of the render modes, some of those before the first block. */
  ghost predicate ChangesSo(c: Codec, order: Order, was: Disk, now: Disk)
    requires Named(was.jobs, order.wanted)
  {
    && JobsMoved(c, was.jobs, now.jobs)
    && (forall i | 0 <= i < |was.jobs| && i !in order.wanted :: now.jobs[i] == was.jobs[i])
    && RewritesSome(c, was.jobs, now.jobs, order.wanted)
  }

  ghost predicate RewritesSome(c: Codec, was: seq<Job>, now: seq<Job>, wanted: seq<nat>)
    requires Named(was, wanted)
  {
    AutoListIsAuto(was, wanted);
    var list := AutoList(was, wanted);
    exists k: nat :: k <= FirstBlock(c, was, list) && EntriesRewritten(c, was, now, list[..k])
  }

  /** With no turn of the loop, no entry changes. */
  lemma RewritesNone(c: Codec, was: seq<Job>, now: seq<Job>, wanted: seq<nat>)
    requires Named(was, wanted) && |was| == |now| && forall i | 0 <= i < |was| :: now[i].entry == was[i].entry
    ensures RewritesSome(c, was, now, wanted)
  {
    AutoListIsAuto(was, wanted);
    var none: nat := 0;
    assert AutoList(was, wanted)[..none] == [];
    assert EntriesRewritten(c, was, now, AutoList(was, wanted)[..none]);
  }

  /** The run does not want the lock, or it is free and every file can be encoded. */
  ghost predicate LockPermits(order: Order, was: Disk)
    requires Named(was.jobs, order.wanted)
  {
    !order.apply || NoAutoJob(was.jobs, order.wanted)
    || (was.lock.Absent? && AllEncode(was.jobs, order.wanted))
  }

  /** What a run that prints its summary has counted and done. */
  ghost predicate CountsSo(c: Codec, order: Order, was: Disk, now: Disk, r: Report)
    requires Named(was.jobs, order.wanted) && |was.jobs| == |now.jobs|
  {
    && (r.errors == 0 ==> r.changes == Total(c, order.apply, was.jobs, order.wanted) && AllRead(was.jobs, order.wanted))
    && (order.apply && r.errors == 0 ==>
          ClipsAllSettled(c, now.jobs, order.wanted) && NoAutoJob(now.jobs, order.wanted))
    && (order.apply ==> Worked(c, was.jobs, now.jobs, order.wanted, order.clock))
    && (Unhindered(c, was.jobs, order.wanted, order.clock) && LockPermits(order, was) ==> r.errors == 0)
  }

  /** The render modes: where the lock was free, those before the first file that cannot be encoded
      are rewritten, and such a file is an error; where it was not, none is, and wanting it is an error. */
  ghost predicate RewritesSo(c: Codec, order: Order, was: Disk, now: Disk, r: Report)
    requires Named(was.jobs, order.wanted) && |was.jobs| == |now.jobs|
  {
    AutoListIsAuto(was.jobs, order.wanted);
    var list := AutoList(was.jobs, order.wanted);
    var turns := if was.lock.Absent? then FirstBlock(c, was.jobs, list) else 0;
    && EntriesRewritten(c, was.jobs, now.jobs, list[..turns])
    && (turns < |list| ==> r.errors > 0)
  }

  /** Exactly the entries of the jobs on the list are rewritten. */
  ghost predicate EntriesRewritten(c: Codec, was: seq<Job>, now: seq<Job>, list: seq<nat>) {
    |was| == |now|
    && forall i | 0 <= i < |was| ::
      now[i].entry == if i in list && AutoJob(was[i]) then Written(c, was[i].entry.file) else was[i].entry
  }

  /** Everything a run of the program does. */
  ghost predicate Ran(c: Codec, order: Order, was: Disk, now: Disk, r: Report) {
    && Named(was.jobs, order.wanted) && ChangesSo(c, order, was, now)
    && EndsSo(c, order, was, now, r)
    && (r.end.Completed? ==> CountsSo(c, order, was, now, r))
    && (r.end.Completed? && order.apply ==> RewritesSo(c, order, was, now, r))
  }

  // --- how a run ends ----------------------------------------------------------------------------------------

  /** In the job loop. */
  lemma EndsInLoop(c: Codec, order: Order, was: Disk, now: Disk, r: Report)
    requires Named(was.jobs, order.wanted) && Visited(c, was.jobs, now.jobs, order.wanted) && now.lock == was.lock
    requires !order.apply ==> now.jobs == was.jobs
    requires r.end.Raised? ==> Uncaught(c, order.apply, was.jobs, order.wanted)
    requires r.end.Halted? ==> order.apply && !JobsSettled(c, was.jobs, order.wanted)
    requires r.end.Raised? || r.end.Halted?
    requires Good(c)
    ensures Ran(c, order, was, now, r)
  {
    RewritesNone(c, was.jobs, now.jobs, order.wanted);
    if r.end.Raised? && JobsSettled(c, was.jobs, order.wanted) {
      SettledRaisesNothing(c, order.apply, was.jobs, order.wanted);
    }
  }

  lemma SettledRaisesNothing(c: Codec, apply: bool, jobs: seq<Job>, wanted: seq<nat>)
    requires Named(jobs, wanted) && JobsSettled(c, jobs, wanted)
    ensures !Uncaught(c, apply, jobs, wanted)
  {
    forall q | 0 <= q < |wanted| ensures !AnyForeign(c, jobs[wanted[q]].clips) {
      assert AllSettled(c, jobs[wanted[q]].clips);
    }
  }

  /** No automatic job is named, before or after, if there is nothing on the list. */
  lemma NothingAutomatic(was: seq<Job>, now: seq<Job>, wanted: seq<nat>)
    requires Named(was, wanted) && |was| == |now|
    requires forall i | 0 <= i < |was| :: now[i].entry == was[i].entry
    ensures AutoList(was, wanted) == [] <==> NoAutoJob(was, wanted)
    ensures NoAutoJob(was, wanted) <==> NoAutoJob(now, wanted)
  {
    AutoListMembers(was, wanted);
    var list := AutoList(was, wanted);
    if list == [] {
      forall q | 0 <= q < |wanted| ensures !AutoJob(was[wanted[q]]) {
        assert wanted[q] in wanted;
        assert wanted[q] !in list;
      }
    } else {
      assert list[0] in list;
      var q :| 0 <= q < |wanted| && wanted[q] == list[0];
    }
  }

  /** With nothing to rewrite, or in a dry run. */
  lemma EndsUnlocked(c: Codec, order: Order, was: Disk, now: Disk, rewrite: seq<nat>, r: Report)
    requires Named(was.jobs, order.wanted) && Visited(c, was.jobs, now.jobs, order.wanted) && now.lock == was.lock
    requires Progress(c, order, was.jobs, now.jobs, order.wanted, rewrite, r) && r.end.Completed?
    requires !order.apply ==> now.jobs == was.jobs
    requires rewrite == [] || !order.apply
    ensures Ran(c, order, was, now, r.(changes := r.changes + |rewrite|))
  {
    AutoListIsAuto(was.jobs, order.wanted);
    RewritesNone(c, was.jobs, now.jobs, order.wanted);
    NothingAutomatic(was.jobs, now.jobs, order.wanted);
  }

  /** The lock was not free. */
  lemma EndsTimedOut(c: Codec, order: Order, was: Disk, now: Disk, rewrite: seq<nat>, r: Report)
    requires Named(was.jobs, order.wanted) && Visited(c, was.jobs, now.jobs, order.wanted) && now.lock == was.lock
    requires Progress(c, order, was.jobs, now.jobs, order.wanted, rewrite, r) && r.end.Completed?
    requires order.apply && was.lock.Present? && rewrite != []
    ensures Ran(c, order, was, now, r.(errors := r.errors + 1))
  {
    AutoListIsAuto(was.jobs, order.wanted);
    RewritesNone(c, was.jobs, now.jobs, order.wanted);
    NothingAutomatic(was.jobs, now.jobs, order.wanted);
  }

  /** What the rewrite loop keeps of the visit before it, wherever it ends. */
  lemma RewrittenMoved(c: Codec, was: seq<Job>, middle: seq<Job>, now: seq<Job>, wanted: seq<nat>, rewrite: seq<nat>,
                       k: nat)
    requires Named(was, wanted) && Visited(c, was, middle, wanted) && rewrite == AutoList(was, wanted)
    requires AllAuto(was, rewrite) && k <= FirstBlock(c, was, rewrite) && now == RewriteAll(c, middle, rewrite[..k])
    ensures JobsMoved(c, was, now) && forall i | 0 <= i < |was| && i !in wanted :: now[i] == was[i]
    ensures forall i | 0 <= i < |was| :: now[i].clips == middle[i].clips
    ensures EntriesRewritten(c, was, now, rewrite[..k]) && RewritesSome(c, was, now, wanted)
  {
    AutoListMembers(was, wanted);
    var done := rewrite[..k];
    forall i | i in done ensures i in rewrite && Writable(was[i].entry.file) {
      var m :| 0 <= m < k && done[m] == i;
      assert rewrite[m] == i && !Blocks(c, was, rewrite, m);
    }
    forall i | 0 <= i < |was| ensures JobMoved(c, was[i], now[i]) {
    }
  }

  /** Stopped at the lock or while holding it, or raised while holding it. */
  lemma EndsAtLock(c: Codec, order: Order, was: Disk, middle: seq<Job>, now: Disk, rewrite: seq<nat>, k: nat, r: Report)
    requires Named(was.jobs, order.wanted) && Visited(c, was.jobs, middle, order.wanted) && order.apply
    requires rewrite == AutoList(was.jobs, order.wanted) && rewrite != [] && was.lock.Absent?
    requires AllAuto(was.jobs, rewrite) && k <= FirstBlock(c, was.jobs, rewrite)
    requires now.jobs == RewriteAll(c, middle, rewrite[..k])
    requires r.end.HaltedInLock? <==> now.lock.Present?
    requires !r.end.Completed? && (r.end.Raised? ==> LoopRaises(c, was.jobs, rewrite))
    ensures Ran(c, order, was, now, r)
  {
    RewrittenMoved(c, was.jobs, middle, now.jobs, order.wanted, rewrite, k);
    NothingAutomatic(was.jobs, was.jobs, order.wanted);
  }

  /** With the loop at its end, or at a file that cannot be encoded. */
  lemma EndsRewritten(c: Codec, order: Order, was: Disk, middle: seq<Job>, now: Disk, rewrite: seq<nat>, r: Report)
    requires Named(was.jobs, order.wanted) && Visited(c, was.jobs, middle, order.wanted) && order.apply
    requires Progress(c, order, was.jobs, middle, order.wanted, rewrite, r) && r.end.Completed?
    requires AllAuto(was.jobs, rewrite) && !LoopRaises(c, was.jobs, rewrite)
    requires now.jobs == RewriteAll(c, middle, rewrite[..FirstBlock(c, was.jobs, rewrite)])
    requires was.lock.Absent? && now.lock.Absent?
    ensures Ran(c, order, was, now,
                if FirstBlock(c, was.jobs, rewrite) == |rewrite| then r.(changes := r.changes + |rewrite|)
                else r.(errors := r.errors + 1))
  {
    var f := FirstBlock(c, was.jobs, rewrite);
    RewrittenMoved(c, was.jobs, middle, now.jobs, order.wanted, rewrite, f);
    RewrittenExactly(c, was.jobs, rewrite);
    AutoListEncodes(was.jobs, order.wanted);
    NothingAutomatic(was.jobs, was.jobs, order.wanted);
    SameClipsWorked(c, was.jobs, middle, now.jobs, order.wanted, order.clock);
    if f == |rewrite| {
      assert rewrite[..f] == rewrite;
      RewrittenPlain(c, was.jobs, now.jobs, order.wanted);
      if r.errors == 0 {
        SameClipsSettled(c, middle, now.jobs, order.wanted);
      }
    }
  }

  lemma RewrittenPlain(c: Codec, was: seq<Job>, now: seq<Job>, wanted: seq<nat>)
    requires Named(was, wanted) && EntriesRewritten(c, was, now, AutoList(was, wanted))
    ensures NoAutoJob(now, wanted)
  {
    AutoListMembers(was, wanted);
    forall q | 0 <= q < |wanted| ensures !AutoJob(now[wanted[q]]) {
      assert wanted[q] in wanted;
    }
  }

  lemma RaisesAlike(c: Codec, was: seq<Job>, now: seq<Job>, list: seq<nat>)
    requires |was| == |now| && forall i | 0 <= i < |was| :: now[i].entry == was[i].entry
    requires AllAuto(was, list)
    ensures AllAuto(now, list) && (LoopRaises(c, now, list) <==> LoopRaises(c, was, list))
  {
    SameEntries(c, was, now, list, 0);
  }

  lemma SameClipsWorked(c: Codec, was: seq<Job>, middle: seq<Job>, now: seq<Job>, wanted: seq<nat>,
                        clock: (nat, nat) -> int)
    requires Named(was, wanted) && |was| == |middle| == |now| && Worked(c, was, middle, wanted, clock)
    requires forall i | 0 <= i < |was| :: now[i].clips == middle[i].clips
    ensures Worked(c, was, now, wanted, clock)
  {
  }

  lemma SameClipsSettled(c: Codec, middle: seq<Job>, now: seq<Job>, wanted: seq<nat>)
    requires Named(middle, wanted) && |middle| == |now| && ClipsAllSettled(c, middle, wanted)
    requires forall i | 0 <= i < |now| :: now[i].clips == middle[i].clips
    ensures ClipsAllSettled(c, now, wanted)
  {
  }

  class Root {
    var jobs: seq<Job>
    var lock: Lock
    /** The writes until the process is stopped. */
    var writesLeft: nat

    /** One atomic write to a clip directory, or the stop before it. */
    method WriteClip(ghost c: Codec, i: nat, k: nat, g: Files) returns (stopped: bool)
      requires i < |jobs| && k < |jobs[i].clips| && Write(c, jobs[i].clips[k], g)
      modifies this`jobs, this`writesLeft
      ensures stopped ==> writesLeft == old(writesLeft) == 0 && jobs == old(jobs)
      ensures !stopped ==> writesLeft == old(writesLeft) - 1 && jobs == SetClip(old(jobs), i, k, g)
      ensures !stopped ==> Moved(c, old(jobs), jobs, i, k, 1)
    {
      if writesLeft == 0 {
        return true;
      }
      MovedOnce(c, jobs, i, k, g);
      writesLeft := writesLeft - 1;
      jobs := SetClip(jobs, i, k, g);
      return false;
    }

    /** `_publish_seed`: the backup, then the seed. */
    method PublishSeed(c: Codec, i: nat, k: nat, seed: Doc) returns (r: Outcome)
      requires Good(c) && i < |jobs| && k < |jobs[i].clips|
      requires SeedAuto(c, jobs[i].clips[k]) && seed == DowngradedSeed(c, SeedOf(c, jobs[i].clips[k]))
      modifies this`jobs, this`writesLeft
      ensures Moved(c, old(jobs), jobs, i, k, old(writesLeft) - writesLeft)
      ensures r.Aborted? <==> ForeignBackup(c, old(jobs)[i].clips[k])
      ensures r.Failed? || r.Aborted? <==> OtherBackup(old(jobs)[i].clips[k])
      ensures r.Done? ==> r.changes == 1 && jobs[i].clips[k].seed == FinalSeed(c, old(jobs)[i].clips[k])
      ensures jobs[i].clips[k].doc == old(jobs)[i].clips[k].doc
      ensures jobs[i].clips[k].archive == old(jobs)[i].clips[k].archive
      ensures r.Stopped? ==> writesLeft == 0 && SeedAuto(c, jobs[i].clips[k])
    {
      NotMoved(c, jobs, i, k);
      var f := jobs[i].clips[k];
      if f.backup.Some? {
        if |f.backup.value| > |f.seed| + 1 {
          return Aborted;
        }
        if f.backup.value != f.seed {
          return Failed;
        }
      } else {
        var stopped := WriteClip(c, i, k, f.(backup := Some(f.seed)));
        if stopped {
          return Stopped;
        }
      }
      ghost var middle := jobs;
      var saved := jobs[i].clips[k];
      var stopped := WriteClip(c, i, k, saved.(seed := c.encode(seed)));
      if stopped {
        return Stopped;
      }
      MovedJoins(c, old(jobs), middle, jobs, i, k, if f.backup.Some? then 0 else 1, 1);
      return Done(1);
    }

    /** `store.put` over an existing `edit/doc.json`: the archive, then the document. */
    method Put(c: Codec, i: nat, k: nat, expected: Text, client: Doc, now: int) returns (r: Outcome)
      requires Good(c) && i < |jobs| && k < |jobs[i].clips|
      requires Readable(c, jobs[i].clips[k]) && !SeedAuto(c, jobs[i].clips[k]) && DocAuto(c, jobs[i].clips[k])
      requires expected == c.sha(jobs[i].clips[k].doc.value)
      requires client == DowngradedRevision(DocOf(c, jobs[i].clips[k]), expected, SeedOf(c, jobs[i].clips[k]))
      modifies this`jobs, this`writesLeft
      ensures Moved(c, old(jobs), jobs, i, k, old(writesLeft) - writesLeft)
      ensures !r.Aborted?
      ensures r.Failed? <==> !PutAccepts(c, old(jobs)[i].clips[k], SeedOf(c, old(jobs)[i].clips[k]), now)
      ensures r.Done? ==> r.changes == 1 && Settled(c, jobs[i].clips[k]) && HasDoc(c, jobs[i].clips[k])
      ensures r.Done? ==> var was := DocOf(c, old(jobs)[i].clips[k]).audit.updatedAt;
        DocOf(c, jobs[i].clips[k]).audit.updatedAt == if now >= was + 2 then now else was + 1
      ensures r.Stopped? ==> writesLeft == 0 && DocAuto(c, jobs[i].clips[k])
    {
      NotMoved(c, jobs, i, k);
      var f := jobs[i].clips[k];
      var seed, current, etag := SeedOf(c, f), DocOf(c, f), c.sha(f.doc.value);
      var at := PutTime(current, now);
      var stamped := Stamped(client, at);
      if expected != etag || client.revision != current.revision + 1 || client.parent != Some(etag)
        || client.audit.updatedAt < 0 || client.base != seed.base || !c.accept(stamped, seed)
        || (Key(c, f) in f.archive && f.archive[Key(c, f)] != f.doc.value) {
        return Failed;
      }
      if Key(c, f) !in f.archive {
        var stopped := WriteClip(c, i, k, f.(archive := f.archive[Key(c, f) := f.doc.value]));
        if stopped {
          return Stopped;
        }
      }
      ghost var middle := jobs;
      var archived := jobs[i].clips[k];
      assert NextDoc(c, archived, at) == stamped;
      assert DocWrite(c, archived, archived.(doc := Some(c.encode(stamped))));
      var stopped := WriteClip(c, i, k, archived.(doc := Some(c.encode(stamped))));
      if stopped {
        return Stopped;
      }
      MovedJoins(c, old(jobs), middle, jobs, i, k, if Key(c, f) in f.archive then 0 else 1, 1);
      DowngradedIsNotAutomatic(c, seed, current, etag, at);
      return Done(1);
    }

    /** `_downgrade_clip`. */
    method DowngradeClip(c: Codec, i: nat, k: nat, apply: bool, now: int) returns (r: Outcome)
      requires Good(c) && i < |jobs| && k < |jobs[i].clips|
      modifies this`jobs, this`writesLeft
      ensures Moved(c, old(jobs), jobs, i, k, old(writesLeft) - writesLeft)
      ensures !apply ==> jobs == old(jobs) && writesLeft == old(writesLeft)
      ensures !apply ==> if Readable(c, old(jobs)[i].clips[k]) then r.Done? else r.Failed?
      ensures r.Done? ==> r.changes == Changes(c, old(jobs)[i].clips[k])
      ensures apply && r.Done? ==> Settled(c, jobs[i].clips[k])
      ensures apply && r.Failed? ==> !Workable(c, old(jobs)[i].clips[k], now)
      ensures r.Aborted? <==> apply && ForeignBackup(c, old(jobs)[i].clips[k])
      ensures apply && r.Done? ==> Workable(c, old(jobs)[i].clips[k], now)
      ensures r.Stopped? ==> writesLeft == 0 && old(writesLeft) < Remaining(c, old(jobs)[i].clips[k])
    {
      var seed;
      r, seed := DowngradeSeed(c, i, k, apply);
      if r.Done? {
        ghost var middle, spent := jobs, old(writesLeft) - writesLeft;
        WorkableInHalves(c, old(jobs)[i].clips[k], jobs[i].clips[k], seed, now);
        var more := DowngradeDoc(c, i, k, apply, seed, now);
        MovedJoins(c, old(jobs), middle, jobs, i, k, spent, old(writesLeft) - writesLeft - spent);
        r := if more.Done? then Done(r.changes + more.changes) else more;
      }
      if r.Stopped? {
        StopLeavesWrites(c, old(jobs), jobs, i, k, old(writesLeft) - writesLeft);
      }
    }

    /** The first half of `_downgrade_clip`, and the seed that a new revision takes its base from. */
    method DowngradeSeed(c: Codec, i: nat, k: nat, apply: bool) returns (r: Outcome, seed: Doc)
      requires Good(c) && i < |jobs| && k < |jobs[i].clips|
      modifies this`jobs, this`writesLeft
      ensures Moved(c, old(jobs), jobs, i, k, old(writesLeft) - writesLeft)
      ensures !apply ==> jobs == old(jobs) && writesLeft == old(writesLeft)
      ensures r.Failed? || r.Aborted? <==> !SeedWorks(c, old(jobs)[i].clips[k], apply)
      ensures r.Aborted? <==> apply && ForeignBackup(c, old(jobs)[i].clips[k])
      ensures r.Done? ==> r.changes == if SeedAuto(c, old(jobs)[i].clips[k]) then 1 else 0
      ensures r.Done? ==> c.decode(FinalSeed(c, old(jobs)[i].clips[k])) == Some(seed) && !IsAutomatic(seed)
      ensures apply && r.Done? ==> jobs[i].clips[k].seed == FinalSeed(c, old(jobs)[i].clips[k])
      ensures jobs[i].clips[k].doc == old(jobs)[i].clips[k].doc
      ensures jobs[i].clips[k].archive == old(jobs)[i].clips[k].archive
      ensures r.Stopped? ==> apply && writesLeft == 0 && SeedAuto(c, jobs[i].clips[k])
    {
      NotMoved(c, jobs, i, k);
      var f := jobs[i].clips[k];
      seed := *;
      if c.decode(f.seed).None? {
        return Failed, seed;
      }
      FinalSeedIsPlain(c, f);
      seed := SeedOf(c, f);
      if !IsAutomatic(seed) {
        return Done(0), seed;
      }
      seed := DowngradedSeed(c, seed);
      if !apply {
        return Done(1), seed;
      }
      r := PublishSeed(c, i, k, seed);
    }

    /** The second half of `_downgrade_clip`: the current revision, once the seed is plain. */
    method DowngradeDoc(c: Codec, i: nat, k: nat, apply: bool, seed: Doc, now: int) returns (r: Outcome)
      requires Good(c) && i < |jobs| && k < |jobs[i].clips|
      requires apply ==> c.decode(jobs[i].clips[k].seed) == Some(seed) && !IsAutomatic(seed)
      modifies this`jobs, this`writesLeft
      ensures Moved(c, old(jobs), jobs, i, k, old(writesLeft) - writesLeft)
      ensures !apply ==> jobs == old(jobs) && writesLeft == old(writesLeft)
      ensures !apply ==> if DocReads(c, old(jobs)[i].clips[k]) then r.Done? else r.Failed?
      ensures r.Done? ==> r.changes == if DocAuto(c, old(jobs)[i].clips[k]) then 1 else 0
      ensures apply && r.Done? ==> Settled(c, jobs[i].clips[k])
      ensures !r.Aborted? && (apply ==> (r.Failed? <==> !DocWorks(c, old(jobs)[i].clips[k], seed, now)))
      ensures r.Stopped? ==> writesLeft == 0 && DocAuto(c, jobs[i].clips[k])
    {
      NotMoved(c, jobs, i, k);
      var g := jobs[i].clips[k];
      if g.doc.None? {
        return Done(0);
      }
      if c.decode(g.doc.value).None? {
        return Failed;
      }
      var current, etag := DocOf(c, g), c.sha(g.doc.value);
      if !IsAutomatic(current) {
        return Done(0);
      }
      if !apply {
        return Done(1);
      }
      r := Put(c, i, k, etag, DowngradedRevision(current, etag, seed), now);
    }

    /** The clips of one job. */
    method DowngradeClips(c: Codec, i: nat, apply: bool, clock: nat -> int) returns (r: Report)
      requires Good(c) && i < |jobs|
      modifies this`jobs, this`writesLeft
      ensures OnlyClips(old(jobs), jobs, i) && ClipsMoved(c, old(jobs)[i].clips, jobs[i].clips)
      ensures !apply ==> jobs == old(jobs) && r.end.Completed?
      ensures apply && r.end.Completed? ==> ClipsSettled(c, old(jobs)[i].clips, jobs[i].clips, clock)
      ensures r.end.Completed? && r.errors == 0 ==> r.changes == ClipChanges(c, old(jobs)[i].clips)
      ensures apply && r.end.Completed? && r.errors == 0 ==> AllSettled(c, jobs[i].clips)
      ensures AllWorkable(c, old(jobs)[i].clips, clock) ==> r.errors == 0
      ensures r.end.Halted? ==> writesLeft == 0
      ensures r.end.Raised? ==> AnyForeign(c, old(jobs)[i].clips)
      ensures apply && AnyForeign(c, old(jobs)[i].clips) ==> !r.end.Completed?
      ensures AllSettled(c, old(jobs)[i].clips) ==> r.end.Completed?
      ensures !r.end.HaltedInLock?
    {
      ghost var was := jobs[i].clips;
      var changes, errors := 0, 0;
      ClipStays(c, was);
      for k := 0 to |jobs[i].clips|
        invariant OnlyClips(old(jobs), jobs, i) && ClipsMoved(c, was, jobs[i].clips)
        invariant !apply ==> jobs == old(jobs)
        invariant forall m | k <= m < |was| :: jobs[i].clips[m] == was[m]
        invariant apply ==> forall m: nat | m < k :: Workable(c, was[m], clock(m)) ==> Settled(c, jobs[i].clips[m])
        invariant errors == 0 ==> changes == ClipChanges(c, was[..k])
        invariant apply && errors == 0 ==> forall m | 0 <= m < k :: Settled(c, jobs[i].clips[m])
        invariant AllWorkable(c, was, clock) ==> errors == 0
        invariant apply ==> forall m | 0 <= m < k :: !ForeignBackup(c, was[m])
      {
        ghost var before := jobs;
        assert was[..k + 1][..k] == was[..k];
        var outcome := DowngradeClip(c, i, k, apply, clock(k));
        ClipMoved(c, was, before, jobs, i, k);
        match outcome
        case Done(n) => changes := changes + n;
        case Failed => errors := errors + 1;
        case Stopped => return Report(changes, errors, Halted);
        case Aborted => return Report(changes, errors, Raised);
      }
      assert was[..|was|] == was;
      return Report(changes, errors, Completed);
    }

    /** One name of the job loop. */
    method VisitJob(c: Codec, order: Order, ghost was: seq<Job>, ghost seen: seq<nat>, q: nat, i: nat,
                    before: seq<nat>, report: Report) returns (rewrite: seq<nat>, r: Report)
      requires Good(c) && i < |jobs| && Named(was, seen) && Visited(c, was, jobs, seen)
      requires (!order.apply ==> jobs == was) && report.end.Completed?
      requires q == |seen|
      requires Progress(c, order, was, jobs, seen, before, report)
      modifies this`jobs, this`writesLeft
      ensures Visited(c, was, jobs, seen + [i]) && (!order.apply ==> jobs == was)
      ensures r.end.Completed? ==> Progress(c, order, was, jobs, seen + [i], rewrite, r)
      ensures r.end.Raised? ==> Uncaught(c, order.apply, was, seen + [i])
      ensures r.end.Halted? ==> order.apply && writesLeft == 0 && !(was[i].entry.Read? && AllSettled(c, was[i].clips))
      ensures !r.end.HaltedInLock?
    {
      rewrite := before;
      match jobs[i].entry
      case Missing =>
        r := report.(errors := report.errors + 1);
        ProgressMissing(c, order, was, jobs, seen, before, report, i);
      case Refused =>
        r := report.(end := Raised);
        assert (seen + [i])[|seen|] == i;
      case Read(file) =>
        ghost var first := jobs;
        if Auto(file) {
          rewrite := before + [i];
        }
        ClipsKeep(c, was[i].clips, jobs[i].clips, Row(order.clock, q));
        var one := DowngradeClips(c, i, order.apply, Row(order.clock, q));
        r := Report(report.changes + one.changes, report.errors + one.errors, one.end);
        OneVisited(c, was, first, jobs, seen, i);
        assert (seen + [i])[|seen|] == i;
        if r.end.Completed? {
          VisitFromStart(c, order, was, first, jobs, seen, before, report, i, one);
          ProgressRead(c, order, was, first, jobs, seen, before, report, i, one);
        }
    }

    /** The job loop of `run`: the automatic jobs to rewrite, and the clips. */
    method VisitJobs(c: Codec, order: Order) returns (rewrite: seq<nat>, r: Report)
      requires Good(c) && Named(jobs, order.wanted)
      modifies this`jobs, this`writesLeft
      ensures Visited(c, old(jobs), jobs, order.wanted) && (!order.apply ==> jobs == old(jobs))
      ensures r.end.Completed? ==> Progress(c, order, old(jobs), jobs, order.wanted, rewrite, r)
      ensures r.end.Raised? ==> Uncaught(c, order.apply, old(jobs), order.wanted)
      ensures r.end.Halted? ==> order.apply && writesLeft == 0 && !JobsSettled(c, old(jobs), order.wanted)
      ensures !r.end.HaltedInLock?
    {
      ghost var was := jobs;
      forall i | 0 <= i < |jobs| ensures ClipsMoved(c, jobs[i].clips, jobs[i].clips) {
        ClipStays(c, jobs[i].clips);
      }
      rewrite, r := [], Report(0, 0, Completed);
      for q := 0 to |order.wanted|
        invariant Visited(c, was, jobs, order.wanted[..q]) && (!order.apply ==> jobs == was)
        invariant r.end.Completed? && Progress(c, order, was, jobs, order.wanted[..q], rewrite, r)
      {
        ghost var seen := order.wanted[..q];
        assert order.wanted[..q + 1] == seen + [order.wanted[q]];
        rewrite, r := VisitJob(c, order, was, seen, q, order.wanted[q], rewrite, r);
        if !r.end.Completed? {
          SeenIsNamed(c, order, was, jobs, q);
          return;
        }
      }
      assert order.wanted[..|order.wanted|] == order.wanted;
    }

    /** The rewrite loop of `run`: `_rewrite_job` reads each file again, and writes it back if it is still
        automatic. */
    method RewriteJobs(c: Codec, rewrite: seq<nat>) returns (end: Rewriting, ghost turns: nat)
      requires AllAuto(jobs, rewrite)
      modifies this`jobs, this`writesLeft
      ensures turns <= FirstBlock(c, old(jobs), rewrite) && jobs == RewriteAll(c, old(jobs), rewrite[..turns])
      ensures !end.Cut? ==> turns == FirstBlock(c, old(jobs), rewrite)
      ensures end.AllWritten? ==> turns == |rewrite|
      ensures end.BadText? ==> turns < |rewrite| && !LoopRaises(c, old(jobs), rewrite)
      ensures end.Escapes? ==> LoopRaises(c, old(jobs), rewrite)
      ensures end.Cut? ==> writesLeft == 0
    {
      ghost var was := jobs;
      for k := 0 to |rewrite|
        invariant k <= FirstBlock(c, was, rewrite) && jobs == RewriteAll(c, was, rewrite[..k])
      {
        var i := rewrite[k];
        TurnStops(c, was, rewrite, k, jobs[i].entry);
        match jobs[i].entry
        case Refused =>
          return Escapes, k;
        case Read(file) =>
          if Auto(file) {
            if file.deep {
              return Escapes, k;
            }
            if !Encodes(file) {
              return BadText, k;
            }
            if writesLeft == 0 {
              return Cut, k;
            }
            writesLeft := writesLeft - 1;
            jobs := jobs[i := jobs[i].(entry := Written(c, file))];
          }
          RewriteNext(c, was, rewrite, k);
      }
      return AllWritten, |rewrite|;
    }

    /** `with queue_lock(root)` around the loop: `mkdir`, `owner.json`, the files, and the release, which an
        exception does not skip. The wait for a lock that is held ends in a time-out. */
    method RewriteUnderLock(c: Codec, rewrite: seq<nat>, process: nat)
        returns (end: End, failed: bool, ghost turns: nat)
      requires AllAuto(jobs, rewrite)
      modifies this
      ensures turns <= FirstBlock(c, old(jobs), rewrite) && jobs == RewriteAll(c, old(jobs), rewrite[..turns])
      ensures old(lock).Present? ==> end.Completed? && failed && turns == 0 && lock == old(lock)
      ensures old(lock).Absent? && end.Completed? ==>
        turns == FirstBlock(c, old(jobs), rewrite) && !LoopRaises(c, old(jobs), rewrite)
        && (failed <==> turns < |rewrite|) && lock.Absent?
      ensures end.Raised? ==> LoopRaises(c, old(jobs), rewrite)
      ensures old(lock).Absent? ==> (end.HaltedInLock? <==> lock.Present?)
      ensures end.Halted? || end.HaltedInLock? ==> writesLeft == 0
    {
      turns := 0;
      assert RewriteAll(c, jobs, rewrite[..0]) == jobs;
      if lock.Present? {
        return Completed, true, 0;
      }
      if writesLeft == 0 {
        return Halted, false, 0;
      }
      writesLeft, lock := writesLeft - 1, Present(process, None);
      if writesLeft == 0 {
        return HaltedInLock, false, 0;
      }
      writesLeft, lock := writesLeft - 1, lock.(owner := Some(process));
      var loop;
      loop, turns := RewriteJobs(c, rewrite);
      if loop.Cut? {
        return HaltedInLock, false, turns;
      }
      if lock.owner == Some(process) {
        if writesLeft == 0 {
          return HaltedInLock, false, turns;
        }
        writesLeft, lock := writesLeft - 1, lock.(owner := None);
        if writesLeft == 0 {
          return HaltedInLock, false, turns;
        }
        writesLeft, lock := writesLeft - 1, Absent;
      }
      return if loop.Escapes? then Raised else Completed, loop.BadText?, turns;
    }

    /** `run`. */
    method Run(c: Codec, order: Order) returns (r: Report)
      requires Good(c) && Named(jobs, order.wanted)
      modifies this
      ensures Ran(c, order, Disk(old(jobs), old(lock)), Disk(jobs, lock), r)
      ensures r.end.Halted? || r.end.HaltedInLock? ==> writesLeft == 0
    {
      ghost var start := Disk(jobs, lock);
      var rewrite;
      rewrite, r := VisitJobs(c, order);
      if !r.end.Completed? {
        EndsInLoop(c, order, start, Disk(jobs, lock), r);
        return;
      }
      if |rewrite| == 0 || !order.apply {
        EndsUnlocked(c, order, start, Disk(jobs, lock), rewrite, r);
        r := r.(changes := r.changes + |rewrite|);
        return;
      }
      ghost var middle := jobs;
      AutoListIsAuto(start.jobs, order.wanted);
      SameEntries(c, start.jobs, jobs, rewrite, 0);
      RaisesAlike(c, start.jobs, jobs, rewrite);
      var end, failed, turns := RewriteUnderLock(c, rewrite, order.process);
      if !end.Completed? {
        r := r.(end := end);
        EndsAtLock(c, order, start, middle, Disk(jobs, lock), rewrite, turns, r);
      } else {
        if start.lock.Present? {
          assert RewriteAll(c, middle, rewrite[..0]) == middle;
          EndsTimedOut(c, order, start, Disk(jobs, lock), rewrite, r);
        } else {
          EndsRewritten(c, order, start, middle, Disk(jobs, lock), rewrite, r);
        }
        r := if failed then r.(errors := r.errors + 1) else r.(changes := r.changes + |rewrite|);
      }
    }
  }
}
