/** Histories of runs of `scripts/ops/auto_layout_downgrade.py`, each stopped anywhere or not: what the
    next run does. */
module DowngradeHistory {
  import opened Downgrade
  import opened DowngradeJobs
  import opened DowngradeRewrite
  import opened DowngradeRun
  import opened JobFiles
  import opened Wrappers

  /** One run. */
  datatype Execution = Execution(order: Order, before: Disk, after: Disk, report: Report)

  /** Runs one after another, with nobody else at work. */
  ghost predicate History(c: Codec, runs: seq<Execution>, start: Disk, now: Disk) {
    if runs == [] then now == start
    else
      var last := runs[|runs| - 1];
      History(c, runs[..|runs| - 1], start, last.before)
      && Ran(c, last.order, last.before, last.after, last.report) && now == last.after
  }

  /** None of them was stopped between its `mkdir` and its `rmdir`. */
  ghost predicate NoneInLock(runs: seq<Execution>) {
    forall e | e in runs :: !e.report.end.HaltedInLock?
  }

  lemma {:induction false} HistoryMoves(c: Codec, runs: seq<Execution>, start: Disk, now: Disk)
    requires History(c, runs, start, now)
    ensures JobsMoved(c, start.jobs, now.jobs)
    decreases |runs|
  {
    if runs == [] {
      JobsStay(c, start.jobs);
    } else {
      var last := runs[|runs| - 1];
      HistoryMoves(c, runs[..|runs| - 1], start, last.before);
      RunsCompose(c, start.jobs, last.before.jobs, now.jobs);
    }
  }

  /** A lock that was free is free, if and only if no run was stopped while it had it. */
  lemma {:induction false} LockStaysFree(c: Codec, runs: seq<Execution>, start: Disk, now: Disk)
    requires History(c, runs, start, now) && start.lock.Absent?
    ensures now.lock.Absent? <==> NoneInLock(runs)
    decreases |runs|
  {
    if runs != [] {
      var front, last := runs[..|runs| - 1], runs[|runs| - 1];
      assert runs == front + [last];
      LockStaysFree(c, front, start, last.before);
      assert NoneInLock(runs) <==> NoneInLock(front) && !last.report.end.HaltedInLock?;
    }
  }

  /** How many turns of the rewrite loop a run has completed, as it found the files. */
  ghost function Turns(c: Codec, e: Execution): nat
    requires Named(e.before.jobs, e.order.wanted)
  {
    AutoListIsAuto(e.before.jobs, e.order.wanted);
    if e.before.lock.Absent? then FirstBlock(c, e.before.jobs, AutoList(e.before.jobs, e.order.wanted)) else 0
  }

  /** A completed apply run rewrites exactly the automatic jobs it names before the first one that cannot
      be encoded, and no job where the lock was not free. None that it names stays automatic, if and only
      if the lock was free and each of them could be encoded; otherwise it counts an error. */
  lemma RunRewritesExactly(c: Codec, e: Execution)
    requires Ran(c, e.order, e.before, e.after, e.report) && e.order.apply && e.report.end.Completed?
    requires !NoAutoJob(e.before.jobs, e.order.wanted)
    ensures |e.after.jobs| == |e.before.jobs| && Named(e.after.jobs, e.order.wanted)
    ensures Turns(c, e) <= |AutoList(e.before.jobs, e.order.wanted)|
    ensures EntriesRewritten(c, e.before.jobs, e.after.jobs, AutoList(e.before.jobs, e.order.wanted)[..Turns(c, e)])
    ensures NoAutoJob(e.after.jobs, e.order.wanted)
       <==> e.before.lock.Absent? && AllEncode(e.before.jobs, e.order.wanted)
    ensures !NoAutoJob(e.after.jobs, e.order.wanted) ==> e.report.errors > 0
  {
    var was, wanted := e.before.jobs, e.order.wanted;
    AutoListEncodes(was, wanted);
    NothingAutomatic(was, was, wanted);
    if e.before.lock.Absent? {
      RewrittenExactly(c, was, AutoList(was, wanted));
    }
    NoneLeftAutomatic(c, was, e.after.jobs, wanted, Turns(c, e));
  }

  lemma NoneLeftAutomatic(c: Codec, was: seq<Job>, now: seq<Job>, wanted: seq<nat>, turns: nat)
    requires Named(was, wanted) && turns <= |AutoList(was, wanted)|
    requires EntriesRewritten(c, was, now, AutoList(was, wanted)[..turns])
    requires turns < |AutoList(was, wanted)| ==> AutoList(was, wanted)[turns] !in AutoList(was, wanted)[..turns]
    ensures Named(now, wanted) && (NoAutoJob(now, wanted) <==> turns == |AutoList(was, wanted)|)
  {
    var list := AutoList(was, wanted);
    if turns == |list| {
      assert list[..turns] == list;
      RewrittenPlain(c, was, now, wanted);
    } else {
      LeftAutomatic(c, was, now, wanted, turns);
    }
  }

  /** The first job that was not rewritten stays automatic, and first on the list. */
  lemma LeftAutomatic(c: Codec, was: seq<Job>, now: seq<Job>, wanted: seq<nat>, turns: nat)
    requires Named(was, wanted) && turns < |AutoList(was, wanted)|
    requires EntriesRewritten(c, was, now, AutoList(was, wanted)[..turns])
    requires AutoList(was, wanted)[turns] !in AutoList(was, wanted)[..turns]
    ensures Named(now, wanted) && !NoAutoJob(now, wanted)
    ensures AutoList(now, wanted) != [] && AutoList(now, wanted)[0] == AutoList(was, wanted)[turns] < |now|
    ensures now[AutoList(now, wanted)[0]].entry == was[AutoList(now, wanted)[0]].entry
  {
    var list := AutoList(was, wanted);
    AutoListAfter(c, was, now, wanted, list[..turns]);
    assert forall m | 0 <= m < turns :: list[..turns][m] == list[m];
    FirstLeft(list, list[..turns], turns);
    AutoListIsAuto(was, wanted);
    AutoListMembers(now, wanted);
    assert AutoList(now, wanted)[0] in AutoList(now, wanted);
    NothingAutomatic(now, now, wanted);
  }

  /** The first automatic job that is named cannot be written back. */
  ghost predicate Stuck(jobs: seq<Job>, wanted: seq<nat>) {
    && Named(jobs, wanted) && AutoList(jobs, wanted) != []
    && var i := AutoList(jobs, wanted)[0];
      i < |jobs| && AutoJob(jobs[i]) && !Writable(jobs[i].entry.file)
  }

  /** A completed apply run with the lock leaves such a job first, if it names one at all. */
  lemma RunLeavesStuck(c: Codec, e: Execution)
    requires Ran(c, e.order, e.before, e.after, e.report) && e.order.apply && e.report.end.Completed?
    requires e.before.lock.Absent? && !AllEncode(e.before.jobs, e.order.wanted)
    ensures Stuck(e.after.jobs, e.order.wanted)
  {
    var was, wanted := e.before.jobs, e.order.wanted;
    AutoListEncodes(was, wanted);
    RewrittenExactly(c, was, AutoList(was, wanted));
    LeftAutomatic(c, was, e.after.jobs, wanted, Turns(c, e));
  }

  /** From there no run with the same names rewrites anything, however it ends. */
  lemma StuckRunRewritesNothing(c: Codec, e: Execution)
    requires Ran(c, e.order, e.before, e.after, e.report) && Stuck(e.before.jobs, e.order.wanted)
    ensures |e.after.jobs| == |e.before.jobs|
    ensures forall i | 0 <= i < |e.before.jobs| :: e.after.jobs[i].entry == e.before.jobs[i].entry
    ensures e.order.apply && e.report.end.Completed? ==> e.report.errors > 0
    ensures Stuck(e.after.jobs, e.order.wanted)
  {
    var was, wanted := e.before.jobs, e.order.wanted;
    AutoListIsAuto(was, wanted);
    assert Blocks(c, was, AutoList(was, wanted), 0);
    var list := AutoList(was, wanted);
    var k: nat :| k <= FirstBlock(c, was, list) && EntriesRewritten(c, was, e.after.jobs, list[..k]);
    assert list[..k] == [];
    SameList(was, e.after.jobs, wanted);
  }

  lemma {:induction false} SameList(was: seq<Job>, now: seq<Job>, wanted: seq<nat>)
    requires Named(was, wanted) && |was| == |now| && forall i | 0 <= i < |was| :: now[i].entry == was[i].entry
    ensures Named(now, wanted) && AutoList(now, wanted) == AutoList(was, wanted)
  {
    if wanted != [] {
      SameList(was, now, wanted[..|wanted| - 1]);
    }
  }

  /** Nor does any number of them. */
  lemma {:induction false} StuckRunsRewriteNothing(c: Codec, runs: seq<Execution>, start: Disk, now: Disk,
                                                   wanted: seq<nat>)
    requires History(c, runs, start, now) && Stuck(start.jobs, wanted)
    requires forall e | e in runs :: e.order.wanted == wanted
    ensures |now.jobs| == |start.jobs|
    ensures forall i | 0 <= i < |start.jobs| :: now.jobs[i].entry == start.jobs[i].entry
    ensures Stuck(now.jobs, wanted)
    decreases |runs|
  {
    if runs != [] {
      var front, last := runs[..|runs| - 1], runs[|runs| - 1];
      assert last in runs && forall e | e in front :: e in runs;
      StuckRunsRewriteNothing(c, front, start, last.before, wanted);
      StuckRunRewritesNothing(c, last);
    }
  }

  /** The input: an automatic `job.json` with half a surrogate pair, as a cut error line leaves it. A run
      that has the lock counts an error and leaves it automatic. */
  lemma HalfPairStaysAutomatic(c: Codec, e: Execution)
    requires e.before == Disk([Job(Read(JobFile(Some("auto"), [0xD83D], false)), [])], Absent) && e.order.wanted == [0]
    requires Ran(c, e.order, e.before, e.after, e.report) && e.order.apply && e.report.end.Completed?
    ensures e.report.errors > 0 && e.after.lock.Absent?
    ensures |e.after.jobs| == 1 && e.after.jobs[0].entry == e.before.jobs[0].entry
  {
    var jobs, names := e.before.jobs, e.order.wanted;
    assert AutoJob(jobs[0]) && IsSurrogate(jobs[0].entry.file.rest[0]);
    assert names[..0] == [] && AutoList(jobs, names) == [0];
    StuckRunRewritesNothing(c, e);
  }

  /** After any number of runs from a free lock, a completed apply run that names an automatic job leaves
      none of them automatic, if and only if no earlier run was stopped between its `mkdir` and its
      `rmdir` and every file that was automatic at the start can be encoded. */
  lemma LaterRunRewrites(c: Codec, runs: seq<Execution>, start: Disk, last: Execution)
    requires History(c, runs, start, last.before) && start.lock.Absent?
    requires Ran(c, last.order, last.before, last.after, last.report)
    requires last.order.apply && last.report.end.Completed?
    requires !NoAutoJob(last.before.jobs, last.order.wanted)
    ensures |last.after.jobs| == |last.before.jobs| == |start.jobs|
    ensures Named(last.after.jobs, last.order.wanted) && Named(start.jobs, last.order.wanted)
    ensures NoAutoJob(last.after.jobs, last.order.wanted)
       <==> NoneInLock(runs) && AllEncode(start.jobs, last.order.wanted)
    ensures !NoAutoJob(last.after.jobs, last.order.wanted) ==> last.report.errors > 0
    ensures !NoneInLock(runs) ==>
      forall i | 0 <= i < |last.before.jobs| :: last.after.jobs[i].entry == last.before.jobs[i].entry
  {
    LockStaysFree(c, runs, start, last.before);
    HistoryMoves(c, runs, start, last.before);
    AllEncodeStays(c, start.jobs, last.before.jobs, last.order.wanted);
    RunRewritesExactly(c, last);
  }

  /** Where a clip and its `job.json` end. */
  ghost predicate JobConverged(c: Codec, start: Job, now: Job) {
    && start.entry.Read? && |now.clips| == |start.clips|
    && now.entry == (if AutoJob(start) then Written(c, start.entry.file) else start.entry)
    && forall k | 0 <= k < |start.clips| :: Converged(c, start.clips[k], now.clips[k])
  }

  /** Restart. Where nothing hindered the rollback at the start, then after any number of runs, stopped
      anywhere but in the lock, one apply run that reaches its summary line has no errors if and only if
      every `job.json` it names that was automatic can be encoded. It then leaves every clip and
      every `job.json` it names where one run without a stop would have left them. */
  lemma RestartConverges(c: Codec, runs: seq<Execution>, start: Disk, last: Execution)
    requires Good(c) && History(c, runs, start, last.before) && start.lock.Absent? && NoneInLock(runs)
    requires Ran(c, last.order, last.before, last.after, last.report)
    requires last.order.apply && last.report.end.Completed?
    requires Named(start.jobs, last.order.wanted) && Unhindered(c, start.jobs, last.order.wanted, last.order.clock)
    ensures |last.after.jobs| == |start.jobs|
    ensures last.report.errors == 0 <==> AllEncode(start.jobs, last.order.wanted)
    ensures last.report.errors == 0 ==> forall q | 0 <= q < |last.order.wanted| ::
      JobConverged(c, start.jobs[last.order.wanted[q]], last.after.jobs[last.order.wanted[q]])
    ensures last.report.errors == 0 && AllFit(c, start.jobs, last.order.wanted) ==>
      JobsSettled(c, last.after.jobs, last.order.wanted)
  {
    var wanted := last.order.wanted;
    HistoryMoves(c, runs, start, last.before);
    LockStaysFree(c, runs, start, last.before);
    UnhinderedStays(c, start.jobs, last.before.jobs, wanted, last.order.clock);
    AllEncodeStays(c, start.jobs, last.before.jobs, wanted);
    if !NoAutoJob(last.before.jobs, wanted) {
      RunRewritesExactly(c, last);
    } else {
      assert AllEncode(last.before.jobs, wanted);
    }
    RunsCompose(c, start.jobs, last.before.jobs, last.after.jobs);
    if last.report.errors == 0 {
      forall q | 0 <= q < |wanted| ensures JobConverged(c, start.jobs[wanted[q]], last.after.jobs[wanted[q]]) {
        assert JobMoved(c, start.jobs[wanted[q]], last.after.jobs[wanted[q]]);
        assert AllSettled(c, last.after.jobs[wanted[q]].clips) && !AutoJob(last.after.jobs[wanted[q]]);
        SettledConverged(c, start.jobs[wanted[q]], last.after.jobs[wanted[q]]);
      }
      UnhinderedStays(c, start.jobs, last.after.jobs, wanted, last.order.clock);
    }
  }

  lemma SettledConverged(c: Codec, start: Job, now: Job)
    requires Good(c) && JobMoved(c, start, now) && start.entry.Read? && !AutoJob(now) && AllSettled(c, now.clips)
    ensures JobConverged(c, start, now)
  {
    forall k | 0 <= k < |start.clips| ensures Converged(c, start.clips[k], now.clips[k]) {
      assert Settled(c, now.clips[k]) && Reaches(c, start.clips[k], now.clips[k]);
      var n: nat :| Reach(c, start.clips[k], now.clips[k], n);
      Convergence(c, start.clips[k], now.clips[k], n);
    }
  }

  /** A further run, dry or not and however few writes it is given, reaches its summary line with no
      change and no error, and leaves every file as it was. */
  lemma FurtherRunsChangeNothing(c: Codec, order: Order, was: Disk, now: Disk, r: Report)
    requires Good(c) && Ran(c, order, was, now, r) && JobsSettled(c, was.jobs, order.wanted)
    ensures now == was && r.end.Completed? && r.changes == 0 && r.errors == 0
  {
    SettledIsUnhindered(c, was.jobs, order.wanted, order.clock);
    SettledTotal(c, order.apply, was.jobs, order.wanted);
    forall i | 0 <= i < |was.jobs| ensures now.jobs[i] == was.jobs[i] {
      if i in order.wanted {
        var q :| 0 <= q < |order.wanted| && order.wanted[q] == i;
        assert JobMoved(c, was.jobs[i], now.jobs[i]) && AllSettled(c, was.jobs[i].clips);
        ClipsKeep(c, was.jobs[i].clips, now.jobs[i].clips, Row(order.clock, q));
      }
    }
  }

  /** From the same files, a dry run and an apply run without errors count the same changes, if and only
      if no job with changes in its clips is named twice. */
  lemma DryRunForetells(c: Codec, dry: Execution, done: Execution)
    requires Ran(c, dry.order, dry.before, dry.after, dry.report)
    requires Ran(c, done.order, done.before, done.after, done.report)
    requires !dry.order.apply && done.order.apply && dry.order.wanted == done.order.wanted && dry.before == done.before
    requires dry.report.end.Completed? && dry.report.errors == 0
    requires done.report.end.Completed? && done.report.errors == 0
    ensures dry.after == dry.before
    ensures dry.report.changes == done.report.changes
       <==> RepeatsAreQuiet(c, dry.before.jobs, dry.order.wanted)
  {
    CountsAgree(c, dry.before.jobs, dry.order.wanted);
  }
}
