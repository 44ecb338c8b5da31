/** What the rollback of `scripts/ops/auto_layout_downgrade.py` leaves in each file, field by field. */
module RollbackFields {
  import opened Downgrade
  import opened DowngradeHistory
  import opened DowngradeJobs
  import opened DowngradeRun
  import opened JobFiles
  import opened Sorting
  import opened Wrappers

  // --- job.json -------------------------------------------------------------------------------------------

  /** Everything but the render mode is as it was, and the mode is too or goes from `auto` to `fit-blur`;
      a file that can no longer be read has been rewritten beyond its size limit. */
  ghost predicate JobKept(c: Codec, was: Entry, now: Entry) {
    && (!was.Read? ==> now == was)
    && (was.Read? && now.Read? ==>
          && now.file.rest == was.file.rest && now.file.deep == was.file.deep
          && (now.file.renderMode == was.file.renderMode
              || (was.file.renderMode == Some("auto") && now.file.renderMode == Some("fit-blur")
                  && c.jobSize(now.file) <= 4194304)))
    && (was.Read? && !now.Read? ==>
          && now.Refused? && was.file.renderMode == Some("auto")
          && c.jobSize(JobFile(Some("fit-blur"), was.file.rest, was.file.deep)) > 4194304)
  }

  /** One run, however it ends. */
  lemma RunKeepsJobs(c: Codec, e: Execution, i: nat)
    requires Ran(c, e.order, e.before, e.after, e.report) && i < |e.before.jobs|
    ensures |e.after.jobs| == |e.before.jobs| && JobKept(c, e.before.jobs[i].entry, e.after.jobs[i].entry)
  {
    assert JobMoved(c, e.before.jobs[i], e.after.jobs[i]);
  }

  /** Any number of them. */
  lemma HistoryKeepsJobs(c: Codec, runs: seq<Execution>, start: Disk, now: Disk, i: nat)
    requires History(c, runs, start, now) && i < |start.jobs|
    ensures |now.jobs| == |start.jobs| && JobKept(c, start.jobs[i].entry, now.jobs[i].entry)
  {
    HistoryMoves(c, runs, start, now);
    assert JobMoved(c, start.jobs[i], now.jobs[i]);
  }

  /** After a completed apply run without errors every named `job.json` that was automatic is `fit-blur`. */
  lemma CompletedRunSetsModes(c: Codec, e: Execution, q: nat)
    requires Ran(c, e.order, e.before, e.after, e.report) && e.order.apply && e.report.end.Completed?
    requires e.report.errors == 0 && q < |e.order.wanted|
    ensures |e.after.jobs| == |e.before.jobs| && e.order.wanted[q] < |e.before.jobs|
    ensures var was, now := e.before.jobs[e.order.wanted[q]].entry, e.after.jobs[e.order.wanted[q]].entry;
            was.Read? && now.Read? ==>
              now.file.renderMode == if was.file.renderMode == Some("auto") then Some("fit-blur")
                                     else was.file.renderMode
  {
    var i := e.order.wanted[q];
    RunKeepsJobs(c, e, i);
    assert !AutoJob(e.after.jobs[i]);
  }

  lemma OneName(jobs: seq<Job>, names: seq<nat>)
    requires |jobs| == 1 && names == [0] && AutoJob(jobs[0])
    ensures Named(jobs, names) && AutoList(jobs, names) == [0] && !NoAutoJob(jobs, names)
    ensures AllEncode(jobs, names) <==> Encodes(jobs[0].entry.file)
  {
    assert names[..0] == [] && names[0] == 0;
  }

  /** The code points that decide. An automatic `job.json`, alone in the jobs root, stays as it is in a run
      that has the lock if it holds one of 0xD800 to 0xDFFF, and the run counts an error. */
  lemma SurrogateStays(c: Codec, e: Execution, rest: seq<nat>, k: nat)
    requires |e.before.jobs| == 1 && e.before.jobs[0].entry == Read(JobFile(Some("auto"), rest, false))
    requires e.before.lock.Absent? && e.order.wanted == [0] && k < |rest| && 0xD800 <= rest[k] <= 0xDFFF
    requires Ran(c, e.order, e.before, e.after, e.report) && e.order.apply && e.report.end.Completed?
    ensures e.report.errors > 0 && |e.after.jobs| == 1 && e.after.jobs[0].entry == e.before.jobs[0].entry
  {
    OneName(e.before.jobs, e.order.wanted);
    assert IsSurrogate(e.before.jobs[0].entry.file.rest[k]);
    StuckRunRewritesNothing(c, e);
  }

  /** Without one it is rewritten. */
  lemma TextIsRewritten(c: Codec, e: Execution, rest: seq<nat>)
    requires |e.before.jobs| == 1 && e.before.jobs[0].entry == Read(JobFile(Some("auto"), rest, false))
    requires e.before.lock.Absent? && e.order.wanted == [0]
    requires forall k | 0 <= k < |rest| :: !(0xD800 <= rest[k] <= 0xDFFF)
    requires Ran(c, e.order, e.before, e.after, e.report) && e.order.apply && e.report.end.Completed?
    ensures |e.after.jobs| == 1
    ensures e.after.jobs[0].entry.Read? ==> e.after.jobs[0].entry == Read(JobFile(Some("fit-blur"), rest, false))
  {
    OneName(e.before.jobs, e.order.wanted);
    RunRewritesExactly(c, e);
    RunKeepsJobs(c, e, 0);
    assert e.order.wanted[0] == 0 && !AutoJob(e.after.jobs[e.order.wanted[0]]);
  }

  // --- the clips ------------------------------------------------------------------------------------------

  /** The layout without the automatic one. */
  ghost predicate PlainLayout(was: Layout, now: Layout) {
    && now.rest == was.rest && now.ranges == None
    && now.mode == (if was.mode == "auto" then "fit_blur" else was.mode)
    && now.noFace == (if was.mode == "auto" then Some("center") else was.noFace)
    && now.split == (if was.mode == "split" then was.split else None)
  }

  /** The automatic seed, from which any sequence of writes has led to a settled clip: the new seed has its
      content, its plain layout and no shot plan, and the hash of what it has become; the old bytes are
      in the backup. */
  lemma SeedFields(c: Codec, start: Files, f: Files, seed: Doc)
    requires Good(c) && Reaches(c, start, f) && Settled(c, f) && c.decode(start.seed) == Some(seed)
    requires seed.layout.mode == "auto" || seed.layout.ranges.Some? || seed.base.shots.Some?
    ensures f.backup == Some(start.seed) && c.decode(f.seed).Some?
    ensures var now := c.decode(f.seed).value;
            && PlainLayout(seed.layout, now.layout)
            && now.rest == seed.rest && now.revision == seed.revision && now.parent == seed.parent
            && now.audit == Audit("Downgrade", seed.audit.updatedAt, seed.audit.rest)
            && now.base == Base(None, Some(c.sha(c.encodeContent(
                 Content(now.layout, Base(None, None, seed.base.rest), seed.revision, seed.parent, seed.rest)))),
                                seed.base.rest)
  {
    var n: nat :| Reach(c, start, f, n);
    Convergence(c, start, f, n);
    assert c.decode(f.seed) == Some(DowngradedSeed(c, seed));
  }

  /** Any other seed is left alone, with what is beside it. */
  lemma PlainSeedStays(c: Codec, start: Files, f: Files, seed: Doc)
    requires Good(c) && Reaches(c, start, f) && c.decode(start.seed) == Some(seed)
    requires seed.layout.mode != "auto" && seed.layout.ranges.None? && seed.base.shots.None?
    ensures f.seed == start.seed && f.backup == start.backup
  {
    var n: nat :| Reach(c, start, f, n);
    EveryStateKeeps(c, start, f, n);
  }

  /** The automatic revision: the same edit in the plain layout, with the base of the seed beside it, one
      revision on, below the archived old one. */
  lemma RevisionFields(c: Codec, start: Files, f: Files, doc: Doc)
    requires Good(c) && Reaches(c, start, f) && Settled(c, f)
    requires start.doc.Some? && c.decode(start.doc.value) == Some(doc)
    requires doc.layout.mode == "auto" || doc.layout.ranges.Some? || doc.base.shots.Some?
    ensures f.doc.Some? && c.decode(f.doc.value).Some? && c.decode(f.seed).Some?
    ensures var now := c.decode(f.doc.value).value;
            && PlainLayout(doc.layout, now.layout)
            && now.rest == doc.rest && now.revision == doc.revision + 1
            && now.parent == Some(c.sha(start.doc.value)) && now.base == c.decode(f.seed).value.base
            && now.audit.lastCommand == "Downgrade" && now.audit.rest == doc.audit.rest
            && now.audit.updatedAt > doc.audit.updatedAt
    ensures f.archive == start.archive[(doc.revision, c.sha(start.doc.value)) := start.doc.value]
  {
    var n: nat :| Reach(c, start, f, n);
    Convergence(c, start, f, n);
    var seed := c.decode(FinalSeed(c, start)).value;
    var at :| doc.audit.updatedAt < at
      && f.doc == Some(c.encode(Stamped(DowngradedRevision(doc, c.sha(start.doc.value), seed), at)));
    assert c.decode(f.doc.value) == Some(Stamped(DowngradedRevision(doc, c.sha(start.doc.value), seed), at));
  }

  /** Any other revision is left alone, with the archive. */
  lemma PlainRevisionStays(c: Codec, start: Files, f: Files, doc: Doc)
    requires Good(c) && Reaches(c, start, f) && start.doc.Some? && c.decode(start.doc.value) == Some(doc)
    requires doc.layout.mode != "auto" && doc.layout.ranges.None? && doc.base.shots.None?
    ensures f.doc == start.doc && f.archive == start.archive
  {
    var n: nat :| Reach(c, start, f, n);
    EveryStateKeeps(c, start, f, n);
  }

  /** On the way nothing is lost: the automatic seed is in place or in the backup, the current revision is
      in place or in the archive, and no backup and no archived revision changes. */
  lemma NothingIsLost(c: Codec, start: Files, f: Files)
    requires Good(c) && Reaches(c, start, f)
    ensures f.seed == start.seed || f.backup == Some(start.seed)
    ensures start.backup.Some? ==> f.backup == start.backup
    ensures forall key | key in start.archive :: key in f.archive && f.archive[key] == start.archive[key]
    ensures start.doc.Some? && c.decode(start.doc.value).Some? ==>
      var key := (c.decode(start.doc.value).value.revision, c.sha(start.doc.value));
      f.doc == start.doc || (key in f.archive && f.archive[key] == start.doc.value)
    ensures start.doc.None? || c.decode(start.doc.value).None? ==> f.doc == start.doc
  {
    var n: nat :| Reach(c, start, f, n);
    EveryStateKeeps(c, start, f, n);
  }

  /** Another backup beside an automatic seed: one byte longer is an error, two or more end the run. Either
      way the clip is not touched. */
  lemma BackupLengthDecides(c: Codec, e: Execution, seed: Doc, more: Bytes)
    requires Good(c) && (seed.layout.mode == "auto" || seed.layout.ranges.Some? || seed.base.shots.Some?)
    requires e.before == Disk([ForeignJob(c, seed, more)], Absent) && more != []
    requires Ran(c, e.order, e.before, e.after, e.report) && e.order.apply && e.order.wanted == [0]
    requires e.report.end.Completed? || e.report.end.Raised?
    ensures e.report.end.Raised? <==> |more| >= 2
    ensures e.report.end.Completed? ==> e.report.errors > 0
    ensures |e.after.jobs| == 1 && e.after.jobs[0].clips == e.before.jobs[0].clips
  {
    var f := Files(c.encode(seed), Some(c.encode(seed) + more), None, map[]);
    var jobs := e.before.jobs;
    assert jobs[0].clips == [f] && e.order.wanted[..0] == [] && e.order.wanted[0] == 0;
    assert f.backup != Some(f.seed);
    assert ForeignBackup(c, f) <==> |more| >= 2;
    assert AutoList(jobs, e.order.wanted) == [];
    assert JobMoved(c, jobs[0], e.after.jobs[0]) && Reaches(c, jobs[0].clips[0], e.after.jobs[0].clips[0]);
    StuckClipStays(c, f, e.after.jobs[0].clips[0]);
    ForeignDecides(c, jobs, e.order.wanted, f);
  }

  function ForeignJob(c: Codec, seed: Doc, more: Bytes): Job {
    Job(Read(JobFile(None, [], false)), [Files(c.encode(seed), Some(c.encode(seed) + more), None, map[])])
  }

  /** No write starts from there. */
  lemma StuckClipStays(c: Codec, f: Files, g: Files)
    requires SeedAuto(c, f) && f.backup.Some? && f.backup != Some(f.seed) && Reaches(c, f, g)
    ensures g == f
  {
    var n: nat :| Reach(c, f, g, n);
    StuckAfter(c, f, g, n);
  }

  lemma {:induction false} StuckAfter(c: Codec, f: Files, g: Files, n: nat)
    requires SeedAuto(c, f) && f.backup.Some? && f.backup != Some(f.seed) && Reach(c, f, g, n)
    ensures g == f
    decreases n
  {
    if n > 0 {
      var h := ReachLast(c, f, g, n);
      StuckAfter(c, f, h, n - 1);
    }
  }

  lemma ForeignDecides(c: Codec, jobs: seq<Job>, wanted: seq<nat>, f: Files)
    requires |jobs| == 1 && jobs[0].entry.Read? && jobs[0].clips == [f] && wanted == [0]
    ensures Uncaught(c, true, jobs, wanted) <==> ForeignBackup(c, f)
  {
    assert wanted[0] == 0;
    if ForeignBackup(c, f) {
      assert ForeignBackup(c, jobs[0].clips[0]) && AnyForeign(c, jobs[wanted[0]].clips);
    }
  }

  /** The clips of a history of runs are such states. */
  lemma HistoryReaches(c: Codec, runs: seq<Execution>, start: Disk, now: Disk, i: nat, k: nat)
    requires History(c, runs, start, now) && i < |start.jobs| && k < |start.jobs[i].clips|
    ensures |now.jobs| == |start.jobs| && |now.jobs[i].clips| == |start.jobs[i].clips|
    ensures Reaches(c, start.jobs[i].clips[k], now.jobs[i].clips[k])
  {
    HistoryMoves(c, runs, start, now);
    assert JobMoved(c, start.jobs[i], now.jobs[i]);
  }

  // --- the counts -----------------------------------------------------------------------------------------

  predicate AutoBytes(c: Codec, raw: Option<Bytes>) {
    raw.Some? && c.decode(raw.value).Some?
    && var d := c.decode(raw.value).value; d.layout.mode == "auto" || d.layout.ranges.Some? || d.base.shots.Some?
  }

  /** The places of the clips with `flag`: the position of a name (of its first one only with `once`), and
      of a clip of its job. */
  function Places(flag: Files -> bool, jobs: seq<Job>, wanted: seq<nat>, once: bool): set<(nat, nat)>
    requires Named(jobs, wanted)
  {
    set q: nat, k: nat | q < |wanted| && k < |jobs[wanted[q]].clips| && IsPlace(flag, jobs, wanted, once, q, k) ::
      (q, k)
  }

  predicate IsPlace(flag: Files -> bool, jobs: seq<Job>, wanted: seq<nat>, once: bool, q: nat, k: nat)
    requires Named(jobs, wanted) && q < |wanted| && k < |jobs[wanted[q]].clips|
  {
    (once ==> wanted[q] !in wanted[..q]) && flag(jobs[wanted[q]].clips[k])
  }

  function Flagged(flag: Files -> bool, clips: seq<Files>): set<nat> {
    set k: nat | k < |clips| && flag(clips[k])
  }

  /** The names of automatic jobs. */
  function AutoNames(jobs: seq<Job>, wanted: seq<nat>): set<nat>
    requires Named(jobs, wanted)
  {
    set q: nat | q < |wanted| && var entry := jobs[wanted[q]].entry;
      entry.Read? && entry.file.renderMode == Some("auto")
  }

  function SeedFlag(c: Codec): Files -> bool { (f: Files) => AutoBytes(c, Some(f.seed)) }

  function DocFlag(c: Codec): Files -> bool { (f: Files) => AutoBytes(c, f.doc) }

  lemma {:induction false} ChangesAreFlags(c: Codec, clips: seq<Files>)
    ensures ClipChanges(c, clips) == |Flagged(SeedFlag(c), clips)| + |Flagged(DocFlag(c), clips)|
    decreases |clips|
  {
    if clips != [] {
      ChangesAreFlags(c, clips[..|clips| - 1]);
      FlaggedLast(SeedFlag(c), clips);
      FlaggedLast(DocFlag(c), clips);
    } else {
      assert Flagged(SeedFlag(c), clips) == {} == Flagged(DocFlag(c), clips);
    }
  }

  lemma FlaggedLast(flag: Files -> bool, clips: seq<Files>)
    requires clips != []
    ensures var n := |clips| - 1;
            |Flagged(flag, clips)| == |Flagged(flag, clips[..n])| + if flag(clips[n]) then 1 else 0
  {
    var n := |clips| - 1;
    assert Flagged(flag, clips) == Flagged(flag, clips[..n]) + if flag(clips[n]) then {n} else {};
  }

  lemma PlacesLast(flag: Files -> bool, jobs: seq<Job>, wanted: seq<nat>, once: bool)
    requires Named(jobs, wanted) && wanted != []
    ensures var n := |wanted| - 1;
            |Places(flag, jobs, wanted, once)|
              == |Places(flag, jobs, wanted[..n], once)|
                 + if once && wanted[n] in wanted[..n] then 0 else |Flagged(flag, jobs[wanted[n]].clips)|
  {
    var before, last := wanted[..|wanted| - 1], wanted[|wanted| - 1];
    var mine := if once && last in before then {} else Flagged(flag, jobs[last].clips);
    var here := At(|before|, mine);
    ImageSize(mine, (k: nat) => (|before|, k), here);
    PlacesSplit(flag, jobs, wanted, before, once, here);
  }

  function At(n: nat, s: set<nat>): set<(nat, nat)> {
    set k | k in s :: (n, k)
  }

  lemma PlacesSplit(flag: Files -> bool, jobs: seq<Job>, wanted: seq<nat>, before: seq<nat>, once: bool,
                    here: set<(nat, nat)>)
    requires Named(jobs, wanted) && wanted != [] && before == wanted[..|wanted| - 1]
    requires here == At(|before|, if once && wanted[|before|] in before then {}
                                  else Flagged(flag, jobs[wanted[|before|]].clips))
    ensures |Places(flag, jobs, wanted, once)| == |Places(flag, jobs, before, once)| + |here|
  {
    var all, front := Places(flag, jobs, wanted, once), Places(flag, jobs, before, once);
    forall q: nat, k: nat ensures (q, k) in all <==> (q, k) in front || (q, k) in here {
      PlaceOf(flag, jobs, wanted, before, once, q, k);
    }
    assert all == front + here && front !! here;
  }

  lemma PlaceOf(flag: Files -> bool, jobs: seq<Job>, wanted: seq<nat>, before: seq<nat>, once: bool, q: nat, k: nat)
    requires Named(jobs, wanted) && wanted != [] && before == wanted[..|wanted| - 1]
    ensures (q, k) in Places(flag, jobs, wanted, once) <==>
      q < |wanted| && k < |jobs[wanted[q]].clips| && IsPlace(flag, jobs, wanted, once, q, k)
    ensures q < |before| ==>
      ((q, k) in Places(flag, jobs, wanted, once) <==> (q, k) in Places(flag, jobs, before, once))
  {
    if q < |before| {
      assert before[q] == wanted[q] && before[..q] == wanted[..q];
    }
  }

  lemma AutoNamesLast(jobs: seq<Job>, wanted: seq<nat>)
    requires Named(jobs, wanted) && wanted != []
    ensures var n := |wanted| - 1;
            |AutoNames(jobs, wanted)| == |AutoNames(jobs, wanted[..n])| + if AutoJob(jobs[wanted[n]]) then 1 else 0
  {
    var n := |wanted| - 1;
    assert AutoNames(jobs, wanted) == AutoNames(jobs, wanted[..n]) + if AutoJob(jobs[wanted[n]]) then {n} else {};
  }

  lemma {:induction false} TotalIsCount(c: Codec, apply: bool, jobs: seq<Job>, wanted: seq<nat>)
    requires Named(jobs, wanted)
    ensures Total(c, apply, jobs, wanted)
         == |Places(SeedFlag(c), jobs, wanted, apply)| + |Places(DocFlag(c), jobs, wanted, apply)|
            + |AutoNames(jobs, wanted)|
    decreases |wanted|
  {
    if wanted != [] {
      var n := |wanted| - 1;
      TotalIsCount(c, apply, jobs, wanted[..n]);
      PlacesLast(SeedFlag(c), jobs, wanted, apply);
      PlacesLast(DocFlag(c), jobs, wanted, apply);
      AutoNamesLast(jobs, wanted);
      ChangesAreFlags(c, jobs[wanted[n]].clips);
    } else {
      assert Places(SeedFlag(c), jobs, wanted, apply) == {} == Places(DocFlag(c), jobs, wanted, apply);
      assert AutoNames(jobs, wanted) == {};
    }
  }

  /** What a run without errors prints: the automatic seeds and revisions of the named jobs, those of a
      repeated name once in an apply run, and the automatic jobs. */
  lemma ReportIsCount(c: Codec, e: Execution)
    requires Ran(c, e.order, e.before, e.after, e.report) && e.report.end.Completed? && e.report.errors == 0
    ensures e.report.changes
         == |Places(SeedFlag(c), e.before.jobs, e.order.wanted, e.order.apply)|
            + |Places(DocFlag(c), e.before.jobs, e.order.wanted, e.order.apply)|
            + |AutoNames(e.before.jobs, e.order.wanted)|
  {
    TotalIsCount(c, e.order.apply, e.before.jobs, e.order.wanted);
  }
}
