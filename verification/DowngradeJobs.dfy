/** Job directories as a run of `scripts/ops/auto_layout_downgrade.py` finds and leaves them: what it
    needs, what it counts and what a stopped run cannot spoil. */
module DowngradeJobs {
  import opened Downgrade
  import opened JobFiles
  import opened Wrappers

  /** `job.json`: missing or not JSON, which the run counts as an error; refused, by `read_regular` (over
      its size limit, or no regular file) or by the parser (nested too deeply), with an exception that
      `run` does not catch; or read. */
  datatype Entry = Missing | Refused | Read(file: JobFile)

  /** A job directory. */
  datatype Job = Job(entry: Entry, clips: seq<Files>)

  predicate AutoJob(job: Job) {
    job.entry.Read? && Auto(job.entry.file)
  }

  /** The rewritten file stays within the size limit. */
  predicate Fits(c: Codec, file: JobFile) {
    c.jobSize(Rewritten(file)) <= MAX_JOB_BYTES
  }

  /** What the next reader finds of a rewritten file. */
  function Written(c: Codec, file: JobFile): Entry {
    if Fits(c, file) then Read(Rewritten(file)) else Refused
  }

  function SetClip(jobs: seq<Job>, i: nat, k: nat, f: Files): seq<Job>
    requires i < |jobs| && k < |jobs[i].clips|
  {
    jobs[i := jobs[i].(clips := jobs[i].clips[k := f])]
  }

  // --- what a run needs ----------------------------------------------------------------------------------

  /** `store.put` takes the downgraded revision. */
  predicate PutAccepts(c: Codec, f: Files, seed: Doc, now: int)
    requires HasDoc(c, f)
  {
    var current := DocOf(c, f);
    && current.audit.updatedAt >= 0
    && c.accept(Stamped(DowngradedRevision(current, c.sha(f.doc.value), seed), PutTime(current, now)), seed)
    && (Key(c, f) in f.archive ==> f.archive[Key(c, f)] == f.doc.value)
  }

  /** The server's stamp. */
  function PutTime(current: Doc, now: int): int {
    if now > current.audit.updatedAt + 1 then now else current.audit.updatedAt + 1
  }

  /** The clip reads, no other backup is in the way, and the store takes the new revision. */
  predicate Workable(c: Codec, f: Files, now: int) {
    && Readable(c, f)
    && (SeedAuto(c, f) ==> !OtherBackup(f))
    && (DocAuto(c, f) && c.decode(FinalSeed(c, f)).Some? ==> PutAccepts(c, f, c.decode(FinalSeed(c, f)).value, now))
  }

  /** The seed reads, and no other backup is in the way of an apply run. */
  predicate SeedWorks(c: Codec, f: Files, apply: bool) {
    c.decode(f.seed).Some? && (apply && SeedAuto(c, f) ==> !OtherBackup(f))
  }

  predicate OtherBackup(f: Files) {
    f.backup.Some? && f.backup.value != f.seed
  }

  /** Another backup, more than a byte longer than the seed: `read_regular` refuses to read it with an
      exception that is neither an OSError nor a ValueError. */
  predicate ForeignBackup(c: Codec, f: Files) {
    SeedAuto(c, f) && f.backup.Some? && |f.backup.value| > |f.seed| + 1
  }

  ghost predicate AnyForeign(c: Codec, clips: seq<Files>) {
    exists k :: 0 <= k < |clips| && ForeignBackup(c, clips[k])
  }

  predicate DocReads(c: Codec, f: Files) {
    f.doc.None? || HasDoc(c, f)
  }

  predicate DocWorks(c: Codec, f: Files, seed: Doc, now: int) {
    DocReads(c, f) && (DocAuto(c, f) ==> PutAccepts(c, f, seed, now))
  }

  /** What a clip needs, half by half: `g` is the clip once its seed is plain. */
  lemma WorkableInHalves(c: Codec, f: Files, g: Files, seed: Doc, now: int)
    requires c.decode(f.seed).Some? && c.decode(FinalSeed(c, f)) == Some(seed)
    requires g.doc == f.doc && g.archive == f.archive
    ensures Workable(c, f, now) <==> SeedWorks(c, f, true) && DocWorks(c, g, seed, now)
  {
  }

  lemma SettledIsWorkable(c: Codec, f: Files, now: int)
    requires Settled(c, f)
    ensures Workable(c, f, now)
  {
  }

  /** A clip whose backup is two bytes longer than its automatic seed. */
  lemma LongBackup(c: Codec) returns (f: Files)
    requires Good(c)
    ensures ForeignBackup(c, f)
  {
    var seed := Doc(Layout("auto", None, Some(""), None, ""), Base(Some(""), None, ""), 0, None, Audit("", 0, ""), "");
    f := Files(c.encode(seed), Some(c.encode(seed) + [0, 0]), None, map[]);
  }

  // --- what stopped runs cannot spoil ----------------------------------------------------------------------

  /** What can work still can after any write. */
  lemma WriteKeepsWorkable(c: Codec, f: Files, g: Files, now: int)
    requires Good(c) && Workable(c, f, now) && Write(c, f, g)
    ensures Workable(c, g, now)
  {
    FinalSeedIsPlain(c, f);
    if SeedWrite(c, f, g) {
      assert g.seed == FinalSeed(c, f) == FinalSeed(c, g);
    } else if DocWrite(c, f, g) {
      var at :| DocOf(c, f).audit.updatedAt < at && g == f.(doc := Some(c.encode(NextDoc(c, f, at))));
      DowngradedIsNotAutomatic(c, SeedOf(c, f), DocOf(c, f), c.sha(f.doc.value), at);
      assert c.decode(g.doc.value) == Some(NextDoc(c, f, at));
    }
  }

  lemma {:induction false} WritesKeepWorkable(c: Codec, f: Files, g: Files, now: int, n: nat)
    requires Good(c) && Workable(c, f, now) && Reach(c, f, g, n)
    ensures Workable(c, g, now)
    decreases n
  {
    if n > 0 {
      var h := ReachLast(c, f, g, n);
      WritesKeepWorkable(c, f, h, now, n - 1);
      WriteKeepsWorkable(c, h, g, now);
    }
  }

  /** A foreign backup stops every write, and no write makes one. */
  lemma {:induction false} ForeignIsStuck(c: Codec, f: Files, g: Files, n: nat)
    requires Good(c) && Reach(c, f, g, n)
    ensures ForeignBackup(c, f) <==> ForeignBackup(c, g)
    decreases n
  {
    if n > 0 {
      var h := ReachLast(c, f, g, n);
      ForeignIsStuck(c, f, h, n - 1);
      if SeedWrite(c, h, g) {
        FinalSeedIsPlain(c, h);
      }
    }
  }

  // --- what a run does -----------------------------------------------------------------------------------

  ghost predicate Reaches(c: Codec, f: Files, g: Files) {
    exists n: nat :: Reach(c, f, g, n)
  }

  /** One clip directory moved by `n` writes, everything else as it was. */
  ghost predicate Moved(c: Codec, was: seq<Job>, now: seq<Job>, i: nat, k: nat, n: int) {
    && i < |was| && k < |was[i].clips| && i < |now| && k < |now[i].clips| && n >= 0
    && now == SetClip(was, i, k, now[i].clips[k])
    && Reach(c, was[i].clips[k], now[i].clips[k], n)
  }

  lemma MovedJoins(c: Codec, a: seq<Job>, b: seq<Job>, d: seq<Job>, i: nat, k: nat, m: int, n: int)
    requires Moved(c, a, b, i, k, m) && Moved(c, b, d, i, k, n)
    ensures Moved(c, a, d, i, k, m + n)
  {
    ReachJoins(c, a[i].clips[k], b[i].clips[k], d[i].clips[k], m, n);
    var g, h := b[i].clips[k], d[i].clips[k];
    assert a[i].clips[k := g][k := h] == a[i].clips[k := h];
    assert d == SetClip(SetClip(a, i, k, g), i, k, h);
    assert SetClip(a, i, k, g)[i].clips == a[i].clips[k := g];
    assert d == SetClip(a, i, k, h);
  }

  lemma NotMoved(c: Codec, jobs: seq<Job>, i: nat, k: nat)
    requires i < |jobs| && k < |jobs[i].clips|
    ensures Moved(c, jobs, jobs, i, k, 0)
  {
    ReachNone(c, jobs[i].clips[k]);
    assert jobs[i].clips[k := jobs[i].clips[k]] == jobs[i].clips;
    assert jobs == SetClip(jobs, i, k, jobs[i].clips[k]);
  }

  lemma MovedOnce(c: Codec, jobs: seq<Job>, i: nat, k: nat, g: Files)
    requires i < |jobs| && k < |jobs[i].clips| && Write(c, jobs[i].clips[k], g)
    ensures Moved(c, jobs, SetClip(jobs, i, k, g), i, k, 1)
  {
    ReachNone(c, jobs[i].clips[k]);
    ReachOneMore(c, jobs[i].clips[k], jobs[i].clips[k], g, 0);
  }

  /** A run that stops before a write has not made all of them. */
  lemma StopLeavesWrites(c: Codec, was: seq<Job>, now: seq<Job>, i: nat, k: nat, n: int)
    requires Good(c) && Moved(c, was, now, i, k, n)
    requires SeedAuto(c, now[i].clips[k]) || DocAuto(c, now[i].clips[k])
    ensures n < Remaining(c, was[i].clips[k])
  {
    WritesAreBounded(c, was[i].clips[k], now[i].clips[k], n);
  }

  /** Only the clips of one job differ. */
  ghost predicate OnlyClips(was: seq<Job>, now: seq<Job>, i: nat) {
    i < |was| == |now| && now == was[i := was[i].(clips := now[i].clips)]
  }

  /** One clip after another. */
  lemma ClipMoved(c: Codec, was: seq<Files>, before: seq<Job>, now: seq<Job>, i: nat, k: nat)
    requires i < |before| && k < |was| && ClipsMoved(c, was, before[i].clips) && before[i].clips[k] == was[k]
    requires exists n :: Moved(c, before, now, i, k, n)
    ensures OnlyClips(before, now, i) && ClipsMoved(c, was, now[i].clips)
    ensures forall m | 0 <= m < |was| && m != k :: now[i].clips[m] == before[i].clips[m]
  {
    var n :| Moved(c, before, now, i, k, n);
    assert Reaches(c, was[k], now[i].clips[k]);
  }

  // --- clip lists ------------------------------------------------------------------------------------------

  function ClipChanges(c: Codec, clips: seq<Files>): nat {
    if clips == [] then 0 else ClipChanges(c, clips[..|clips| - 1]) + Changes(c, clips[|clips| - 1])
  }

  ghost predicate ClipsMoved(c: Codec, was: seq<Files>, now: seq<Files>) {
    |was| == |now| && forall k | 0 <= k < |was| :: Reaches(c, was[k], now[k])
  }

  /** Everything that can work is done, whatever the other clips do. */
  ghost predicate ClipsSettled(c: Codec, was: seq<Files>, now: seq<Files>, clock: nat -> int) {
    |was| == |now| && forall k: nat | k < |was| :: Workable(c, was[k], clock(k)) ==> Settled(c, now[k])
  }

  ghost predicate AllWorkable(c: Codec, clips: seq<Files>, clock: nat -> int) {
    forall k: nat | k < |clips| :: Workable(c, clips[k], clock(k))
  }

  ghost predicate AllSettled(c: Codec, clips: seq<Files>) {
    forall k | 0 <= k < |clips| :: Settled(c, clips[k])
  }

  lemma ReachesItself(c: Codec, f: Files)
    ensures Reaches(c, f, f)
  {
    ReachNone(c, f);
  }

  lemma ClipStays(c: Codec, clips: seq<Files>)
    ensures ClipsMoved(c, clips, clips)
  {
    forall k | 0 <= k < |clips| ensures Reaches(c, clips[k], clips[k]) {
      ReachesItself(c, clips[k]);
    }
  }

  /** Writes cannot start from a settled state. */
  lemma SettledStays(c: Codec, f: Files, g: Files)
    requires Good(c) && Settled(c, f) && Reaches(c, f, g)
    ensures g == f
  {
    var n: nat :| Reach(c, f, g, n);
    SettledIsFinal(c, f);
    WritesAreBounded(c, f, g, n);
  }

  lemma {:induction false} SettledChanges(c: Codec, clips: seq<Files>)
    requires AllSettled(c, clips)
    ensures ClipChanges(c, clips) == 0
  {
    if clips != [] {
      SettledChanges(c, clips[..|clips| - 1]);
      assert Settled(c, clips[|clips| - 1]);
    }
  }

  /** What holds of the clips of a job after some writes. */
  lemma ClipsKeep(c: Codec, was: seq<Files>, now: seq<Files>, clock: nat -> int)
    requires Good(c) && ClipsMoved(c, was, now)
    ensures AllWorkable(c, was, clock) ==> AllWorkable(c, now, clock)
    ensures AnyForeign(c, was) <==> AnyForeign(c, now)
    ensures AllSettled(c, was) ==> now == was
  {
    forall k: nat | k < |was|
      ensures Workable(c, was[k], clock(k)) ==> Workable(c, now[k], clock(k))
      ensures ForeignBackup(c, was[k]) <==> ForeignBackup(c, now[k])
      ensures Settled(c, was[k]) ==> now[k] == was[k]
    {
      assert Reaches(c, was[k], now[k]);
      ClipKeeps(c, was[k], now[k], clock(k));
    }
  }

  lemma ClipKeeps(c: Codec, f: Files, g: Files, now: int)
    requires Good(c) && Reaches(c, f, g)
    ensures Workable(c, f, now) ==> Workable(c, g, now)
    ensures ForeignBackup(c, f) <==> ForeignBackup(c, g)
    ensures Settled(c, f) ==> g == f
  {
    var n: nat :| Reach(c, f, g, n);
    ForeignIsStuck(c, f, g, n);
    if Workable(c, f, now) {
      WritesKeepWorkable(c, f, g, now, n);
    }
    if Settled(c, f) {
      SettledStays(c, f, g);
    }
  }

  lemma ClipsCompose(c: Codec, a: seq<Files>, b: seq<Files>, d: seq<Files>)
    requires ClipsMoved(c, a, b) && ClipsMoved(c, b, d)
    ensures ClipsMoved(c, a, d)
  {
    forall k | 0 <= k < |a| ensures Reaches(c, a[k], d[k]) {
      assert Reaches(c, a[k], b[k]) && Reaches(c, b[k], d[k]);
      var m: nat :| Reach(c, a[k], b[k], m);
      var n: nat :| Reach(c, b[k], d[k], n);
      ReachJoins(c, a[k], b[k], d[k], m, n);
    }
  }

  /** A visit settles what could work at the start, whatever earlier visits have done. */
  lemma SettledFrom(c: Codec, was: seq<Files>, first: seq<Files>, now: seq<Files>, clock: nat -> int)
    requires Good(c) && ClipsMoved(c, was, first) && ClipsSettled(c, first, now, clock)
    ensures ClipsSettled(c, was, now, clock)
  {
    forall k: nat | k < |was| ensures Workable(c, was[k], clock(k)) ==> Settled(c, now[k]) {
      assert Reaches(c, was[k], first[k]);
      ClipKeeps(c, was[k], first[k], clock(k));
    }
  }

  /** What an earlier visit has settled stays. */
  lemma SettledUntil(c: Codec, was: seq<Files>, first: seq<Files>, now: seq<Files>, clock: nat -> int)
    requires Good(c) && ClipsSettled(c, was, first, clock) && ClipsMoved(c, first, now)
    ensures ClipsSettled(c, was, now, clock)
  {
    forall k: nat | k < |was| ensures Workable(c, was[k], clock(k)) ==> Settled(c, now[k]) {
      assert Reaches(c, first[k], now[k]);
      ClipKeeps(c, first[k], now[k], clock(k));
    }
  }

  // --- named jobs ------------------------------------------------------------------------------------------

  /** Every name is that of a job; names may repeat. */
  ghost predicate Named(jobs: seq<Job>, wanted: seq<nat>) {
    forall q | 0 <= q < |wanted| :: wanted[q] < |jobs|
  }

  /** The changes that a run lists: for every name those of the clips, and one for an automatic job. An
      apply run has settled the clips when it meets a name again; a dry run has not. */
  function Total(c: Codec, apply: bool, jobs: seq<Job>, wanted: seq<nat>): nat
    requires Named(jobs, wanted)
  {
    if wanted == [] then 0
    else
      var n := |wanted| - 1;
      var job := jobs[wanted[n]];
      Total(c, apply, jobs, wanted[..n])
      + (if apply && wanted[n] in wanted[..n] then 0 else ClipChanges(c, job.clips))
      + if AutoJob(job) then 1 else 0
  }

  /** `rewrite`: the automatic jobs among the names. */
  function AutoList(jobs: seq<Job>, wanted: seq<nat>): seq<nat>
    requires Named(jobs, wanted)
  {
    if wanted == [] then []
    else
      var n := |wanted| - 1;
      AutoList(jobs, wanted[..n]) + if AutoJob(jobs[wanted[n]]) then [wanted[n]] else []
  }

  lemma {:induction false} AutoListMembers(jobs: seq<Job>, wanted: seq<nat>)
    requires Named(jobs, wanted)
    ensures forall i :: i in AutoList(jobs, wanted) <==> i in wanted && AutoJob(jobs[i])
  {
    if wanted != [] {
      var n := |wanted| - 1;
      AutoListMembers(jobs, wanted[..n]);
      assert wanted == wanted[..n] + [wanted[n]];
    }
  }

  /** The times of the saves at one name. */
  function Row(clock: (nat, nat) -> int, q: nat): nat -> int {
    (k: nat) => clock(q, k)
  }

  ghost predicate Worked(c: Codec, was: seq<Job>, now: seq<Job>, wanted: seq<nat>, clock: (nat, nat) -> int)
    requires Named(was, wanted) && |was| == |now|
  {
    forall q: nat | q < |wanted| && was[wanted[q]].entry.Read? ::
      ClipsSettled(c, was[wanted[q]].clips, now[wanted[q]].clips, Row(clock, q))
  }

  ghost predicate Unhindered(c: Codec, jobs: seq<Job>, wanted: seq<nat>, clock: (nat, nat) -> int)
    requires Named(jobs, wanted)
  {
    forall q: nat | q < |wanted| ::
      jobs[wanted[q]].entry.Read? && AllWorkable(c, jobs[wanted[q]].clips, Row(clock, q))
  }

  ghost predicate AllRead(jobs: seq<Job>, wanted: seq<nat>)
    requires Named(jobs, wanted)
  {
    forall q | 0 <= q < |wanted| :: jobs[wanted[q]].entry.Read?
  }

  ghost predicate ClipsAllSettled(c: Codec, jobs: seq<Job>, wanted: seq<nat>)
    requires Named(jobs, wanted)
  {
    forall q | 0 <= q < |wanted| :: AllSettled(c, jobs[wanted[q]].clips)
  }

  ghost predicate NoAutoJob(jobs: seq<Job>, wanted: seq<nat>)
    requires Named(jobs, wanted)
  {
    forall q | 0 <= q < |wanted| :: !AutoJob(jobs[wanted[q]])
  }

  /** Every named automatic `job.json` can be encoded. */
  ghost predicate AllEncode(jobs: seq<Job>, wanted: seq<nat>)
    requires Named(jobs, wanted)
  {
    forall q | 0 <= q < |wanted| && AutoJob(jobs[wanted[q]]) :: Encodes(jobs[wanted[q]].entry.file)
  }

  /** Every named automatic `job.json` stays within its size limit. */
  ghost predicate AllFit(c: Codec, jobs: seq<Job>, wanted: seq<nat>)
    requires Named(jobs, wanted)
  {
    forall q | 0 <= q < |wanted| && AutoJob(jobs[wanted[q]]) :: Fits(c, jobs[wanted[q]].entry.file)
  }

  /** A file that cannot be encoded stays automatic through every run. */
  lemma AllEncodeStays(c: Codec, was: seq<Job>, now: seq<Job>, wanted: seq<nat>)
    requires JobsMoved(c, was, now) && Named(was, wanted)
    ensures Named(now, wanted) && (AllEncode(was, wanted) <==> AllEncode(now, wanted))
  {
    forall q | 0 <= q < |wanted|
      ensures AutoJob(was[wanted[q]]) && !Encodes(was[wanted[q]].entry.file)
         <==> AutoJob(now[wanted[q]]) && !Encodes(now[wanted[q]].entry.file)
    {
      assert JobMoved(c, was[wanted[q]], now[wanted[q]]);
    }
  }

  /** Readable, and nothing left that an older image would refuse. */
  ghost predicate JobsSettled(c: Codec, jobs: seq<Job>, wanted: seq<nat>)
    requires Named(jobs, wanted)
  {
    AllRead(jobs, wanted) && NoAutoJob(jobs, wanted) && ClipsAllSettled(c, jobs, wanted)
  }

  ghost predicate AnyRefused(jobs: seq<Job>, wanted: seq<nat>)
    requires Named(jobs, wanted)
  {
    exists q :: 0 <= q < |wanted| && jobs[wanted[q]].entry.Refused?
  }

  /** A clip with a foreign backup in a readable job. */
  ghost predicate AnyForeignJob(c: Codec, jobs: seq<Job>, wanted: seq<nat>)
    requires Named(jobs, wanted)
  {
    exists q :: 0 <= q < |wanted| && jobs[wanted[q]].entry.Read? && AnyForeign(c, jobs[wanted[q]].clips)
  }

  /** What makes an exception that `run` does not catch. */
  ghost predicate Uncaught(c: Codec, apply: bool, jobs: seq<Job>, wanted: seq<nat>)
    requires Named(jobs, wanted)
  {
    AnyRefused(jobs, wanted) || (apply && AnyForeignJob(c, jobs, wanted))
  }

  /** A job directory after some writes: its clips moved, and `job.json` has at most its render mode
      rewritten. */
  ghost predicate JobMoved(c: Codec, was: Job, now: Job) {
    && ClipsMoved(c, was.clips, now.clips)
    && (now.entry == was.entry || (AutoJob(was) && Writable(was.entry.file) && now.entry == Written(c, was.entry.file)))
  }

  ghost predicate JobsMoved(c: Codec, was: seq<Job>, now: seq<Job>) {
    |was| == |now| && forall i | 0 <= i < |was| :: JobMoved(c, was[i], now[i])
  }

  /** Any number of runs, stopped anywhere, are one sequence of writes. */
  lemma RunsCompose(c: Codec, a: seq<Job>, b: seq<Job>, d: seq<Job>)
    requires JobsMoved(c, a, b) && JobsMoved(c, b, d)
    ensures JobsMoved(c, a, d)
  {
    forall i | 0 <= i < |a| ensures JobMoved(c, a[i], d[i]) {
      assert JobMoved(c, a[i], b[i]) && JobMoved(c, b[i], d[i]);
      ClipsCompose(c, a[i].clips, b[i].clips, d[i].clips);
    }
  }

  lemma JobsStay(c: Codec, jobs: seq<Job>)
    ensures JobsMoved(c, jobs, jobs)
  {
    forall i | 0 <= i < |jobs| ensures JobMoved(c, jobs[i], jobs[i]) {
      ClipStays(c, jobs[i].clips);
    }
  }

  /** Where nothing hinders a run, nothing that earlier runs have left hinders it, unless they have
      rewritten a file beyond its size limit. */
  lemma UnhinderedStays(c: Codec, was: seq<Job>, now: seq<Job>, wanted: seq<nat>, clock: (nat, nat) -> int)
    requires Good(c) && JobsMoved(c, was, now) && Named(was, wanted) && Unhindered(c, was, wanted, clock)
    ensures Named(now, wanted)
    ensures !AnyRefused(now, wanted) ==> Unhindered(c, now, wanted, clock)
    ensures AllFit(c, was, wanted) ==> !AnyRefused(now, wanted)
  {
    if AnyRefused(now, wanted) {
      var q :| 0 <= q < |wanted| && now[wanted[q]].entry.Refused?;
      assert was[wanted[q]].entry.Read? && JobMoved(c, was[wanted[q]], now[wanted[q]]);
    }
    forall q: nat | q < |wanted| && !AnyRefused(now, wanted)
      ensures now[wanted[q]].entry.Read? && AllWorkable(c, now[wanted[q]].clips, Row(clock, q))
    {
      assert JobMoved(c, was[wanted[q]], now[wanted[q]]) && !now[wanted[q]].entry.Refused?;
      ClipsKeep(c, was[wanted[q]].clips, now[wanted[q]].clips, Row(clock, q));
    }
  }

  /** Settled jobs hinder nothing. */
  lemma SettledIsUnhindered(c: Codec, jobs: seq<Job>, wanted: seq<nat>, clock: (nat, nat) -> int)
    requires Named(jobs, wanted) && JobsSettled(c, jobs, wanted)
    ensures Unhindered(c, jobs, wanted, clock)
  {
    forall q: nat | q < |wanted| ensures AllWorkable(c, jobs[wanted[q]].clips, Row(clock, q)) {
      assert AllSettled(c, jobs[wanted[q]].clips);
      forall k: nat | k < |jobs[wanted[q]].clips|
        ensures Workable(c, jobs[wanted[q]].clips[k], Row(clock, q)(k))
      {
        SettledIsWorkable(c, jobs[wanted[q]].clips[k], clock(q, k));
      }
    }
  }

  lemma {:induction false} SettledTotal(c: Codec, apply: bool, jobs: seq<Job>, wanted: seq<nat>)
    requires Named(jobs, wanted) && JobsSettled(c, jobs, wanted)
    ensures Total(c, apply, jobs, wanted) == 0
  {
    if wanted != [] {
      var n := |wanted| - 1;
      SettledTotal(c, apply, jobs, wanted[..n]);
      assert AllSettled(c, jobs[wanted[n]].clips) && !AutoJob(jobs[wanted[n]]);
      SettledChanges(c, jobs[wanted[n]].clips);
    }
  }

  // --- the two counts --------------------------------------------------------------------------------------

  /** A job that is named again has no changes in its clips. */
  ghost predicate RepeatsAreQuiet(c: Codec, jobs: seq<Job>, wanted: seq<nat>)
    requires Named(jobs, wanted)
  {
    forall p, q | 0 <= p < q < |wanted| && wanted[p] == wanted[q] :: ClipChanges(c, jobs[wanted[q]].clips) == 0
  }

  lemma RepeatsNext(c: Codec, jobs: seq<Job>, wanted: seq<nat>)
    requires Named(jobs, wanted) && wanted != []
    ensures var n := |wanted| - 1;
            RepeatsAreQuiet(c, jobs, wanted) <==>
              RepeatsAreQuiet(c, jobs, wanted[..n])
              && (wanted[n] in wanted[..n] ==> ClipChanges(c, jobs[wanted[n]].clips) == 0)
  {
    var n := |wanted| - 1;
    var front := wanted[..n];
    if RepeatsAreQuiet(c, jobs, wanted) {
      if p :| 0 <= p < n && front[p] == wanted[n] {
        assert wanted[p] == wanted[n];
      }
    }
    if RepeatsAreQuiet(c, jobs, front) && (wanted[n] in front ==> ClipChanges(c, jobs[wanted[n]].clips) == 0) {
      forall p, q | 0 <= p < q < |wanted| && wanted[p] == wanted[q]
        ensures ClipChanges(c, jobs[wanted[q]].clips) == 0
      {
        assert front[p] == wanted[p];
        assert q < n ==> front[q] == wanted[q];
      }
    }
  }

  /** A dry run never counts less than an apply run, and they count the same if and only if no job with
      changes in its clips is named twice. */
  lemma {:induction false} CountsAgree(c: Codec, jobs: seq<Job>, wanted: seq<nat>)
    requires Named(jobs, wanted)
    ensures Total(c, true, jobs, wanted) <= Total(c, false, jobs, wanted)
    ensures Total(c, true, jobs, wanted) == Total(c, false, jobs, wanted) <==> RepeatsAreQuiet(c, jobs, wanted)
  {
    if wanted != [] {
      CountsAgree(c, jobs, wanted[..|wanted| - 1]);
      RepeatsNext(c, jobs, wanted);
    }
  }

  /** One automatic seed in a job that is named twice: a dry run counts it twice, an apply run once. */
  lemma NamedTwice(c: Codec) returns (job: Job)
    requires Good(c)
    ensures Total(c, false, [job], [0, 0]) == 2 && Total(c, true, [job], [0, 0]) == 1
  {
    var seed := Doc(Layout("auto", None, Some(""), None, ""), Base(Some(""), None, ""), 0, None, Audit("", 0, ""), "");
    var f := Files(c.encode(seed), None, None, map[]);
    job := Job(Read(JobFile(None, [], false)), [f]);
    assert Changes(c, f) == 1 && ClipChanges(c, []) == 0;
    assert [f][..0] == [] && ClipChanges(c, [f]) == 1;
    var none: seq<nat> := [];
    var once: seq<nat> := [0];
    var twice: seq<nat> := [0, 0];
    assert once[..0] == none && twice[..1] == once && once[0] !in none;
    assert Total(c, false, [job], once) == Total(c, false, [job], none) + 1;
    assert Total(c, true, [job], once) == Total(c, true, [job], none) + 1;
  }
}
