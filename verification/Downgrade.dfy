/** What `scripts/ops/auto_layout_downgrade.py` writes for one clip, one atomic write at a time, and
    what every sequence of such writes keeps. */
module Downgrade {
  import opened Chains
  import opened JobFiles
  import opened Rows
  import opened Wrappers

  // --- documents --------------------------------------------------------------------------------------

  /** Canonical JSON of a part that the program only copies. */
  type Text = string
  type Bytes = seq<Byte>

  datatype Layout = Layout(mode: Text, noFace: Option<Text>, ranges: Option<Text>, split: Option<Text>, rest: Text)
  datatype Base = Base(shots: Option<Text>, seedSha: Option<Text>, rest: Text)
  datatype Audit = Audit(lastCommand: Text, updatedAt: int, rest: Text)
  datatype Doc = Doc(layout: Layout, base: Base, revision: int, parent: Option<Text>, audit: Audit, rest: Text)

  /** A seed without `audit` and with a null `base.seed_sha256`: what `seed_sha256` hashes. */
  datatype Content = Content(layout: Layout, base: Base, revision: int, parent: Option<Text>, rest: Text)

  /** Encoding, parsing, hashing and validation, whatever they do inside; `jobSize` is the length of the
      `job.json` that is written. */
  datatype Codec = Codec(encode: Doc -> Bytes, decode: Bytes -> Option<Doc>, encodeContent: Content -> Bytes,
                         sha: Bytes -> Text, accept: (Doc, Doc) -> bool, jobSize: JobFile -> nat)

  /** Encoding and parsing are inverse: `_load` refuses bytes that are not canonical. */
  ghost predicate Good(c: Codec) {
    && (forall d :: c.decode(c.encode(d)) == Some(d))
    && (forall b :: c.decode(b).Some? ==> c.encode(c.decode(b).value) == b)
  }

  predicate IsAutomatic(d: Doc) {
    d.layout.mode == "auto" || d.layout.ranges.Some? || d.base.shots.Some?
  }

  function DowngradedLayout(l: Layout): Layout {
    var plain := l.(ranges := None);
    var changed := if l.mode == "auto" then plain.(mode := "fit_blur", noFace := Some("center")) else plain;
    if changed.mode != "split" then changed.(split := None) else changed
  }

  function SeedSha(c: Codec, d: Doc): Text {
    c.sha(c.encodeContent(ContentOf(d)))
  }

  function ContentOf(d: Doc): Content {
    Content(d.layout, d.base.(seedSha := None), d.revision, d.parent, d.rest)
  }

  function DowngradedSeed(c: Codec, seed: Doc): Doc {
    var changed := seed.(layout := DowngradedLayout(seed.layout), base := seed.base.(shots := None),
                         audit := seed.audit.(lastCommand := "Downgrade"));
    changed.(base := changed.base.(seedSha := Some(SeedSha(c, changed))))
  }

  function DowngradedRevision(current: Doc, etag: Text, seed: Doc): Doc {
    current.(layout := DowngradedLayout(current.layout), base := seed.base, revision := current.revision + 1,
             parent := Some(etag), audit := current.audit.(lastCommand := "Downgrade"))
  }

  function Stamped(d: Doc, at: int): Doc {
    d.(audit := d.audit.(updatedAt := at))
  }

  /** Neither form is automatic; a revision only because the seed it takes its base from is not. */
  lemma DowngradedIsNotAutomatic(c: Codec, seed: Doc, current: Doc, etag: Text, at: int)
    ensures !IsAutomatic(DowngradedSeed(c, seed))
    ensures IsAutomatic(Stamped(DowngradedRevision(current, etag, seed), at)) <==> seed.base.shots.Some?
  {
  }

  /** A layout that an older image accepts is only missing the split's bands of another layout. */
  lemma DowngradedLayoutTwice(l: Layout)
    ensures DowngradedLayout(DowngradedLayout(l)) == DowngradedLayout(l)
    ensures l.mode != "auto" && l.ranges.None? && (l.mode == "split" || l.split.None?) <==> DowngradedLayout(l) == l
  {
  }

  // --- the files of a clip -------------------------------------------------------------------------------

  /** `seed.json`, `seed.auto.json`, `edit/doc.json` and `edit/archive`, keyed by revision and etag. */
  datatype Files = Files(seed: Bytes, backup: Option<Bytes>, doc: Option<Bytes>, archive: map<(int, Text), Bytes>)

  predicate Readable(c: Codec, f: Files) {
    c.decode(f.seed).Some? && (f.doc.Some? ==> c.decode(f.doc.value).Some?)
  }

  function SeedOf(c: Codec, f: Files): Doc
    requires c.decode(f.seed).Some?
  {
    c.decode(f.seed).value
  }

  predicate SeedAuto(c: Codec, f: Files) {
    c.decode(f.seed).Some? && IsAutomatic(c.decode(f.seed).value)
  }

  predicate HasDoc(c: Codec, f: Files) {
    f.doc.Some? && c.decode(f.doc.value).Some?
  }

  function DocOf(c: Codec, f: Files): Doc
    requires HasDoc(c, f)
  {
    c.decode(f.doc.value).value
  }

  predicate DocAuto(c: Codec, f: Files) {
    HasDoc(c, f) && IsAutomatic(DocOf(c, f))
  }

  /** The archive name of the current revision. */
  function Key(c: Codec, f: Files): (int, Text)
    requires HasDoc(c, f)
  {
    (DocOf(c, f).revision, c.sha(f.doc.value))
  }

  predicate Archived(c: Codec, f: Files)
    requires HasDoc(c, f)
  {
    Key(c, f) in f.archive && f.archive[Key(c, f)] == f.doc.value
  }

  /** Readable, and nothing left that an older image would refuse. */
  predicate Settled(c: Codec, f: Files) {
    Readable(c, f) && !SeedAuto(c, f) && !DocAuto(c, f)
  }

  /** How many changes a run lists for the clip. */
  function Changes(c: Codec, f: Files): nat {
    (if SeedAuto(c, f) then 1 else 0) + (if DocAuto(c, f) then 1 else 0)
  }

  // --- the writes ----------------------------------------------------------------------------------------

  ghost predicate BackupWrite(c: Codec, f: Files, g: Files) {
    SeedAuto(c, f) && f.backup.None? && g == f.(backup := Some(f.seed))
  }

  ghost predicate SeedWrite(c: Codec, f: Files, g: Files) {
    SeedAuto(c, f) && f.backup == Some(f.seed) && g == f.(seed := c.encode(DowngradedSeed(c, SeedOf(c, f))))
  }

  ghost predicate ArchiveWrite(c: Codec, f: Files, g: Files) {
    Readable(c, f) && !SeedAuto(c, f) && DocAuto(c, f) && Key(c, f) !in f.archive
    && g == f.(archive := f.archive[Key(c, f) := f.doc.value])
  }

  /** The revision that replaces the current one. */
  function NextDoc(c: Codec, f: Files, at: int): Doc
    requires HasDoc(c, f) && c.decode(f.seed).Some?
  {
    Stamped(DowngradedRevision(DocOf(c, f), c.sha(f.doc.value), SeedOf(c, f)), at)
  }

  ghost predicate DocWrite(c: Codec, f: Files, g: Files) {
    Readable(c, f) && !SeedAuto(c, f) && DocAuto(c, f) && Archived(c, f)
    && exists at :: DocOf(c, f).audit.updatedAt < at && g == f.(doc := Some(c.encode(NextDoc(c, f, at))))
  }

  /** One atomic write of the program. */
  ghost predicate Write(c: Codec, f: Files, g: Files) {
    BackupWrite(c, f, g) || SeedWrite(c, f, g) || ArchiveWrite(c, f, g) || DocWrite(c, f, g)
  }

  ghost function Writes(c: Codec): (Files, Files) -> bool {
    (f, g) => Write(c, f, g)
  }

  /** `n` writes lead from `f` to `g`: any number of runs, each stopped after any of its writes. */
  ghost predicate Reach(c: Codec, f: Files, g: Files, n: nat) {
    Chain(Writes(c), f, g, n)
  }

  lemma ReachLast(c: Codec, f: Files, g: Files, n: nat) returns (h: Files)
    requires Reach(c, f, g, n) && n > 0
    ensures Reach(c, f, h, n - 1) && Write(c, h, g)
  {
    h :| Chain(Writes(c), f, h, n - 1) && Writes(c)(h, g);
  }

  lemma ReachNone(c: Codec, f: Files)
    ensures Reach(c, f, f, 0)
  {
  }

  lemma ReachOneMore(c: Codec, f: Files, g: Files, h: Files, n: nat)
    requires Reach(c, f, g, n) && Write(c, g, h)
    ensures Reach(c, f, h, n + 1)
  {
    assert Writes(c)(g, h);
  }

  lemma ReachJoins(c: Codec, f: Files, g: Files, h: Files, m: nat, n: nat)
    requires Reach(c, f, g, m) && Reach(c, g, h, n)
    ensures Reach(c, f, h, m + n)
  {
    ChainJoins(Writes(c), f, g, h, m, n);
  }

  // --- every write is progress -----------------------------------------------------------------------------

  /** The writes that are left. */
  function Remaining(c: Codec, f: Files): nat {
    (if !SeedAuto(c, f) then 0 else if f.backup.None? then 2 else 1)
    + (if !DocAuto(c, f) then 0 else if Archived(c, f) then 1 else 2)
  }

  lemma WriteIsProgress(c: Codec, f: Files, g: Files)
    requires Good(c) && Write(c, f, g)
    ensures Remaining(c, g) == Remaining(c, f) - 1
  {
    if SeedWrite(c, f, g) {
      DowngradedIsNotAutomatic(c, SeedOf(c, f), SeedOf(c, f), "", 0);
      assert c.decode(g.seed) == Some(DowngradedSeed(c, SeedOf(c, f)));
    } else if DocWrite(c, f, g) {
      var at :| DocOf(c, f).audit.updatedAt < at && g == f.(doc := Some(c.encode(NextDoc(c, f, at))));
      DowngradedIsNotAutomatic(c, SeedOf(c, f), DocOf(c, f), c.sha(f.doc.value), at);
      assert c.decode(g.doc.value) == Some(NextDoc(c, f, at));
    }
  }

  /** All runs together never write more than four times, however they are stopped. */
  lemma {:induction false} WritesAreBounded(c: Codec, f: Files, g: Files, n: nat)
    requires Good(c) && Reach(c, f, g, n)
    ensures n == Remaining(c, f) - Remaining(c, g) && n <= 4
    decreases n
  {
    if n > 0 {
      var h := ReachLast(c, f, g, n);
      WritesAreBounded(c, f, h, n - 1);
      WriteIsProgress(c, h, g);
    }
  }

  /** A settled clip is never written again. */
  lemma SettledIsFinal(c: Codec, f: Files)
    requires Settled(c, f)
    ensures forall g :: !Write(c, f, g)
    ensures Changes(c, f) == 0 && Remaining(c, f) == 0
  {
  }

  // --- what every state on the way has kept ------------------------------------------------------------------

  /** The seed that all runs aim at. */
  function FinalSeed(c: Codec, f: Files): Bytes
    requires c.decode(f.seed).Some?
  {
    if SeedAuto(c, f) then c.encode(DowngradedSeed(c, SeedOf(c, f))) else f.seed
  }

  /** The original automatic seed is never lost: it is in place, or its bytes are the backup. */
  ghost predicate SeedKept(c: Codec, start: Files, f: Files) {
    if !SeedAuto(c, start) then f.seed == start.seed && f.backup == start.backup
    else
      && (start.backup.Some? ==> f.backup == start.backup)
      && ((f.seed == start.seed && (f.backup.Some? ==> f.backup == start.backup || f.backup == Some(start.seed)))
          || (f.seed == FinalSeed(c, start) && f.backup == Some(start.seed)))
  }

  ghost predicate ArchiveKept(c: Codec, start: Files, f: Files) {
    f.archive == start.archive
    || (DocAuto(c, start) && Key(c, start) !in start.archive
        && f.archive == start.archive[Key(c, start) := start.doc.value])
  }

  /** The one revision that a run may add to the document. */
  ghost predicate Revised(c: Codec, start: Files, f: Files) {
    DocAuto(c, start) && c.decode(start.seed).Some? && c.decode(FinalSeed(c, start)).Some?
    && exists at :: DocOf(c, start).audit.updatedAt < at && f.doc == Some(c.encode(Stamped(DowngradedRevision(
      DocOf(c, start), c.sha(start.doc.value), c.decode(FinalSeed(c, start)).value), at)))
  }

  /** The current revision is never lost: it is in place, or archived below its successor. */
  ghost predicate DocKept(c: Codec, start: Files, f: Files) {
    f.doc == start.doc
    || (Revised(c, start, f) && f.seed == FinalSeed(c, start)
        && Key(c, start) in f.archive && f.archive[Key(c, start)] == start.doc.value)
  }

  ghost predicate Kept(c: Codec, start: Files, f: Files) {
    SeedKept(c, start, f) && ArchiveKept(c, start, f) && DocKept(c, start, f)
  }

  lemma FinalSeedIsPlain(c: Codec, f: Files)
    requires Good(c) && c.decode(f.seed).Some?
    ensures c.decode(FinalSeed(c, f)).Some? && !IsAutomatic(c.decode(FinalSeed(c, f)).value)
    ensures SeedAuto(c, f) ==> FinalSeed(c, f) != f.seed
  {
    DowngradedIsNotAutomatic(c, SeedOf(c, f), SeedOf(c, f), "", 0);
  }

  lemma SeedWritesKeep(c: Codec, start: Files, f: Files, g: Files)
    requires Good(c) && Kept(c, start, f) && (BackupWrite(c, f, g) || SeedWrite(c, f, g))
    ensures Kept(c, start, g)
  {
    assert f.seed == start.seed by {
      if SeedAuto(c, start) {
        FinalSeedIsPlain(c, start);
      }
    }
    assert f.doc == start.doc by {
      if c.decode(start.seed).Some? {
        FinalSeedIsPlain(c, start);
      }
    }
  }

  lemma DocWritesKeep(c: Codec, start: Files, f: Files, g: Files)
    requires Good(c) && Kept(c, start, f) && (ArchiveWrite(c, f, g) || DocWrite(c, f, g))
    ensures Kept(c, start, g)
  {
    assert f.doc == start.doc by {
      RevisedIsPlain(c, start, f);
    }
    SeedIsFinal(c, start, f);
    if DocWrite(c, f, g) {
      var at :| DocOf(c, f).audit.updatedAt < at && g == f.(doc := Some(c.encode(NextDoc(c, f, at))));
      assert g.doc == Some(c.encode(Stamped(DowngradedRevision(DocOf(c, start), c.sha(start.doc.value),
                                                               c.decode(FinalSeed(c, start)).value), at)));
      assert Revised(c, start, g);
    }
  }

  lemma RevisedIsPlain(c: Codec, start: Files, f: Files)
    requires Good(c)
    ensures Revised(c, start, f) ==> HasDoc(c, f) && !DocAuto(c, f)
  {
    if Revised(c, start, f) {
      FinalSeedIsPlain(c, start);
      var seed := c.decode(FinalSeed(c, start)).value;
      var at :| DocOf(c, start).audit.updatedAt < at
        && f.doc == Some(c.encode(Stamped(DowngradedRevision(DocOf(c, start), c.sha(start.doc.value), seed), at)));
      DowngradedIsNotAutomatic(c, seed, DocOf(c, start), c.sha(start.doc.value), at);
    }
  }

  /** A readable seed that is not automatic is the final one. */
  lemma SeedIsFinal(c: Codec, start: Files, f: Files)
    requires Good(c) && SeedKept(c, start, f) && c.decode(f.seed).Some? && !SeedAuto(c, f)
    ensures c.decode(start.seed).Some? && f.seed == FinalSeed(c, start)
    ensures SeedAuto(c, start) ==> f.backup == Some(start.seed)
  {
  }

  /** After any number of runs, each stopped after any of its writes, nothing has been lost. */
  lemma {:induction false} EveryStateKeeps(c: Codec, start: Files, f: Files, n: nat)
    requires Good(c) && Reach(c, start, f, n)
    ensures Kept(c, start, f)
    decreases n
  {
    if n > 0 {
      var h := ReachLast(c, start, f, n);
      EveryStateKeeps(c, start, h, n - 1);
      if BackupWrite(c, h, f) || SeedWrite(c, h, f) {
        SeedWritesKeep(c, start, h, f);
      } else {
        DocWritesKeep(c, start, h, f);
      }
    }
  }

  // --- where completed runs end --------------------------------------------------------------------------

  /** The end state: the final seed, the original seed bytes beside it, and the revision, if it was
      automatic, archived below its Latar blur form. */
  ghost predicate Converged(c: Codec, start: Files, f: Files) {
    && c.decode(start.seed).Some? && f.seed == FinalSeed(c, start)
    && (if SeedAuto(c, start) then f.backup == Some(start.seed) else f.backup == start.backup)
    && (if DocAuto(c, start) then
          Revised(c, start, f) && f.archive == start.archive[Key(c, start) := start.doc.value]
        else f.doc == start.doc && f.archive == start.archive)
  }

  /** From any state left by stopped runs, a completed run ends in the state that one run without a
      stop would have produced. */
  lemma Convergence(c: Codec, start: Files, f: Files, n: nat)
    requires Good(c) && Reach(c, start, f, n) && Settled(c, f)
    ensures Converged(c, start, f)
  {
    EveryStateKeeps(c, start, f, n);
    SeedIsFinal(c, start, f);
    if DocAuto(c, start) {
      assert f.doc != start.doc;
      assert start.archive[Key(c, start) := start.doc.value] == f.archive;
    }
  }

  /** The same document but for the time of the last change. */
  ghost predicate SameButTime(c: Codec, f: Files, g: Files) {
    f.doc == g.doc || (HasDoc(c, f) && HasDoc(c, g) && Stamped(DocOf(c, f), 0) == Stamped(DocOf(c, g), 0))
  }

  /** Two histories of stopped runs end alike. */
  lemma HistoriesAgree(c: Codec, start: Files, f: Files, g: Files, m: nat, n: nat)
    requires Good(c) && Reach(c, start, f, m) && Reach(c, start, g, n) && Settled(c, f) && Settled(c, g)
    ensures f.seed == g.seed && f.backup == g.backup && f.archive == g.archive && SameButTime(c, f, g)
    ensures m == n
  {
    Convergence(c, start, f, m);
    Convergence(c, start, g, n);
    WritesAreBounded(c, start, f, m);
    WritesAreBounded(c, start, g, n);
  }

  // --- the base of the current revision ------------------------------------------------------------------

  /** What every saved revision satisfies: the seed's own base. */
  ghost predicate InSync(c: Codec, f: Files) {
    HasDoc(c, f) && c.decode(f.seed).Some? && DocOf(c, f).base == SeedOf(c, f).base
  }

  /** What `build_seed` writes, and validation demands of the automatic mode: an automatic document names
      its shot plan. */
  predicate NamesShots(d: Doc) {
    IsAutomatic(d) ==> d.base.shots.Some?
  }

  /** A revision with the base of an automatic seed is automatic itself, whatever its layout. */
  lemma RevisionFollowsSeed(c: Codec, f: Files)
    requires InSync(c, f) && NamesShots(SeedOf(c, f)) && SeedAuto(c, f)
    ensures DocAuto(c, f)
  {
  }

  /** After the rollback the revision still has its seed's base, which the next save has to repeat. */
  lemma BaseStaysInSync(c: Codec, start: Files, f: Files, n: nat)
    requires Good(c) && Reach(c, start, f, n) && Settled(c, f)
    requires InSync(c, start) && NamesShots(SeedOf(c, start))
    ensures InSync(c, f)
  {
    Convergence(c, start, f, n);
    FinalSeedIsPlain(c, start);
    if SeedAuto(c, start) {
      RevisionFollowsSeed(c, start);
    }
  }
}
