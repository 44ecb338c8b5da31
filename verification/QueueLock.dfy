/** The primary queue lock of `scripts/ops/auto_layout_downgrade.py` (`queue_lock`, `_rewrite_job`):
    every interleaving of any number of processes that write `job.json` files under it, each of which
    may stop at any point. */
module QueueLock {
  import opened Chains
  import opened JobFiles
  import opened Wrappers

  // --- processes ------------------------------------------------------------------------------------------

  /** The program, or any other writer that updates one file under the lock. */
  datatype Role = Downgrader(list: seq<nat>) | Writer(file: nat, update: JobFile -> JobFile)

  /** Where a process is; `next` counts the files it has dealt with. */
  datatype Place =
    | Waiting
    | Made
    | Owning(next: nat)
    | Holding(next: nat, value: JobFile)
    | Finishing(next: nat)
    | Checked(next: nat)
    | Unlinked(next: nat)
    | Released
    | Ended

  datatype Process = Process(role: Role, place: Place)

  /** One `job.json` write: which file, by whom. */
  datatype Update = Update(file: nat, role: Role)

  datatype State = State(lock: Lock, files: seq<JobFile>, processes: seq<Process>, log: seq<Update>)

  function Length(role: Role): nat {
    if role.Downgrader? then |role.list| else 1
  }

  /** The file that a process deals with at its `next` turn. */
  function FileOf(role: Role, next: nat): nat
    requires next < Length(role)
  {
    if role.Downgrader? then role.list[next] else role.file
  }

  /** What a process makes of a file. */
  function Applied(role: Role, file: JobFile): JobFile {
    if role.Writer? then role.update(file) else if Auto(file) then Rewritten(file) else file
  }

  /** The program would rewrite the file and cannot write back what was parsed. Other writers escape. */
  predicate Refuses(file: JobFile) {
    Auto(file) && !Writable(file)
  }

  /** The files after the updates, one after another. */
  function Replay(files: seq<JobFile>, log: seq<Update>): (r: seq<JobFile>)
    ensures |r| == |files|
  {
    if log == [] then files
    else
      var before, last := Replay(files, log[..|log| - 1]), log[|log| - 1];
      if last.file < |files| then before[last.file := Applied(last.role, before[last.file])] else before
  }

  // --- steps ------------------------------------------------------------------------------------------------

  function Move(s: State, p: nat, place: Place): State
    requires p < |s.processes|
  {
    s.(processes := s.processes[p := s.processes[p].(place := place)])
  }

  /** `os.mkdir` succeeds only where there is no lock. */
  ghost predicate Mkdir(s: State, t: State, p: nat)
    requires p < |s.processes|
  {
    s.processes[p].place.Waiting? && s.lock.Absent? && t == Move(s.(lock := Present(p, None)), p, Made)
  }

  /** `atomic_write` of `owner.json` into whatever directory is there. */
  ghost predicate WriteOwner(s: State, t: State, p: nat)
    requires p < |s.processes|
  {
    s.processes[p].place.Made? && s.lock.Present? && t == Move(s.(lock := s.lock.(owner := Some(p))), p, Owning(0))
  }

  /** Reading a `job.json` again, under the lock. */
  ghost predicate ReadFile(s: State, t: State, p: nat)
    requires p < |s.processes|
  {
    var place, role := s.processes[p].place, s.processes[p].role;
    place.Owning? && place.next < Length(role) && FileOf(role, place.next) < |s.files|
    && t == Move(s, p, Holding(place.next, s.files[FileOf(role, place.next)]))
  }

  /** Writing back what was made of the value read; the program leaves a file that is not automatic, and
      has no way to write one that cannot be encoded: it can only leave. */
  ghost predicate WriteFile(s: State, t: State, p: nat)
    requires p < |s.processes|
  {
    var place, role := s.processes[p].place, s.processes[p].role;
    place.Holding? && place.next < Length(role) && FileOf(role, place.next) < |s.files|
    && var file := FileOf(role, place.next);
      if role.Downgrader? && !Auto(place.value) then t == Move(s, p, Owning(place.next + 1))
      else
        !(role.Downgrader? && Refuses(place.value))
        && t == Move(s.(files := s.files[file := Applied(role, place.value)], log := s.log + [Update(file, role)]), p,
                     Owning(place.next + 1))
  }

  /** The block ends, normally or by an exception. */
  ghost predicate Leave(s: State, t: State, p: nat)
    requires p < |s.processes|
  {
    var place := s.processes[p].place;
    (place.Made? && t == Move(s, p, Finishing(0)))
    || ((place.Owning? || place.Holding?) && t == Move(s, p, Finishing(place.next)))
  }

  /** Reading `owner.json`: only one's own token leads on to the removal. */
  ghost predicate CheckOwner(s: State, t: State, p: nat)
    requires p < |s.processes|
  {
    var place := s.processes[p].place;
    place.Finishing?
    && t == Move(s, p, if s.lock.Present? && s.lock.owner == Some(p) then Checked(place.next) else Ended)
  }

  /** `os.unlink` of whatever `owner.json` is there. */
  ghost predicate Unlink(s: State, t: State, p: nat)
    requires p < |s.processes|
  {
    var place := s.processes[p].place;
    place.Checked?
    && (if s.lock.Present? && s.lock.owner.Some?
        then t == Move(s.(lock := s.lock.(owner := None)), p, Unlinked(place.next))
        else t == Move(s, p, Ended))
  }

  /** `os.rmdir` of whatever empty directory is there. */
  ghost predicate Rmdir(s: State, t: State, p: nat)
    requires p < |s.processes|
  {
    s.processes[p].place.Unlinked?
    && (if s.lock.Present? && s.lock.owner.None?
        then t == Move(s.(lock := Absent), p, Released)
        else t == Move(s, p, Ended))
  }

  /** A time-out, a stop between any two steps, or the process dies. */
  ghost predicate End(s: State, t: State, p: nat)
    requires p < |s.processes|
  {
    !s.processes[p].place.Released? && t == Move(s, p, Ended)
  }

  ghost predicate Step(s: State, t: State, p: nat) {
    p < |s.processes|
    && (Mkdir(s, t, p) || WriteOwner(s, t, p) || ReadFile(s, t, p) || WriteFile(s, t, p) || Leave(s, t, p)
        || CheckOwner(s, t, p) || Unlink(s, t, p) || Rmdir(s, t, p) || End(s, t, p))
  }

  ghost predicate Next(s: State, t: State) {
    exists p :: Step(s, t, p)
  }

  // --- the invariant ------------------------------------------------------------------------------------------

  predicate Holds(place: Place) {
    !place.Waiting? && !place.Released? && !place.Ended?
  }

  predicate Owns(place: Place) {
    place.Owning? || place.Holding? || place.Checked?
  }

  /** What the place of one process says about the shared files. */
  ghost predicate ProcessSound(s: State, p: nat)
    requires p < |s.processes|
  {
    var place, role := s.processes[p].place, s.processes[p].role;
    && (Holds(place) ==> s.lock.Present? && s.lock.maker == p)
    && (Owns(place) ==> s.lock.Present? && s.lock.owner == Some(p))
    && (place.Made? || place.Unlinked? ==> s.lock.Present? && s.lock.owner.None?)
    && (place.Waiting? || place.Released? ==> s.lock.Present? ==> s.lock.maker != p)
    && (place.Holding? ==> place.next < Length(role) && FileOf(role, place.next) < |s.files|
                           && place.value == s.files[FileOf(role, place.next)])
    && (Counts(place) && role.Downgrader? ==> Cleared(s.files, role.list, place.next))
  }

  predicate Counts(place: Place) {
    place.Owning? || place.Holding? || place.Finishing? || place.Checked? || place.Unlinked?
  }

  /** The first `n` files of the list are not automatic. */
  ghost predicate Cleared(files: seq<JobFile>, list: seq<nat>, n: nat) {
    n <= |list| && forall m | 0 <= m < n :: list[m] < |files| && !Auto(files[list[m]])
  }

  /** `owner.json`, if there is one, names the process that made the directory. */
  ghost predicate LockSound(s: State) {
    s.lock.Present? ==>
      s.lock.maker < |s.processes| && (s.lock.owner.None? || s.lock.owner == Some(s.lock.maker))
  }

  ghost predicate Sound(s: State) {
    && LockSound(s)
    && forall p: nat | p < |s.processes| :: ProcessSound(s, p)
  }

  ghost predicate Start(s: State) {
    s.lock.Absent? && s.log == [] && forall p: nat | p < |s.processes| :: s.processes[p].place.Waiting?
  }

  /** Another process keeps its view: the lock stays its own, and no file changes while it holds it. */
  lemma OthersKeep(s: State, t: State, p: nat, q: nat)
    requires Sound(s) && Step(s, t, p) && q < |s.processes| && q != p
    ensures |t.processes| == |s.processes| && t.processes[q] == s.processes[q] && ProcessSound(t, q)
  {
    assert ProcessSound(s, p) && ProcessSound(s, q);
  }

  lemma OneKeeps(s: State, t: State, p: nat)
    requires Sound(s) && Step(s, t, p)
    ensures |t.processes| == |s.processes| && ProcessSound(t, p)
    ensures LockSound(t)
  {
    assert ProcessSound(s, p);
    if WriteFile(s, t, p) {
      var place, role := s.processes[p].place, s.processes[p].role;
      if role.Downgrader? {
        ClearedNext(s.files, t.files, role, place.next);
      }
    }
  }

  /** One more file is not automatic, and the others are as they were. */
  lemma ClearedNext(files: seq<JobFile>, after: seq<JobFile>, role: Role, n: nat)
    requires role.Downgrader? && n < |role.list| && role.list[n] < |files| && Cleared(files, role.list, n)
    requires after == files[role.list[n] := Applied(role, files[role.list[n]])]
    ensures Cleared(after, role.list, n + 1)
  {
  }

  lemma StepKeeps(s: State, t: State, p: nat)
    requires Sound(s) && Step(s, t, p)
    ensures Sound(t)
  {
    OneKeeps(s, t, p);
    forall q: nat | q < |t.processes| ensures ProcessSound(t, q) {
      if q != p {
        OthersKeep(s, t, p, q);
      }
    }
  }

  // --- runs ---------------------------------------------------------------------------------------------------

  /** States one after another, each by a step of some process. */
  ghost predicate Behaviour(b: seq<State>) {
    && |b| > 0 && Start(b[0])
    && forall n | 0 <= n < |b| - 1 :: Follows(b, n)
  }

  ghost predicate Follows(b: seq<State>, n: nat)
    requires n + 1 < |b|
  {
    Next(b[n], b[n + 1])
  }

  lemma {:induction false} EveryStateIsSound(b: seq<State>, n: nat)
    requires Behaviour(b) && n < |b|
    ensures Sound(b[n])
  {
    if n > 0 {
      EveryStateIsSound(b, n - 1);
      assert Follows(b, n - 1);
      var p :| Step(b[n - 1], b[n], p);
      StepKeeps(b[n - 1], b[n], p);
    }
  }

  /** At most one process is between its `mkdir` and its `rmdir`. */
  lemma AtMostOneHolder(b: seq<State>, n: nat, p: nat, q: nat)
    requires Behaviour(b) && n < |b| && p < |b[n].processes| && q < |b[n].processes|
    requires Holds(b[n].processes[p].place) && Holds(b[n].processes[q].place)
    ensures p == q
  {
    EveryStateIsSound(b, n);
    assert ProcessSound(b[n], p) && ProcessSound(b[n], q);
  }

  /** A release that goes on after the token check succeeds, and removes the lock that the process made
      itself; a process that has released leaves nothing behind. */
  lemma ReleaseIsOwn(b: seq<State>, n: nat, p: nat)
    requires Behaviour(b) && n + 1 < |b| && Step(b[n], b[n + 1], p)
    ensures b[n].lock.Present? && b[n + 1].lock != b[n].lock ==> b[n].lock.maker == p
    ensures Unlink(b[n], b[n + 1], p) || Rmdir(b[n], b[n + 1], p) ==> b[n].lock.Present? && b[n].lock.maker == p
    ensures Unlink(b[n], b[n + 1], p) && !End(b[n], b[n + 1], p) ==> b[n + 1].processes[p].place.Unlinked?
    ensures Rmdir(b[n], b[n + 1], p) && !End(b[n], b[n + 1], p) ==> b[n + 1].lock.Absent?
    ensures b[n].processes[p].place.Finishing? && !End(b[n], b[n + 1], p) ==> b[n].lock.owner == Some(p)
  {
    EveryStateIsSound(b, n);
    assert ProcessSound(b[n], p);
  }

  /** Whoever wants the lock can take it unless its maker still holds it or has died or failed with it. */
  lemma LockIsHeldOrAbandoned(b: seq<State>, n: nat)
    requires Behaviour(b) && n < |b| && b[n].lock.Present?
    ensures b[n].lock.maker < |b[n].processes|
    ensures Holds(b[n].processes[b[n].lock.maker].place) || b[n].processes[b[n].lock.maker].place.Ended?
  {
    EveryStateIsSound(b, n);
    assert ProcessSound(b[n], b[n].lock.maker);
  }

  // --- no update is lost ----------------------------------------------------------------------------------------

  /** One update of the value that is in the file at that moment. */
  ghost predicate Updates(s: State, t: State, role: Role, file: nat) {
    && file < |s.files| && t.files == s.files[file := Applied(role, s.files[file])]
    && t.log == s.log + [Update(file, role)]
    && (role.Downgrader? ==> Auto(s.files[file]) && Writable(s.files[file]))
  }

  ghost predicate UpdatesOne(s: State, t: State, role: Role) {
    exists file: nat :: Updates(s, t, role, file)
  }

  /** A step leaves the files and the log alone, or it is one update, by the holder of the lock. */
  lemma StepUpdates(s: State, t: State, p: nat)
    requires Step(s, t, p) && ProcessSound(s, p)
    ensures (t.files == s.files && t.log == s.log) || WriteFile(s, t, p)
    ensures WriteFile(s, t, p) && t.log != s.log ==>
      s.processes[p].place.Holding? && s.processes[p].place.next < Length(s.processes[p].role)
      && Updates(s, t, s.processes[p].role, FileOf(s.processes[p].role, s.processes[p].place.next))
    ensures t.log == s.log ==> t.files == s.files
  {
  }

  /** A write changes the value that is in the file at that moment, and the program writes only over
      an automatic one that it can write back, where it changes only the render mode. */
  lemma WritesUpdateTheCurrentValue(b: seq<State>, n: nat, p: nat)
    requires Behaviour(b) && n + 1 < |b| && Step(b[n], b[n + 1], p) && b[n + 1].files != b[n].files
    ensures UpdatesOne(b[n], b[n + 1], b[n].processes[p].role)
    ensures b[n].lock.Present? && b[n].lock.maker == p && b[n].lock.owner == Some(p)
  {
    EveryStateIsSound(b, n);
    assert ProcessSound(b[n], p);
    StepUpdates(b[n], b[n + 1], p);
  }

  /** What a step changes in a file: the program's only the render mode, from `auto` to `fit-blur`, in the
      file of its turn; a writer's only its own file, by its own update. */
  lemma StepChangesOneFile(b: seq<State>, n: nat, p: nat, file: nat)
    requires Behaviour(b) && n + 1 < |b| && Step(b[n], b[n + 1], p) && file < |b[n].files|
    ensures |b[n + 1].files| == |b[n].files|
    ensures var role, was, now := b[n].processes[p].role, b[n].files[file], b[n + 1].files[file];
            && (role.Downgrader? ==>
                  now.rest == was.rest && now.deep == was.deep
                  && (now.renderMode == was.renderMode
                      || (was.renderMode == Some("auto") && now.renderMode == Some("fit-blur"))))
            && (role.Writer? ==> now == was || (role.file == file && now == role.update(was)))
    ensures b[n].processes[p].role.Downgrader? && b[n + 1].files[file] != b[n].files[file] ==>
      var place, list := b[n].processes[p].place, b[n].processes[p].role.list;
      place.Holding? && place.next < |list| && list[place.next] == file
  {
    EveryStateIsSound(b, n);
    assert ProcessSound(b[n], p);
    StepUpdates(b[n], b[n + 1], p);
  }

  lemma LogStep(first: seq<JobFile>, s: State, t: State, p: nat)
    requires Step(s, t, p) && ProcessSound(s, p) && s.files == Replay(first, s.log)
    ensures t.files == Replay(first, t.log)
  {
    StepUpdates(s, t, p);
    if t.log != s.log {
      ReplayOne(first, s, t, s.processes[p].role, FileOf(s.processes[p].role, s.processes[p].place.next));
    }
  }

  lemma ReplayOne(first: seq<JobFile>, s: State, t: State, role: Role, file: nat)
    requires Updates(s, t, role, file) && s.files == Replay(first, s.log)
    ensures t.files == Replay(first, t.log)
  {
    assert t.log[..|t.log| - 1] == s.log;
  }

  /** The files are always what the logged updates make of the first ones, one after another. */
  lemma {:induction false} NoUpdateIsLost(b: seq<State>, n: nat)
    requires Behaviour(b) && n < |b|
    ensures b[n].files == Replay(b[0].files, b[n].log)
  {
    if n > 0 {
      NoUpdateIsLost(b, n - 1);
      EveryStateIsSound(b, n - 1);
      assert Follows(b, n - 1);
      var p :| Step(b[n - 1], b[n], p);
      assert ProcessSound(b[n - 1], p);
      LogStep(b[0].files, b[n - 1], b[n], p);
    }
  }

  /** When the program removes its lock after its whole list, no file of the list is automatic. */
  lemma CompletedListIsCleared(b: seq<State>, n: nat, p: nat, m: nat)
    requires Behaviour(b) && n < |b| && p < |b[n].processes| && b[n].processes[p].role.Downgrader?
    requires Counts(b[n].processes[p].place) && b[n].processes[p].place.next == |b[n].processes[p].role.list|
    requires m < |b[n].processes[p].role.list|
    ensures b[n].processes[p].role.list[m] < |b[n].files| && !Auto(b[n].files[b[n].processes[p].role.list[m]])
  {
    EveryStateIsSound(b, n);
    assert ProcessSound(b[n], p);
  }

  // --- a process alone --------------------------------------------------------------------------------------

  ghost function StepsOf(p: nat): (State, State) -> bool {
    (s, t) => Step(s, t, p)
  }

  /** `step` allows every step of the process. */
  ghost predicate Allows(step: (State, State) -> bool, p: nat) {
    forall s, t | Step(s, t, p) :: step(s, t)
  }

  ghost predicate FilesExist(role: Role, files: seq<JobFile>) {
    forall m: nat | m < Length(role) :: FileOf(role, m) < |files|
  }

  /** The files after the first `n` turns of a process, with nobody else in between. */
  ghost function AfterTurns(role: Role, files: seq<JobFile>, n: nat): (r: seq<JobFile>)
    requires FilesExist(role, files) && n <= Length(role)
    ensures |r| == |files|
  {
    if n == 0 then files
    else
      var before, file := AfterTurns(role, files, n - 1), FileOf(role, n - 1);
      before[file := Applied(role, before[file])]
  }

  /** Where a process stops: at the first file that it refuses, or at the end. */
  ghost function StopFrom(role: Role, files: seq<JobFile>, n: nat): (stop: nat)
    requires FilesExist(role, files) && n <= Length(role)
    ensures n <= stop <= Length(role)
    decreases Length(role) - n
  {
    if n == Length(role) || (role.Downgrader? && Refuses(files[FileOf(role, n)])) then n
    else StopFrom(role, files, n + 1)
  }

  /** The first refused file, as a condition on the list before anything runs. */
  lemma {:induction false} StopIsFirst(role: Role, files: seq<JobFile>, n: nat)
    requires FilesExist(role, files) && n <= Length(role)
    ensures forall m | n <= m < StopFrom(role, files, n) :: !(role.Downgrader? && Refuses(files[FileOf(role, m)]))
    ensures var stop := StopFrom(role, files, n);
            stop < Length(role) ==> role.Downgrader? && Refuses(files[FileOf(role, stop)])
    decreases Length(role) - n
  {
    if n < Length(role) && !(role.Downgrader? && Refuses(files[FileOf(role, n)])) {
      StopIsFirst(role, files, n + 1);
    }
  }

  /** No turn before the stop changes which files are refused. */
  lemma {:induction false} TurnsRefuseAlike(role: Role, files: seq<JobFile>, n: nat, file: nat)
    requires role.Downgrader? && FilesExist(role, files) && n <= StopFrom(role, files, 0) && file < |files|
    ensures Refuses(AfterTurns(role, files, n)[file]) == Refuses(files[file])
  {
    if n > 0 {
      TurnsRefuseAlike(role, files, n - 1, file);
      StopIsFirst(role, files, 0);
    }
  }

  /** Nothing but this process's place and the files (and their log) has changed. */
  ghost predicate OnlyTurned(s: State, t: State, p: nat, place: Place)
    requires p < |s.processes|
  {
    t == Move(s.(files := t.files, log := t.log), p, place) && |t.files| == |s.files|
  }

  lemma TwoSteps(step: (State, State) -> bool, s: State, u: State, t: State, p: nat)
    requires Allows(step, p) && Step(s, u, p) && Step(u, t, p)
    ensures Chain(step, s, t, 2)
  {
    assert step(s, u) && step(u, t);
    assert Chain(step, s, s, 0);
    ChainMore(step, s, s, u, 0);
    ChainMore(step, s, u, t, 1);
  }

  lemma TurnIsStep(s: State, t: State, p: nat)
    requires p < |s.processes| && (ReadFile(s, t, p) || WriteFile(s, t, p))
    ensures Step(s, t, p)
  {
  }

  lemma ReleaseIsStep(s: State, t: State, p: nat)
    requires p < |s.processes| && (Leave(s, t, p) || CheckOwner(s, t, p) || Unlink(s, t, p) || Rmdir(s, t, p))
    ensures Step(s, t, p)
  {
  }

  /** One turn: reading and writing a file that is not refused. */
  lemma OneTurn(step: (State, State) -> bool, s: State, p: nat) returns (t: State)
    requires Allows(step, p) && p < |s.processes| && s.processes[p].place.Owning?
    requires s.processes[p].place.next < Length(s.processes[p].role)
    requires FileOf(s.processes[p].role, s.processes[p].place.next) < |s.files|
    requires var file := FileOf(s.processes[p].role, s.processes[p].place.next);
             s.processes[p].role.Downgrader? ==> !Refuses(s.files[file])
    ensures OnlyTurned(s, t, p, Owning(s.processes[p].place.next + 1))
    ensures var file := FileOf(s.processes[p].role, s.processes[p].place.next);
            t.files == s.files[file := Applied(s.processes[p].role, s.files[file])]
    ensures Chain(step, s, t, 2)
  {
    var role, next := s.processes[p].role, s.processes[p].place.next;
    var file := FileOf(role, next);
    var holding := Move(s, p, Holding(next, s.files[file]));
    t := if role.Downgrader? && !Auto(s.files[file]) then Move(holding, p, Owning(next + 1))
         else Move(holding.(files := s.files[file := Applied(role, s.files[file])],
                            log := s.log + [Update(file, role)]), p, Owning(next + 1));
    TurnIsStep(s, holding, p);
    TurnIsStep(holding, t, p);
    TwoSteps(step, s, holding, t, p);
  }

  lemma TurnedJoins(s: State, u: State, t: State, p: nat, first: Place, second: Place)
    requires p < |s.processes| && OnlyTurned(s, u, p, first) && OnlyTurned(u, t, p, second)
    ensures OnlyTurned(s, t, p, second)
  {
  }

  lemma {:induction false} Turns(step: (State, State) -> bool, s: State, p: nat, n: nat) returns (t: State)
    requires Allows(step, p) && p < |s.processes| && s.processes[p].place == Owning(0)
    requires FilesExist(s.processes[p].role, s.files) && n <= StopFrom(s.processes[p].role, s.files, 0)
    ensures OnlyTurned(s, t, p, Owning(n)) && t.files == AfterTurns(s.processes[p].role, s.files, n)
    ensures Chain(step, s, t, 2 * n)
  {
    if n == 0 {
      t := s;
      assert s.processes[p := s.processes[p].(place := Owning(0))] == s.processes;
    } else {
      var u := Turns(step, s, p, n - 1);
      assert u.processes[p] == s.processes[p].(place := Owning(n - 1)) && |u.processes| == |s.processes|;
      var role := s.processes[p].role;
      StopIsFirst(role, s.files, 0);
      if role.Downgrader? {
        TurnsRefuseAlike(role, s.files, n - 1, FileOf(role, n - 1));
      }
      t := OneTurn(step, u, p);
      TurnedJoins(s, u, t, p, Owning(n - 1), Owning(n));
      ChainJoins(step, s, u, t, 2 * (n - 1), 2);
    }
  }

  /** Taking the free lock. */
  lemma TakesLock(step: (State, State) -> bool, s: State, p: nat) returns (t: State)
    requires Allows(step, p) && p < |s.processes| && s.lock.Absent? && s.processes[p].place.Waiting?
    ensures t == Move(s.(lock := Present(p, Some(p))), p, Owning(0)) && Chain(step, s, t, 2)
  {
    var made := Move(s.(lock := Present(p, None)), p, Made);
    t := Move(made.(lock := Present(p, Some(p))), p, Owning(0));
    assert Mkdir(s, made, p) && Step(s, made, p);
    assert WriteOwner(made, t, p) && Step(made, t, p);
    TwoSteps(step, s, made, t, p);
  }

  /** Giving it back, after the last file or with a refused one in hand. */
  lemma GivesBack(step: (State, State) -> bool, s: State, p: nat) returns (t: State)
    requires Allows(step, p) && p < |s.processes| && s.lock == Present(p, Some(p))
    requires s.processes[p].place.Owning? || s.processes[p].place.Holding?
    ensures t == Move(s.(lock := Absent), p, Released) && Chain(step, s, t, 4)
  {
    var next := s.processes[p].place.next;
    var done := Move(s, p, Finishing(next));
    var checked := Move(done, p, Checked(next));
    ReleaseIsStep(s, done, p);
    ReleaseIsStep(done, checked, p);
    TwoSteps(step, s, done, checked, p);
    t := Removes(step, checked, p, next);
    ChainJoins(step, s, checked, t, 2, 2);
  }

  lemma Removes(step: (State, State) -> bool, s: State, p: nat, next: nat) returns (t: State)
    requires Allows(step, p) && p < |s.processes|
    requires s.lock == Present(p, Some(p)) && s.processes[p].place == Checked(next)
    ensures t == Move(s.(lock := Absent), p, Released) && Chain(step, s, t, 2)
  {
    var unlinked := Move(s.(lock := Present(p, None)), p, Unlinked(next));
    t := Move(unlinked.(lock := Absent), p, Released);
    ReleaseIsStep(s, unlinked, p);
    ReleaseIsStep(unlinked, t, p);
    TwoSteps(step, s, unlinked, t, p);
  }

  /** After its turns, a process reads the file it refuses, if there is one, and gives the lock back. */
  lemma Stops(step: (State, State) -> bool, s: State, p: nat, refuses: bool) returns (t: State)
    requires Allows(step, p) && p < |s.processes| && s.lock == Present(p, Some(p)) && s.processes[p].place.Owning?
    requires refuses ==> s.processes[p].place.next < Length(s.processes[p].role)
    requires refuses ==> FileOf(s.processes[p].role, s.processes[p].place.next) < |s.files|
    ensures t == Move(s.(lock := Absent), p, Released) && Chain(step, s, t, if refuses then 5 else 4)
  {
    if refuses {
      var role, next := s.processes[p].role, s.processes[p].place.next;
      var holding := Move(s, p, Holding(next, s.files[FileOf(role, next)]));
      TurnIsStep(s, holding, p);
      t := GivesBack(step, holding, p);
      assert Chain(step, s, s, 0);
      ChainMore(step, s, s, holding, 0);
      ChainJoins(step, s, holding, t, 1, 4);
    } else {
      t := GivesBack(step, s, p);
    }
  }

  /** The list is cleared up to the first refused file, which stays as it was; so the whole list is cleared
      exactly when no file on it is refused. */
  ghost predicate LeftCleared(role: Role, files: seq<JobFile>, after: seq<JobFile>)
    requires role.Downgrader? && FilesExist(role, files) && |after| == |files|
  {
    var stop := StopFrom(role, files, 0);
    && Cleared(after, role.list, stop)
    && (stop < |role.list| ==> after[FileOf(role, stop)] == files[FileOf(role, stop)])
    && (Cleared(after, role.list, |role.list|)
        <==> forall m | 0 <= m < |role.list| :: !Refuses(files[FileOf(role, m)]))
  }

  /** Where the lock is free, a waiting process can go through alone, whatever the length of its list, and
      the lock is free again: every file before the first refused one has had its turn, and the whole
      list is cleared exactly when no file on it is refused. */
  lemma LoneProcessCompletes(s: State, p: nat) returns (t: State)
    requires p < |s.processes| && s.lock.Absent? && s.processes[p].place.Waiting?
    requires FilesExist(s.processes[p].role, s.files)
    ensures var role := s.processes[p].role;
            var stop := StopFrom(role, s.files, 0);
            && Chain(StepsOf(p), s, t, 2 * stop + if stop < Length(role) then 7 else 6)
            && t.files == AfterTurns(role, s.files, stop)
    ensures OnlyTurned(s, t, p, Released)
    ensures s.processes[p].role.Downgrader? ==> LeftCleared(s.processes[p].role, s.files, t.files)
  {
    assert Allows(StepsOf(p), p);
    t := Completes(StepsOf(p), s, p);
    if s.processes[p].role.Downgrader? {
      ClearedExactly(s.processes[p].role, s.files);
    }
  }

  lemma Completes(step: (State, State) -> bool, s: State, p: nat) returns (t: State)
    requires Allows(step, p) && p < |s.processes| && s.lock.Absent? && s.processes[p].place.Waiting?
    requires FilesExist(s.processes[p].role, s.files)
    ensures var role := s.processes[p].role;
            var stop := StopFrom(role, s.files, 0);
            && Chain(step, s, t, 2 * stop + if stop < Length(role) then 7 else 6)
            && t.files == AfterTurns(role, s.files, stop)
    ensures OnlyTurned(s, t, p, Released)
  {
    var role := s.processes[p].role;
    var n := StopFrom(role, s.files, 0);
    var owned := TakesLock(step, s, p);
    var turned := Turns(step, owned, p, n);
    t := Stops(step, turned, p, n < Length(role));
    ChainJoins(step, s, owned, turned, 2, 2 * n);
    ChainJoins(step, s, turned, t, 2 + 2 * n, if n < Length(role) then 5 else 4);
  }

  lemma {:induction false} TurnsClear(role: Role, files: seq<JobFile>, n: nat)
    requires role.Downgrader? && FilesExist(role, files) && n <= |role.list|
    ensures Cleared(AfterTurns(role, files, n), role.list, n)
  {
    if n > 0 {
      TurnsClear(role, files, n - 1);
      assert FileOf(role, n - 1) == role.list[n - 1];
      ClearedNext(AfterTurns(role, files, n - 1), AfterTurns(role, files, n), role, n - 1);
    }
  }

  lemma ClearedExactly(role: Role, files: seq<JobFile>)
    requires role.Downgrader? && FilesExist(role, files)
    ensures LeftCleared(role, files, AfterTurns(role, files, StopFrom(role, files, 0)))
  {
    var stop := StopFrom(role, files, 0);
    StopIsFirst(role, files, 0);
    TurnsClear(role, files, stop);
    if stop < |role.list| {
      TurnsRefuseAlike(role, files, stop, FileOf(role, stop));
      AutoUntouched(role, files, stop, FileOf(role, stop));
    }
  }

  /** A file that is automatic after some turns has not been written. */
  lemma {:induction false} AutoUntouched(role: Role, files: seq<JobFile>, n: nat, file: nat)
    requires role.Downgrader? && FilesExist(role, files) && n <= |role.list| && file < |files|
    ensures Auto(AfterTurns(role, files, n)[file]) ==> AfterTurns(role, files, n)[file] == files[file]
  {
    if n > 0 {
      AutoUntouched(role, files, n - 1, file);
    }
  }
}
