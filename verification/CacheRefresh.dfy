/** The multi-process refresh of the vulnerability cache: a file lock, a check under the
  lock, a download into a temporary file, and a rename onto the canonical path. */
module CacheRefresh {
  import opened Options

  type Pid = nat

  /** 24 hours, in seconds. */
  const FRESH_TTL: nat := 86400

  datatype FileState = Missing | Partial | Complete(mtime: int)

  datatype Outcome = Refreshed | LockBusy | DownloadFailed

  /** Where a process is inside `refreshCacheLocked`; `skip` is `skipIfPresent`. */
  datatype Pc =
    | Waiting(skip: bool)
    | Locked(skip: bool)
    | Fetching
    | Writing(tmp: FileState)
    | Leaving(outcome: Outcome)
    | Done(outcome: Outcome)
    | Crashed

  /** `fetches` counts downloads started, `failures` downloads that did not end in a
      rename. */
  datatype World = World(clock: int, canonical: FileState, lock: Option<Pid>, procs: map<Pid, Pc>, fetches: nat, failures: nat)

  datatype Step =
    | Tick(to: int)
    | Acquire(p: Pid)
    | GiveUp(p: Pid)
    | Check(p: Pid)
    | Fetch(p: Pid, ok: bool)
    | FinishWrite(p: Pid, ok: bool)
    | Rename(p: Pid, ok: bool)
    | Release(p: Pid)
    | Crash(p: Pid)
    | Touch                       // mtime set to now after a 304

  predicate Enabled(w: World, s: Step) {
    match s
    case Tick(to) => to >= w.clock
    case Acquire(p) => p in w.procs && w.procs[p].Waiting? && w.lock.None?
    case GiveUp(p) => p in w.procs && w.procs[p].Waiting?
    case Check(p) => p in w.procs && w.procs[p].Locked?
    case Fetch(p, _) => p in w.procs && w.procs[p].Fetching?
    case FinishWrite(p, _) => p in w.procs && w.procs[p] == Writing(Partial)
    case Rename(p, _) => p in w.procs && w.procs[p].Writing? && w.procs[p].tmp.Complete?
    case Release(p) => p in w.procs && w.procs[p].Leaving?
    case Crash(p) => p in w.procs && !w.procs[p].Done?
    case Touch => w.canonical.Complete?
  }

  predicate Downloading(pc: Pc) {
    pc.Fetching? || pc.Writing?
  }

  /** The stat under the lock: a present file younger than a day. */
  predicate FreshNow(w: World) {
    w.canonical.Complete? && w.clock - w.canonical.mtime < FRESH_TTL
  }

  function Move(w: World, p: Pid, pc: Pc): World {
    w.(procs := w.procs[p := pc])
  }

  function Next(w: World, s: Step): World
    requires Enabled(w, s)
  {
    match s
    case Tick(to) => w.(clock := to)
    case Acquire(p) => Move(w, p, Locked(w.procs[p].skip)).(lock := Some(p))
    case GiveUp(p) => Move(w, p, Done(LockBusy))
    case Check(p) =>
      if w.procs[p].skip && FreshNow(w) then Move(w, p, Leaving(Refreshed))
      else Move(w, p, Fetching).(fetches := w.fetches + 1)
    case Fetch(p, ok) =>
      if ok then Move(w, p, Writing(Partial)) else Move(w, p, Leaving(DownloadFailed)).(failures := w.failures + 1)
    case FinishWrite(p, ok) =>
      if ok then Move(w, p, Writing(Complete(w.clock))) else Move(w, p, Leaving(DownloadFailed)).(failures := w.failures + 1)
    case Rename(p, ok) =>
      if ok then Move(w, p, Leaving(Refreshed)).(canonical := w.procs[p].tmp)
      else Move(w, p, Leaving(DownloadFailed)).(failures := w.failures + 1)
    case Release(p) => Move(w, p, Done(w.procs[p].outcome)).(lock := None)
    case Crash(p) =>
      var v := if Downloading(w.procs[p]) then w.(failures := w.failures + 1) else w;
      Move(v, p, Crashed).(lock := if w.lock == Some(p) then None else w.lock)
    case Touch => w.(canonical := Complete(w.clock))
  }

  predicate Run(w: World, steps: seq<Step>)
    decreases |steps|
  {
    steps == [] || (Enabled(w, steps[0]) && Run(Next(w, steps[0]), steps[1..]))
  }

  function End(w: World, steps: seq<Step>): World
    requires Run(w, steps)
    decreases |steps|
  {
    if steps == [] then w else End(Next(w, steps[0]), steps[1..])
  }

  // ---------- every run ----------

  predicate HoldsLock(pc: Pc) {
    pc.Locked? || Downloading(pc) || pc.Leaving?
  }

  /** The processes between acquire and release are the lock holder alone; a reader of
      the canonical path finds nothing or a complete file, dated no later than now. */
  predicate Safe(w: World) {
    (forall p :: p in w.procs ==> (HoldsLock(w.procs[p]) <==> w.lock == Some(p))) &&
    (w.lock.Some? ==> w.lock.value in w.procs) &&
    !w.canonical.Partial?
  }

  lemma {:induction false} AlwaysSafe(w: World, steps: seq<Step>)
    requires Run(w, steps) && Safe(w)
    ensures Safe(End(w, steps))
    decreases |steps|
  {
    if steps != [] { AlwaysSafe(Next(w, steps[0]), steps[1..]); }
  }

  lemma AtMostOneDownloads(w: World, p: Pid, q: Pid)
    requires Safe(w) && p in w.procs && q in w.procs && Downloading(w.procs[p]) && Downloading(w.procs[q])
    ensures p == q
  {
    assert HoldsLock(w.procs[p]) && HoldsLock(w.procs[q]);
  }

  // ---------- cold start ----------

  /** All processes saw no cache and wait to refresh it if it is still missing. */
  predicate ColdStart(w: World) {
    w.canonical == Missing && w.lock.None? && w.fetches == 0 && w.failures == 0 &&
    forall p :: p in w.procs ==> w.procs[p] == Waiting(true)
  }

  predicate SkipsIfPresent(pc: Pc) {
    (pc.Waiting? || pc.Locked?) ==> pc.skip
  }

  /** Somebody is downloading. */
  predicate Busy(w: World) {
    w.lock.Some? && w.lock.value in w.procs && Downloading(w.procs[w.lock.value])
  }

  /** Since `t0`: every file written is dated at or after `t0`; once the canonical file is
      there nobody downloads; and every download started failed, is under way, or made
      that file. */
  predicate OnePerFailure(w: World, t0: int) {
    t0 <= w.clock &&
    (forall p :: p in w.procs ==> SkipsIfPresent(w.procs[p])) &&
    (forall p :: p in w.procs && w.procs[p].Writing? && w.procs[p].tmp.Complete? ==> t0 <= w.procs[p].tmp.mtime) &&
    (w.canonical.Complete? ==> t0 <= w.canonical.mtime && !Busy(w)) &&
    w.fetches == w.failures + (if Busy(w) then 1 else 0) + (if w.canonical.Complete? then 1 else 0)
  }

  lemma StepOnePerFailure(w: World, s: Step, t0: int)
    requires Enabled(w, s) && Safe(w) && OnePerFailure(w, t0) && Next(w, s).clock - t0 < FRESH_TTL
    ensures OnePerFailure(Next(w, s), t0)
  {
    match s
    case Tick(_) =>
    case Touch =>
    case Acquire(p) =>
    case GiveUp(p) => assert w.lock != Some(p);
    case Check(p) => assert HoldsLock(w.procs[p]);
    case Fetch(p, _) => assert HoldsLock(w.procs[p]);
    case FinishWrite(p, _) => assert HoldsLock(w.procs[p]);
    case Rename(p, _) => assert HoldsLock(w.procs[p]);
    case Release(p) => assert HoldsLock(w.procs[p]);
    case Crash(p) => assert HoldsLock(w.procs[p]) <==> w.lock == Some(p);
  }

  lemma {:induction false} OnePerFailureHolds(w: World, steps: seq<Step>, t0: int)
    requires Run(w, steps) && Safe(w) && OnePerFailure(w, t0) && End(w, steps).clock - t0 < FRESH_TTL
    ensures OnePerFailure(End(w, steps), t0)
    decreases |steps|
  {
    if steps != [] {
      var v := Next(w, steps[0]);
      AlwaysSafe(w, [steps[0]]) by { assert Run(v, []) && End(v, []) == v && [steps[0]][1..] == []; }
      assert End(w, [steps[0]]) == v by { assert [steps[0]][1..] == [] && End(v, []) == v; }
      ClockGrows(v, steps[1..]);
      StepOnePerFailure(w, steps[0], t0);
      OnePerFailureHolds(v, steps[1..], t0);
    }
  }

  lemma {:induction false} ClockGrows(w: World, steps: seq<Step>)
    requires Run(w, steps)
    ensures w.clock <= End(w, steps).clock
    decreases |steps|
  {
    if steps != [] { ClockGrows(Next(w, steps[0]), steps[1..]); }
  }

  /** From a cold start, in every interleaving shorter than a day, any number of
      processes start at most one download more than the downloads that failed or
      crashed: when the first one succeeds it is the only one. Readers never see a
      partial canonical file. */
  lemma ColdStartDownloadsOnce(w: World, steps: seq<Step>)
    requires Run(w, steps) && ColdStart(w) && End(w, steps).clock - w.clock < FRESH_TTL
    ensures var v := End(w, steps);
      !v.canonical.Partial? && v.fetches <= v.failures + 1 &&
      (v.canonical.Complete? ==> v.fetches == v.failures + 1 && !Busy(v))
  {
    AlwaysSafe(w, steps);
    OnePerFailureHolds(w, steps, w.clock);
  }

  /** Cold-start runs of length `d` start at most one download more than failed. */
  ghost predicate OneDownloadWithin(d: int) {
    forall w, steps :: ColdStart(w) && Run(w, steps) && End(w, steps).clock - w.clock <= d ==>
      End(w, steps).fetches <= End(w, steps).failures + 1
  }

  lemma RunOne(w: World, s: Step, v: World, rest: seq<Step>)
    requires Enabled(w, s) && Next(w, s) == v && Run(v, rest)
    ensures Run(w, [s] + rest) && End(w, [s] + rest) == End(v, rest)
  {
    assert ([s] + rest)[1..] == rest;
  }

  /** Two processes, none failed. */
  function Two(clock: int, canonical: FileState, lock: Option<Pid>, p: Pc, q: Pc, fetches: nat): World {
    World(clock, canonical, lock, map[0 := p, 1 := q], fetches, 0)
  }

  lemma MoveTwo(w: World, p: Pc, q: Pc, r: Pc)
    requires w.procs == map[0 := p, 1 := q]
    ensures Move(w, 0, r).procs == map[0 := r, 1 := q] && Move(w, 1, r).procs == map[0 := p, 1 := r]
  {
  }

  /** Process 0 acquires the lock and starts a download. */
  lemma StartDownload(q: Pc, rest: seq<Step>)
    requires Run(Two(0, Missing, Some(0), Writing(Partial), q, 1), rest)
    ensures var w := Two(0, Missing, None, Waiting(true), q, 0);
      var steps := [Acquire(0)] + ([Check(0)] + ([Fetch(0, true)] + rest));
      Run(w, steps) && End(w, steps) == End(Two(0, Missing, Some(0), Writing(Partial), q, 1), rest)
  {
    hide Run, End;
    forall w: World, p: Pc, r: Pc | w.procs == map[0 := p, 1 := q] { MoveTwo(w, p, q, r); }
    var w2 := Two(0, Missing, Some(0), Fetching, q, 1);
    var w1 := Two(0, Missing, Some(0), Locked(true), q, 0);
    RunOne(w2, Fetch(0, true), Two(0, Missing, Some(0), Writing(Partial), q, 1), rest);
    RunOne(w1, Check(0), w2, [Fetch(0, true)] + rest);
    RunOne(Two(0, Missing, None, Waiting(true), q, 0), Acquire(0), w1, [Check(0)] + ([Fetch(0, true)] + rest));
  }

  /** It puts the file in place and leaves. */
  lemma FinishDownload(q: Pc, rest: seq<Step>)
    requires Run(Two(0, Complete(0), None, Done(Refreshed), q, 1), rest)
    ensures var w := Two(0, Missing, Some(0), Writing(Partial), q, 1);
      var steps := [FinishWrite(0, true)] + ([Rename(0, true)] + ([Release(0)] + rest));
      Run(w, steps) && End(w, steps) == End(Two(0, Complete(0), None, Done(Refreshed), q, 1), rest)
  {
    hide Run, End;
    forall w: World, p: Pc, r: Pc | w.procs == map[0 := p, 1 := q] { MoveTwo(w, p, q, r); }
    var w5 := Two(0, Complete(0), Some(0), Leaving(Refreshed), q, 1);
    var w4 := Two(0, Missing, Some(0), Writing(Complete(0)), q, 1);
    RunOne(w5, Release(0), Two(0, Complete(0), None, Done(Refreshed), q, 1), rest);
    RunOne(w4, Rename(0, true), w5, [Release(0)] + rest);
    RunOne(Two(0, Missing, Some(0), Writing(Partial), q, 1), FinishWrite(0, true), w4, [Rename(0, true)] + ([Release(0)] + rest));
  }

  /** Process 1 acquires the lock and checks at time `day`: a second download. */
  lemma SecondDownload(day: nat, p: Pc)
    requires day >= FRESH_TTL
    ensures var w := Two(0, Complete(0), None, p, Waiting(true), 1);
      var steps := [Tick(day)] + ([Acquire(1)] + ([Check(1)] + []));
      Run(w, steps) && End(w, steps) == Two(day, Complete(0), Some(1), p, Fetching, 2)
  {
    forall w: World, q: Pc, r: Pc | w.procs == map[0 := p, 1 := q] { MoveTwo(w, p, q, r); }
    var end := Two(day, Complete(0), Some(1), p, Fetching, 2);
    RunOne(Two(day, Complete(0), Some(1), p, Locked(true), 1), Check(1), end, []);
    RunOne(Two(day, Complete(0), None, p, Waiting(true), 1), Acquire(1),
           Two(day, Complete(0), Some(1), p, Locked(true), 1), [Check(1)] + []);
    RunOne(Two(0, Complete(0), None, p, Waiting(true), 1), Tick(day),
           Two(day, Complete(0), None, p, Waiting(true), 1), [Acquire(1)] + ([Check(1)] + []));
  }

  /** Nine steps from a cold start, a day long: two downloads, none failed. */
  lemma DayLongRun() returns (w: World, steps: seq<Step>)
    ensures ColdStart(w) && Run(w, steps) && End(w, steps).clock - w.clock == FRESH_TTL
    ensures End(w, steps).fetches == 2 && End(w, steps).failures == 0
  {
    hide Run, End;
    var late := [Tick(FRESH_TTL)] + ([Acquire(1)] + ([Check(1)] + []));
    var finish := [FinishWrite(0, true)] + ([Rename(0, true)] + ([Release(0)] + late));
    SecondDownload(FRESH_TTL, Done(Refreshed));
    FinishDownload(Waiting(true), late);
    StartDownload(Waiting(true), finish);
    w := Two(0, Missing, None, Waiting(true), Waiting(true), 0);
    steps := [Acquire(0)] + ([Check(0)] + ([Fetch(0, true)] + finish));
  }

  /** The day is exact: cold-start runs of length at most `d` start at most one download
      more than failed if and only if `d` is under a day. */
  lemma OneDownloadExactly(d: int)
    ensures OneDownloadWithin(d) <==> d < FRESH_TTL
  {
    hide Run, End, ColdStart;
    if d < FRESH_TTL {
      forall w, steps | ColdStart(w) && Run(w, steps) && End(w, steps).clock - w.clock <= d
        ensures End(w, steps).fetches <= End(w, steps).failures + 1
      {
        ColdStartDownloadsOnce(w, steps);
      }
    } else {
      var w, steps := DayLongRun();
    }
  }

  // ---------- forced refreshes ----------

  predicate Succeeded(pc: Pc) {
    (pc.Leaving? || pc.Done?) && pc.outcome == Refreshed
  }

  /** Since process `p` asked at `t0`, with `n` downloads started before: it does not skip;
      once it is past the check it has started a download; once it has the lock nobody
      holds an older file; and once it has succeeded the canonical file is not older. */
  predicate ForcedSince(w: World, p: Pid, t0: int, n: nat) {
    p in w.procs && t0 <= w.clock && n <= w.fetches &&
    (var pc := w.procs[p];
     ((pc.Waiting? || pc.Locked?) ==> !pc.skip) &&
     (Downloading(pc) || Succeeded(pc) ==> n < w.fetches) &&
     (HoldsLock(pc) || Succeeded(pc) ==>
        forall q | q in w.procs && w.procs[q].Writing? && w.procs[q].tmp.Complete? :: t0 <= w.procs[q].tmp.mtime) &&
     (Succeeded(pc) ==> w.canonical.Complete? && t0 <= w.canonical.mtime))
  }

  lemma StepForced(w: World, s: Step, p: Pid, t0: int, n: nat)
    requires Enabled(w, s) && Safe(w) && ForcedSince(w, p, t0, n) && Next(w, s).clock >= w.clock
    ensures ForcedSince(Next(w, s), p, t0, n)
  {
    match s
    case Acquire(q) =>
      forall r | r in w.procs ensures !w.procs[r].Writing? {
        assert HoldsLock(w.procs[r]) <==> w.lock == Some(r);
      }
    case Rename(q, _) => assert HoldsLock(w.procs[q]) && (HoldsLock(w.procs[p]) ==> p == q);
    case _ =>
  }

  lemma {:induction false} AlwaysForced(w: World, steps: seq<Step>, p: Pid, t0: int, n: nat)
    requires Run(w, steps) && Safe(w) && ForcedSince(w, p, t0, n)
    ensures ForcedSince(End(w, steps), p, t0, n)
    decreases |steps|
  {
    if steps != [] {
      var v := Next(w, steps[0]);
      AlwaysSafe(w, [steps[0]]) by { assert Run(v, []) && End(v, []) == v && [steps[0]][1..] == []; }
      assert End(w, [steps[0]]) == v by { assert [steps[0]][1..] == [] && End(v, []) == v; }
      StepForced(w, steps[0], p, t0, n);
      AlwaysForced(v, steps[1..], p, t0, n);
    }
  }

  /** A process that does not skip starts a download however fresh the file is: in every
      interleaving in which it reports success, a download was started since it asked, and
      the canonical file dates from then or later. */
  lemma ForcedRefreshReplaces(w: World, steps: seq<Step>, p: Pid)
    requires Run(w, steps) && Safe(w) && p in w.procs && w.procs[p] == Waiting(false)
    requires p in End(w, steps).procs && Succeeded(End(w, steps).procs[p])
    ensures var v := End(w, steps); v.fetches > w.fetches && v.canonical.Complete? && w.clock <= v.canonical.mtime
  {
    AlwaysForced(w, steps, p, w.clock, w.fetches);
  }
}
