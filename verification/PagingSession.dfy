/** Pagination over the cache as it is run: the session of a first response stays live and
  unchanged for ten minutes of any interleaving, so its cursors yield the whole list. */
module PagingSession {
  import opened Options
  import opened SessionCache
  import opened Pagination

  /** The worlds of one run, from an empty cache; no store races a delete of its key. */
  predicate CleanTrace<T(==)>(clock: int, steps: seq<Step<T>>, ws: seq<World<T>>) {
    Trace(Empty<T>(clock), steps, ws) && forall i | 0 <= i < |steps| :: !Races(ws[i], steps[i])
  }

  lemma {:induction false} CleanUpTo<T(!new)>(clock: int, steps: seq<Step<T>>, ws: seq<World<T>>, n: nat)
    requires CleanTrace(clock, steps, ws) && n <= |steps|
    ensures HoldsLatest(ws[n]) && HoldsCurrent(ws[n]) && Faithful(ws[n])
    decreases n
  {
    if n > 0 {
      CleanUpTo(clock, steps, ws, n - 1);
      assert ws[n - 1 + 1] == Next(ws[n - 1], steps[n - 1]);
      HoldsStayCurrent(ws[n - 1], steps[n - 1]);
      StepFaithful(ws[n - 1], steps[n - 1]);
    }
  }

  /** Step `i` stores `list` under `sid` at time `at`, and no later step stores that key. */
  predicate StoredLast<T(==)>(steps: seq<Step<T>>, i: nat, sid: Sid, list: seq<T>, at: int) {
    i < |steps| && steps[i] == PutStep(sid, list, at) &&
    forall k | i < k < |steps| :: !(steps[k].PutStep? && steps[k].sid == sid)
  }

  lemma {:induction false} LatestStays<T(!new)>(clock: int, steps: seq<Step<T>>, ws: seq<World<T>>, i: nat, sid: Sid, list: seq<T>, at: int,
                                                n: nat)
    requires CleanTrace(clock, steps, ws) && StoredLast(steps, i, sid, list, at) && i < n <= |steps|
    ensures sid in ws[n].latest && ws[n].latest[sid] == Entry(list, at + SESSION_TTL)
    decreases n
  {
    assert ws[n - 1 + 1] == Next(ws[n - 1], steps[n - 1]);
    if n > i + 1 { LatestStays(clock, steps, ws, i, sid, list, at, n - 1); }
  }

  /** In every interleaving without a racing store, whatever sweepers and readers do, a
      session is served with its list from its last store until its time to live has
      passed. */
  lemma SessionIsServed<T(!new)>(clock: int, steps: seq<Step<T>>, ws: seq<World<T>>, i: nat, sid: Sid, list: seq<T>, at: int,
                                 n: nat, now: int)
    requires CleanTrace(clock, steps, ws) && StoredLast(steps, i, sid, list, at)
    requires i < n <= |steps| && ws[n].clock <= now
    ensures Lookup(ws[n].entries, sid, now) == if now <= at + SESSION_TTL then Some(Entry(list, at + SESSION_TTL)) else None
  {
    CleanUpTo(clock, steps, ws, n);
    LatestStays(clock, steps, ws, i, sid, list, at, n);
    assert Lookup(ws[n].entries, sid, now) == Lookup(ws[n].latest, sid, now);
  }

  /** The follow-up calls meet the cache at later points of the run, each reading the clock
      after that, within the time to live of the store. */
  predicate MetInTime<T(==)>(ws: seq<World<T>>, i: nat, at: int, calls: seq<FollowUp<T>>, points: seq<nat>) {
    |points| == |calls| && forall c | 0 <= c < |calls| ::
      i < points[c] < |ws| && calls[c].store == ws[points[c]].entries
      && ws[points[c]].clock <= calls[c].now <= at + SESSION_TTL
  }

  lemma CallsFindSession<T(!new)>(clock: int, steps: seq<Step<T>>, ws: seq<World<T>>, i: nat, sid: Sid, list: seq<T>, at: int,
                                  calls: seq<FollowUp<T>>, points: seq<nat>)
    requires CleanTrace(clock, steps, ws) && StoredLast(steps, i, sid, list, at) && MetInTime(ws, i, at, calls, points)
    ensures SessionLives(sid, list, calls)
  {
    forall c | 0 <= c < |calls| ensures Lookup(calls[c].store, sid, calls[c].now) == Some(Entry(list, at + SESSION_TTL)) {
      SessionIsServed(clock, steps, ws, i, sid, list, at, points[c], calls[c].now);
    }
  }

  /** From the first response to the last page: a client whose session was stored by the
      first call, and who follows its cursors within ten minutes in a run without a racing
      store, collects the cached list exactly, whatever else the cache is used for. */
  lemma ClientCollectsAll<T(!new)>(clock: int, steps: seq<Step<T>>, ws: seq<World<T>>, i: nat, at: int,
                                   inp: Input, findings: seq<T>, filtered: seq<T>, plainSid: Sid, filteredSid: Sid,
                                   calls: seq<FollowUp<T>>, points: seq<nat>)
    requires CleanTrace(clock, steps, ws) && MetInTime(ws, i, at, calls, points)
    requires StoredLast(steps, i, if IsFiltered(inp) then filteredSid else plainSid,
                        if IsFiltered(inp) then filtered else findings, at)
    requires var first := Fresh(inp, findings, filtered, plainSid, filteredSid);
      |Shown(first)| + Reach(calls) >= |if IsFiltered(inp) then filtered else findings| && (first.Summary? ==> calls != [])
    ensures var first := Fresh(inp, findings, filtered, plainSid, filteredSid);
      Shown(first) + Collect(first.next, inp.tool, calls) == (if IsFiltered(inp) then filtered else findings) &&
      After(first.next, inp.tool, calls) == NoCursor
  {
    CallsFindSession(clock, steps, ws, i, if IsFiltered(inp) then filteredSid else plainSid,
                     if IsFiltered(inp) then filtered else findings, at, calls, points);
    FollowingCursorsIsLossless(inp, findings, filtered, plainSid, filteredSid, calls);
  }
}
