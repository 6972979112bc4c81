/** The session cache shared by the paginated tools: entries with a time to live, a
  background sweeper, and what the two do to each other when their steps interleave. */
module SessionCache {
  import opened Options

  type Sid = string

  /** Ten minutes, in seconds. */
  const SESSION_TTL: nat := 600

  datatype Entry<T> = Entry(findings: seq<T>, expiresAt: int)
  {
    predicate Expired(now: int) {
      now > expiresAt
    }
  }

  type Store<T> = map<Sid, Entry<T>>

  /** What a reader gets at time `now`. */
  function Lookup<T>(m: Store<T>, sid: Sid, now: int): Option<Entry<T>> {
    if sid in m && !m[sid].Expired(now) then Some(m[sid]) else None
  }

  function Live<T>(m: Store<T>, now: int): Store<T> {
    map k | k in m && !m[k].Expired(now) :: m[k]
  }

  class Cache<T> {
    var entries: Store<T>

    constructor ()
      ensures entries == map[]
    {
      entries := map[];
    }

    method Put(sid: Sid, findings: seq<T>, now: int)
      modifies this
      ensures entries == old(entries)[sid := Entry(findings, now + SESSION_TTL)]
    {
      entries := entries[sid := Entry(findings, now + SESSION_TTL)];
    }

    /** Removes the entry it finds expired, and nothing else. */
    method Get(sid: Sid, now: int) returns (r: Option<Entry<T>>)
      modifies this
      ensures r == Lookup(old(entries), sid, now)
      ensures r.Some? <==> sid in old(entries) && now <= old(entries)[sid].expiresAt
      ensures r.Some? ==> r.value == old(entries)[sid]
      ensures entries == if sid in old(entries) && old(entries)[sid].Expired(now) then old(entries) - {sid} else old(entries)
    {
      if sid !in entries { return None; }
      var entry := entries[sid];
      if entry.Expired(now) {
        entries := entries - {sid};
        return None;
      }
      r := Some(entry);
    }

    /** One undisturbed sweep, over the keys in any order. */
    method EvictExpired(now: int)
      modifies this
      ensures entries == Live(old(entries), now)
    {
      var left := entries.Keys;
      while left != {}
        invariant left <= entries.Keys <= old(entries).Keys
        invariant forall k :: k in entries ==> entries[k] == old(entries)[k]
        invariant forall k :: k in old(entries) && k !in left ==> (k in entries <==> !old(entries)[k].Expired(now))
      {
        var k :| k in left;
        left := left - {k};
        if entries[k].Expired(now) { entries := entries - {k}; }
      }
    }
  }

  // ---------- interleaved steps ----------

  /** An entry a thread, a reader or the sweeper, has loaded under a key; `doomed` once it
      found it expired and is about to delete the key. */
  datatype Hold<T> = Hold(sid: Sid, entry: Entry<T>, doomed: bool)

  /** `latest` is the history of stores, never swept; `holds` has what each thread holds
      inside a `Get` or a turn of the sweeper. */
  datatype World<T> = World(entries: Store<T>, latest: Store<T>, clock: int, holds: map<nat, Hold<T>>)

  /** A step may use a clock reading `at` older than the clock: the sweeper reads it before
      it loads an entry, a reader after. */
  datatype Step<T> =
    | Tick(to: int)
    | PutStep(sid: Sid, findings: seq<T>, at: int)
    | Load(thread: nat, sid: Sid)
    | Check(thread: nat, at: int)
    | Delete(thread: nat)

  predicate Enabled<T>(w: World<T>, s: Step<T>) {
    match s
    case Tick(to) => to >= w.clock
    case PutStep(_, _, at) => at <= w.clock
    case Load(t, sid) => t !in w.holds && sid in w.entries
    case Check(t, at) => t in w.holds && !w.holds[t].doomed && at <= w.clock
    case Delete(t) => t in w.holds && w.holds[t].doomed
  }

  function Next<T>(w: World<T>, s: Step<T>): World<T>
    requires Enabled(w, s)
  {
    match s
    case Tick(to) => w.(clock := to)
    case PutStep(sid, findings, at) =>
      var e := Entry(findings, at + SESSION_TTL);
      w.(entries := w.entries[sid := e], latest := w.latest[sid := e])
    case Load(t, sid) => w.(holds := w.holds[t := Hold(sid, w.entries[sid], false)])
    case Check(t, at) =>
      if w.holds[t].entry.Expired(at) then w.(holds := w.holds[t := w.holds[t].(doomed := true)])
      else w.(holds := w.holds - {t})
    case Delete(t) => w.(entries := w.entries - {w.holds[t].sid}, holds := w.holds - {t})
  }

  predicate Run<T>(w: World<T>, steps: seq<Step<T>>)
    decreases |steps|
  {
    steps == [] || (Enabled(w, steps[0]) && Run(Next(w, steps[0]), steps[1..]))
  }

  function End<T>(w: World<T>, steps: seq<Step<T>>): World<T>
    requires Run(w, steps)
    decreases |steps|
  {
    if steps == [] then w else End(Next(w, steps[0]), steps[1..])
  }

  /** Readers now and later see a store that was never swept. */
  ghost predicate Faithful<T(!new)>(w: World<T>) {
    forall sid, t | t >= w.clock :: Lookup(w.entries, sid, t) == Lookup(w.latest, sid, t)
  }

  /** The cache only ever holds the latest store of a key. */
  predicate HoldsLatest<T(==)>(w: World<T>) {
    forall k :: k in w.entries ==> k in w.latest && w.entries[k] == w.latest[k]
  }

  /** The step deletes an entry a reader could still be given. */
  predicate KillsLive<T>(w: World<T>, s: Step<T>) {
    s.Delete? && s.thread in w.holds && Lookup(w.entries, w.holds[s.thread].sid, w.clock).Some?
  }

  /** The step stores a key whose former entry some thread has loaded and not yet let go. */
  predicate Races<T>(w: World<T>, s: Step<T>) {
    s.PutStep? && exists t | t in w.holds :: w.holds[t].sid == s.sid
  }

  predicate Never<T>(w: World<T>, steps: seq<Step<T>>, bad: (World<T>, Step<T>) -> bool)
    requires Run(w, steps)
    decreases |steps|
  {
    steps == [] || (!bad(w, steps[0]) && Never(Next(w, steps[0]), steps[1..], bad))
  }

  ghost predicate AlwaysFaithful<T(!new)>(w: World<T>, steps: seq<Step<T>>)
    requires Run(w, steps)
    decreases |steps|
  {
    Faithful(w) && (steps == [] || AlwaysFaithful(Next(w, steps[0]), steps[1..]))
  }

  lemma FaithfulIff<T(!new)>(w: World<T>)
    requires HoldsLatest(w)
    ensures Faithful(w) <==> forall k :: k in w.latest ==> k in w.entries || w.latest[k].Expired(w.clock)
  {
    if Faithful(w) {
      forall k | k in w.latest && k !in w.entries ensures w.latest[k].Expired(w.clock) {
        assert Lookup(w.entries, k, w.clock) == Lookup(w.latest, k, w.clock);
      }
    }
  }

  lemma {:induction false} NeverWrong<T(!new)>(w: World<T>, steps: seq<Step<T>>, sid: Sid, now: int)
    requires Run(w, steps) && HoldsLatest(w)
    ensures var v := End(w, steps);
      HoldsLatest(v) && (Lookup(v.entries, sid, now).Some? ==> Lookup(v.entries, sid, now) == Lookup(v.latest, sid, now))
    decreases |steps|
  {
    if steps != [] { NeverWrong(Next(w, steps[0]), steps[1..], sid, now); }
  }

  lemma StepFaithful<T(!new)>(w: World<T>, s: Step<T>)
    requires Enabled(w, s) && HoldsLatest(w) && Faithful(w)
    ensures HoldsLatest(Next(w, s)) && (Faithful(Next(w, s)) <==> !KillsLive(w, s))
  {
    var v := Next(w, s);
    FaithfulIff(w);
    FaithfulIff(v);
    if KillsLive(w, s) { assert w.holds[s.thread].sid in v.latest; }
  }

  /** The sweeper is invisible over a whole run exactly when no delete lands on an
      entry that is still live. */
  lemma {:induction false} FaithfulExactly<T(!new)>(w: World<T>, steps: seq<Step<T>>)
    requires Run(w, steps) && HoldsLatest(w) && Faithful(w)
    ensures AlwaysFaithful(w, steps) <==> Never(w, steps, KillsLive)
    decreases |steps|
  {
    if steps != [] {
      StepFaithful(w, steps[0]);
      if !KillsLive(w, steps[0]) { FaithfulExactly(Next(w, steps[0]), steps[1..]); }
    }
  }

  /** What a thread holds is what the cache still has, unless the key is gone; and what it
      is about to delete is expired now. */
  predicate HoldsCurrent<T(==)>(w: World<T>) {
    forall t | t in w.holds ::
      (w.holds[t].sid in w.entries ==> w.entries[w.holds[t].sid] == w.holds[t].entry) &&
      (w.holds[t].doomed ==> w.holds[t].entry.Expired(w.clock))
  }

  /** A delete can only hit a live entry when a store of the same key slipped in between
      the load of the former entry and the delete. */
  lemma {:induction false} OnlyRacesKill<T(!new)>(w: World<T>, steps: seq<Step<T>>)
    requires Run(w, steps) && HoldsCurrent(w) && Never(w, steps, Races)
    ensures Never(w, steps, KillsLive)
    decreases |steps|
  {
    if steps != [] {
      HoldsStayCurrent(w, steps[0]);
      OnlyRacesKill(Next(w, steps[0]), steps[1..]);
    }
  }

  lemma HoldsStayCurrent<T(!new)>(w: World<T>, s: Step<T>)
    requires Enabled(w, s) && HoldsCurrent(w) && !Races(w, s)
    ensures HoldsCurrent(Next(w, s)) && !KillsLive(w, s)
  {
    var v := Next(w, s);
    forall t | t in v.holds ensures
      (v.holds[t].sid in v.entries ==> v.entries[v.holds[t].sid] == v.holds[t].entry) &&
      (v.holds[t].doomed ==> v.holds[t].entry.Expired(v.clock))
    {
      if s.PutStep? { assert t in w.holds && w.holds[t].sid != s.sid; }
    }
  }

  /** Keys stored by the run, in order. */
  function Stored<T>(steps: seq<Step<T>>): seq<Sid> {
    if steps == [] then []
    else (if steps[0].PutStep? then [steps[0].sid] else []) + Stored(steps[1..])
  }

  predicate Distinct(ks: seq<Sid>) {
    forall i, j :: 0 <= i < j < |ks| ==> ks[i] != ks[j]
  }

  lemma {:induction false} FreshKeysNeverRace<T(!new)>(w: World<T>, steps: seq<Step<T>>)
    requires Run(w, steps) && Distinct(Stored(steps)) && HoldsLatest(w)
    requires forall k :: k in Stored(steps) ==> k !in w.latest
    requires forall t :: t in w.holds ==> w.holds[t].sid in w.latest
    ensures Never(w, steps, Races)
    decreases |steps|
  {
    if steps != [] {
      var v, rest := Next(w, steps[0]), Stored(steps[1..]);
      assert forall k :: k in rest ==> k in Stored(steps);
      forall i, j | 0 <= i < j < |rest| ensures rest[i] != rest[j] {
        var d := |Stored(steps)| - |rest|;
        assert Stored(steps)[i + d] == rest[i] && Stored(steps)[j + d] == rest[j];
      }
      if steps[0].PutStep? {
        assert Stored(steps)[0] == steps[0].sid;
        forall k | k in rest ensures k != steps[0].sid {
          var i :| 0 <= i < |rest| && rest[i] == k;
          assert Stored(steps)[i + 1] == k;
        }
      }
      FreshKeysNeverRace(v, steps[1..]);
    }
  }

  function Empty<T>(clock: int): World<T> {
    World(map[], map[], clock, map[])
  }

  /** In every interleaving in which no store slips in between the load of its key's former
      entry and the delete, the sweeper is invisible: a reader is given the latest of any number of
      stores of a key exactly while its time to live has not passed. */
  lemma EvictorInvisible<T(!new)>(clock: int, steps: seq<Step<T>>)
    requires Run(Empty<T>(clock), steps) && Never(Empty<T>(clock), steps, Races)
    ensures AlwaysFaithful(Empty<T>(clock), steps)
  {
    var w := Empty<T>(clock);
    OnlyRacesKill(w, steps);
    FaithfulExactly(w, steps);
  }

  /** So it is whenever session ids are stored at most once, which a scan timestamp inside
      the id is meant to give. */
  lemma FreshSessionsInvisible<T(!new)>(clock: int, steps: seq<Step<T>>)
    requires Run(Empty<T>(clock), steps) && Distinct(Stored(steps))
    ensures AlwaysFaithful(Empty<T>(clock), steps)
  {
    FreshKeysNeverRace(Empty<T>(clock), steps);
    EvictorInvisible(clock, steps);
  }

  lemma {:induction false} DropExpired<T>(w: World<T>, k: Sid, now: int, t: nat, rest: seq<Step<T>>)
    requires now <= w.clock && t !in w.holds && k in w.entries && w.entries[k].Expired(now)
    requires Run(w.(entries := w.entries - {k}), rest)
    ensures var steps := [Load(t, k), Check(t, now), Delete(t)] + rest;
      Run(w, steps) && End(w, steps) == End(w.(entries := w.entries - {k}), rest) && Stored(steps) == Stored(rest)
  {
    var steps := [Load(t, k), Check(t, now), Delete(t)] + rest;
    var w1 := Next(w, steps[0]);
    var w2 := Next(w1, Check(t, now));
    var w3 := Next(w2, Delete(t));
    assert w2.holds - {t} == w.holds;
    assert w3 == w.(entries := w.entries - {k});
    assert steps[1..] == [Check(t, now), Delete(t)] + rest;
    assert steps[1..][1..] == [Delete(t)] + rest && steps[1..][1..][1..] == rest;
    assert Stored(steps) == Stored(steps[1..]) == Stored(steps[1..][1..]) == Stored(rest);
    assert Run(w2, steps[1..][1..]) && End(w2, steps[1..][1..]) == End(w3, rest);
    assert Run(w1, steps[1..]) && End(w1, steps[1..]) == End(w3, rest);
  }

  /** A whole sweep is a run of load, check and delete steps, so what holds of every
      interleaving holds of the sweeper between any other steps. */
  lemma {:induction false} SweepIsRun<T>(w: World<T>, now: int, t: nat) returns (steps: seq<Step<T>>)
    requires now <= w.clock && t !in w.holds
    ensures Run(w, steps) && End(w, steps) == w.(entries := Live(w.entries, now))
    ensures Stored(steps) == []
    decreases |w.entries|
  {
    if k :| k in w.entries && w.entries[k].Expired(now) {
      var fewer := w.(entries := w.entries - {k});
      assert Live(fewer.entries, now) == Live(w.entries, now);
      var rest := SweepIsRun(fewer, now, t);
      DropExpired(w, k, now, t, rest);
      steps := [Load(t, k), Check(t, now), Delete(t)] + rest;
    } else {
      steps := [];
      assert Live(w.entries, now) == w.entries;
    }
  }

  /** A run from `w` of as many steps as there are worlds after it. */
  predicate Trace<T(==)>(w: World<T>, steps: seq<Step<T>>, ws: seq<World<T>>) {
    && |ws| == |steps| + 1 && ws[0] == w
    && forall i | 0 <= i < |steps| :: Enabled(ws[i], steps[i]) && ws[i + 1] == Next(ws[i], steps[i])
  }

  lemma {:induction false} TraceIsRun<T(!new)>(w: World<T>, steps: seq<Step<T>>, ws: seq<World<T>>)
    requires Trace(w, steps, ws)
    ensures Run(w, steps) && End(w, steps) == ws[|steps|]
    ensures AlwaysFaithful(w, steps) ==> Faithful(ws[|steps|])
    decreases |steps|
  {
    if steps != [] {
      assert ws[0 + 1] == Next(ws[0], steps[0]);
      forall i | 0 <= i < |steps[1..]|
        ensures Enabled(ws[1..][i], steps[1..][i]) && ws[1..][i + 1] == Next(ws[1..][i], steps[1..][i])
      {
        assert Enabled(ws[i + 1], steps[i + 1]) && ws[i + 1 + 1] == Next(ws[i + 1], steps[i + 1]);
      }
      TraceIsRun(ws[1], steps[1..], ws[1..]);
    }
  }

  lemma StoredAndLoaded(first: Entry<int>, t: nat, w1: World<int>, w2: World<int>, w3: World<int>)
    requires first == Entry([1], 600) && w1 == World(map["s" := first], map["s" := first], 0, map[])
    requires w2 == w1.(clock := t) && w3 == w2.(holds := map[7 := Hold("s", first, false)])
    ensures Enabled(Empty<int>(0), PutStep("s", [1], 0)) && Next(Empty<int>(0), PutStep("s", [1], 0)) == w1
    ensures Enabled(w1, Tick(t)) && Next(w1, Tick(t)) == w2
    ensures Enabled(w2, Load(7, "s")) && Next(w2, Load(7, "s")) == w3
  {
    assert w2.holds[7 := Hold("s", first, false)] == map[7 := Hold("s", first, false)];
  }

  /** A store that slips in between a check and its delete is lost. */
  lemma RacingStoreIsLost(steps: seq<Step<int>>)
    requires steps == [PutStep("s", [1], 0), Tick(601), Load(7, "s"), Check(7, 601), PutStep("s", [2], 601), Delete(7)]
    ensures Run(Empty(0), steps) && !AlwaysFaithful(Empty(0), steps)
    ensures var v := End(Empty(0), steps);
      Lookup(v.entries, "s", 601) == None && Lookup(v.latest, "s", 601) == Some(Entry([2], 1201))
  {
    var first, second := Entry([1], 600), Entry([2], 1201);
    var w := Empty<int>(0);
    var w1 := World(map["s" := first], map["s" := first], 0, map[]);
    var w2 := w1.(clock := 601);
    var w3 := w2.(holds := map[7 := Hold("s", first, false)]);
    var w4 := w2.(holds := map[7 := Hold("s", first, true)]);
    var w5 := World(map["s" := second], map["s" := second], 601, w4.holds);
    var w6 := World(map[], map["s" := second], 601, map[]);
    assert Lookup(w6.entries, "s", 601) == None && Lookup(w6.latest, "s", 601) == Some(second);
    StoredAndLoaded(first, 601, w1, w2, w3);
    assert Enabled(w3, steps[3]) && Next(w3, steps[3]) == w4;
    assert Enabled(w4, steps[4]) && Next(w4, steps[4]) == w5;
    assert Enabled(w5, steps[5]) && Next(w5, steps[5]) == w6;
    hide Enabled, Next, Lookup, Run, End, AlwaysFaithful, Empty;
    TraceIsRun(w, steps, [w, w1, w2, w3, w4, w5, w6]);
  }

  /** So is a store between the load and the check: a reader that loads an entry before it
      expires, and reads the clock after, deletes the new entry. */
  lemma StoreBeforeCheckIsLost(steps: seq<Step<int>>)
    requires steps == [PutStep("s", [1], 0), Tick(600), Load(7, "s"), PutStep("s", [2], 600), Tick(601), Check(7, 601), Delete(7)]
    ensures Run(Empty(0), steps) && !AlwaysFaithful(Empty(0), steps)
    ensures var v := End(Empty(0), steps);
      Lookup(v.entries, "s", 601) == None && Lookup(v.latest, "s", 601) == Some(Entry([2], 1200))
  {
    var first, second := Entry([1], 600), Entry([2], 1200);
    var w := Empty<int>(0);
    var w1 := World(map["s" := first], map["s" := first], 0, map[]);
    var w2 := w1.(clock := 600);
    var w3 := w2.(holds := map[7 := Hold("s", first, false)]);
    var w4 := World(map["s" := second], map["s" := second], 600, w3.holds);
    var w5 := w4.(clock := 601);
    var w6 := w5.(holds := map[7 := Hold("s", first, true)]);
    var w7 := World(map[], map["s" := second], 601, map[]);
    assert Lookup(w7.entries, "s", 601) == None && Lookup(w7.latest, "s", 601) == Some(second);
    StoredAndLoaded(first, 600, w1, w2, w3);
    assert Enabled(w3, steps[3]) && Next(w3, steps[3]) == w4;
    assert Enabled(w4, steps[4]) && Next(w4, steps[4]) == w5;
    assert Enabled(w5, steps[5]) && Next(w5, steps[5]) == w6;
    assert Enabled(w6, steps[6]) && Next(w6, steps[6]) == w7;
    hide Enabled, Next, Lookup, Run, End, AlwaysFaithful, Empty;
    TraceIsRun(w, steps, [w, w1, w2, w3, w4, w5, w6, w7]);
  }
}
