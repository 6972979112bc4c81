/** The per-root engine cache: one load entry per project root, loaded at most once
  however many callers race for it, and dropped by Evict and Reset. */
module EngineCache {
  import opened Options

  type Root = string
  type Loaded = Option<nat>   // a failed load is cached as None

  // ---------- one caller at a time ----------

  class LoadEntry {
    var done: bool
    var engine: Loaded

    constructor ()
      ensures !done
    {
      done, engine := false, None;
    }

    /** `once.Do`: only the first call's load counts. */
    method Do(result: Loaded)
      modifies this
      ensures done && engine == if old(done) then old(engine) else result
    {
      if !done { done, engine := true, result; }
    }
  }

  class Cache {
    var entries: map<Root, LoadEntry>

    constructor ()
      ensures entries == map[]
    {
      entries := map[];
    }

    /** `GetOrInit`, where a load would yield `result`. */
    method GetOrInit(root: Root, result: Loaded) returns (engine: Loaded)
      modifies this, entries.Values
      ensures root in entries && entries[root].done && entries[root].engine == engine
      ensures engine == if root in old(entries) && old(entries[root].done) then old(entries[root].engine) else result
      ensures entries == if root in old(entries) then old(entries) else old(entries)[root := entries[root]]
      ensures forall r :: r in old(entries) && old(entries)[r] != entries[root] ==>
        entries[r].done == old(entries[r].done) && entries[r].engine == old(entries[r].engine)
    {
      if root !in entries {
        var e := new LoadEntry();
        entries := entries[root := e];
      }
      var entry := entries[root];
      entry.Do(result);
      engine := entry.engine;
    }

    method Evict(root: Root)
      modifies this
      ensures entries == old(entries) - {root}
    {
      entries := entries - {root};
    }

    method Reset()
      modifies this
      ensures entries == map[]
    {
      entries := map[];
    }
  }

  // ---------- every interleaving ----------

  type Tid = nat

  datatype Once = Idle | Running(thread: Tid) | Finished

  /** A load entry with the number of times its loader was started. */
  datatype Slot = Slot(root: Root, once: Once, engine: Loaded, loads: nat)

  datatype Pc =
    | Calling(root: Root)
    | Holding(root: Root, slot: nat)
    | Loading(root: Root, slot: nat)
    | Returned(root: Root, slot: nat, engine: Loaded)

  /** `drops` counts, per root, the times Evict or Reset removed its entry. */
  datatype World = World(cache: map<Root, nat>, slots: seq<Slot>, threads: map<Tid, Pc>, drops: multiset<Root>)

  datatype Step =
    | Call(t: Tid, root: Root)
    | Lookup(t: Tid)
    | Begin(t: Tid)
    | Finish(t: Tid, result: Loaded)
    | Return(t: Tid)
    | Evict(root: Root)
    | Reset

  predicate Enabled(w: World, s: Step) {
    match s
    case Call(t, _) => t !in w.threads
    case Lookup(t) => t in w.threads && w.threads[t].Calling?
    case Begin(t) => t in w.threads && w.threads[t].Holding? && w.threads[t].slot < |w.slots| && w.slots[w.threads[t].slot].once.Idle?
    case Finish(t, _) => t in w.threads && w.threads[t].Loading? && w.threads[t].slot < |w.slots|
    case Return(t) => t in w.threads && w.threads[t].Holding? && w.threads[t].slot < |w.slots| && w.slots[w.threads[t].slot].once.Finished?
    case Evict(_) => true
    case Reset => true
  }

  function Next(w: World, s: Step): World
    requires Enabled(w, s)
  {
    match s
    case Call(t, root) => w.(threads := w.threads[t := Calling(root)])
    case Lookup(t) =>
      var root := w.threads[t].root;
      if root in w.cache then w.(threads := w.threads[t := Holding(root, w.cache[root])])
      else w.(cache := w.cache[root := |w.slots|], slots := w.slots + [Slot(root, Idle, None, 0)],
              threads := w.threads[t := Holding(root, |w.slots|)])
    case Begin(t) =>
      var i := w.threads[t].slot;
      w.(slots := w.slots[i := w.slots[i].(once := Running(t), loads := w.slots[i].loads + 1)],
           threads := w.threads[t := Loading(w.threads[t].root, i)])
    case Finish(t, result) =>
      var i := w.threads[t].slot;
      w.(slots := w.slots[i := w.slots[i].(once := Finished, engine := result)],
           threads := w.threads[t := Holding(w.threads[t].root, i)])
    case Return(t) =>
      var i := w.threads[t].slot;
      w.(threads := w.threads[t := Returned(w.threads[t].root, i, w.slots[i].engine)])
    case Evict(root) =>
      if root in w.cache then w.(cache := w.cache - {root}, drops := w.drops + multiset{root}) else w
    case Reset => w.(cache := map[], drops := w.drops + multiset(w.cache.Keys))
  }

  predicate Run(w: World, steps: seq<Step>)
    decreases |steps|
  {
    steps == [] || (Enabled(w, steps[0]) && Run(Next(w, steps[0]), steps[1..]))
  }

  function End(w: World, steps: seq<Step>): World
    requires Run(w, steps)
    decreases |steps|
  {
    if steps == [] then w else End(Next(w, steps[0]), steps[1..])
  }

  const START: World := World(map[], [], map[], multiset{})

  /** How many entries were ever created for `root`, and how many loads they started. */
  function Created(slots: seq<Slot>, root: Root): nat {
    if slots == [] then 0 else Created(slots[..|slots| - 1], root) + if slots[|slots| - 1].root == root then 1 else 0
  }

  function LoadsOf(slots: seq<Slot>, root: Root): nat {
    if slots == [] then 0
    else LoadsOf(slots[..|slots| - 1], root) + if slots[|slots| - 1].root == root then slots[|slots| - 1].loads else 0
  }

  predicate SlotOk(w: World, i: nat)
    requires i < |w.slots|
  {
    match w.slots[i].once
    case Idle => w.slots[i].loads == 0
    case Running(t) => w.slots[i].loads == 1 && t in w.threads && w.threads[t] == Loading(w.slots[i].root, i)
    case Finished => w.slots[i].loads == 1
  }

  predicate ThreadOk(w: World, pc: Pc) {
    match pc
    case Calling(_) => true
    case Holding(root, i) => i < |w.slots| && w.slots[i].root == root
    case Loading(root, i) => i < |w.slots| && w.slots[i].root == root && w.slots[i].once.Running? && w.slots[i].once.thread in w.threads && w.threads[w.slots[i].once.thread] == pc
    case Returned(root, i, engine) => i < |w.slots| && w.slots[i].root == root && w.slots[i].once.Finished? && w.slots[i].engine == engine
  }

  /** Two threads inside the loader of one entry are the same thread. */
  predicate LoadersAlone(w: World) {
    forall t :: t in w.threads && w.threads[t].Loading? && w.threads[t].slot < |w.slots| ==> w.slots[w.threads[t].slot].once == Running(t)
  }

  predicate Inv(w: World) {
    (forall i | 0 <= i < |w.slots| :: SlotOk(w, i)) &&
    (forall t :: t in w.threads ==> ThreadOk(w, w.threads[t])) &&
    LoadersAlone(w) &&
    (forall r :: r in w.cache ==> w.cache[r] < |w.slots| && w.slots[w.cache[r]].root == r)
  }

  lemma StepKeepsSlot(w: World, s: Step, i: nat)
    requires Inv(w) && Enabled(w, s) && i < |Next(w, s).slots|
    ensures SlotOk(Next(w, s), i)
  {
    if i < |w.slots| { assert SlotOk(w, i); }
  }

  lemma StepKeepsThread(w: World, s: Step, t: Tid)
    requires Inv(w) && Enabled(w, s) && t in Next(w, s).threads
    ensures ThreadOk(Next(w, s), Next(w, s).threads[t])
  {
    if t in w.threads { assert ThreadOk(w, w.threads[t]); }
  }

  lemma StepKeepsLoaders(w: World, s: Step)
    requires Inv(w) && Enabled(w, s)
    ensures LoadersAlone(Next(w, s))
  {
    forall t | t in w.threads ensures ThreadOk(w, w.threads[t]) {}
  }

  lemma StepKeepsInv(w: World, s: Step)
    requires Inv(w) && Enabled(w, s)
    ensures Inv(Next(w, s))
  {
    var v := Next(w, s);
    forall i | 0 <= i < |v.slots| ensures SlotOk(v, i) { StepKeepsSlot(w, s, i); }
    forall t | t in v.threads ensures ThreadOk(v, v.threads[t]) { StepKeepsThread(w, s, t); }
    StepKeepsLoaders(w, s);
    assert forall r :: r in v.cache ==> v.cache[r] < |v.slots| && v.slots[v.cache[r]].root == r;
  }

  /** An entry is created for a root only when its cache slot is empty, so at most one
      more often than the slot was emptied. */
  ghost predicate CreatedBound(w: World) {
    forall r: Root :: Created(w.slots, r) <= w.drops[r] + if r in w.cache then 1 else 0
  }

  lemma {:induction false} CreatedUpdate(slots: seq<Slot>, i: nat, x: Slot, r: Root)
    requires i < |slots| && x.root == slots[i].root
    ensures Created(slots[i := x], r) == Created(slots, r)
    decreases |slots|
  {
    var n := |slots| - 1;
    assert slots[i := x][..n] == if i == n then slots[..n] else slots[..n][i := x];
    if i < n { CreatedUpdate(slots[..n], i, x, r); }
  }

  lemma StepKeepsBound(w: World, s: Step)
    requires Inv(w) && CreatedBound(w) && Enabled(w, s)
    ensures CreatedBound(Next(w, s))
  {
    var v := Next(w, s);
    forall r: Root ensures Created(v.slots, r) <= v.drops[r] + if r in v.cache then 1 else 0 {
      assert Created(w.slots, r) <= w.drops[r] + if r in w.cache then 1 else 0;
      match s
      case Lookup(t) => if w.threads[t].root !in w.cache { assert v.slots[..|w.slots|] == w.slots; }
      case Begin(t) => CreatedUpdate(w.slots, w.threads[t].slot, v.slots[w.threads[t].slot], r);
      case Finish(t, _) => CreatedUpdate(w.slots, w.threads[t].slot, v.slots[w.threads[t].slot], r);
      case _ =>
    }
  }

  lemma {:induction false} AlwaysInv(w: World, steps: seq<Step>)
    requires Run(w, steps) && Inv(w) && CreatedBound(w)
    ensures Inv(End(w, steps)) && CreatedBound(End(w, steps))
    decreases |steps|
  {
    if steps != [] {
      StepKeepsInv(w, steps[0]);
      StepKeepsBound(w, steps[0]);
      AlwaysInv(Next(w, steps[0]), steps[1..]);
    }
  }

  lemma {:induction false} LoadsAtMostCreated(slots: seq<Slot>, r: Root)
    requires forall i | 0 <= i < |slots| :: slots[i].loads <= 1
    ensures LoadsOf(slots, r) <= Created(slots, r)
    decreases |slots|
  {
    if slots != [] { LoadsAtMostCreated(slots[..|slots| - 1], r); }
  }

  /** In every interleaving each entry is loaded at most once, and all callers that
      obtained one entry return the same result, a failed load included. */
  lemma SingleFlight(steps: seq<Step>)
    requires Run(START, steps)
    ensures var w := End(START, steps);
      (forall i | 0 <= i < |w.slots| :: w.slots[i].loads <= 1) &&
      forall t, u | t in w.threads && u in w.threads && w.threads[t].Returned? && w.threads[u].Returned? &&
        w.threads[t].slot == w.threads[u].slot :: w.threads[t].engine == w.threads[u].engine
  {
    AlwaysInv(START, steps);
    var w := End(START, steps);
    forall i | 0 <= i < |w.slots| ensures w.slots[i].loads <= 1 { assert SlotOk(w, i); }
    forall t | t in w.threads && w.threads[t].Returned? ensures w.threads[t].slot < |w.slots| && w.threads[t].engine == w.slots[w.threads[t].slot].engine {
      assert ThreadOk(w, w.threads[t]);
    }
  }

  /** A root is loaded at most once more than Evict and Reset dropped it; so once in the
      whole run when they never do. */
  lemma LoadsPerRoot(steps: seq<Step>, r: Root)
    requires Run(START, steps)
    ensures var w := End(START, steps); LoadsOf(w.slots, r) <= w.drops[r] + 1
    ensures (forall s | s in steps :: !s.Evict? && !s.Reset?) ==> LoadsOf(End(START, steps).slots, r) <= 1
  {
    AlwaysInv(START, steps);
    SingleFlight(steps);
    var w := End(START, steps);
    LoadsAtMostCreated(w.slots, r);
    assert Created(w.slots, r) <= w.drops[r] + if r in w.cache then 1 else 0;
    if forall s | s in steps :: !s.Evict? && !s.Reset? { NeverDropped(START, steps); }
  }

  lemma {:induction false} NeverDropped(w: World, steps: seq<Step>)
    requires Run(w, steps) && forall s | s in steps :: !s.Evict? && !s.Reset?
    ensures End(w, steps).drops == w.drops
    decreases |steps|
  {
    if steps != [] { NeverDropped(Next(w, steps[0]), steps[1..]); }
  }

  // ---------- whose result a caller gets ----------

  function MoreAsked(s: Step, asked: map<Tid, Root>): map<Tid, Root> {
    if s.Call? then asked[s.t := s.root] else asked
  }

  function MoreDelivered(w: World, s: Step): map<nat, Loaded>
    requires Enabled(w, s)
  {
    if s.Finish? then map[w.threads[s.t].slot := s.result] else map[]
  }

  /** The root each thread called for. */
  function Asked(steps: seq<Step>): map<Tid, Root> {
    if steps == [] then map[] else MoreAsked(steps[|steps| - 1], Asked(steps[..|steps| - 1]))
  }

  /** What the load of each entry delivered in a run. */
  function Delivered(w: World, steps: seq<Step>): map<nat, Loaded>
    requires Run(w, steps)
    decreases |steps|
  {
    if steps == [] then map[]
    else
      var later := Delivered(Next(w, steps[0]), steps[1..]);
      MoreDelivered(w, steps[0]) + later
  }

  lemma {:induction false} RunSnoc(w: World, steps: seq<Step>, s: Step)
    requires Run(w, steps + [s])
    ensures Run(w, steps) && Enabled(End(w, steps), s) && End(w, steps + [s]) == Next(End(w, steps), s)
    decreases |steps|
  {
    hide Next, Enabled;
    if steps == [] {
      assert [] + [s] == [s] && [s][1..] == [];
    } else {
      assert (steps + [s])[1..] == steps[1..] + [s] && (steps + [s])[0] == steps[0];
      RunSnoc(Next(w, steps[0]), steps[1..], s);
    }
  }

  lemma {:induction false} DeliveredSnoc(w: World, steps: seq<Step>, s: Step)
    requires Run(w, steps) && Run(w, steps + [s]) && Enabled(End(w, steps), s)
    ensures Delivered(w, steps + [s]) == Delivered(w, steps) + MoreDelivered(End(w, steps), s)
    decreases |steps|
  {
    hide Next, Enabled, MoreDelivered;
    if steps == [] {
      assert [] + [s] == [s] && [s][1..] == [];
      assert Delivered(w, [s]) == MoreDelivered(w, s) + map[];
    } else {
      assert (steps + [s])[1..] == steps[1..] + [s] && (steps + [s])[0] == steps[0];
      DeliveredSnoc(Next(w, steps[0]), steps[1..], s);
    }
  }

  /** Threads carry the root they called for. */
  predicate Asking(w: World, asked: map<Tid, Root>) {
    forall t :: t in w.threads ==> t in asked && asked[t] == w.threads[t].root
  }

  /** Exactly the finished entries have a delivery, and they hold it. */
  predicate Holds(w: World, delivered: map<nat, Loaded>) {
    (forall i | i in delivered :: i < |w.slots|) &&
    forall i: nat | i < |w.slots| ::
      (i in delivered <==> w.slots[i].once.Finished?) && (i in delivered ==> delivered[i] == w.slots[i].engine)
  }

  lemma StepStaysAsking(w: World, s: Step, asked: map<Tid, Root>)
    requires Enabled(w, s) && Asking(w, asked)
    ensures Asking(Next(w, s), MoreAsked(s, asked))
  {
  }

  lemma StepStaysHolding(w: World, s: Step, delivered: map<nat, Loaded>)
    requires Inv(w) && Enabled(w, s) && Holds(w, delivered)
    ensures Holds(Next(w, s), delivered + MoreDelivered(w, s))
  {
    if s.Begin? || s.Finish? { assert ThreadOk(w, w.threads[s.t]); }
    hide Inv, ThreadOk;
    var v, more := Next(w, s), delivered + MoreDelivered(w, s);
    forall i: nat | i < |v.slots| ensures
      (i in more <==> v.slots[i].once.Finished?) && (i in more ==> more[i] == v.slots[i].engine)
    {
      assert i < |w.slots| ==> (i in delivered <==> w.slots[i].once.Finished?);
    }
  }

  lemma {:induction false} AlwaysHonest(steps: seq<Step>)
    requires Run(START, steps)
    ensures Inv(End(START, steps)) && Asking(End(START, steps), Asked(steps)) && Holds(End(START, steps), Delivered(START, steps))
    decreases |steps|
  {
    if steps != [] {
      var init, s := steps[..|steps| - 1], steps[|steps| - 1];
      assert steps == init + [s];
      RunSnoc(START, init, s);
      DeliveredSnoc(START, init, s);
      AlwaysHonest(init);
      StepKeepsInv(End(START, init), s);
      StepStaysAsking(End(START, init), s, Asked(init));
      StepStaysHolding(End(START, init), s, Delivered(START, init));
    }
  }

  /** In every interleaving a caller is given the result that the load of an entry for the
      very root it called for delivered. */
  lemma CallerGetsItsRoot(steps: seq<Step>, t: Tid)
    requires Run(START, steps) && t in End(START, steps).threads && End(START, steps).threads[t].Returned?
    ensures var w, d := End(START, steps), Delivered(START, steps);
      var pc := w.threads[t];
      t in Asked(steps) && pc.slot < |w.slots| && w.slots[pc.slot].root == Asked(steps)[t] &&
      pc.slot in d && d[pc.slot] == pc.engine
  {
    AlwaysHonest(steps);
    assert ThreadOk(End(START, steps), End(START, steps).threads[t]);
  }
}
