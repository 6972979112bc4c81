/** From the matches of each dependency to DEP-VULN findings, after deduplication. */
module DepReport {
  import opened Options
  import opened AliasGroups
  import opened DepGroups
  import opened DepMerge

  // ---------- the per-path map ----------

  /** The lookup result that survives under each path: a later dependency with the same
      path and matches replaces the earlier one. */
  function PerPath(deps: seq<string>, lookups: seq<Vulns>, n: nat): map<string, Vulns>
    requires n <= |deps| == |lookups|
  {
    if n == 0 then map[]
    else if lookups[n - 1] == [] then PerPath(deps, lookups, n - 1)
    else PerPath(deps, lookups, n - 1)[deps[n - 1] := lookups[n - 1]]
  }

  function IdsOf(vulns: Vulns): set<string> {
    set v | v in vulns :: v.id
  }

  predicate Surviving(deps: seq<string>, lookups: seq<Vulns>, id: string)
    requires |deps| == |lookups|
  {
    exists path | path in PerPath(deps, lookups, |deps|) :: id in IdsOf(PerPath(deps, lookups, |deps|)[path])
  }

  /** Dependency `e` has matches and none of the later ones with its path does. */
  predicate LastOfPath(deps: seq<string>, lookups: seq<Vulns>, n: nat, e: nat)
    requires n <= |deps| == |lookups|
  {
    e < n && lookups[e] != [] && forall f | e < f < n :: deps[f] == deps[e] ==> lookups[f] == []
  }

  lemma {:induction false} PerPathHolds(deps: seq<string>, lookups: seq<Vulns>, n: nat, e: nat)
    requires n <= |deps| == |lookups| && LastOfPath(deps, lookups, n, e)
    ensures deps[e] in PerPath(deps, lookups, n) && PerPath(deps, lookups, n)[deps[e]] == lookups[e]
  {
    if e < n - 1 { PerPathHolds(deps, lookups, n - 1, e); }
  }

  lemma {:induction false} PerPathFrom(deps: seq<string>, lookups: seq<Vulns>, n: nat, path: string) returns (e: nat)
    requires n <= |deps| == |lookups| && path in PerPath(deps, lookups, n)
    ensures LastOfPath(deps, lookups, n, e) && deps[e] == path && PerPath(deps, lookups, n)[path] == lookups[e]
  {
    if lookups[n - 1] != [] && deps[n - 1] == path {
      e := n - 1;
    } else {
      e := PerPathFrom(deps, lookups, n - 1, path);
    }
  }

  /** An ID survives if and only if some dependency matches it whose path no later
      dependency with matches repeats. */
  lemma SurvivingExactly(deps: seq<string>, lookups: seq<Vulns>, id: string)
    requires |deps| == |lookups|
    ensures Surviving(deps, lookups, id) <==> exists e: nat :: LastOfPath(deps, lookups, |deps|, e) && id in IdsOf(lookups[e])
  {
    var m := PerPath(deps, lookups, |deps|);
    if Surviving(deps, lookups, id) {
      var path :| path in m && id in IdsOf(m[path]);
      var e := PerPathFrom(deps, lookups, |deps|, path);
    }
    if e: nat :| LastOfPath(deps, lookups, |deps|, e) && id in IdsOf(lookups[e]) {
      PerPathHolds(deps, lookups, |deps|, e);
    }
  }

  /** A repeated path with matches of its own hides the earlier matches. */
  lemma RepeatedPathHides(a: Vuln, b: Vuln)
    requires a.id != b.id
    ensures a in Concat([[a], [b]]) && !Surviving(["m", "m"], [[a], [b]], a.id)
  {
    var deps, lookups := ["m", "m"], [[a], [b]];
    assert lookups[1..] == [[b]] && [[b]][1..] == [];
    assert Concat([[b]]) == [b] && lookups[0] == [a];
    assert Concat(lookups) == [a] + [b];
    SurvivingExactly(deps, lookups, a.id);
    assert !LastOfPath(deps, lookups, 2, 0) by { assert deps[1] == deps[0] && lookups[1] != []; }
  }

  predicate DistinctPaths(deps: seq<string>) {
    forall i, j | 0 <= i < j < |deps| :: deps[i] != deps[j]
  }

  // ---------- emission ----------

  datatype Finding = Finding(dep: string, vuln: Vuln)

  function Concat<T>(xs: seq<seq<T>>): seq<T> {
    if xs == [] then [] else xs[0] + Concat(xs[1..])
  }

  function OutIds(out: seq<Finding>): set<string> {
    set f | f in out :: f.vuln.id
  }

  predicate DistinctOut(out: seq<Finding>) {
    forall i, j | 0 <= i < j < |out| :: out[i].vuln.id != out[j].vuln.id
  }

  function Tagged(dep: string, vulns: Vulns): (r: seq<Finding>)
    ensures |r| == |vulns| && forall k | 0 <= k < |r| :: r[k] == Finding(dep, vulns[k])
  {
    seq(|vulns|, k requires 0 <= k < |vulns| => Finding(dep, vulns[k]))
  }

  /** Every candidate finding in the order the loop meets them. */
  function Candidates(deps: seq<string>, perPath: map<string, Vulns>): seq<Finding> {
    if deps == [] then []
    else
      var n := |deps| - 1;
      Candidates(deps[..n], perPath) + Tagged(deps[n], if deps[n] in perPath then perPath[deps[n]] else [])
  }

  /** The first candidate of each ID in `ids`. */
  function Firsts(cs: seq<Finding>, ids: set<string>): seq<Finding> {
    if cs == [] then []
    else
      var n := |cs| - 1;
      var before := Firsts(cs[..n], ids);
      if cs[n].vuln.id in ids && cs[n].vuln.id !in OutIds(cs[..n]) then before + [cs[n]] else before
  }

  lemma OutIdsSnoc(out: seq<Finding>, f: Finding)
    ensures OutIds(out + [f]) == OutIds(out) + {f.vuln.id}
  {
    assert forall g :: g in out + [f] <==> g in out || g == f;
  }

  /** No ID is reported twice, and exactly the candidates' IDs in `ids` are reported. */
  lemma {:induction false} FirstsAreDistinct(cs: seq<Finding>, ids: set<string>)
    ensures DistinctOut(Firsts(cs, ids)) && OutIds(Firsts(cs, ids)) == OutIds(cs) * ids
    decreases |cs|
  {
    if cs != [] {
      var n := |cs| - 1;
      var before := Firsts(cs[..n], ids);
      FirstsAreDistinct(cs[..n], ids);
      assert cs == cs[..n] + [cs[n]];
      OutIdsSnoc(cs[..n], cs[n]);
      OutIdsSnoc(before, cs[n]);
      forall i | 0 <= i < |before| ensures before[i].vuln.id in OutIds(before) {}
    }
  }

  /** `f` is the first candidate with its ID. */
  predicate IsFirst(cs: seq<Finding>, p: nat, f: Finding) {
    p < |cs| && cs[p] == f && forall q | 0 <= q < p :: cs[q].vuln.id != f.vuln.id
  }

  lemma {:induction false} FirstsAreFirst(cs: seq<Finding>, ids: set<string>, f: Finding) returns (p: nat)
    requires f in Firsts(cs, ids)
    ensures IsFirst(cs, p, f)
    decreases |cs|
  {
    var n := |cs| - 1;
    if f in Firsts(cs[..n], ids) {
      p := FirstsAreFirst(cs[..n], ids, f);
      assert forall q | 0 <= q < n :: cs[..n][q] == cs[q];
    } else {
      p := n;
      forall q | 0 <= q < n ensures cs[q].vuln.id != f.vuln.id { assert cs[..n][q] in cs[..n]; }
    }
  }

  /** The emit loop so far: findings are the firsts, and `left` the IDs still to report. */
  ghost predicate Emitted(cs: seq<Finding>, ids: set<string>, left: set<string>, out: seq<Finding>) {
    out == Firsts(cs, ids) && left == ids - OutIds(cs)
  }

  lemma EmitNext(cs: seq<Finding>, ids: set<string>, left: set<string>, out: seq<Finding>, f: Finding)
    requires Emitted(cs, ids, left, out)
    ensures Emitted(cs + [f], ids, left - {f.vuln.id}, if f.vuln.id in left then out + [f] else out)
  {
    assert (cs + [f])[..|cs|] == cs;
    OutIdsSnoc(cs, f);
  }

  /** One dependency's turn: its entries whose ID is still unreported. */
  method EmitFor(dep: string, vulns: Vulns, ghost cs: seq<Finding>, ghost ids: set<string>, left: set<string>, out: seq<Finding>)
    returns (left': set<string>, out': seq<Finding>)
    requires Emitted(cs, ids, left, out)
    ensures Emitted(cs + Tagged(dep, vulns), ids, left', out')
  {
    hide Emitted, Tagged;
    left', out' := left, out;
    ghost var ts := Tagged(dep, vulns);
    assert cs + ts[..0] == cs;
    for k := 0 to |vulns|
      invariant Emitted(cs + ts[..k], ids, left', out')
    {
      var f := Finding(dep, vulns[k]);
      EmitNext(cs + ts[..k], ids, left', out', f);
      assert cs + ts[..k + 1] == cs + ts[..k] + [f];
      if f.vuln.id in left' {
        out' := out' + [f];
        left' := left' - {f.vuln.id};
      }
      assert left' == left' - {f.vuln.id};
    }
    assert ts[..|vulns|] == ts;
  }

  /** The emit loop of `scanFromCache`: the first candidate of each representative ID, in
      order; so no ID is reported twice, and an ID is reported exactly when it is a
      representative's and survives the per-path map. */
  method EmitFindings(deps: seq<string>, lookups: seq<Vulns>, repIds: set<string>) returns (out: seq<Finding>)
    requires |deps| == |lookups|
    ensures out == Firsts(Candidates(deps, PerPath(deps, lookups, |deps|)), repIds)
    ensures DistinctOut(out)
    ensures forall id :: id in OutIds(out) <==> id in repIds && Surviving(deps, lookups, id)
    ensures forall f | f in out :: exists d, e :: ReportedFrom(deps, lookups, f, d, e)
  {
    var perPath := PerPath(deps, lookups, |deps|);
    var left := repIds;
    out := [];
    for d := 0 to |deps|
      invariant Emitted(Candidates(deps[..d], perPath), repIds, left, out)
    {
      assert deps[..d + 1][..d] == deps[..d];
      left, out := EmitFor(deps[d], if deps[d] in perPath then perPath[deps[d]] else [], Candidates(deps[..d], perPath), repIds, left, out);
    }
    assert deps[..|deps|] == deps;
    FirstsAreDistinct(Candidates(deps, perPath), repIds);
    forall id ensures id in OutIds(Candidates(deps, perPath)) <==> Surviving(deps, lookups, id) {
      CandidateIds(deps, lookups, id);
    }
    forall f | f in out ensures exists d, e :: ReportedFrom(deps, lookups, f, d, e) {
      var d, e := FindingNames(deps, lookups, repIds, f);
    }
  }

  lemma {:induction false} CandidatesHold(deps: seq<string>, perPath: map<string, Vulns>, id: string)
    ensures id in OutIds(Candidates(deps, perPath))
       <==> exists d | 0 <= d < |deps| :: deps[d] in perPath && id in IdsOf(perPath[deps[d]])
    decreases |deps|
  {
    if deps != [] {
      var n := |deps| - 1;
      var vulns := if deps[n] in perPath then perPath[deps[n]] else [];
      CandidatesHold(deps[..n], perPath, id);
      OutIdsJoin(Candidates(deps[..n], perPath), deps[n], vulns);
      assert Candidates(deps, perPath) == Candidates(deps[..n], perPath) + Tagged(deps[n], vulns);
      hide Candidates, OutIds, IdsOf, Tagged;
      assert forall d | 0 <= d < n :: deps[..n][d] == deps[d];
    }
  }

  lemma OutIdsJoin(cs: seq<Finding>, dep: string, vulns: Vulns)
    ensures OutIds(cs + Tagged(dep, vulns)) == OutIds(cs) + IdsOf(vulns)
  {
    var ts := Tagged(dep, vulns);
    assert forall g :: g in cs + ts <==> g in cs || g in ts;
    forall v | v in vulns ensures Finding(dep, v) in ts {
      var k :| 0 <= k < |vulns| && vulns[k] == v;
      assert ts[k] == Finding(dep, v);
    }
    forall id | id in IdsOf(vulns) ensures id in OutIds(cs + ts) {
      var v :| v in vulns && v.id == id;
      assert Finding(dep, v) in cs + ts;
    }
  }

  lemma CandidateIds(deps: seq<string>, lookups: seq<Vulns>, id: string)
    requires |deps| == |lookups|
    ensures id in OutIds(Candidates(deps, PerPath(deps, lookups, |deps|))) <==> Surviving(deps, lookups, id)
  {
    var m := PerPath(deps, lookups, |deps|);
    CandidatesHold(deps, m, id);
    if Surviving(deps, lookups, id) {
      var path :| path in m && id in IdsOf(m[path]);
      var e := PerPathFrom(deps, lookups, |deps|, path);
      assert deps[e] in m;
    }
  }

  // ---------- which dependency a finding names ----------

  /** Candidate `p` stands in the block of dependency `d`, behind those of the earlier
      dependencies. */
  predicate InBlock(deps: seq<string>, perPath: map<string, Vulns>, p: nat, d: nat) {
    var cs := Candidates(deps, perPath);
    d < |deps| && p < |cs| && deps[d] in perPath && Candidates(deps[..d], perPath) <= cs &&
    |Candidates(deps[..d], perPath)| <= p < |Candidates(deps[..d], perPath)| + |perPath[deps[d]]| <= |cs| &&
    forall k | 0 <= k < |perPath[deps[d]]| :: cs[|Candidates(deps[..d], perPath)| + k] == Finding(deps[d], perPath[deps[d]][k])
  }

  lemma {:induction false} CandidateBlock(deps: seq<string>, perPath: map<string, Vulns>, p: nat) returns (d: nat)
    requires p < |Candidates(deps, perPath)|
    ensures InBlock(deps, perPath, p, d)
    decreases |deps|
  {
    var n := |deps| - 1;
    var init := Candidates(deps[..n], perPath);
    if p < |init| {
      d := CandidateBlock(deps[..n], perPath, p);
      assert deps[..n][..d] == deps[..d];
    } else {
      d := n;
    }
  }

  /** The finding names dependency `d`; its entry is the first of its ID among the surviving
      matches of that path, which are those of dependency `e`; and no earlier dependency's
      path has a surviving match of that ID. */
  predicate ReportedFrom(deps: seq<string>, lookups: seq<Vulns>, f: Finding, d: nat, e: nat)
    requires |deps| == |lookups|
  {
    && d < |deps| && f.dep == deps[d] && LastOfPath(deps, lookups, |deps|, e) && deps[e] == f.dep
    && (exists k | 0 <= k < |lookups[e]| :: lookups[e][k] == f.vuln && forall q | 0 <= q < k :: lookups[e][q].id != f.vuln.id)
    && forall x: nat, y: nat | x < d && y < |deps| && LastOfPath(deps, lookups, |deps|, y) && deps[y] == deps[x] :: f.vuln.id !in IdsOf(lookups[y])
  }

  /** No entry before the first candidate with its ID has that ID, in its own block or in an
      earlier one. */
  lemma FirstInBlock(deps: seq<string>, perPath: map<string, Vulns>, p: nat, d: nat, f: Finding)
    requires InBlock(deps, perPath, p, d) && IsFirst(Candidates(deps, perPath), p, f)
    ensures f.dep == deps[d] && exists k | 0 <= k < |perPath[deps[d]]| ::
      perPath[deps[d]][k] == f.vuln && forall q | 0 <= q < k :: perPath[deps[d]][q].id != f.vuln.id
    ensures f.vuln.id !in OutIds(Candidates(deps[..d], perPath))
  {
    var cs, before := Candidates(deps, perPath), Candidates(deps[..d], perPath);
    hide Candidates;
    var k := p - |before|;
    assert cs[|before| + k] == Finding(deps[d], perPath[deps[d]][k]);
    forall q | 0 <= q < k ensures perPath[deps[d]][q].id != f.vuln.id { assert cs[|before| + q].vuln == perPath[deps[d]][q]; }
    forall g | g in before ensures g.vuln.id != f.vuln.id {
      var q :| 0 <= q < |before| && before[q] == g;
      assert cs[q] == g;
    }
  }

  lemma NoneEarlier(deps: seq<string>, lookups: seq<Vulns>, d: nat, id: string, x: nat, y: nat)
    requires |deps| == |lookups| && x < d <= |deps| && LastOfPath(deps, lookups, |deps|, y) && deps[y] == deps[x]
    requires id !in OutIds(Candidates(deps[..d], PerPath(deps, lookups, |deps|)))
    ensures id !in IdsOf(lookups[y])
  {
    hide Candidates, PerPath, OutIds, IdsOf;
    PerPathHolds(deps, lookups, |deps|, y);
    CandidatesHold(deps[..d], PerPath(deps, lookups, |deps|), id);
    assert deps[..d][x] == deps[x];
  }

  /** Every finding names its dependency. */
  lemma FindingNames(deps: seq<string>, lookups: seq<Vulns>, ids: set<string>, f: Finding) returns (d: nat, e: nat)
    requires |deps| == |lookups| && f in Firsts(Candidates(deps, PerPath(deps, lookups, |deps|)), ids)
    ensures ReportedFrom(deps, lookups, f, d, e)
  {
    hide Candidates, PerPath, OutIds, IdsOf, Firsts;
    var m := PerPath(deps, lookups, |deps|);
    var p := FirstsAreFirst(Candidates(deps, m), ids, f);
    d := CandidateBlock(deps, m, p);
    FirstInBlock(deps, m, p, d, f);
    e := PerPathFrom(deps, lookups, |deps|, deps[d]);
    forall x: nat, y: nat | x < d && y < |deps| && LastOfPath(deps, lookups, |deps|, y) && deps[y] == deps[x]
      ensures f.vuln.id !in IdsOf(lookups[y])
    {
      NoneEarlier(deps, lookups, d, f.vuln.id, x, y);
    }
  }

  // ---------- distinct paths ----------

  function VulnsOf(cs: seq<Finding>): (r: Vulns)
    ensures |r| == |cs| && forall k | 0 <= k < |r| :: r[k] == cs[k].vuln
  {
    seq(|cs|, k requires 0 <= k < |cs| => cs[k].vuln)
  }

  lemma {:induction false} ConcatSnoc<T>(xs: seq<seq<T>>, x: seq<T>)
    ensures Concat(xs + [x]) == Concat(xs) + x
  {
    if xs == [] {
      assert [x][1..] == [];
    } else {
      assert (xs + [x])[1..] == xs[1..] + [x];
      ConcatSnoc(xs[1..], x);
    }
  }

  lemma OwnMatches(deps: seq<string>, lookups: seq<Vulns>, d: nat)
    requires d < |deps| == |lookups| && DistinctPaths(deps)
    ensures var m := PerPath(deps, lookups, |deps|);
      (if deps[d] in m then m[deps[d]] else []) == lookups[d]
  {
    var m := PerPath(deps, lookups, |deps|);
    if lookups[d] != [] {
      PerPathHolds(deps, lookups, |deps|, d);
    } else if deps[d] in m {
      var e := PerPathFrom(deps, lookups, |deps|, deps[d]);
      assert false;
    }
  }

  lemma VulnsOfJoin(cs: seq<Finding>, dep: string, vulns: Vulns)
    ensures VulnsOf(cs + Tagged(dep, vulns)) == VulnsOf(cs) + vulns
  {
  }

  /** With distinct paths the candidates are all matches, in dependency order. */
  lemma {:induction false} CandidatesAreMatches(deps: seq<string>, lookups: seq<Vulns>, n: nat)
    requires n <= |deps| == |lookups| && DistinctPaths(deps)
    ensures VulnsOf(Candidates(deps[..n], PerPath(deps, lookups, |deps|))) == Concat(lookups[..n])
  {
    if n > 0 {
      var m := PerPath(deps, lookups, |deps|);
      CandidatesAreMatches(deps, lookups, n - 1);
      OwnMatches(deps, lookups, n - 1);
      assert deps[..n][..n - 1] == deps[..n - 1];
      assert lookups[..n] == lookups[..n - 1] + [lookups[n - 1]];
      hide PerPath, DistinctPaths, VulnsOf, Tagged, Concat;
      ConcatSnoc(lookups[..n - 1], lookups[n - 1]);
      VulnsOfJoin(Candidates(deps[..n - 1], m), deps[n - 1], lookups[n - 1]);
    }
  }

  // ---------- the report ----------

  function RepIds(cur: Vulns, index: seq<nat>): set<string>
    requires Within(index, |cur|)
  {
    set j | 0 <= j < |index| :: cur[index[j]].id
  }

  /** The findings of a scan: `vs` are the matches as looked up, `current` the same
      matches, per dependency, once deduplication has rewritten their aliases. */
  ghost predicate Reported(deps: seq<string>, objs: seq<Vulnerability>, vs: Vulns, keys: seq<string>, current: seq<Vulns>,
                           index: seq<nat>, groupOf: seq<string>, out: seq<Finding>)
  {
    && |deps| == |current| && Deduplicated(objs, vs, keys, Concat(current), index, groupOf) && Within(index, |Concat(current)|)
    && out == Firsts(Candidates(deps, PerPath(deps, current, |deps|)), RepIds(Concat(current), index))
  }

  method ReadAll(lookups: seq<seq<Vulnerability>>) returns (current: seq<Vulns>)
    ensures |current| == |lookups| && forall d | 0 <= d < |lookups| :: current[d] == Values(lookups[d])
  {
    current := [];
    for d := 0 to |lookups|
      invariant |current| == d && forall e | 0 <= e < d :: current[e] == Values(lookups[e])
    {
      current := current + [Values(lookups[d])];
    }
  }

  lemma {:induction false} ConcatValues(lookups: seq<seq<Vulnerability>>, current: seq<Vulns>)
    requires |current| == |lookups| && forall d | 0 <= d < |lookups| :: current[d] == Values(lookups[d])
    ensures Values(Concat(lookups)) == Concat(current)
    decreases |lookups|
  {
    if lookups != [] { ConcatValues(lookups[1..], current[1..]); }
  }

  method CollectRepIds(reps: seq<Vulnerability>) returns (ids: set<string>)
    ensures ids == set r | r in reps :: r.id
  {
    ids := {};
    for j := 0 to |reps|
      invariant ids == set r | r in reps[..j] :: r.id
    {
      assert reps[..j + 1] == reps[..j] + [reps[j]];
      ids := ids + {reps[j].id};
    }
    assert reps[..|reps|] == reps;
  }

  /** `scanFromCache` from lookups to findings. */
  method Report(deps: seq<string>, lookups: seq<seq<Vulnerability>>)
    returns (out: seq<Finding>, ghost current: seq<Vulns>, ghost index: seq<nat>, ghost groupOf: seq<string>)
    requires |deps| == |lookups|
    modifies Concat(lookups)
    ensures |current| == |lookups| && forall d | 0 <= d < |lookups| :: current[d] == Values(lookups[d])
    ensures Reported(deps, Concat(lookups), old(Values(Concat(lookups))), GroupKeys(old(Values(Concat(lookups)))),
                     current, index, groupOf, out)
    ensures forall f | f in out :: exists d, e :: ReportedFrom(deps, current, f, d, e)
  {
    hide ReportedFrom, Concat, Deduplicated, Candidates, PerPath, Firsts, Surviving, RepIds;
    var objs := Concat(lookups);
    var reps;
    reps, index, groupOf := Deduplicate(objs);
    var ids := CollectRepIds(reps);
    var found := ReadAll(lookups);
    current := found;
    ConcatValues(lookups, current);
    RepIdsAre(objs, reps, index);
    assert Within(index, |Concat(current)|);
    assert ids == RepIds(Concat(current), index);
    assert Deduplicated(objs, old(Values(Concat(lookups))), GroupKeys(old(Values(Concat(lookups)))), Concat(current), index, groupOf);
    out := EmitFindings(deps, found, ids);
  }

  lemma RepIdsAre(objs: seq<Vulnerability>, reps: seq<Vulnerability>, index: seq<nat>)
    requires |reps| == |index| && forall j | 0 <= j < |index| :: index[j] < |objs| && reps[j] == objs[index[j]]
    ensures (set r | r in reps :: r.id) == RepIds(Values(objs), index)
  {
    forall j | 0 <= j < |index| ensures Values(objs)[index[j]].id == reps[j].id && reps[j] in reps {}
  }

  /** No ID is reported twice, and the reported IDs are those of the representatives that
      some dependency matches whose path no later dependency with matches repeats. */
  lemma ReportedIds(deps: seq<string>, objs: seq<Vulnerability>, vs: Vulns, keys: seq<string>, current: seq<Vulns>,
                    index: seq<nat>, groupOf: seq<string>, out: seq<Finding>, id: string)
    requires Reported(deps, objs, vs, keys, current, index, groupOf, out)
    ensures DistinctOut(out)
    ensures id in OutIds(out) <==>
      id in RepIds(Concat(current), index) && exists e: nat :: LastOfPath(deps, current, |deps|, e) && id in IdsOf(current[e])
  {
    FirstsAreDistinct(Candidates(deps, PerPath(deps, current, |deps|)), RepIds(Concat(current), index));
    CandidateIds(deps, current, id);
    SurvivingExactly(deps, current, id);
  }

  lemma {:induction false} FromSomeLookup(current: seq<Vulns>, i: nat) returns (d: nat)
    requires i < |Concat(current)|
    ensures d < |current| && Concat(current)[i] in current[d]
  {
    if i < |current[0]| { d := 0; }
    else {
      d := FromSomeLookup(current[1..], i - |current[0]|);
      d := d + 1;
    }
  }

  /** With distinct dependency paths exactly the representatives' IDs are reported. */
  lemma AllRepresentativesReported(deps: seq<string>, objs: seq<Vulnerability>, vs: Vulns, keys: seq<string>, current: seq<Vulns>,
                                   index: seq<nat>, groupOf: seq<string>, out: seq<Finding>)
    requires Reported(deps, objs, vs, keys, current, index, groupOf, out) && DistinctPaths(deps)
    ensures OutIds(out) == RepIds(Concat(current), index)
  {
    hide Candidates, PerPath, Firsts, Deduplicated;
    forall id | id in RepIds(Concat(current), index) ensures id in OutIds(out) {
      var j :| 0 <= j < |index| && Concat(current)[index[j]].id == id;
      var d := FromSomeLookup(current, index[j]);
      assert LastOfPath(deps, current, |deps|, d) && id in IdsOf(current[d]);
      ReportedIds(deps, objs, vs, keys, current, index, groupOf, out, id);
    }
    forall id | id in OutIds(out) ensures id in RepIds(Concat(current), index) {
      ReportedIds(deps, objs, vs, keys, current, index, groupOf, out, id);
    }
  }

  lemma {:induction false} CountIds(out: seq<Finding>)
    requires DistinctOut(out)
    ensures |OutIds(out)| == |out|
  {
    if out != [] {
      var n := |out| - 1;
      CountIds(out[..n]);
      assert out == out[..n] + [out[n]];
      OutIdsSnoc(out[..n], out[n]);
    }
  }

  lemma RepIdsSnoc(cur: Vulns, init: seq<nat>, last: nat)
    requires Within(init + [last], |cur|) && Within(init, |cur|) && last < |cur|
    ensures RepIds(cur, init + [last]) == RepIds(cur, init) + {cur[last].id}
    ensures DistinctRepIds(cur, init + [last]) <==> DistinctRepIds(cur, init) && cur[last].id !in RepIds(cur, init)
  {
    var index := init + [last];
    assert index[|init|] == last && forall j | 0 <= j < |init| :: index[j] == init[j];
  }

  lemma {:induction false} CountRepIds(cur: Vulns, index: seq<nat>)
    requires Within(index, |cur|)
    ensures |RepIds(cur, index)| <= |index|
    ensures |RepIds(cur, index)| == |index| <==> DistinctRepIds(cur, index)
  {
    if index != [] {
      var n := |index| - 1;
      var init, id := index[..n], cur[index[n]].id;
      CountRepIds(cur, init);
      RepIdsSnoc(cur, init, index[n]);
      assert index == init + [index[n]];
      hide RepIds, DistinctRepIds;
    }
  }

  /** With distinct paths there are as many findings as representatives, and not fewer, if
      and only if no two groups pick entries of one ID. */
  lemma AllGroupsReportedExactly(deps: seq<string>, objs: seq<Vulnerability>, vs: Vulns, keys: seq<string>, current: seq<Vulns>,
                                 index: seq<nat>, groupOf: seq<string>, out: seq<Finding>)
    requires Reported(deps, objs, vs, keys, current, index, groupOf, out) && DistinctPaths(deps)
    ensures |out| <= |index| && (|out| == |index| <==> DistinctPicks(vs, keys))
  {
    AllRepresentativesReported(deps, objs, vs, keys, current, index, groupOf, out);
    ReportedIds(deps, objs, vs, keys, current, index, groupOf, out, "");
    CountIds(out);
    CountRepIds(Concat(current), index);
    DistinctIdsExactly(objs, vs, keys, Concat(current), index, groupOf);
  }

  lemma ApartRepresentatives(objs: seq<Vulnerability>, vs: Vulns, keys: seq<string>, cur: Vulns, index: seq<nat>, groupOf: seq<string>,
                             j: nat, k: nat)
    requires Deduplicated(objs, vs, keys, cur, index, groupOf) && j < k < |index| && Keyed(vs, keys) && AllJoinOne(vs, |vs|)
    ensures !Connected(vs, |vs|, index[j], index[k])
  {
    JoinsOneIsEnough(vs, keys, |vs|);
    RepresentativeIs(objs, vs, keys, cur, index, groupOf, j);
    RepresentativeIs(objs, vs, keys, cur, index, groupOf, k);
    GroupsAre(objs, vs, keys, cur, index, groupOf);
  }

  /** With distinct paths and no entry joining two components, each component has exactly
      one representative and each representative one finding. */
  lemma OneFindingPerComponent(deps: seq<string>, objs: seq<Vulnerability>, vs: Vulns, keys: seq<string>, current: seq<Vulns>,
                               index: seq<nat>, groupOf: seq<string>, out: seq<Finding>, i: nat)
    requires Reported(deps, objs, vs, keys, current, index, groupOf, out) && DistinctPaths(deps)
    requires Keyed(vs, keys) && forall m: nat | m < |vs| :: JoinsOne(vs, m)
    requires i < |vs|
    ensures |out| == |index| && DistinctOut(out)
    ensures DistinctRepIds(Concat(current), index)
    ensures forall j, k | 0 <= j < k < |index| :: !Connected(vs, |vs|, index[j], index[k])
    ensures exists j :: 0 <= j < |index| && Connected(vs, |vs|, i, index[j]) && Concat(current)[index[j]].id in OutIds(out)
  {
    AllJoinOneMeans(vs, |vs|);
    var cur := Concat(current);
    forall j, k | 0 <= j < k < |index|
      ensures cur[index[j]].id != cur[index[k]].id && !Connected(vs, |vs|, index[j], index[k])
    {
      DistinctIds(objs, vs, keys, cur, index, groupOf, j, k);
      ApartRepresentatives(objs, vs, keys, cur, index, groupOf, j, k);
    }
    CountRepIds(cur, index);
    AllRepresentativesReported(deps, objs, vs, keys, current, index, groupOf, out);
    ReportedIds(deps, objs, vs, keys, current, index, groupOf, out, "");
    CountIds(out);
    var j := IdentifiersConserved(objs, vs, keys, cur, index, groupOf, i);
    SameKeyConnected(vs, keys, i, index[j]);
    assert cur[index[j]].id in OutIds(out);
  }

  /** `p` is the first match with the ID of representative `j`. */
  predicate FirstWithIdOf(vs: Vulns, r: nat, p: nat) {
    p < |vs| && r < |vs| && vs[p].id == vs[r].id && forall q | 0 <= q < p :: vs[q].id != vs[r].id
  }

  /** With distinct paths a finding shows the first match that has its ID, under the
      dependency it was found for. */
  lemma FindingShows(deps: seq<string>, objs: seq<Vulnerability>, vs: Vulns, keys: seq<string>, current: seq<Vulns>,
                     index: seq<nat>, groupOf: seq<string>, out: seq<Finding>, f: Finding, j: nat)
    returns (p: nat, d: nat)
    requires Reported(deps, objs, vs, keys, current, index, groupOf, out) && DistinctPaths(deps)
    requires f in out && j < |index| && f.vuln.id == Concat(current)[index[j]].id
    ensures FirstWithIdOf(vs, index[j], p) && f.vuln == Concat(current)[p]
    ensures d < |deps| && deps[d] == f.dep && f.vuln in current[d]
  {
    var e;
    d, e := FindingNames(deps, current, RepIds(Concat(current), index), f);
    assert e == d;
    var cs := Candidates(deps, PerPath(deps, current, |deps|));
    p := FirstsAreFirst(cs, RepIds(Concat(current), index), f);
    CandidatesAreMatches(deps, current, |deps|);
    assert deps[..|deps|] == deps && current[..|deps|] == current;
    assert VulnsOf(cs) == Concat(current);
    assert forall q | 0 <= q < |cs| :: Concat(current)[q] == cs[q].vuln;
  }

  /** All identifiers of the component of representative `j`. */
  ghost predicate CarriesAll(vs: Vulns, r: nat, v: Vuln) {
    forall id | Related(vs, r, id) :: id in Ids(v)
  }

  /** A finding carries every identifier of its component if and only if the first match
      with its ID is the picked object itself, or carries them all on its own. */
  lemma FindingCarriesExactly(objs: seq<Vulnerability>, vs: Vulns, keys: seq<string>, cur: Vulns, index: seq<nat>, groupOf: seq<string>,
                              j: nat, p: nat)
    requires Deduplicated(objs, vs, keys, cur, index, groupOf) && Keyed(vs, keys) && AllJoinOne(vs, |vs|)
    ensures |objs| == |vs| == |cur|
    ensures j < |index| && FirstWithIdOf(vs, index[j], p) ==>
      (CarriesAll(vs, index[j], cur[p]) <==> objs[p] == objs[index[j]] || CarriesAll(vs, index[j], vs[p]))
  {
    hide Deduplicated, AllJoinOne, Keyed, Related;
    GroupsAre(objs, vs, keys, cur, index, groupOf);
    if j >= |index| || !FirstWithIdOf(vs, index[j], p) { return; }
    OneObjectOneValue(objs, vs, keys, cur, index, groupOf, p, index[j]);
    if objs[p] == objs[index[j]] {
      forall id | Related(vs, index[j], id) ensures id in Ids(cur[p]) {
        CarriesItsComponent(objs, vs, keys, cur, index, groupOf, j, id);
      }
    } else {
      forall k | 0 <= k < |index| ensures index[k] < |objs| && objs[index[k]] != objs[p] {
        OtherObject(objs, vs, keys, cur, index, groupOf, j, p, k);
      }
      UnpickedIsKept(objs, vs, keys, cur, index, groupOf, p);
    }
  }

  /** An entry with the ID of a representative is no other representative's object. */
  lemma OtherObject(objs: seq<Vulnerability>, vs: Vulns, keys: seq<string>, cur: Vulns, index: seq<nat>, groupOf: seq<string>,
                    j: nat, p: nat, k: nat)
    requires Deduplicated(objs, vs, keys, cur, index, groupOf) && Keyed(vs, keys) && AllJoinOne(vs, |vs|)
    ensures |objs| == |vs|
    ensures j < |index| && k < |index| && FirstWithIdOf(vs, index[j], p) && objs[p] != objs[index[j]] ==>
      index[k] < |vs| && objs[index[k]] != objs[p]
  {
    hide Deduplicated, AllJoinOne, Keyed, Members, Picked;
    GroupsAre(objs, vs, keys, cur, index, groupOf);
    if j >= |index| || k >= |index| || p >= |vs| { return; }
    RepresentativeIs(objs, vs, keys, cur, index, groupOf, j);
    RepresentativeIs(objs, vs, keys, cur, index, groupOf, k);
    OneObjectOneValue(objs, vs, keys, cur, index, groupOf, p, index[k]);
    if j < k { DistinctIds(objs, vs, keys, cur, index, groupOf, j, k); }
    if k < j { DistinctIds(objs, vs, keys, cur, index, groupOf, k, j); }
  }

  // ---------- two inputs on which identifiers are not reported ----------

  predicate AllDistinct(objs: seq<Vulnerability>) {
    forall i, j | 0 <= i < j < |objs| :: objs[i] != objs[j]
  }

  /** One dependency with matches, all distinct objects. */
  lemma {:induction false} OnlyFinding(objs: seq<Vulnerability>, vs: Vulns, keys: seq<string>, current: seq<Vulns>,
                                       index: seq<nat>, groupOf: seq<string>, out: seq<Finding>, id: string)
    requires Reported(["m"], objs, vs, keys, current, index, groupOf, out)
    requires RepIds(Concat(current), index) == {id} && |vs| > 0 && vs[0].id == id
    ensures |out| == 1 && out[0].vuln == Concat(current)[0]
  {
    AllRepresentativesReported(["m"], objs, vs, keys, current, index, groupOf, out);
    ReportedIds(["m"], objs, vs, keys, current, index, groupOf, out, id);
    CountIds(out);
    assert out[0].vuln.id in OutIds(out) && id in RepIds(Concat(current), index);
    var j :| 0 <= j < |index| && Concat(current)[index[j]].id == id;
    var p, d := FindingShows(["m"], objs, vs, keys, current, index, groupOf, out, out[0], j);
  }

  lemma ThirdKey(groupOf: seq<string>)
    requires |groupOf| >= 3 && forall i, j | 0 <= i < j < |groupOf| :: groupOf[i] != groupOf[j]
    ensures exists j | 0 <= j < |groupOf| :: groupOf[j] !in ["X", "Y"]
  {
    assert groupOf[0] != groupOf[1] && groupOf[1] != groupOf[2] && groupOf[0] != groupOf[2];
  }

  lemma SecondKey(groupOf: seq<string>, k: string)
    requires |groupOf| >= 2 && forall i, j | 0 <= i < j < |groupOf| :: groupOf[i] != groupOf[j]
    ensures exists j | 0 <= j < |groupOf| :: groupOf[j] != k
  {
    assert groupOf[0] != groupOf[1];
  }

  lemma OnlyTwo(groupOf: seq<string>)
    requires "X" in groupOf && "Y" in groupOf && forall j | 0 <= j < |groupOf| :: groupOf[j] in ["X", "Y"]
    requires forall i, j | 0 <= i < j < |groupOf| :: groupOf[i] != groupOf[j]
    ensures |groupOf| == 2
  {
    assert "X"[0] != "Y"[0];
    var x :| 0 <= x < |groupOf| && groupOf[x] == "X";
    var y :| 0 <= y < |groupOf| && groupOf[y] == "Y";
    if |groupOf| >= 3 { ThirdKey(groupOf); }
  }

  lemma CollidingIds(objs: seq<Vulnerability>, vs: Vulns, keys: seq<string>, cur: Vulns, index: seq<nat>, groupOf: seq<string>)
    requires Deduplicated(objs, vs, keys, cur, index, groupOf) && Bridging(vs) && Within(index, |cur|)
    requires keys == ["X", "Y", "Y", "Y"]
    ensures |index| == 2 && RepIds(cur, index) == {"X"}
  {
    hide Deduplicated, GroupKeys, Picked, Members;
    RepresentativesCollide(vs);
    GroupsAre(objs, vs, keys, cur, index, groupOf);
    assert keys[0] in groupOf && keys[1] in groupOf;
    forall j | 0 <= j < |index| ensures cur[index[j]].id == "X" && groupOf[j] in ["X", "Y"] {
      RepresentativeIs(objs, vs, keys, cur, index, groupOf, j);
    }
    OnlyTwo(groupOf);
    assert cur[index[0]].id in RepIds(cur, index);
  }

  lemma OnlyX(vs: Vulns, keys: seq<string>, id: string)
    requires Bridging(vs) && keys == ["X", "Y", "Y", "Y"] && InGroup(vs, keys, "X", id)
    ensures id == "X"
  {
    assert "X"[0] != "Y"[0];
  }

  /** Two representatives, one finding: on the bridging input `Y` and `Z` never reach
      the report. */
  lemma CollisionHidesAGroup(objs: seq<Vulnerability>, vs: Vulns, keys: seq<string>, current: seq<Vulns>,
                             index: seq<nat>, groupOf: seq<string>, out: seq<Finding>)
    requires Bridging(vs) && AllDistinct(objs) && keys == ["X", "Y", "Y", "Y"] && Reported(["m"], objs, vs, keys, current, index, groupOf, out)
    ensures keys == GroupKeys(vs) && |index| == 2 && |out| == 1
    ensures forall id | id in Ids(out[0].vuln) :: id == "X"
  {
    hide Deduplicated, GroupKeys, Concat, Firsts, Candidates, PerPath, Coherent;
    CollidingIds(objs, vs, keys, Concat(current), index, groupOf);
    GroupsAre(objs, vs, keys, Concat(current), index, groupOf);
    OnlyFinding(objs, vs, keys, current, index, groupOf, out, "X");
    BridgeKeys(vs);
    assert OneGroupEach(objs, keys);
    forall id | id in Ids(out[0].vuln) ensures id == "X" {
      StaysInItsGroup(objs, vs, keys, Concat(current), index, groupOf, 0, id);
      OnlyX(vs, keys, id);
    }
  }

  /** An advisory listed twice without a severity, around a rated one. */
  predicate TwoCopies(vs: Vulns) {
    vs == [Vuln("GHSA-1", ["CVE-1"], ""), Vuln("GO-2", ["CVE-1"], "HIGH"), Vuln("GHSA-1", ["CVE-1"], "")]
  }

  lemma {:induction false} TwoCopiesKeys(vs: Vulns)
    requires TwoCopies(vs)
    ensures GroupKeys(vs) == ["GHSA-1", "GHSA-1", "GHSA-1"]
  {
    assert "GHSA-1"[1] != "GO-2"[1] && "CVE-1"[0] != "GO-2"[0];
    assert Ids(vs[0]) == Ids(vs[2]) == ["GHSA-1", "CVE-1"] && Ids(vs[1]) == ["GO-2", "CVE-1"];
    assert KeysUpTo(vs, 1) == ["GHSA-1"];
    assert LastWith(vs, 1, "GO-2").None? && LastWith(vs, 1, "CVE-1") == Some(0);
    assert ["GO-2", "CVE-1"][1..] == ["CVE-1"] && FirstKnown(vs, 1, ["CVE-1"]) == Some(0);
    assert KeysUpTo(vs, 2) == ["GHSA-1", "GHSA-1"];
    assert LastWith(vs, 2, "GHSA-1") == Some(0);
  }

  lemma SecondCopyIsPicked(vs: Vulns, group: seq<nat>)
    requires TwoCopies(vs) && group == [0, 1, 2]
    ensures Picked(vs, group) == 2
  {
    assert group[..2] == [0, 1] && [0, 1][..1] == [0];
    assert "GO-2"[1] != "GHSA-"[1];
    assert Picked(vs, [0]) == 0 && Picked(vs, [0, 1]) == 1;
  }

  lemma MembersOfThree(keys: seq<string>, k: string)
    requires keys == [k, k, k]
    ensures Members(keys, k) == [0, 1, 2]
  {
    var one, two := keys[..1], keys[..2];
    assert one[..0] == [] && two[..1] == one && keys[..2] == two && one == [k];
    assert Members(one, k) == [0] && Members(two, k) == [0, 1];
  }

  lemma {:induction false} CopiesRep(objs: seq<Vulnerability>, vs: Vulns, keys: seq<string>, cur: Vulns, index: seq<nat>, groupOf: seq<string>)
    requires Deduplicated(objs, vs, keys, cur, index, groupOf) && TwoCopies(vs) && Within(index, |cur|)
    requires keys == ["GHSA-1", "GHSA-1", "GHSA-1"]
    ensures index == [2] && RepIds(cur, index) == {"GHSA-1"}
  {
    hide Deduplicated, GroupKeys, Picked, Members;
    TwoCopiesKeys(vs);
    MembersOfThree(keys, "GHSA-1");
    SecondCopyIsPicked(vs, [0, 1, 2]);
    GroupsAre(objs, vs, keys, cur, index, groupOf);
    assert keys[0] in groupOf;
    forall j | 0 <= j < |index| ensures groupOf[j] == "GHSA-1" && index[j] == 2 && cur[index[j]].id == "GHSA-1" {
      RepresentativeIs(objs, vs, keys, cur, index, groupOf, j);
    }
    if |groupOf| >= 2 { SecondKey(groupOf, "GHSA-1"); }
    assert cur[index[0]].id in RepIds(cur, index);
  }

  /** The aliases are merged into the second copy and the first copy is reported: the
      finding does not name `GO-2`. */
  lemma MergedAliasNotReported(objs: seq<Vulnerability>, vs: Vulns, keys: seq<string>, current: seq<Vulns>,
                               index: seq<nat>, groupOf: seq<string>, out: seq<Finding>)
    requires TwoCopies(vs) && AllDistinct(objs) && keys == ["GHSA-1", "GHSA-1", "GHSA-1"] && Reported(["m"], objs, vs, keys, current, index, groupOf, out)
    ensures keys == GroupKeys(vs) && index == [2] && "GO-2" in Ids(Concat(current)[2])
    ensures |out| == 1 && out[0].vuln == vs[0] && "GO-2" !in Ids(out[0].vuln)
  {
    hide Deduplicated, GroupKeys, Concat, Firsts, Candidates, PerPath;
    TwoCopiesKeys(vs);
    var cur := Concat(current);
    CopiesRep(objs, vs, keys, cur, index, groupOf);
    GroupsAre(objs, vs, keys, cur, index, groupOf);
    OnlyFinding(objs, vs, keys, current, index, groupOf, out, "GHSA-1");
    var j := IdentifiersConserved(objs, vs, keys, cur, index, groupOf, 1);
    assert "GO-2" in Ids(vs[1]) by { assert Ids(vs[1])[0] == "GO-2"; }
    UnpickedIsKept(objs, vs, keys, cur, index, groupOf, 0);
    assert "GHSA-1"[1] != "GO-2"[1] && "CVE-1"[0] != "GO-2"[0];
  }
}
