/** Merging of identifiers through shared pointers: `deduplicateVulns` overwrites the
  aliases of the picked entries, and an entry may be listed more than once. */
module DepMerge {
  import opened AliasGroups
  import opened DepGroups

  class Vulnerability {
    const id: string
    var aliases: seq<string>
    const severity: string

    constructor (v: Vuln)
      ensures Value() == v
    {
      id, aliases, severity := v.id, v.aliases, v.severity;
    }

    function Value(): Vuln
      reads this
    {
      Vuln(id, aliases, severity)
    }
  }

  function Values(objs: seq<Vulnerability>): (vs: Vulns)
    reads objs
    ensures |vs| == |objs| && forall i | 0 <= i < |objs| :: vs[i] == objs[i].Value()
  {
    seq(|objs|, i requires 0 <= i < |objs| reads objs => objs[i].Value())
  }

  /** Positions of one object show one value. */
  predicate Coherent(objs: seq<Vulnerability>, vs: Vulns) {
    |objs| == |vs| && forall i, j | 0 <= i < |objs| && 0 <= j < |objs| && objs[i] == objs[j] :: vs[i] == vs[j]
  }

  function GroupIds(vs: Vulns, group: seq<nat>): set<string>
    requires Entries(vs, group)
  {
    set k, id | 0 <= k < |group| && id in Ids(vs[group[k]]) :: id
  }

  /** `after` is `cur` with the group's identifiers merged into the picked object,
      wherever it is listed. */
  ghost predicate MergedInto(objs: seq<Vulnerability>, cur: Vulns, group: seq<nat>, best: nat, after: Vulns)
    requires |objs| == |cur| && Entries(cur, group) && best < |cur|
  {
    |after| == |cur| && forall i | 0 <= i < |cur| ::
      if objs[i] == objs[best]
      then after[i].id == cur[best].id && after[i].severity == cur[best].severity && after[i].id !in after[i].aliases
           && forall id :: id in Ids(after[i]) <==> id in GroupIds(cur, group)
      else after[i] == cur[i]
  }

  // ---------- what merging keeps ----------

  /** Entries keep ID, severity and identifiers, and gain only identifiers. */
  predicate Grown(vs: Vulns, cur: Vulns) {
    |cur| == |vs| && forall i | 0 <= i < |vs| ::
      cur[i].id == vs[i].id && cur[i].severity == vs[i].severity && forall id | id in Ids(vs[i]) :: id in Ids(cur[i])
  }

  /** `id` belongs to an entry connected to entry `i`. */
  ghost predicate Related(vs: Vulns, i: nat, id: string) {
    exists a: nat :: a < |vs| && Connected(vs, |vs|, i, a) && id in Ids(vs[a])
  }

  /** No entry ever carries an identifier from outside its connected component. */
  ghost predicate NothingForeign(vs: Vulns, cur: Vulns) {
    |cur| == |vs| && forall i: nat, id | i < |vs| && id in Ids(cur[i]) :: Related(vs, i, id)
  }

  predicate InGroup(vs: Vulns, keys: seq<string>, key: string, id: string)
    requires |keys| == |vs|
  {
    exists a | 0 <= a < |vs| :: keys[a] == key && id in Ids(vs[a])
  }

  /** Every entry carries identifiers of its own group only. */
  predicate WithinGroups(vs: Vulns, keys: seq<string>, cur: Vulns)
    requires |keys| == |vs|
  {
    |cur| == |vs| && forall i, id | 0 <= i < |vs| && id in Ids(cur[i]) :: InGroup(vs, keys, keys[i], id)
  }

  /** No object is listed in two groups. */
  predicate OneGroupEach(objs: seq<Vulnerability>, keys: seq<string>)
    requires |objs| == |keys|
  {
    forall i, j | 0 <= i < |objs| && 0 <= j < |objs| && objs[i] == objs[j] :: keys[i] == keys[j]
  }

  predicate OfKey(keys: seq<string>, k: string, group: seq<nat>) {
    forall m | 0 <= m < |group| :: group[m] < |keys| && keys[group[m]] == k
  }

  lemma MergeGrows(objs: seq<Vulnerability>, cur: Vulns, group: seq<nat>, best: nat, after: Vulns)
    requires Coherent(objs, cur) && Entries(cur, group) && best in group && best < |cur|
    requires MergedInto(objs, cur, group, best, after)
    ensures Grown(cur, after)
  {
    var m :| 0 <= m < |group| && group[m] == best;
    forall i | 0 <= i < |cur| && objs[i] == objs[best]
      ensures cur[i] == cur[best] && forall id | id in Ids(cur[i]) :: id in Ids(after[i])
    {
      forall id | id in Ids(cur[i]) ensures id in Ids(after[i]) { assert id in Ids(cur[group[m]]); }
    }
  }

  lemma GrownTwice(vs: Vulns, cur: Vulns, after: Vulns)
    requires Grown(vs, cur) && Grown(cur, after)
    ensures Grown(vs, after)
  {
  }

  lemma SameObjectConnected(objs: seq<Vulnerability>, vs: Vulns, i: nat, j: nat)
    requires Coherent(objs, vs) && i < |vs| && j < |vs| && objs[i] == objs[j]
    ensures Connected(vs, |vs|, i, j)
  {
    assert vs[i].id in Ids(vs[i]) && vs[i].id in Ids(vs[j]);
    Adjacent(vs, |vs|, i, j);
  }

  lemma SameKeyConnected(vs: Vulns, keys: seq<string>, i: nat, j: nat)
    requires Keyed(vs, keys) && i < |vs| && j < |vs| && keys[i] == keys[j]
    ensures Connected(vs, |vs|, i, j)
  {
    if i <= j { NeverMergesUnrelated(vs, keys, |vs|, i, j); }
    else { NeverMergesUnrelated(vs, keys, |vs|, j, i); Symmetric(vs, |vs|, j, i); }
  }

  /** An identifier related to member `m` is related to the picked object wherever it
      is listed. */
  lemma RelatedMoves(objs: seq<Vulnerability>, vs: Vulns, keys: seq<string>, i: nat, best: nat, m: nat, id: string)
    requires Coherent(objs, vs) && Keyed(vs, keys) && i < |vs| && best < |vs| && m < |vs| && objs[i] == objs[best]
    requires keys[m] == keys[best] && Related(vs, m, id)
    ensures Related(vs, i, id)
  {
    var a: nat :| a < |vs| && Connected(vs, |vs|, m, a) && id in Ids(vs[a]);
    SameObjectConnected(objs, vs, i, best);
    SameKeyConnected(vs, keys, best, m);
    Join(vs, |vs|, i, best, m);
    Join(vs, |vs|, i, m, a);
  }

  lemma MergeStaysRelated(objs: seq<Vulnerability>, vs: Vulns, keys: seq<string>, k: string, cur: Vulns, group: seq<nat>, best: nat,
                          after: Vulns)
    requires Coherent(objs, vs) && Keyed(vs, keys) && NothingForeign(vs, cur) && OfKey(keys, k, group) && best in group
    requires Entries(cur, group) && best < |cur| && MergedInto(objs, cur, group, best, after)
    ensures NothingForeign(vs, after)
  {
    var b :| 0 <= b < |group| && group[b] == best;
    forall i: nat, id | i < |vs| && id in Ids(after[i]) ensures Related(vs, i, id) {
      if objs[i] == objs[best] {
        assert id in GroupIds(cur, group);
        var m :| 0 <= m < |group| && id in Ids(cur[group[m]]);
        RelatedMoves(objs, vs, keys, i, best, group[m], id);
      } else {
        assert id in Ids(cur[i]);
      }
    }
  }

  lemma MergeStaysInGroup(objs: seq<Vulnerability>, vs: Vulns, keys: seq<string>, k: string, cur: Vulns, group: seq<nat>, best: nat,
                          after: Vulns)
    requires |objs| == |vs| == |keys| && OneGroupEach(objs, keys) && WithinGroups(vs, keys, cur)
    requires OfKey(keys, k, group) && best in group
    requires Entries(cur, group) && best < |cur| && MergedInto(objs, cur, group, best, after)
    ensures WithinGroups(vs, keys, after)
  {
    var b :| 0 <= b < |group| && group[b] == best;
    forall i, id | 0 <= i < |vs| && id in Ids(after[i]) ensures InGroup(vs, keys, keys[i], id) {
      if objs[i] == objs[best] {
        assert id in GroupIds(cur, group);
        var m :| 0 <= m < |group| && id in Ids(cur[group[m]]);
        assert keys[i] == keys[best] == keys[group[m]] == k;
      } else {
        assert id in Ids(cur[i]);
      }
    }
  }

  // ---------- the representatives ----------

  predicate Has(vs: Vulns, cur: Vulns, a: nat, r: nat)
    requires a < |vs| && r < |cur|
  {
    forall id | id in Ids(vs[a]) :: id in Ids(cur[r])
  }

  /** Representatives `index` of the groups `groupOf`: the picks, each now carrying
      every identifier of its group. */
  predicate Represented(vs: Vulns, keys: seq<string>, cur: Vulns, index: seq<nat>, groupOf: seq<string>)
    requires |keys| == |vs| == |cur|
  {
    && |index| == |groupOf|
    && (forall i, j | 0 <= i < j < |groupOf| :: groupOf[i] != groupOf[j])
    && forall j | 0 <= j < |index| ::
         && index[j] < |vs| && keys[index[j]] == groupOf[j] && cur[index[j]].id !in cur[index[j]].aliases
         && forall a | 0 <= a < |vs| && keys[a] == groupOf[j] :: Has(vs, cur, a, index[j])
  }

  /** Only representatives changed. */
  predicate OthersKept(objs: seq<Vulnerability>, vs: Vulns, cur: Vulns, index: seq<nat>) {
    |objs| == |vs| == |cur| && forall i | 0 <= i < |vs| ::
      cur[i] == vs[i] || exists j | 0 <= j < |index| :: index[j] < |objs| && objs[index[j]] == objs[i]
  }

  predicate Picks(vs: Vulns, keys: seq<string>, index: seq<nat>, groupOf: seq<string>)
    requires |keys| == |vs| && |index| == |groupOf|
  {
    forall j | 0 <= j < |index| ::
      var group := Members(keys, groupOf[j]);
      group != [] && Entries(vs, group) && index[j] == Picked(vs, group)
  }

  ghost predicate Consistent(objs: seq<Vulnerability>, vs: Vulns, keys: seq<string>, cur: Vulns) {
    && |objs| == |vs| == |keys| && Coherent(objs, vs) && Coherent(objs, cur)
    && Grown(vs, cur) && NothingForeign(vs, cur) && (OneGroupEach(objs, keys) ==> WithinGroups(vs, keys, cur))
  }

  /** The result of the representative loop: one representative per group, the pick of
      its group, carrying at least the identifiers of its group and none from outside
      its component, and exactly those of its group when no object is in two groups. */
  ghost predicate Deduplicated(objs: seq<Vulnerability>, vs: Vulns, keys: seq<string>, cur: Vulns, index: seq<nat>, groupOf: seq<string>) {
    SoFar(objs, vs, keys, cur, index, groupOf) && forall k | k in keys :: k in groupOf
  }

  ghost predicate SoFar(objs: seq<Vulnerability>, vs: Vulns, keys: seq<string>, cur: Vulns, index: seq<nat>, groupOf: seq<string>) {
    && Consistent(objs, vs, keys, cur) && Represented(vs, keys, cur, index, groupOf)
    && OthersKept(objs, vs, cur, index) && Picks(vs, keys, index, groupOf)
  }

  lemma StartsConsistent(objs: seq<Vulnerability>, vs: Vulns, keys: seq<string>)
    requires Coherent(objs, vs) && |keys| == |vs|
    ensures SoFar(objs, vs, keys, vs, [], [])
  {
    forall i: nat, id | i < |vs| && id in Ids(vs[i]) ensures Related(vs, i, id) {
      Adjacent(vs, |vs|, i, i);
    }
    forall i, id | 0 <= i < |vs| && id in Ids(vs[i]) ensures InGroup(vs, keys, keys[i], id) {}
  }

  lemma StaysConsistent(objs: seq<Vulnerability>, vs: Vulns, keys: seq<string>, k: string, cur: Vulns, group: seq<nat>, best: nat,
                        after: Vulns)
    requires Keyed(vs, keys) && Consistent(objs, vs, keys, cur) && Coherent(objs, after)
    requires OfKey(keys, k, group) && best in group && Entries(cur, group) && best < |cur|
    requires MergedInto(objs, cur, group, best, after)
    ensures Consistent(objs, vs, keys, after) && Grown(cur, after)
  {
    MergeGrows(objs, cur, group, best, after);
    GrownTwice(vs, cur, after);
    MergeStaysRelated(objs, vs, keys, k, cur, group, best, after);
    if OneGroupEach(objs, keys) {
      MergeStaysInGroup(objs, vs, keys, k, cur, group, best, after);
    }
  }

  lemma MergeRepresents(objs: seq<Vulnerability>, vs: Vulns, keys: seq<string>, cur: Vulns, index: seq<nat>, groupOf: seq<string>,
                        k: string, group: seq<nat>, best: nat, after: Vulns)
    requires |objs| == |vs| == |keys| && Grown(vs, cur) && Grown(cur, after) && k !in groupOf
    requires Represented(vs, keys, cur, index, groupOf) && OthersKept(objs, vs, cur, index)
    requires group == Members(keys, k) && best in group && Entries(cur, group) && best < |cur|
    requires MergedInto(objs, cur, group, best, after)
    ensures Represented(vs, keys, after, index + [best], groupOf + [k])
    ensures OthersKept(objs, vs, after, index + [best])
  {
    MembersAre(keys, k);
    var index', groupOf' := index + [best], groupOf + [k];
    forall j, a | 0 <= j < |index'| && 0 <= a < |vs| && keys[a] == groupOf'[j] ensures Has(vs, after, a, index'[j]) {
      if j < |index| {
        assert Has(vs, cur, a, index[j]);
      } else {
        assert a in group;
        var m :| 0 <= m < |group| && group[m] == a;
        forall id | id in Ids(vs[a]) ensures id in Ids(after[best]) { assert id in Ids(cur[group[m]]); }
      }
    }
    forall i | 0 <= i < |vs| && after[i] != vs[i]
      ensures exists j | 0 <= j < |index'| :: index'[j] < |objs| && objs[index'[j]] == objs[i]
    {
      if objs[i] == objs[best] {
        assert index'[|index|] == best;
      } else {
        var j :| 0 <= j < |index| && index[j] < |objs| && objs[index[j]] == objs[i];
        assert index'[j] == index[j];
      }
    }
  }

  // ---------- the code ----------

  lemma ValuesCohere(objs: seq<Vulnerability>)
    ensures Coherent(objs, Values(objs))
  {
  }

  lemma NextRepresentative(objs: seq<Vulnerability>, vs: Vulns, keys: seq<string>, cur: Vulns, index: seq<nat>, groupOf: seq<string>,
                           k: string, group: seq<nat>, best: nat, after: Vulns)
    requires Keyed(vs, keys) && SoFar(objs, vs, keys, cur, index, groupOf) && Coherent(objs, after) && k !in groupOf
    requires group == Members(keys, k) != [] && OfKey(keys, k, group)
    requires Entries(cur, group) && best == Picked(cur, group) && MergedInto(objs, cur, group, best, after)
    ensures SoFar(objs, vs, keys, after, index + [best], groupOf + [k])
  {
    PickedAgrees(vs, cur, group);
    StaysConsistent(objs, vs, keys, k, cur, group, best, after);
    ConsistentGrown(objs, vs, keys, cur);
    hide Consistent, MergedInto, Picked;
    MergeRepresents(objs, vs, keys, cur, index, groupOf, k, group, best, after);
    PicksNext(vs, keys, index, groupOf, k, group, best);
  }

  lemma ConsistentGrown(objs: seq<Vulnerability>, vs: Vulns, keys: seq<string>, cur: Vulns)
    requires Consistent(objs, vs, keys, cur)
    ensures Grown(vs, cur) && |objs| == |vs|
  {
  }

  method Listed(s: set<string>) returns (q: seq<string>)
    ensures forall x :: x in q <==> x in s
  {
    q := [];
    var left := s;
    while left != {}
      invariant left <= s && forall x :: x in q <==> x in s - left
    {
      var x :| x in left;
      left := left - {x};
      q := q + [x];
    }
  }

  method CollectIds(vs: Vulns, group: seq<nat>) returns (ids: set<string>)
    requires Entries(vs, group)
    ensures ids == GroupIds(vs, group)
  {
    ids := {};
    for k := 0 to |group|
      invariant ids == GroupIds(vs, group[..k])
    {
      var v := vs[group[k]];
      assert group[..k + 1] == group[..k] + [group[k]];
      NextIds(vs, group, k);
      ids := ids + {v.id} + set a | a in v.aliases;
    }
    assert group[..|group|] == group;
  }

  lemma NextIds(vs: Vulns, group: seq<nat>, k: nat)
    requires Entries(vs, group) && k < |group|
    ensures var v := vs[group[k]];
      GroupIds(vs, group[..k + 1]) == GroupIds(vs, group[..k]) + {v.id} + set a | a in v.aliases
  {
    var more, before := group[..k + 1], group[..k];
    forall id | id in GroupIds(vs, before) ensures id in GroupIds(vs, more) {
      var m :| 0 <= m < k && id in Ids(vs[before[m]]);
      assert more[m] == before[m];
    }
    forall id | id in Ids(vs[group[k]]) ensures id in GroupIds(vs, more) { assert more[k] == group[k]; }
    forall id | id in GroupIds(vs, more) ensures id in GroupIds(vs, before) || id in Ids(vs[group[k]]) {
      var m :| 0 <= m < k + 1 && id in Ids(vs[more[m]]);
      if m < k { assert before[m] == more[m]; }
    }
  }

  /** One turn of the representative loop: the pick's aliases become all other
      identifiers of its group. */
  method MergeGroup(objs: seq<Vulnerability>, group: seq<nat>) returns (best: nat)
    requires group != [] && Entries(Values(objs), group)
    modifies objs
    ensures best == Picked(old(Values(objs)), group)
    ensures Coherent(objs, Values(objs)) && MergedInto(objs, old(Values(objs)), group, best, Values(objs))
  {
    ghost var cur := Values(objs);
    best := PickBest(Values(objs), group);
    var ids := CollectIds(Values(objs), group);
    ids := ids - {objs[best].id};
    var aliases := Listed(ids);
    objs[best].aliases := aliases;
    PickedIdIn(cur, group, best);
  }

  lemma PickedIdIn(vs: Vulns, group: seq<nat>, best: nat)
    requires Entries(vs, group) && best in group && best < |vs|
    ensures vs[best].id in GroupIds(vs, group)
  {
    var k :| 0 <= k < |group| && group[k] == best;
    assert vs[best].id in Ids(vs[group[k]]);
  }

  /** `deduplicateVulns`, groups taken in any order. */
  method Deduplicate(objs: seq<Vulnerability>) returns (reps: seq<Vulnerability>, ghost index: seq<nat>, ghost groupOf: seq<string>)
    modifies objs
    ensures Deduplicated(objs, old(Values(objs)), GroupKeys(old(Values(objs))), Values(objs), index, groupOf)
    ensures |reps| == |index| && forall j | 0 <= j < |index| :: index[j] < |objs| && reps[j] == objs[index[j]]
  {
    hide SoFar, GroupKeys, MergedInto, Lists, Coherent, Picked, Members, OfKey;
    ghost var vs := Values(objs);
    ghost var keys := GroupKeys(vs);
    ValuesCohere(objs);
    var groups := GroupVulns(Values(objs));
    var left := groups.Keys;
    reps, index, groupOf := [], [], [];
    StartsConsistent(objs, vs, keys);
    KeysArePlaced(vs);
    while left != {}
      invariant left <= groups.Keys && forall k :: k in groupOf <==> k in groups && k !in left
      invariant SoFar(objs, vs, keys, Values(objs), index, groupOf)
      invariant |reps| == |index| && forall j | 0 <= j < |index| :: index[j] < |objs| && reps[j] == objs[index[j]]
    {
      var k :| k in left;
      left := left - {k};
      GroupIsOfKey(vs, keys, groups, k);
      ghost var cur := Values(objs);
      var best := MergeGroup(objs, groups[k]);
      NextRepresentative(objs, vs, keys, cur, index, groupOf, k, groups[k], best, Values(objs));
      reps, index, groupOf := reps + [objs[best]], index + [best], groupOf + [k];
    }
    forall i | 0 <= i < |vs| ensures keys[i] in groupOf { ListedKey(keys, groups, i); }
  }

  lemma GroupIsOfKey(vs: Vulns, keys: seq<string>, groups: map<string, seq<nat>>, k: string)
    requires |keys| == |vs| && Lists(keys, groups) && k in groups
    ensures groups[k] == Members(keys, k) && OfKey(keys, k, groups[k]) && Entries(vs, groups[k])
  {
    MembersAre(keys, k);
    assert groups[k] == Members(keys, k);
    forall m | 0 <= m < |groups[k]| ensures groups[k][m] < |keys| && keys[groups[k][m]] == k {
      assert groups[k][m] in Members(keys, k);
    }
  }

  lemma PicksNext(vs: Vulns, keys: seq<string>, index: seq<nat>, groupOf: seq<string>, k: string, group: seq<nat>, best: nat)
    requires |keys| == |vs| && |index| == |groupOf| && Picks(vs, keys, index, groupOf)
    requires group != [] && Entries(vs, group) && best == Picked(vs, group)
    ensures group == Members(keys, k) ==> Picks(vs, keys, index + [best], groupOf + [k])
  {
    hide Members, Picked;
    if group == Members(keys, k) {
      var index', groupOf' := index + [best], groupOf + [k];
      forall j | 0 <= j < |index'| ensures
        var members := Members(keys, groupOf'[j]);
        members != [] && Entries(vs, members) && index'[j] == Picked(vs, members)
      {
        if j < |index| { assert groupOf'[j] == groupOf[j] && index'[j] == index[j]; }
      }
    }
  }

  lemma ListedKey(keys: seq<string>, groups: map<string, seq<nat>>, i: nat)
    requires i < |keys| && Lists(keys, groups)
    ensures keys[i] in groups
  {
    MembersAre(keys, keys[i]);
    assert i in Members(keys, keys[i]);
  }

  // ---------- what representatives carry ----------

  lemma RepresentativeIs(objs: seq<Vulnerability>, vs: Vulns, keys: seq<string>, cur: Vulns, index: seq<nat>, groupOf: seq<string>, j: nat)
    requires Deduplicated(objs, vs, keys, cur, index, groupOf) && j < |index|
    ensures |objs| == |vs| == |cur| && |index| == |groupOf| && index[j] < |vs|
    ensures keys[index[j]] == groupOf[j] && cur[index[j]].id == vs[index[j]].id
    ensures Entries(vs, Members(keys, groupOf[j])) && Members(keys, groupOf[j]) != []
    ensures index[j] == Picked(vs, Members(keys, groupOf[j]))
  {
  }

  lemma GroupsAre(objs: seq<Vulnerability>, vs: Vulns, keys: seq<string>, cur: Vulns, index: seq<nat>, groupOf: seq<string>)
    requires Deduplicated(objs, vs, keys, cur, index, groupOf)
    ensures |objs| == |vs| == |cur| && |index| == |groupOf|
    ensures forall i, j | 0 <= i < j < |groupOf| :: groupOf[i] != groupOf[j]
    ensures forall k | k in keys :: k in groupOf
  {
  }

  /** An object that is no representative is as it was looked up. */
  lemma UnpickedIsKept(objs: seq<Vulnerability>, vs: Vulns, keys: seq<string>, cur: Vulns, index: seq<nat>, groupOf: seq<string>, i: nat)
    requires Deduplicated(objs, vs, keys, cur, index, groupOf) && i < |vs|
    requires forall j | 0 <= j < |index| :: index[j] < |objs| && objs[index[j]] != objs[i]
    ensures cur[i] == vs[i]
  {
  }

  lemma OneObjectOneValue(objs: seq<Vulnerability>, vs: Vulns, keys: seq<string>, cur: Vulns, index: seq<nat>, groupOf: seq<string>, i: nat, j: nat)
    requires Deduplicated(objs, vs, keys, cur, index, groupOf) && i < |vs| && j < |vs|
    ensures |objs| == |vs| && (objs[i] == objs[j] ==> vs[i] == vs[j] && cur[i] == cur[j])
  {
  }

  lemma StaysInItsGroup(objs: seq<Vulnerability>, vs: Vulns, keys: seq<string>, cur: Vulns, index: seq<nat>, groupOf: seq<string>, i: nat, id: string)
    requires Deduplicated(objs, vs, keys, cur, index, groupOf)
    ensures |objs| == |vs| == |keys| == |cur|
    ensures i < |vs| && OneGroupEach(objs, keys) && id in Ids(cur[i]) ==> InGroup(vs, keys, keys[i], id)
  {
  }

  /** Identifiers are conserved, for every input and every sharing of objects: each
      entry has exactly one representative, and that one carries the entry's ID and
      every alias. */
  lemma IdentifiersConserved(objs: seq<Vulnerability>, vs: Vulns, keys: seq<string>, cur: Vulns, index: seq<nat>, groupOf: seq<string>, i: nat)
    returns (j: nat)
    requires Deduplicated(objs, vs, keys, cur, index, groupOf) && i < |vs|
    ensures j < |index| && groupOf[j] == keys[i]
    ensures forall m | 0 <= m < |index| :: groupOf[m] == keys[i] ==> m == j
    ensures forall id | id in Ids(vs[i]) :: id in Ids(cur[index[j]])
  {
    assert keys[i] in keys;
    j :| 0 <= j < |groupOf| && groupOf[j] == keys[i];
    assert Has(vs, cur, i, index[j]);
  }

  /** When no object is listed in two groups, a representative carries exactly the
      identifiers of its group. */
  lemma CarriesItsGroup(objs: seq<Vulnerability>, vs: Vulns, keys: seq<string>, cur: Vulns, index: seq<nat>, groupOf: seq<string>, j: nat, id: string)
    requires Deduplicated(objs, vs, keys, cur, index, groupOf) && j < |index| && OneGroupEach(objs, keys)
    ensures id in Ids(cur[index[j]]) <==> InGroup(vs, keys, groupOf[j], id)
  {
    CarriesGroupOf(vs, keys, cur, index, groupOf, j, id);
  }

  lemma CarriesGroupOf(vs: Vulns, keys: seq<string>, cur: Vulns, index: seq<nat>, groupOf: seq<string>, j: nat, id: string)
    requires |keys| == |vs| == |cur| && j < |index| && Represented(vs, keys, cur, index, groupOf) && WithinGroups(vs, keys, cur)
    ensures id in Ids(cur[index[j]]) <==> InGroup(vs, keys, groupOf[j], id)
  {
    if InGroup(vs, keys, groupOf[j], id) {
      var a :| 0 <= a < |vs| && keys[a] == groupOf[j] && id in Ids(vs[a]);
      assert Has(vs, cur, a, index[j]);
    }
    if id in Ids(cur[index[j]]) {
      assert InGroup(vs, keys, keys[index[j]], id);
    }
  }

  /** When every entry joins at most one component, a representative carries exactly the
      identifiers of its component. */
  lemma CarriesItsComponent(objs: seq<Vulnerability>, vs: Vulns, keys: seq<string>, cur: Vulns, index: seq<nat>, groupOf: seq<string>, j: nat, id: string)
    requires Deduplicated(objs, vs, keys, cur, index, groupOf) && j < |index| && Keyed(vs, keys) && AllJoinOne(vs, |vs|)
    ensures id in Ids(cur[index[j]]) <==> Related(vs, index[j], id)
  {
    JoinsOneIsEnough(vs, keys, |vs|);
    if Related(vs, index[j], id) {
      var a: nat :| a < |vs| && Connected(vs, |vs|, index[j], a) && id in Ids(vs[a]);
      assert keys[a] == keys[index[j]] == groupOf[j];
      assert Has(vs, cur, a, index[j]);
    }
  }

  /** When every entry joins at most one component, no two representatives share an ID. */
  lemma DistinctIds(objs: seq<Vulnerability>, vs: Vulns, keys: seq<string>, cur: Vulns, index: seq<nat>, groupOf: seq<string>, j: nat, k: nat)
    requires Deduplicated(objs, vs, keys, cur, index, groupOf) && j < k < |index| && Keyed(vs, keys) && AllJoinOne(vs, |vs|)
    ensures cur[index[j]].id != cur[index[k]].id
  {
    JoinsOneIsEnough(vs, keys, |vs|);
    if vs[index[j]].id == vs[index[k]].id {
      assert vs[index[j]].id in Ids(vs[index[j]]) && vs[index[j]].id in Ids(vs[index[k]]);
      Adjacent(vs, |vs|, index[j], index[k]);
    }
  }

  /** The ID of the entry that the group of key `k` picks. */
  function PickedId(vs: Vulns, keys: seq<string>, k: string): string {
    var group := Members(keys, k);
    if group != [] && Entries(vs, group) then vs[Picked(vs, group)].id else ""
  }

  /** No two groups pick entries of one ID. */
  predicate DistinctPicks(vs: Vulns, keys: seq<string>) {
    forall k, l | k in keys && l in keys && k != l :: PickedId(vs, keys, k) != PickedId(vs, keys, l)
  }

  predicate DistinctRepIds(cur: Vulns, index: seq<nat>)
    requires Within(index, |cur|)
  {
    forall j, k | 0 <= j < k < |index| :: cur[index[j]].id != cur[index[k]].id
  }

  lemma PickedIdIs(objs: seq<Vulnerability>, vs: Vulns, keys: seq<string>, cur: Vulns, index: seq<nat>, groupOf: seq<string>, j: nat)
    requires Deduplicated(objs, vs, keys, cur, index, groupOf) && j < |index|
    ensures |index| == |groupOf| && index[j] < |cur| && groupOf[j] in keys && cur[index[j]].id == PickedId(vs, keys, groupOf[j])
  {
    RepresentativeIs(objs, vs, keys, cur, index, groupOf, j);
    hide Deduplicated, Members, Picked;
    assert keys[index[j]] in keys;
  }

  /** No two representatives share an ID if and only if no two groups pick entries of one
      ID. */
  lemma DistinctIdsExactly(objs: seq<Vulnerability>, vs: Vulns, keys: seq<string>, cur: Vulns, index: seq<nat>, groupOf: seq<string>)
    requires Deduplicated(objs, vs, keys, cur, index, groupOf)
    ensures Within(index, |cur|) && (DistinctRepIds(cur, index) <==> DistinctPicks(vs, keys))
  {
    hide Deduplicated, PickedId;
    GroupsAre(objs, vs, keys, cur, index, groupOf);
    forall j | 0 <= j < |index|
      ensures index[j] < |cur| && groupOf[j] in keys && cur[index[j]].id == PickedId(vs, keys, groupOf[j])
    {
      PickedIdIs(objs, vs, keys, cur, index, groupOf, j);
    }
    if !DistinctPicks(vs, keys) {
      var k, l :| k in keys && l in keys && k != l && PickedId(vs, keys, k) == PickedId(vs, keys, l);
      assert k in groupOf && l in groupOf;
      var a :| 0 <= a < |groupOf| && groupOf[a] == k;
      var b :| 0 <= b < |groupOf| && groupOf[b] == l;
      assert cur[index[a]].id == cur[index[b]].id;
    }
  }

  /** Two can share one: on the bridging input of AliasGroups.dfy the groups `X` and `Y`
      both pick an entry with ID X, the second for its severity. */
  lemma RepresentativesCollide(vs: Vulns)
    requires Bridging(vs)
    ensures GroupKeys(vs) == ["X", "Y", "Y", "Y"]
    ensures Members(GroupKeys(vs), "X") == [0] && Members(GroupKeys(vs), "Y") == [1, 2, 3]
    ensures Picked(vs, [0]) == 0 && Picked(vs, [1, 2, 3]) == 3 && vs[0].id == vs[3].id
  {
    BridgeKeys(vs);
    MembersOfXYYY(GroupKeys(vs));
    PickOfYYY(vs, [1, 2, 3]);
  }

  lemma MembersOfXYYY(keys: seq<string>)
    requires keys == ["X", "Y", "Y", "Y"]
    ensures Members(keys, "X") == [0] && Members(keys, "Y") == [1, 2, 3]
  {
    var one, two, three := keys[..1], keys[..2], keys[..3];
    assert one[..0] == [] && two[..1] == one && three[..2] == two && keys[..3] == three;
    assert one == ["X"] && two[1] == "Y" && three[2] == "Y";
    assert Members(one, "X") == [0] && Members(one, "Y") == [];
    assert Members(two, "X") == [0] && Members(two, "Y") == [1];
    assert Members(three, "X") == [0] && Members(three, "Y") == [1, 2];
  }

  lemma PickOfYYY(vs: Vulns, group: seq<nat>)
    requires Bridging(vs) && group == [1, 2, 3]
    ensures Picked(vs, group) == 3
  {
    assert group[..2] == [1, 2] && [1, 2][..1] == [1];
    assert Picked(vs, [1]) == 1;
    assert !Ghsa(vs[2]) && !Ghsa(vs[3]) && !Ghsa(vs[1]);
    assert Picked(vs, [1, 2]) == 1;
  }
}
