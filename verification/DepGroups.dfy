/** The group map of `deduplicateVulns`, and the entry it picks from each group. */
module DepGroups {
  import opened Options
  import opened AliasGroups

  // ---------- groups ----------

  /** The entries that were given key `k`, in order. */
  function Members(keys: seq<string>, k: string): seq<nat> {
    if keys == [] then []
    else Members(keys[..|keys| - 1], k) + if keys[|keys| - 1] == k then [|keys| - 1] else []
  }

  lemma {:induction false} MembersAre(keys: seq<string>, k: string)
    ensures forall i: nat :: i in Members(keys, k) <==> i < |keys| && keys[i] == k
    decreases |keys|
  {
    if keys != [] { MembersAre(keys[..|keys| - 1], k); }
  }

  /** `alias` maps each identifier seen among the first `n` entries to the key of the
      latest entry that carries it. */
  ghost predicate AliasMap(vs: Vulns, n: nat, keys: seq<string>, alias: map<string, string>)
    requires n <= |vs| && |keys| == n
  {
    forall id :: if LastWith(vs, n, id).Some? then id in alias && alias[id] == keys[LastWith(vs, n, id).value] else id !in alias
  }

  lemma FirstKnownFrom(vs: Vulns, n: nat, ids: seq<string>, j: nat)
    requires n <= |vs| && j <= |ids| && forall m | 0 <= m < j :: LastWith(vs, n, ids[m]).None?
    ensures FirstKnown(vs, n, ids) == FirstKnown(vs, n, ids[j..])
    decreases |ids|
  {
    if j > 0 {
      assert forall m | 0 <= m < j - 1 :: ids[1..][m] == ids[m + 1];
      assert ids[j..] == ids[1..][j - 1..];
      FirstKnownFrom(vs, n, ids[1..], j - 1);
    }
  }

  /** The key for entry `n`: the group of its first known identifier, else its own ID. */
  method ChooseKey(vs: Vulns, n: nat, ghost keys: seq<string>, alias: map<string, string>) returns (key: string)
    requires n < |vs| && |keys| == n && AliasMap(vs, n, keys, alias)
    ensures key == NextKey(vs, n, keys)
  {
    var ids := Ids(vs[n]);
    key := "";
    var j := 0;
    while j < |ids| && ids[j] !in alias
      invariant 0 <= j <= |ids| && forall m | 0 <= m < j :: LastWith(vs, n, ids[m]).None?
    {
      assert LastWith(vs, n, ids[j]).None?;
      j := j + 1;
    }
    FirstKnownFrom(vs, n, ids, j);
    if j < |ids| {
      assert LastWith(vs, n, ids[j]).Some?;
      key := alias[ids[j]];
    }
    if key == "" { key := vs[n].id; }
  }

  /** Points every identifier of entry `n` at its key. */
  method Register(vs: Vulns, n: nat, ghost keys: seq<string>, alias: map<string, string>, key: string)
    returns (more: map<string, string>)
    requires n < |vs| && |keys| == n && AliasMap(vs, n, keys, alias)
    ensures AliasMap(vs, n + 1, keys + [key], more)
  {
    var ids := Ids(vs[n]);
    more := alias;
    for m := 0 to |ids|
      invariant forall id :: id in more <==> id in alias || id in ids[..m]
      invariant forall id :: id in more ==> more[id] == if id in ids[..m] then key else alias[id]
    {
      assert ids[..m + 1] == ids[..m] + [ids[m]];
      more := more[ids[m] := key];
    }
    assert ids[..|ids|] == ids;
    forall id
      ensures if LastWith(vs, n + 1, id).Some? then id in more && more[id] == (keys + [key])[LastWith(vs, n + 1, id).value] else id !in more
    {
      assert LastWith(vs, n + 1, id) == if id in ids then Some(n) else LastWith(vs, n, id);
    }
  }

  /** `groups` lists the entries by key. */
  ghost predicate Lists(keys: seq<string>, groups: map<string, seq<nat>>) {
    forall k :: Members(keys, k) == if k in groups then groups[k] else []
  }

  lemma ListsStep(keys: seq<string>, groups: map<string, seq<nat>>, key: string, more: map<string, seq<nat>>)
    requires Lists(keys, groups)
    requires more == groups[key := (if key in groups then groups[key] else []) + [|keys|]]
    ensures Lists(keys + [key], more)
  {
    forall k ensures Members(keys + [key], k) == if k in more then more[k] else [] {
      assert (keys + [key])[..|keys|] == keys;
      assert Members(keys, k) == if k in groups then groups[k] else [];
    }
  }

  /** The loop state after `n` entries. */
  ghost predicate Grouped(vs: Vulns, n: nat, keys: seq<string>, alias: map<string, string>, groups: map<string, seq<nat>>) {
    n <= |vs| && |keys| == n && AliasMap(vs, n, keys, alias) && Lists(keys, groups) && forall k :: k in groups ==> groups[k] != []
  }

  /** One turn of the grouping loop. */
  method Place(vs: Vulns, i: nat, ghost keys: seq<string>, alias: map<string, string>, groups: map<string, seq<nat>>)
    returns (key: string, alias': map<string, string>, groups': map<string, seq<nat>>)
    requires i < |vs| && Grouped(vs, i, keys, alias, groups)
    ensures key == NextKey(vs, i, keys) && Grouped(vs, i + 1, keys + [key], alias', groups')
  {
    key := ChooseKey(vs, i, keys, alias);
    alias' := Register(vs, i, keys, alias, key);
    groups' := groups[key := (if key in groups then groups[key] else []) + [i]];
    ListsStep(keys, groups, key, groups');
  }

  /** The grouping loop of `deduplicateVulns`. */
  method GroupVulns(vs: Vulns) returns (groups: map<string, seq<nat>>)
    ensures Lists(GroupKeys(vs), groups)
    ensures forall k :: k in groups ==> groups[k] != []
  {
    var aliasToGroup: map<string, string> := map[];
    groups := map[];
    ghost var keys: seq<string> := [];
    var i := 0;
    while i < |vs|
      invariant i <= |vs| && keys == KeysUpTo(vs, i)
      invariant Grouped(vs, i, keys, aliasToGroup, groups)
    {
      var key;
      key, aliasToGroup, groups := Place(vs, i, keys, aliasToGroup, groups);
      keys := keys + [key];
      i := i + 1;
    }
  }

  // ---------- the pick of a group ----------

  predicate Ghsa(v: Vuln) {
    "GHSA-" <= v.id
  }

  predicate Rated(v: Vuln) {
    v.severity != ""
  }

  /** One turn of `pickBest`. */
  function Prefer(vs: Vulns, best: nat, v: nat): nat
    requires best < |vs| && v < |vs|
  {
    var b := if Rated(vs[v]) && !Rated(vs[best]) then v else best;
    if Ghsa(vs[v]) && !Ghsa(vs[b]) then v else b
  }

  predicate Entries(vs: Vulns, group: seq<nat>) {
    forall k | 0 <= k < |group| :: group[k] < |vs|
  }

  function Picked(vs: Vulns, group: seq<nat>): (best: nat)
    requires group != [] && Entries(vs, group)
    ensures best in group && best < |vs|
  {
    var n := |group| - 1;
    if n == 0 then group[0] else Prefer(vs, Picked(vs, group[..n]), group[n])
  }

  predicate SomeRated(vs: Vulns, group: seq<nat>)
    requires Entries(vs, group)
  {
    exists k | 0 <= k < |group| :: Rated(vs[group[k]])
  }

  predicate SomeGhsa(vs: Vulns, group: seq<nat>)
    requires Entries(vs, group)
  {
    exists k | 0 <= k < |group| :: Ghsa(vs[group[k]])
  }

  predicate SomeRatedGhsa(vs: Vulns, group: seq<nat>)
    requires Entries(vs, group)
  {
    exists k | 0 <= k < |group| :: Ghsa(vs[group[k]]) && Rated(vs[group[k]])
  }

  /** `best` has severity data, and is a GHSA entry, whenever some member is. */
  predicate Preferred(vs: Vulns, group: seq<nat>, best: nat)
    requires Entries(vs, group) && best < |vs|
  {
    (SomeRated(vs, group) ==> Rated(vs[best])) && (SomeGhsa(vs, group) ==> Ghsa(vs[best]))
  }

  lemma {:induction false} PickFavours(vs: Vulns, group: seq<nat>)
    requires group != [] && Entries(vs, group)
    ensures var best := Picked(vs, group);
      && (SomeRatedGhsa(vs, group) ==> Ghsa(vs[best]) && Rated(vs[best]))
      && (SomeRated(vs, group) && !SomeGhsa(vs, group) ==> Rated(vs[best]))
      && (SomeGhsa(vs, group) && !SomeRated(vs, group) ==> Ghsa(vs[best]))
    decreases |group|
  {
    var n := |group| - 1;
    if n > 0 {
      PickFavours(vs, group[..n]);
      assert forall k | 0 <= k < n :: group[..n][k] == group[k];
    }
  }

  /** The pick meets both preferences of `pickBest` if and only if the group does not
      hold GHSA entries and severity data without a GHSA entry that has severity data. */
  lemma PickIsPreferredExactly(vs: Vulns, group: seq<nat>)
    requires group != [] && Entries(vs, group)
    ensures Preferred(vs, group, Picked(vs, group))
       <==> (SomeRated(vs, group) && SomeGhsa(vs, group) ==> SomeRatedGhsa(vs, group))
  {
    PickFavours(vs, group);
    var best := Picked(vs, group);
    var k :| 0 <= k < |group| && group[k] == best;
    if Ghsa(vs[best]) && Rated(vs[best]) { assert SomeRatedGhsa(vs, group); }
  }

  /** Position `p` is the first whose entry is a GHSA entry, if `ghsa`, and has severity
      data, if `rated`. */
  predicate FirstSuch(vs: Vulns, group: seq<nat>, p: nat, ghsa: bool, rated: bool)
    requires Entries(vs, group)
  {
    p < |group| && Such(vs[group[p]], ghsa, rated) && forall q | 0 <= q < p :: !Such(vs[group[q]], ghsa, rated)
  }

  predicate Such(v: Vuln, ghsa: bool, rated: bool) {
    (ghsa ==> "GHSA-" <= v.id) && (rated ==> v.severity != "")
  }

  predicate SomeSuch(vs: Vulns, group: seq<nat>, ghsa: bool, rated: bool)
    requires Entries(vs, group)
  {
    exists k | 0 <= k < |group| :: Such(vs[group[k]], ghsa, rated)
  }

  /** Ties go to the earlier entry: the pick is the first GHSA entry with severity data if
      there is one; without GHSA entries, the first entry with severity data if there is
      one; without severity data, the first GHSA entry if there is one; with neither, the
      first entry. */
  lemma {:induction false} PickIsFirst(vs: Vulns, group: seq<nat>, ghsa: bool, rated: bool) returns (p: nat)
    requires group != [] && Entries(vs, group) && SomeSuch(vs, group, ghsa, rated)
    requires (ghsa || !SomeSuch(vs, group, true, false)) && (rated || !SomeSuch(vs, group, false, true))
    ensures FirstSuch(vs, group, p, ghsa, rated) && group[p] == Picked(vs, group)
    decreases |group|
  {
    var n := |group| - 1;
    var init := group[..n];
    assert forall k | 0 <= k < n :: init[k] == group[k];
    if n > 0 && SomeSuch(vs, init, ghsa, rated) {
      p := PickIsFirst(vs, init, ghsa, rated);
      assert Such(vs[group[n]], true, false) ==> ghsa;
      assert Such(vs[group[n]], false, true) ==> rated;
    } else {
      p := n;
      if n > 0 { PickFavours(vs, init); }
      assert Such(vs[group[n]], ghsa, rated);
    }
  }

  /** `pickBest`. */
  method PickBest(vs: Vulns, group: seq<nat>) returns (best: nat)
    requires group != [] && Entries(vs, group)
    ensures best == Picked(vs, group)
    ensures Preferred(vs, group, best)
       <==> (SomeRated(vs, group) && SomeGhsa(vs, group) ==> SomeRatedGhsa(vs, group))
  {
    best := group[0];
    for k := 1 to |group|
      invariant best == Picked(vs, group[..k])
    {
      var v := group[k];
      assert group[..k + 1][..k] == group[..k];
      var b := best;
      if vs[v].severity != "" && vs[b].severity == "" {
        b := v;
      }
      if Ghsa(vs[v]) && !Ghsa(vs[b]) {
        b := v;
      }
      best := b;
    }
    assert group[..|group|] == group;
    PickIsPreferredExactly(vs, group);
  }

  /** An unrated GHSA entry and a rated other one: the pick is whichever comes last, so
      one preference fails either way. */
  lemma PreferenceNeedsRatedGhsa(vs: Vulns, group: seq<nat>)
    requires vs == [Vuln("GHSA-1", [], ""), Vuln("GO-2", [], "HIGH")]
    requires group == [0, 1] || group == [1, 0]
    ensures Picked(vs, group) == group[1] && !Preferred(vs, group, Picked(vs, group))
  {
    assert vs[1].id[1] == 'O' && "GHSA-"[1] == 'H';
    assert group[..1] == [group[0]] && Picked(vs, group[..1]) == group[0];
    assert Rated(vs[group[0]]) || Rated(vs[group[1]]);
    assert Ghsa(vs[group[0]]) || Ghsa(vs[group[1]]);
  }

  /** The pick looks at IDs and severities only. */
  lemma {:induction false} PickedAgrees(vs: Vulns, ws: Vulns, group: seq<nat>)
    requires group != [] && Entries(vs, group) && |vs| == |ws|
    requires forall i | 0 <= i < |vs| :: vs[i].id == ws[i].id && vs[i].severity == ws[i].severity
    ensures Picked(vs, group) == Picked(ws, group)
    decreases |group|
  {
    if |group| > 1 { PickedAgrees(vs, ws, group[..|group| - 1]); }
  }
}
