/** Grouping of vulnerability entries by shared identifiers, and what the grouping is
  worth: it never merges unrelated entries, and it yields the connected components
  exactly when no entry bridges two groups. Entries are named by their position. */
module AliasGroups {
  import opened Options

  datatype Vuln = Vuln(id: string, aliases: seq<string>, severity: string)

  type Vulns = seq<Vuln>

  /** `collectAllIDs`. */
  function Ids(v: Vuln): (ids: seq<string>)
    ensures |ids| > 0 && ids[0] == v.id && forall id :: id in ids <==> id == v.id || id in v.aliases
  {
    [v.id] + v.aliases
  }

  // ---------- the keys ----------

  /** The latest of the first `n` entries that carries `id`. */
  function LastWith(vs: Vulns, n: nat, id: string): (r: Option<nat>)
    requires n <= |vs|
    ensures r.Some? ==> r.value < n && id in Ids(vs[r.value])
    ensures r.None? ==> forall a | 0 <= a < n :: id !in Ids(vs[a])
  {
    if n == 0 then None else if id in Ids(vs[n - 1]) then Some(n - 1) else LastWith(vs, n - 1, id)
  }

  /** That entry for the first of `ids` that any of them carries. */
  function FirstKnown(vs: Vulns, n: nat, ids: seq<string>): (r: Option<nat>)
    requires n <= |vs|
    ensures r.Some? ==> r.value < n && exists id | id in ids :: id in Ids(vs[r.value])
    ensures r.None? ==> forall id | id in ids :: LastWith(vs, n, id).None?
  {
    if ids == [] then None
    else if LastWith(vs, n, ids[0]).Some? then LastWith(vs, n, ids[0])
    else
      assert forall id :: id in ids <==> id == ids[0] || id in ids[1..];
      FirstKnown(vs, n, ids[1..])
  }

  /** The key of entry `n`, given the keys before it: the group of its first known
      identifier, or its own ID when there is none or that group's key is empty. */
  function NextKey(vs: Vulns, n: nat, keys: seq<string>): string
    requires n < |vs| && |keys| == n
  {
    match FirstKnown(vs, n, Ids(vs[n]))
    case None => vs[n].id
    case Some(a) => if keys[a] == "" then vs[n].id else keys[a]
  }

  /** The group keys of the first `n` entries. */
  function KeysUpTo(vs: Vulns, n: nat): (keys: seq<string>)
    requires n <= |vs|
    ensures |keys| == n
  {
    if n == 0 then [] else KeysUpTo(vs, n - 1) + [NextKey(vs, n - 1, KeysUpTo(vs, n - 1))]
  }

  function GroupKeys(vs: Vulns): (keys: seq<string>)
    ensures |keys| == |vs|
  {
    KeysUpTo(vs, |vs|)
  }

  // ---------- connection through shared identifiers ----------

  predicate Share(vs: Vulns, i: nat, j: nat)
    requires i < |vs| && j < |vs|
  {
    exists id | id in Ids(vs[i]) :: id in Ids(vs[j])
  }

  predicate Within(path: seq<nat>, n: nat) {
    forall k | 0 <= k < |path| :: path[k] < n
  }

  predicate Link(vs: Vulns, path: seq<nat>, k: nat)
    requires Within(path, |vs|) && k + 1 < |path|
  {
    Share(vs, path[k], path[k + 1])
  }

  /** A chain of entries among the first `n`, each sharing an identifier with the next. */
  predicate Chain(vs: Vulns, n: nat, path: seq<nat>)
    requires n <= |vs|
  {
    |path| > 0 && Within(path, n) && forall k: nat | k + 1 < |path| :: Link(vs, path, k)
  }

  ghost predicate Connected(vs: Vulns, n: nat, i: nat, j: nat)
    requires n <= |vs|
  {
    exists path :: Chain(vs, n, path) && path[0] == i && path[|path| - 1] == j
  }

  lemma Adjacent(vs: Vulns, n: nat, i: nat, j: nat)
    requires n <= |vs| && i < n && j < n && (i == j || Share(vs, i, j))
    ensures Connected(vs, n, i, j)
  {
    var path := if i == j then [i] else [i, j];
    assert Chain(vs, n, path) && path[0] == i && path[|path| - 1] == j;
  }

  lemma Join(vs: Vulns, n: nat, i: nat, j: nat, k: nat)
    requires n <= |vs| && Connected(vs, n, i, j) && Connected(vs, n, j, k)
    ensures Connected(vs, n, i, k)
  {
    var p :| Chain(vs, n, p) && p[0] == i && p[|p| - 1] == j;
    var q :| Chain(vs, n, q) && q[0] == j && q[|q| - 1] == k;
    var r := p + q[1..];
    forall m: nat | m + 1 < |r| ensures Link(vs, r, m) {
      if m < |p| - 1 { assert Link(vs, p, m); }
      else { assert r[m] == q[m - (|p| - 1)] && Link(vs, q, m - (|p| - 1)); }
    }
    assert Chain(vs, n, r) && r[|r| - 1] == k;
  }

  lemma {:induction false} ReverseChain(vs: Vulns, n: nat, p: seq<nat>) returns (q: seq<nat>)
    requires n <= |vs| && Chain(vs, n, p)
    ensures Chain(vs, n, q) && q[0] == p[|p| - 1] && q[|q| - 1] == p[0]
    decreases |p|
  {
    if |p| == 1 {
      q := p;
    } else {
      var rest := ReverseChain(vs, n, p[1..]) by {
        forall k: nat | k + 1 < |p[1..]| ensures Link(vs, p[1..], k) { assert Link(vs, p, k + 1); }
      }
      q := rest + [p[0]];
      assert Link(vs, p, 0) && Share(vs, p[1], p[0]);
      forall k: nat | k + 1 < |q| ensures Link(vs, q, k) {
        if k + 1 < |rest| { assert Link(vs, rest, k); }
      }
    }
  }

  lemma Symmetric(vs: Vulns, n: nat, i: nat, j: nat)
    requires n <= |vs| && Connected(vs, n, i, j)
    ensures Connected(vs, n, j, i)
  {
    var p :| Chain(vs, n, p) && p[0] == i && p[|p| - 1] == j;
    var q := ReverseChain(vs, n, p);
  }

  lemma Widen(vs: Vulns, m: nat, n: nat, i: nat, j: nat)
    requires m <= n <= |vs| && Connected(vs, m, i, j)
    ensures Connected(vs, n, i, j)
  {
    var p :| Chain(vs, m, p) && p[0] == i && p[|p| - 1] == j;
    forall k: nat | k + 1 < |p| ensures Link(vs, p, k) {}
    assert Chain(vs, n, p);
  }

  // ---------- what the algorithm keeps ----------

  /** Entry `n` took the key of entry `a`. */
  predicate TakesKey(vs: Vulns, keys: seq<string>, n: nat, a: nat)
    requires n < |vs| == |keys|
  {
    a < n && Share(vs, a, n) && keys[n] == if keys[a] == "" then vs[n].id else keys[a]
  }

  /** Entry `n` has the key of an earlier entry it shares an identifier with, or its own
      ID and nothing earlier shares with it. */
  predicate Placed(vs: Vulns, keys: seq<string>, n: nat)
    requires n < |vs| == |keys|
  {
    (exists a | 0 <= a < n :: TakesKey(vs, keys, n, a)) ||
    (keys[n] == vs[n].id && forall a | 0 <= a < n :: !Share(vs, a, n))
  }

  predicate Keyed(vs: Vulns, keys: seq<string>) {
    |keys| == |vs| && forall n | 0 <= n < |vs| :: Placed(vs, keys, n)
  }

  lemma PlacedNext(vs: Vulns, n: nat, keys: seq<string>)
    requires n < |vs| && |keys| == n
    ensures Placed(vs[..n + 1], keys + [NextKey(vs, n, keys)], n)
  {
    var ws, more, known := vs[..n + 1], keys + [NextKey(vs, n, keys)], FirstKnown(vs, n, Ids(vs[n]));
    if known.Some? {
      assert ws[known.value] == vs[known.value] && TakesKey(ws, more, n, known.value);
    } else {
      forall a | 0 <= a < n ensures !Share(ws, a, n) {
        assert ws[a] == vs[a];
        forall id | id in Ids(vs[n]) ensures id !in Ids(vs[a]) { assert LastWith(vs, n, id).None?; }
      }
    }
  }

  lemma PlacedPrefix(vs: Vulns, keys: seq<string>, ws: Vulns, more: seq<string>, m: nat)
    requires m < |vs| == |keys| && |ws| == |more| && vs <= ws && keys <= more && Placed(vs, keys, m)
    ensures Placed(ws, more, m)
  {
    if a :| 0 <= a < m && TakesKey(vs, keys, m, a) {
      assert TakesKey(ws, more, m, a);
    } else {
      forall a | 0 <= a < m ensures !Share(ws, a, m) { assert !Share(vs, a, m); }
    }
  }

  lemma KeyedSnoc(vs: Vulns, n: nat, keys: seq<string>)
    requires n < |vs| && Keyed(vs[..n], keys)
    ensures Keyed(vs[..n + 1], keys + [NextKey(vs, n, keys)])
  {
    var ws, more := vs[..n + 1], keys + [NextKey(vs, n, keys)];
    PlacedNext(vs, n, keys);
    forall m | 0 <= m < n ensures Placed(ws, more, m) {
      assert Placed(vs[..n], keys, m);
      PlacedPrefix(vs[..n], keys, ws, more, m);
    }
  }

  lemma {:induction false} KeysPlacedUpTo(vs: Vulns, n: nat)
    requires n <= |vs|
    ensures Keyed(vs[..n], KeysUpTo(vs, n))
  {
    if n > 0 {
      KeysPlacedUpTo(vs, n - 1);
      KeyedSnoc(vs, n - 1, KeysUpTo(vs, n - 1));
    }
  }

  /** Each key comes from an earlier sharer or the entry itself. */
  lemma KeysArePlaced(vs: Vulns)
    ensures Keyed(vs, GroupKeys(vs))
  {
    KeysPlacedUpTo(vs, |vs|);
    assert vs[..|vs|] == vs;
  }

  lemma Origin(vs: Vulns, keys: seq<string>, n: nat) returns (from: Option<nat>)
    requires Keyed(vs, keys) && n < |vs|
    ensures from.Some? ==> TakesKey(vs, keys, n, from.value)
    ensures from.None? ==> keys[n] == vs[n].id && forall a: nat | a < n :: !Share(vs, a, n)
  {
    assert Placed(vs, keys, n);
    if a :| 0 <= a < n && TakesKey(vs, keys, n, a) { from := Some(a); } else { from := None; }
  }

  /** The least entry with entry `i`'s key has that key as its ID. */
  lemma {:induction false} Founder(vs: Vulns, keys: seq<string>, i: nat) returns (f: nat)
    requires Keyed(vs, keys)
    requires i < |vs|
    ensures f <= i && keys[f] == keys[i] == vs[f].id
    ensures forall g: nat | g < f :: keys[g] != keys[i]
    decreases i
  {
    if g: nat :| g < i && keys[g] == keys[i] {
      f := Founder(vs, keys, g);
    } else {
      f := i;
      var from := Origin(vs, keys, i);
      if from.Some? { assert keys[from.value] != keys[i]; }
    }
  }

  /** Grouping never merges unrelated entries: two entries with one key are connected
      through shared identifiers. No condition on the input. */
  lemma {:induction false} NeverMergesUnrelated(vs: Vulns, keys: seq<string>, n: nat, i: nat, j: nat)
    requires Keyed(vs, keys)
    requires i <= j < n <= |vs| && keys[i] == keys[j]
    ensures Connected(vs, n, i, j)
    decreases j
  {
    if i == j {
      Adjacent(vs, n, i, j);
    } else {
      var from := Origin(vs, keys, j);
      if from.Some? && keys[from.value] == keys[j] {
        var a := from.value;
        if i <= a { NeverMergesUnrelated(vs, keys, n, i, a); }
        else { NeverMergesUnrelated(vs, keys, n, a, i); Symmetric(vs, n, a, i); }
        Adjacent(vs, n, a, j);
        Join(vs, n, i, a, j);
      } else {
        var f := Founder(vs, keys, i);
        assert vs[f].id in Ids(vs[f]) && vs[f].id in Ids(vs[j]);
        NeverMergesUnrelated(vs, keys, n, f, i);
        Symmetric(vs, n, f, i);
        Adjacent(vs, n, f, j);
        Join(vs, n, i, f, j);
      }
    }
  }

  // ---------- exactly the connected components ----------

  /** The groups of the first `n` entries are their connected components. */
  ghost predicate Exact(vs: Vulns, keys: seq<string>, n: nat)
    requires n <= |vs| == |keys|
  {
    forall i: nat, j: nat | i < n && j < n :: keys[i] == keys[j] <==> Connected(vs, n, i, j)
  }

  /** Earlier entries that share an identifier with entry `m` are already connected. */
  ghost predicate NoBridge(vs: Vulns, m: nat)
    requires m < |vs|
  {
    forall i: nat, j: nat | i < m && j < m && Share(vs, i, m) && Share(vs, j, m) :: Connected(vs, m, i, j)
  }

  /** The first entry of the component of `i` among the first `m` has an empty ID. */
  ghost predicate EmptyFounder(vs: Vulns, m: nat, i: nat)
    requires m <= |vs|
  {
    exists f: nat :: f < m && vs[f].id == "" && Connected(vs, m, f, i) && forall g: nat | g < f :: !Connected(vs, m, g, i)
  }

  /** Entry `m` connects no two separate components, and joins one whose first entry
      lacks an ID only if it lacks one itself. */
  ghost predicate JoinsOne(vs: Vulns, m: nat)
    requires m < |vs|
  {
    NoBridge(vs, m) && forall i: nat | i < m && Share(vs, i, m) && EmptyFounder(vs, m, i) :: vs[m].id == ""
  }

  /** Every one of the first `n` entries joins at most one component. */
  ghost predicate AllJoinOne(vs: Vulns, n: nat)
    requires n <= |vs|
  {
    n == 0 || (AllJoinOne(vs, n - 1) && JoinsOne(vs, n - 1))
  }

  lemma {:induction false} AllJoinOneMeans(vs: Vulns, n: nat)
    requires n <= |vs|
    ensures AllJoinOne(vs, n) <==> forall m: nat | m < n :: JoinsOne(vs, m)
  {
    if n > 0 { AllJoinOneMeans(vs, n - 1); }
  }

  lemma EmptyFounderIsEmptyKey(vs: Vulns, keys: seq<string>, m: nat, i: nat)
    requires Keyed(vs, keys)
    requires i < m <= |vs| && Exact(vs, keys, m)
    ensures EmptyFounder(vs, m, i) <==> keys[i] == ""
  {
    var f := Founder(vs, keys, i);
    assert Connected(vs, m, f, i);
    forall g: nat | g < f ensures !Connected(vs, m, g, i) {}
    if EmptyFounder(vs, m, i) {
      var h: nat :| h < m && vs[h].id == "" && Connected(vs, m, h, i) && forall g: nat | g < h :: !Connected(vs, m, g, i);
      assert h == f;
    }
  }

  /** If the sharers of `m` are connected among the first `m`, a chain through `m` can
      avoid it: its end is connected to its start, or is `m` itself next to a sharer
      connected to the start. */
  lemma {:induction false} Detour(vs: Vulns, m: nat, path: seq<nat>)
    requires m < |vs| && AllJoinOne(vs, m + 1) && Chain(vs, m + 1, path) && path[0] < m
    ensures var z := path[|path| - 1];
      if z < m then Connected(vs, m, path[0], z)
      else exists a: nat :: a < m && Share(vs, a, m) && Connected(vs, m, path[0], a)
    decreases |path|
  {
    if |path| == 1 {
      Adjacent(vs, m, path[0], path[0]);
    } else {
      var init := path[..|path| - 1];
      var y, z := init[|init| - 1], path[|path| - 1];
      forall k: nat | k + 1 < |init| ensures Link(vs, init, k) { assert Link(vs, path, k); }
      assert Chain(vs, m + 1, init);
      Detour(vs, m, init);
      assert Link(vs, path, |path| - 2) && path[|path| - 2] == y;
      if y < m && z < m {
        Adjacent(vs, m, y, z);
        Join(vs, m, path[0], y, z);
      } else if y == m && z < m {
        var a: nat :| a < m && Share(vs, a, m) && Connected(vs, m, path[0], a);
        assert Share(vs, z, m);
        Join(vs, m, path[0], a, z);
      }
    }
  }

  lemma ConnectedBefore(vs: Vulns, m: nat, i: nat, j: nat)
    requires m < |vs| && AllJoinOne(vs, m + 1) && i < m && j < m
    ensures Connected(vs, m + 1, i, j) <==> Connected(vs, m, i, j)
  {
    if Connected(vs, m, i, j) { Widen(vs, m, m + 1, i, j); }
    if Connected(vs, m + 1, i, j) {
      var p :| Chain(vs, m + 1, p) && p[0] == i && p[|p| - 1] == j;
      Detour(vs, m, p);
    }
  }

  lemma ConnectedToLast(vs: Vulns, m: nat, i: nat)
    requires m < |vs| && AllJoinOne(vs, m + 1) && i < m
    ensures Connected(vs, m + 1, i, m) <==> exists a: nat :: a < m && Share(vs, a, m) && Connected(vs, m, i, a)
  {
    if Connected(vs, m + 1, i, m) {
      var p :| Chain(vs, m + 1, p) && p[0] == i && p[|p| - 1] == m;
      Detour(vs, m, p);
    }
    if a: nat :| a < m && Share(vs, a, m) && Connected(vs, m, i, a) {
      Widen(vs, m, m + 1, i, a);
      Adjacent(vs, m + 1, a, m);
      Join(vs, m + 1, i, a, m);
    }
  }

  /** A key taken from an entry's own ID is new when nothing earlier shares with it. */
  lemma FreshKey(vs: Vulns, keys: seq<string>, m: nat, i: nat)
    requires Keyed(vs, keys)
    requires i < m < |vs| && keys[m] == vs[m].id && forall k: nat | k < m :: !Share(vs, k, m)
    ensures keys[i] != keys[m]
  {
    var f := Founder(vs, keys, i);
    assert vs[f].id in Ids(vs[f]) && vs[m].id in Ids(vs[m]) && !Share(vs, f, m);
  }

  lemma JoinedKey(vs: Vulns, keys: seq<string>, m: nat, a: nat)
    requires Keyed(vs, keys)
    requires a < m < |vs| && AllJoinOne(vs, m + 1) && Share(vs, a, m)
    requires keys[m] == if keys[a] == "" then vs[m].id else keys[a]
    ensures keys[a] == keys[m]
    decreases m + 1, 0
  {
    JoinsOneIsEnough(vs, keys, m);
    EmptyFounderIsEmptyKey(vs, keys, m, a);
  }

  lemma LastMatches(vs: Vulns, keys: seq<string>, m: nat, i: nat)
    requires Keyed(vs, keys)
    requires i < m < |vs| && AllJoinOne(vs, m + 1)
    ensures keys[i] == keys[m] <==> Connected(vs, m + 1, i, m)
    decreases m + 1, 1
  {
    var from := Origin(vs, keys, m);
    ConnectedToLast(vs, m, i);
    if from.Some? {
      var a := from.value;
      JoinedKey(vs, keys, m, a);
      assert keys[i] == keys[a] <==> Connected(vs, m, i, a) by { JoinsOneIsEnough(vs, keys, m); }
      if b: nat :| b < m && Share(vs, b, m) && Connected(vs, m, i, b) { Join(vs, m, i, b, a); }
    } else {
      FreshKey(vs, keys, m, i);
    }
  }

  lemma PairMatches(vs: Vulns, keys: seq<string>, m: nat, i: nat, j: nat)
    requires Keyed(vs, keys)
    requires i <= m && j <= m < |vs| && AllJoinOne(vs, m + 1)
    ensures keys[i] == keys[j] <==> Connected(vs, m + 1, i, j)
    decreases m + 1, 2
  {
    if i < m && j < m {
      JoinsOneIsEnough(vs, keys, m);
      ConnectedBefore(vs, m, i, j);
    } else if i == m && j == m {
      Adjacent(vs, m + 1, i, j);
    } else if i == m {
      LastMatches(vs, keys, m, j);
      if Connected(vs, m + 1, m, j) { Symmetric(vs, m + 1, m, j); }
      if Connected(vs, m + 1, j, m) { Symmetric(vs, m + 1, j, m); }
    } else {
      LastMatches(vs, keys, m, i);
    }
  }

  /** When every entry joins at most one component, the groups stay exact. */
  lemma JoinsOneIsEnough(vs: Vulns, keys: seq<string>, n: nat)
    requires Keyed(vs, keys)
    requires n <= |vs| && AllJoinOne(vs, n)
    ensures Exact(vs, keys, n)
    decreases n, 3
  {
    if n == 0 { return; }
    var m: nat := n - 1;
    assert m + 1 == n;
    forall i: nat, j: nat | i < n && j < n ensures keys[i] == keys[j] <==> Connected(vs, n, i, j) {
      PairMatches(vs, keys, m, i, j);
    }
  }

  /** In an exact grouping every entry joined one component. */
  lemma {:induction false} JoinsOneIsNeeded(vs: Vulns, keys: seq<string>, m: nat)
    requires Keyed(vs, keys)
    requires m < |vs| && Exact(vs, keys, |vs|)
    ensures JoinsOne(vs, m)
    decreases m
  {
    forall k: nat | k < m ensures JoinsOne(vs, k) { JoinsOneIsNeeded(vs, keys, k); }
    AllJoinOneMeans(vs, m);
    JoinsOneIsEnough(vs, keys, m);
    forall i: nat | i < m && Share(vs, i, m) ensures keys[i] == keys[m] { Adjacent(vs, |vs|, i, m); }
    var from := Origin(vs, keys, m);
    forall i: nat | i < m && Share(vs, i, m) && EmptyFounder(vs, m, i) ensures vs[m].id == "" {
      EmptyFounderIsEmptyKey(vs, keys, m, i);
    }
  }

  /** The groups are exactly the connected components of the entries if and only if no
      entry bridges two components of the entries before it, or joins through a first
      entry without an ID. */
  lemma GroupsAreComponents(vs: Vulns)
    ensures Exact(vs, GroupKeys(vs), |vs|) <==> forall m: nat | m < |vs| :: JoinsOne(vs, m)
  {
    KeysArePlaced(vs);
    ComponentsExactly(vs, GroupKeys(vs));
  }

  lemma ComponentsExactly(vs: Vulns, keys: seq<string>)
    requires Keyed(vs, keys)
    ensures Exact(vs, keys, |vs|) <==> forall m: nat | m < |vs| :: JoinsOne(vs, m)
  {
    if Exact(vs, keys, |vs|) { forall m: nat | m < |vs| ensures JoinsOne(vs, m) { JoinsOneIsNeeded(vs, keys, m); } }
    AllJoinOneMeans(vs, |vs|);
    if AllJoinOne(vs, |vs|) { JoinsOneIsEnough(vs, keys, |vs|); }
  }

  /** Two entries in one group are connected through shared identifiers, whatever the
      input. */
  lemma GroupsAreConnected(vs: Vulns, i: nat, j: nat)
    requires i <= j < |vs| && GroupKeys(vs)[i] == GroupKeys(vs)[j]
    ensures Connected(vs, |vs|, i, j)
  {
    KeysArePlaced(vs);
    NeverMergesUnrelated(vs, GroupKeys(vs), |vs|, i, j);
  }

  // ---------- a bridging input ----------

  /** One dependency's matches: `Z` bridges `X` and `Y`, and a second package lists `X`
      again. */
  predicate Bridging(vs: Vulns) {
    vs == [Vuln("X", [], "HIGH"), Vuln("Y", ["Z"], ""), Vuln("Z", ["X"], ""), Vuln("X", [], "HIGH")]
  }

  lemma {:induction false} BridgeKeys(vs: Vulns)
    requires Bridging(vs)
    ensures GroupKeys(vs) == ["X", "Y", "Y", "Y"]
  {
    assert "X"[0] == 'X' && "Y"[0] == 'Y' && "Z"[0] == 'Z';
    assert Ids(vs[0]) == Ids(vs[3]) == ["X"] && Ids(vs[1]) == ["Y", "Z"] && Ids(vs[2]) == ["Z", "X"];
    assert KeysUpTo(vs, 1) == ["X"];
    assert LastWith(vs, 1, "Y").None? && LastWith(vs, 1, "Z").None?;
    assert ["Y", "Z"][1..] == ["Z"] && FirstKnown(vs, 1, ["Z"]).None?;
    assert KeysUpTo(vs, 2) == ["X", "Y"];
    assert LastWith(vs, 2, "Z") == Some(1);
    assert KeysUpTo(vs, 3) == ["X", "Y", "Y"];
    assert LastWith(vs, 3, "X") == Some(2);
  }

  /** The two copies of `X` share an identifier and get different groups. */
  lemma BridgeSplits(vs: Vulns)
    requires Bridging(vs)
    ensures Connected(vs, 4, 0, 3) && GroupKeys(vs)[0] != GroupKeys(vs)[3]
    ensures !Exact(vs, GroupKeys(vs), |vs|) && !NoBridge(vs, 2)
  {
    BridgeKeys(vs);
    assert Ids(vs[0])[0] == Ids(vs[3])[0] == "X";
    Adjacent(vs, 4, 0, 3);
    assert "X"[0] != "Y"[0];
    assert Share(vs, 0, 2) by { assert "X" in Ids(vs[0]) && Ids(vs[2])[1] == "X"; }
    assert Share(vs, 1, 2) by { assert Ids(vs[1])[1] == "Z" && "Z" in Ids(vs[2]); }
    if Connected(vs, 2, 0, 1) {
      var path :| Chain(vs, 2, path) && path[0] == 0 && path[|path| - 1] == 1;
      StaysAtFirst(vs, path, |path| - 1);
    }
  }

  lemma {:induction false} StaysAtFirst(vs: Vulns, path: seq<nat>, k: nat)
    requires Bridging(vs) && Chain(vs, 2, path) && path[0] == 0 && k < |path|
    ensures path[k] == 0
  {
    if k > 0 {
      StaysAtFirst(vs, path, k - 1);
      assert Link(vs, path, k - 1);
      assert "X"[0] != "Y"[0] && "X"[0] != "Z"[0];
    }
  }
}
