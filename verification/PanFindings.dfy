/** The two in-file reductions of the PAN scanner.  Findings and their field sources
  live in parallel slices; a reduction merges some findings into others and deletes
  the absorbed ones from both slices. */
module PanFindings {
  import opened Options

  datatype Severity = Critical | High | Medium | Low | Info | Unranked

  function Rank(s: Severity): nat {
    match s
    case Critical => 5
    case High => 4
    case Medium => 3
    case Low => 2
    case Info => 1
    case Unranked => 0
  }

  /** `Suppressed` is the sentinel rule id of the taint bridge. */
  datatype Rule = Keyword | StringType | Suppressed | OtherRule(id: string)

  /** The description texts the reductions tell apart; `Annotated` is a text with a
      taint note appended. */
  datatype Desc =
    | Field(name: string)
    | Tag(name: string)
    | Merged(name: string, tag: string)
    | Param(name: string, fn: string)
    | Grouped(name: string, count: nat, fns: seq<string>)
    | Plain(text: string)
    | Annotated(of: Desc, stored: bool)

  datatype Finding = Finding(rule: Rule, severity: Severity, path: string, line: nat, column: nat,
                             desc: Desc, confidence: string)

  datatype Source = Source(pkg: string, typeName: string, field: string, hasJson: bool, hasDb: bool)

  const NO_SOURCE := Source("", "", "", false, false)

  /** Lower-cases ASCII and drops `_` and `-`. */
  function Normalize(s: string): string {
    if s == "" then ""
    else
      var c := s[0];
      var rest := Normalize(s[1..]);
      if c == '_' || c == '-' then rest
      else if 'A' <= c <= 'Z' then [c - 'A' + 'a'] + rest
      else [c] + rest
  }

  /** The sensitive name a finding is about. */
  function Subject(d: Desc): string {
    match d
    case Plain(text) => text
    case Annotated(of, _) => Subject(of)
    case Field(n) => Normalize(n)
    case Tag(n) => Normalize(n)
    case Merged(n, _) => Normalize(n)
    case Param(n, _) => Normalize(n)
    case Grouped(n, _, _) => Normalize(n)
  }

  // ---------------------------------------------------------------- grouping by key

  datatype Key = ByLine(path: string, line: nat) | ByParam(path: string, name: string)

  datatype Reduction = StructTags | Parameters

  function KeyOf(r: Reduction, f: Finding): Option<Key> {
    match r
    case StructTags => if f.rule.Keyword? then Some(ByLine(f.path, f.line)) else None
    case Parameters =>
      if f.rule.StringType? && f.desc.Param? && f.desc.name != "" then Some(ByParam(f.path, f.desc.name))
      else None
  }

  /** The indices below `n` whose finding has key `k`, in order. */
  function Members(r: Reduction, fs: seq<Finding>, k: Key, n: nat): (ms: seq<nat>)
    requires n <= |fs|
    ensures forall j | 0 <= j < |ms| :: ms[j] < n && KeyOf(r, fs[ms[j]]) == Some(k)
    ensures forall i {:trigger i in ms} :: i in ms <==> 0 <= i < n && KeyOf(r, fs[i]) == Some(k)
    ensures forall a, b | 0 <= a < b < |ms| :: ms[a] < ms[b]
  {
    if n == 0 then []
    else
      var before := Members(r, fs, k, n - 1);
      if KeyOf(r, fs[n - 1]) == Some(k) then before + [n - 1] else before
  }

  ghost predicate Collected(r: Reduction, fs: seq<Finding>, n: nat, groups: map<Key, seq<nat>>)
    requires n <= |fs|
  {
    && (forall k :: k in groups <==> Members(r, fs, k, n) != [])
    && (forall k | k in groups :: groups[k] == Members(r, fs, k, n))
  }

  function AddTo(groups: map<Key, seq<nat>>, k: Option<Key>, i: nat): map<Key, seq<nat>> {
    if k.None? then groups
    else groups[k.value := (if k.value in groups then groups[k.value] else []) + [i]]
  }

  lemma CollectNext(r: Reduction, fs: seq<Finding>, i: nat, groups: map<Key, seq<nat>>)
    requires i < |fs| && Collected(r, fs, i, groups)
    ensures Collected(r, fs, i + 1, AddTo(groups, KeyOf(r, fs[i]), i))
  {
    var more := AddTo(groups, KeyOf(r, fs[i]), i);
    forall k: Key ensures
      && (k in more <==> Members(r, fs, k, i + 1) != [])
      && (k in more ==> more[k] == Members(r, fs, k, i + 1))
    {
      CollectKey(r, fs, i, groups, k);
    }
  }

  lemma CollectKey(r: Reduction, fs: seq<Finding>, i: nat, groups: map<Key, seq<nat>>, k: Key)
    requires i < |fs| && (k in groups <==> Members(r, fs, k, i) != [])
    requires k in groups ==> groups[k] == Members(r, fs, k, i)
    ensures var more := AddTo(groups, KeyOf(r, fs[i]), i);
      && (k in more <==> Members(r, fs, k, i + 1) != [])
      && (k in more ==> more[k] == Members(r, fs, k, i + 1))
  {
    hide KeyOf;
  }

  lemma NothingCollected(r: Reduction, fs: seq<Finding>)
    ensures Collected(r, fs, 0, map[])
  {
  }

  method CollectGroups(r: Reduction, fs: seq<Finding>) returns (groups: map<Key, seq<nat>>)
    ensures Collected(r, fs, |fs|, groups)
  {
    hide Collected, Members, KeyOf;
    groups := map[];
    NothingCollected(r, fs);
    for i := 0 to |fs|
      invariant Collected(r, fs, i, groups)
    {
      CollectNext(r, fs, i, groups);
      var key := KeyOf(r, fs[i]);
      if key.Some? {
        var sofar := if key.value in groups then groups[key.value] else [];
        groups := groups[key.value := sofar + [i]];
      }
    }
  }

  // ---------------------------------------------------------------- deletion from both slices

  /** The indices below `n` that survive the deletion of `removed`. */
  function Kept(removed: set<nat>, n: nat): (ks: seq<nat>)
    ensures forall j | 0 <= j < |ks| :: ks[j] < n && ks[j] !in removed
    ensures forall i :: i in ks <==> 0 <= i < n && i !in removed
    ensures forall a, b | 0 <= a < b < |ks| :: ks[a] < ks[b]
  {
    if n == 0 then []
    else if n - 1 in removed then Kept(removed, n - 1)
    else Kept(removed, n - 1) + [n - 1]
  }

  function Pick<T>(s: seq<T>, ks: seq<nat>): (r: seq<T>)
    requires forall i | 0 <= i < |ks| :: ks[i] < |s|
    ensures |r| == |ks| && forall i | 0 <= i < |ks| :: r[i] == s[ks[i]]
  {
    seq(|ks|, i requires 0 <= i < |ks| => s[ks[i]])
  }

  function Min(a: nat, b: nat): nat { if a < b then a else b }

  lemma KeptNext(removed: set<nat>, i: nat)
    ensures Kept(removed, i + 1) == if i in removed then Kept(removed, i) else Kept(removed, i) + [i]
  {
  }

  lemma PickSnoc<T>(s: seq<T>, ks: seq<nat>, i: nat)
    requires i < |s| && forall j | 0 <= j < |ks| :: ks[j] < |s|
    ensures Pick(s, ks + [i]) == Pick(s, ks) + [s[i]]
  {
  }

  /** The survivors among the first `i` elements, as far as the slice goes. */
  function Thinned<T>(s: seq<T>, removed: set<nat>, i: nat): seq<T> {
    Pick(s, Kept(removed, Min(i, |s|)))
  }

  lemma ThinnedNext<T>(s: seq<T>, removed: set<nat>, i: nat)
    ensures Thinned(s, removed, 0) == []
    ensures Thinned(s, removed, i + 1) == Thinned(s, removed, i) + if i < |s| && i !in removed then [s[i]] else []
  {
    if i < |s| {
      KeptNext(removed, i);
      hide Kept, Pick;
      if i !in removed {
        PickSnoc(s, Kept(removed, i), i);
      }
    }
  }

  method Delete(fs: seq<Finding>, ss: seq<Source>, removed: set<nat>)
    returns (rf: seq<Finding>, rs: seq<Source>)
    ensures rf == Thinned(fs, removed, |fs|)
    ensures rs == Thinned(ss, removed, |fs|)
  {
    hide *;
    rf, rs := [], [];
    ThinnedNext(fs, removed, 0);
    ThinnedNext(ss, removed, 0);
    for i := 0 to |fs|
      invariant rf == Thinned(fs, removed, i)
      invariant rs == Thinned(ss, removed, i)
    {
      ThinnedNext(fs, removed, i);
      ThinnedNext(ss, removed, i);
      if i !in removed {
        rf := rf + [fs[i]];
        if i < |ss| {
          rs := rs + [ss[i]];
        }
      }
    }
  }

  predicate Within(ms: seq<nat>, n: nat) {
    forall j | 0 <= j < |ms| :: ms[j] < n
  }

  predicate OnParams(fs: seq<Finding>, ms: seq<nat>) {
    forall j | 0 <= j < |ms| :: ms[j] < |fs| && fs[ms[j]].desc.Param?
  }

  // ---------------------------------------------------------------- struct field and json tag

  predicate OfField(d: Desc) { d.Field? || d.Merged? }

  predicate OfKind(d: Desc, tag: bool) { if tag then d.Tag? else OfField(d) }

  /** The last member of the wanted kind. */
  function LastOf(fs: seq<Finding>, ms: seq<nat>, tag: bool): (r: Option<nat>)
    requires Within(ms, |fs|)
    ensures r.Some? ==> r.value in ms && OfKind(fs[r.value].desc, tag)
  {
    if ms == [] then None
    else
      var last := ms[|ms| - 1];
      if OfKind(fs[last].desc, tag) then Some(last) else LastOf(fs, ms[..|ms| - 1], tag)
  }

  /** The field finding and the tag finding that line `k` merges, if it does. */
  function Pair(fs: seq<Finding>, k: Key): (p: Option<(nat, nat)>)
    ensures p.Some? ==>
      && p.value.0 < |fs| && p.value.1 < |fs|
      && KeyOf(StructTags, fs[p.value.0]) == KeyOf(StructTags, fs[p.value.1]) == Some(k)
      && OfField(fs[p.value.0].desc) && fs[p.value.1].desc.Tag?
      && Normalize(fs[p.value.0].desc.name) == Normalize(fs[p.value.1].desc.name)
  {
    var ms := Members(StructTags, fs, k, |fs|);
    var f, t := LastOf(fs, ms, false), LastOf(fs, ms, true);
    if f.Some? && t.Some? && Normalize(fs[f.value].desc.name) == Normalize(fs[t.value].desc.name)
    then Some((f.value, t.value)) else None
  }

  function Higher(a: Severity, b: Severity): Severity {
    if Rank(a) > Rank(b) then a else b
  }

  function Merge(f: Finding, t: Finding): Finding
    requires OfField(f.desc) && t.desc.Tag?
  {
    f.(desc := Merged(f.desc.name, t.desc.name), severity := Higher(t.severity, f.severity))
  }

  /** What the pass over the lines in `done` makes of finding `i`. */
  function MergedAt(fs: seq<Finding>, done: set<Key>, i: nat): Finding
    requires i < |fs|
  {
    var k := KeyOf(StructTags, fs[i]);
    if k.Some? && k.value in done && Pair(fs, k.value).Some? && Pair(fs, k.value).value.0 == i
    then Merge(fs[i], fs[Pair(fs, k.value).value.1]) else fs[i]
  }

  predicate TakesTagSource(fs: seq<Finding>, ss: seq<Source>, done: set<Key>, i: nat)
    requires i < |ss|
  {
    i < |fs| &&
    var k := KeyOf(StructTags, fs[i]);
    && k.Some? && k.value in done && Pair(fs, k.value).Some? && Pair(fs, k.value).value.0 == i
    && Pair(fs, k.value).value.1 < |ss|
    && ss[i].typeName == "" && ss[Pair(fs, k.value).value.1].typeName != ""
  }

  function SourceAt(fs: seq<Finding>, ss: seq<Source>, done: set<Key>, i: nat): Source
    requires i < |ss|
  {
    if TakesTagSource(fs, ss, done, i) then ss[Pair(fs, KeyOf(StructTags, fs[i]).value).value.1] else ss[i]
  }

  predicate TagDropped(fs: seq<Finding>, done: set<Key>, i: nat)
    requires i < |fs|
  {
    var k := KeyOf(StructTags, fs[i]);
    k.Some? && k.value in done && Pair(fs, k.value).Some? && Pair(fs, k.value).value.1 == i
  }

  /** State between two groups of the merging loop: the lines in `done` are merged,
      all others are as they were. */
  ghost predicate MergedUpTo(fs: seq<Finding>, ss: seq<Source>, done: set<Key>,
                             cf: seq<Finding>, cs: seq<Source>, removed: set<nat>)
  {
    && |cf| == |fs| && |cs| == |ss|
    && (forall i | 0 <= i < |fs| :: cf[i] == MergedAt(fs, done, i))
    && (forall i | 0 <= i < |ss| :: cs[i] == SourceAt(fs, ss, done, i))
    && (forall i :: i in removed <==> 0 <= i < |fs| && TagDropped(fs, done, i))
  }

  method FindPair(fs: seq<Finding>, ms: seq<nat>) returns (f: Option<nat>, t: Option<nat>)
    requires Within(ms, |fs|)
    ensures f == LastOf(fs, ms, false) && t == LastOf(fs, ms, true)
  {
    f, t := None, None;
    for j := 0 to |ms|
      invariant f == LastOf(fs, ms[..j], false) && t == LastOf(fs, ms[..j], true)
    {
      assert ms[..j + 1][..j] == ms[..j];
      var d := fs[ms[j]].desc;
      if d.Tag? {
        t := Some(ms[j]);
      } else if OfField(d) {
        f := Some(ms[j]);
      }
    }
    assert ms[..|ms|] == ms;
  }

  lemma {:induction false} LastOfAgrees(fs: seq<Finding>, cf: seq<Finding>, ms: seq<nat>, tag: bool)
    requires |fs| == |cf| && Within(ms, |fs|) && forall j | 0 <= j < |ms| :: fs[ms[j]] == cf[ms[j]]
    ensures LastOf(fs, ms, tag) == LastOf(cf, ms, tag)
  {
    if ms != [] {
      LastOfAgrees(fs, cf, ms[..|ms| - 1], tag);
    }
  }

  predicate FirstOf(fs: seq<Finding>, k: Key, i: nat) {
    Pair(fs, k).Some? && Pair(fs, k).value.0 == i
  }

  /** Marking line `k` done changes only the two members of its pair. */
  lemma MergeIsLocal(fs: seq<Finding>, done: set<Key>, k: Key, i: nat)
    requires k !in done && i < |fs|
    ensures MergedAt(fs, done + {k}, i)
         == if FirstOf(fs, k, i) then Merge(fs[i], fs[Pair(fs, k).value.1]) else MergedAt(fs, done, i)
    ensures FirstOf(fs, k, i) ==> MergedAt(fs, done, i) == fs[i]
    ensures TagDropped(fs, done + {k}, i)
       <==> TagDropped(fs, done, i) || (Pair(fs, k).Some? && Pair(fs, k).value.1 == i)
    ensures Pair(fs, k).Some? && Pair(fs, k).value.1 == i ==> MergedAt(fs, done, i) == fs[i]
  {
  }

  lemma PromotionIsLocal(fs: seq<Finding>, ss: seq<Source>, done: set<Key>, k: Key, i: nat)
    requires k !in done && i < |ss|
    ensures SourceAt(fs, ss, done + {k}, i)
         == if FirstOf(fs, k, i) && Pair(fs, k).value.1 < |ss| && ss[i].typeName == "" && ss[Pair(fs, k).value.1].typeName != ""
            then ss[Pair(fs, k).value.1] else SourceAt(fs, ss, done, i)
    ensures FirstOf(fs, k, i) ==> SourceAt(fs, ss, done, i) == ss[i]
    ensures Pair(fs, k).Some? && Pair(fs, k).value.1 == i ==> SourceAt(fs, ss, done, i) == ss[i]
  {
  }

  lemma StepWithoutPair(fs: seq<Finding>, ss: seq<Source>, done: set<Key>, k: Key,
                        cf: seq<Finding>, cs: seq<Source>, removed: set<nat>)
    requires MergedUpTo(fs, ss, done, cf, cs, removed) && k !in done && Pair(fs, k).None?
    ensures MergedUpTo(fs, ss, done + {k}, cf, cs, removed)
  {
    forall i | 0 <= i < |fs| ensures
      && MergedAt(fs, done + {k}, i) == MergedAt(fs, done, i)
      && (TagDropped(fs, done + {k}, i) <==> TagDropped(fs, done, i))
    {
      MergeIsLocal(fs, done, k, i);
    }
    forall i | 0 <= i < |ss| ensures SourceAt(fs, ss, done + {k}, i) == SourceAt(fs, ss, done, i) {
      PromotionIsLocal(fs, ss, done, k, i);
    }
  }

  lemma StepWithPair(fs: seq<Finding>, ss: seq<Source>, done: set<Key>, k: Key, f: nat, t: nat,
                     cf: seq<Finding>, cs: seq<Source>, removed: set<nat>, ns: seq<Source>)
    requires MergedUpTo(fs, ss, done, cf, cs, removed) && k !in done && Pair(fs, k) == Some((f, t))
    requires ns == if f < |cs| && t < |cs| && cs[f].typeName == "" && cs[t].typeName != "" then cs[f := cs[t]] else cs
    ensures cf[f] == fs[f] && cf[t] == fs[t]
    ensures MergedUpTo(fs, ss, done + {k}, cf[f := Merge(fs[f], fs[t])], ns, removed + {t})
  {
    hide MergedAt, SourceAt, TagDropped, Merge, Pair, KeyOf;
    MergeIsLocal(fs, done, k, f);
    MergeIsLocal(fs, done, k, t);
    var nf, nr := cf[f := Merge(fs[f], fs[t])], removed + {t};
    forall i | 0 <= i < |fs| ensures
      && nf[i] == MergedAt(fs, done + {k}, i)
      && (i in nr <==> TagDropped(fs, done + {k}, i))
    {
      MergeIsLocal(fs, done, k, i);
    }
    if f < |ss| { PromotionIsLocal(fs, ss, done, k, f); }
    if t < |ss| { PromotionIsLocal(fs, ss, done, k, t); }
    forall i | 0 <= i < |ss| ensures ns[i] == SourceAt(fs, ss, done + {k}, i) {
      PromotionIsLocal(fs, ss, done, k, i);
    }
  }

  /** One group of the merging loop. */
  method MergeGroup(ghost fs: seq<Finding>, ghost ss: seq<Source>, ghost done: set<Key>, k: Key, ms: seq<nat>,
                    cf: seq<Finding>, cs: seq<Source>, removed: set<nat>)
    returns (nf: seq<Finding>, ns: seq<Source>, nr: set<nat>)
    requires MergedUpTo(fs, ss, done, cf, cs, removed) && k !in done
    requires ms == Members(StructTags, fs, k, |fs|)
    ensures MergedUpTo(fs, ss, done + {k}, nf, ns, nr)
  {
    hide Members, Merge, LastOf, MergedAt, SourceAt, TagDropped;
    nf, ns, nr := cf, cs, removed;
    if |ms| < 2 {
      SingleHasNoPair(fs, k);
      StepWithoutPair(fs, ss, done, k, cf, cs, removed);
      return;
    }
    var f, t := FindPair(cf, ms);
    UntouchedGroup(fs, ss, done, k, cf, cs, removed);
    if f.None? || t.None? || Normalize(cf[f.value].desc.name) != Normalize(cf[t.value].desc.name) {
      StepWithoutPair(fs, ss, done, k, cf, cs, removed);
      return;
    }
    StepWithPair(fs, ss, done, k, f.value, t.value, cf, cs, removed,
                 if f.value < |cs| && t.value < |cs| && cs[f.value].typeName == "" && cs[t.value].typeName != ""
                 then cs[f.value := cs[t.value]] else cs);
    nf := nf[f.value := Merge(cf[f.value], cf[t.value])];
    if f.value < |ns| && t.value < |ns| && ns[f.value].typeName == "" && ns[t.value].typeName != "" {
      ns := ns[f.value := ns[t.value]];
    }
    nr := nr + {t.value};
  }

  /** Before its turn a group is as it was collected. */
  lemma UntouchedGroup(fs: seq<Finding>, ss: seq<Source>, done: set<Key>, k: Key,
                       cf: seq<Finding>, cs: seq<Source>, removed: set<nat>)
    requires MergedUpTo(fs, ss, done, cf, cs, removed) && k !in done
    ensures var ms := Members(StructTags, fs, k, |fs|);
      && LastOf(fs, ms, false) == LastOf(cf, ms, false) && LastOf(fs, ms, true) == LastOf(cf, ms, true)
      && forall m | m in ms :: cf[m] == fs[m]
  {
    var ms := Members(StructTags, fs, k, |fs|);
    forall m | m in ms ensures cf[m] == fs[m] {
      assert KeyOf(StructTags, fs[m]) == Some(k);
    }
    LastOfAgrees(fs, cf, ms, false);
    LastOfAgrees(fs, cf, ms, true);
  }

  lemma SingleHasNoPair(fs: seq<Finding>, k: Key)
    requires |Members(StructTags, fs, k, |fs|)| < 2
    ensures Pair(fs, k).None?
  {
  }

  function AllLines(fs: seq<Finding>): set<Key> {
    set i | 0 <= i < |fs| && KeyOf(StructTags, fs[i]).Some? :: KeyOf(StructTags, fs[i]).value
  }

  function MergedFindings(fs: seq<Finding>): (r: seq<Finding>)
    ensures |r| == |fs|
  {
    seq(|fs|, i requires 0 <= i < |fs| => MergedAt(fs, AllLines(fs), i))
  }

  function MergedSources(fs: seq<Finding>, ss: seq<Source>): (r: seq<Source>)
    ensures |r| == |ss|
  {
    seq(|ss|, i requires 0 <= i < |ss| => SourceAt(fs, ss, AllLines(fs), i))
  }

  function DroppedTags(fs: seq<Finding>): set<nat> {
    set i | 0 <= i < |fs| && TagDropped(fs, AllLines(fs), i)
  }

  function DedupFindings(fs: seq<Finding>): seq<Finding> {
    Pick(MergedFindings(fs), Kept(DroppedTags(fs), |fs|))
  }

  function DedupSources(fs: seq<Finding>, ss: seq<Source>): seq<Source> {
    Pick(MergedSources(fs, ss), Kept(DroppedTags(fs), Min(|fs|, |ss|)))
  }

  lemma CollectedAt(r: Reduction, fs: seq<Finding>, groups: map<Key, seq<nat>>, k: Key)
    requires Collected(r, fs, |fs|, groups) && k in groups
    ensures groups[k] == Members(r, fs, k, |fs|) != []
  {
  }

  lemma NothingMerged(fs: seq<Finding>, ss: seq<Source>)
    ensures MergedUpTo(fs, ss, {}, fs, ss, {})
  {
  }

  lemma AllMerged(fs: seq<Finding>, ss: seq<Source>, cf: seq<Finding>, cs: seq<Source>, removed: set<nat>)
    requires MergedUpTo(fs, ss, AllLines(fs), cf, cs, removed)
    ensures Thinned(cf, removed, |cf|) == DedupFindings(fs) && |cf| == |fs|
    ensures Thinned(cs, removed, |cf|) == DedupSources(fs, ss)
  {
    hide MergedAt, SourceAt, TagDropped;
    assert cf == MergedFindings(fs) && cs == MergedSources(fs, ss) && removed == DroppedTags(fs);
  }

  /** `deduplicateStructFindings`.  The groups are visited in an arbitrary order; the
      result does not depend on it. */
  method DeduplicateStruct(fs: seq<Finding>, ss: seq<Source>)
    returns (rf: seq<Finding>, rs: seq<Source>)
    ensures rf == DedupFindings(fs)
    ensures rs == DedupSources(fs, ss)
  {
    hide *;
    var groups := CollectGroups(StructTags, fs);
    GroupKeysAreLines(fs, groups);
    NothingMerged(fs, ss);
    assert groups.Keys - groups.Keys == {};
    var cf, cs, removed: set<nat> := fs, ss, {};
    var left := groups.Keys;
    while left != {}
      invariant left <= groups.Keys
      invariant MergedUpTo(fs, ss, groups.Keys - left, cf, cs, removed)
      decreases left
    {
      var k :| k in left;
      assert groups.Keys - (left - {k}) == (groups.Keys - left) + {k};
      CollectedAt(StructTags, fs, groups, k);
      cf, cs, removed := MergeGroup(fs, ss, groups.Keys - left, k, groups[k], cf, cs, removed);
      left := left - {k};
    }
    assert groups.Keys - left == AllLines(fs);
    AllMerged(fs, ss, cf, cs, removed);
    rf, rs := Delete(cf, cs, removed);
  }

  lemma GroupKeysAreLines(fs: seq<Finding>, groups: map<Key, seq<nat>>)
    requires Collected(StructTags, fs, |fs|, groups)
    ensures groups.Keys == AllLines(fs)
  {
    forall k | k in groups ensures k in AllLines(fs) {
      var ms := Members(StructTags, fs, k, |fs|);
      assert ms[0] in ms;
      assert KeyOf(StructTags, fs[ms[0]]) == Some(k);
    }
    forall k | k in AllLines(fs) ensures k in groups {
      var i :| 0 <= i < |fs| && KeyOf(StructTags, fs[i]) == Some(k);
      assert i in Members(StructTags, fs, k, |fs|);
    }
  }

  // ---------------------------------------------------------------- repeated parameters

  function Names(fs: seq<Finding>, ms: seq<nat>): seq<string>
    requires OnParams(fs, ms)
  {
    if ms == [] then []
    else
      var n := |ms| - 1;
      var before := Names(fs, ms[..n]);
      if fs[ms[n]].desc.fn != "" then before + [fs[ms[n]].desc.fn] else before
  }

  function Top(fs: seq<Finding>, ms: seq<nat>): (s: Severity)
    requires ms != [] && Within(ms, |fs|)
    ensures forall j | 0 <= j < |ms| :: Rank(fs[ms[j]].severity) <= Rank(s)
    ensures exists j | 0 <= j < |ms| :: fs[ms[j]].severity == s
  {
    var n := |ms| - 1;
    if n == 0 then fs[ms[0]].severity
    else Higher(fs[ms[n]].severity, Top(fs, ms[..n]))
  }

  predicate LeadsGroup(fs: seq<Finding>, done: set<Key>, i: nat)
    requires i < |fs|
  {
    var k := KeyOf(Parameters, fs[i]);
    k.Some? && k.value in done &&
    var ms := Members(Parameters, fs, k.value, |fs|);
    |ms| >= 2 && ms[0] == i
  }

  predicate FollowsLeader(fs: seq<Finding>, done: set<Key>, i: nat)
    requires i < |fs|
  {
    var k := KeyOf(Parameters, fs[i]);
    k.Some? && k.value in done &&
    var ms := Members(Parameters, fs, k.value, |fs|);
    assert i in ms;
    ms[0] != i
  }

  function Summary(fs: seq<Finding>, ms: seq<nat>): Finding
    requires ms != [] && OnParams(fs, ms)
  {
    fs[ms[0]].(desc := Grouped(fs[ms[0]].desc.name, |ms|, Names(fs, ms)), severity := Top(fs, ms))
  }

  function GroupedAt(fs: seq<Finding>, done: set<Key>, i: nat): Finding
    requires i < |fs|
  {
    if LeadsGroup(fs, done, i)
    then Summary(fs, Members(Parameters, fs, KeyOf(Parameters, fs[i]).value, |fs|))
    else fs[i]
  }

  ghost predicate GroupedUpTo(fs: seq<Finding>, done: set<Key>, cf: seq<Finding>, removed: set<nat>) {
    && |cf| == |fs|
    && (forall i | 0 <= i < |fs| :: cf[i] == GroupedAt(fs, done, i))
    && (forall i :: i in removed <==> 0 <= i < |fs| && FollowsLeader(fs, done, i))
  }

  method CollectNames(fs: seq<Finding>, ms: seq<nat>) returns (names: seq<string>)
    requires OnParams(fs, ms)
    ensures names == Names(fs, ms)
  {
    names := [];
    for j := 0 to |ms|
      invariant names == Names(fs, ms[..j])
    {
      assert ms[..j + 1][..j] == ms[..j];
      var fn := fs[ms[j]].desc.fn;
      if fn != "" {
        names := names + [fn];
      }
    }
    assert ms[..|ms|] == ms;
  }

  lemma TopNext(fs: seq<Finding>, ms: seq<nat>, j: nat)
    requires j < |ms| && Within(ms, |fs|)
    ensures Top(fs, ms[..j + 1]) == if j == 0 then fs[ms[0]].severity else Higher(fs[ms[j]].severity, Top(fs, ms[..j]))
  {
    assert ms[..j + 1][..j] == ms[..j];
  }

  method HighestSeverity(fs: seq<Finding>, ms: seq<nat>) returns (top: Severity)
    requires ms != [] && Within(ms, |fs|)
    ensures top == Top(fs, ms)
  {
    top := fs[ms[0]].severity;
    TopNext(fs, ms, 0);
    hide Top;
    for j := 1 to |ms|
      invariant top == Top(fs, ms[..j])
    {
      TopNext(fs, ms, j);
      if Rank(fs[ms[j]].severity) > Rank(top) {
        top := fs[ms[j]].severity;
      }
    }
    assert ms[..|ms|] == ms;
  }

  method Summarise(fs: seq<Finding>, ms: seq<nat>) returns (f: Finding)
    requires ms != [] && OnParams(fs, ms)
    ensures f == Summary(fs, ms)
  {
    var names := CollectNames(fs, ms);
    var top := HighestSeverity(fs, ms);
    f := fs[ms[0]].(desc := Grouped(fs[ms[0]].desc.name, |ms|, names), severity := top);
  }

  lemma {:induction false} SummaryAgrees(fs: seq<Finding>, cf: seq<Finding>, ms: seq<nat>)
    requires |fs| == |cf| && OnParams(fs, ms) && forall j | 0 <= j < |ms| :: fs[ms[j]] == cf[ms[j]]
    ensures Names(fs, ms) == Names(cf, ms)
    ensures ms != [] ==> Top(fs, ms) == Top(cf, ms)
  {
    if ms != [] {
      SummaryAgrees(fs, cf, ms[..|ms| - 1]);
    }
  }

  lemma GroupingIsLocal(fs: seq<Finding>, done: set<Key>, k: Key, i: nat)
    requires k !in done && i < |fs| && Members(Parameters, fs, k, |fs|) != []
    ensures var ms := Members(Parameters, fs, k, |fs|);
      && OnParams(fs, ms)
      && GroupedAt(fs, done + {k}, i) == (if |ms| >= 2 && ms[0] == i then Summary(fs, ms) else GroupedAt(fs, done, i))
      && (FollowsLeader(fs, done + {k}, i) <==> FollowsLeader(fs, done, i) || (i in ms && i != ms[0]))
      && (i in ms ==> GroupedAt(fs, done, i) == fs[i])
  {
    var ms := Members(Parameters, fs, k, |fs|);
    assert ms[0] in ms;
    assert i in ms <==> KeyOf(Parameters, fs[i]) == Some(k);
  }

  lemma StepGrouped(fs: seq<Finding>, done: set<Key>, k: Key, ms: seq<nat>,
                    cf: seq<Finding>, removed: set<nat>, nf: seq<Finding>, nr: set<nat>)
    requires GroupedUpTo(fs, done, cf, removed) && k !in done
    requires ms != [] && ms == Members(Parameters, fs, k, |fs|) && OnParams(fs, ms)
    requires nf == if |ms| >= 2 then cf[ms[0] := Summary(fs, ms)] else cf
    requires forall i :: i in nr <==> i in removed || (i in ms && i != ms[0])
    ensures GroupedUpTo(fs, done + {k}, nf, nr)
  {
    forall i | 0 <= i < |fs| ensures
      && nf[i] == GroupedAt(fs, done + {k}, i)
      && (FollowsLeader(fs, done + {k}, i) <==> i in nr)
    {
      GroupingIsLocal(fs, done, k, i);
    }
  }

  lemma UngroupedYet(fs: seq<Finding>, done: set<Key>, k: Key, ms: seq<nat>, cf: seq<Finding>, removed: set<nat>)
    requires GroupedUpTo(fs, done, cf, removed) && k !in done
    requires ms != [] && ms == Members(Parameters, fs, k, |fs|)
    ensures OnParams(fs, ms) && OnParams(cf, ms) && Summary(fs, ms) == Summary(cf, ms)
  {
    forall j | 0 <= j < |ms| ensures fs[ms[j]] == cf[ms[j]] {
      assert ms[j] in ms;
      GroupingIsLocal(fs, done, k, ms[j]);
    }
    GroupingIsLocal(fs, done, k, ms[0]);
    SummaryAgrees(fs, cf, ms);
  }

  method GroupOne(ghost fs: seq<Finding>, ghost done: set<Key>, k: Key, ms: seq<nat>,
                  cf: seq<Finding>, removed: set<nat>)
    returns (nf: seq<Finding>, nr: set<nat>)
    requires GroupedUpTo(fs, done, cf, removed) && k !in done
    requires ms != [] && ms == Members(Parameters, fs, k, |fs|)
    ensures GroupedUpTo(fs, done + {k}, nf, nr)
  {
    nf, nr := cf, removed;
    UngroupedYet(fs, done, k, ms, cf, removed);
    HeadAndTail(ms);
    if |ms| >= 2 {
      var lead := Summarise(cf, ms);
      nf := nf[ms[0] := lead];
      nr := nr + (set m | m in ms[1..]);
    }
    StepGrouped(fs, done, k, ms, cf, removed, nf, nr);
  }

  lemma HeadAndTail(ms: seq<nat>)
    requires ms != [] && forall a, b | 0 <= a < b < |ms| :: ms[a] < ms[b]
    ensures forall m :: m in ms && m != ms[0] <==> m in ms[1..]
  {
    assert ms == [ms[0]] + ms[1..];
  }

  function AllParams(fs: seq<Finding>): set<Key> {
    set i | 0 <= i < |fs| && KeyOf(Parameters, fs[i]).Some? :: KeyOf(Parameters, fs[i]).value
  }

  function Absorbed(fs: seq<Finding>): set<nat> {
    set i | 0 <= i < |fs| && FollowsLeader(fs, AllParams(fs), i)
  }

  function Led(fs: seq<Finding>): (r: seq<Finding>)
    ensures |r| == |fs|
  {
    seq(|fs|, i requires 0 <= i < |fs| => GroupedAt(fs, AllParams(fs), i))
  }

  function GroupFindings(fs: seq<Finding>): seq<Finding> {
    Pick(Led(fs), Kept(Absorbed(fs), |fs|))
  }

  function GroupSources(fs: seq<Finding>, ss: seq<Source>): seq<Source> {
    Pick(ss, Kept(Absorbed(fs), Min(|fs|, |ss|)))
  }

  lemma NothingGrouped(fs: seq<Finding>)
    ensures GroupedUpTo(fs, {}, fs, {})
  {
  }

  lemma AllGrouped(fs: seq<Finding>, ss: seq<Source>, cf: seq<Finding>, removed: set<nat>)
    requires GroupedUpTo(fs, AllParams(fs), cf, removed)
    ensures Thinned(cf, removed, |cf|) == GroupFindings(fs)
    ensures Thinned(ss, removed, |cf|) == GroupSources(fs, ss)
  {
    hide GroupedAt, FollowsLeader;
    assert cf == Led(fs) && removed == Absorbed(fs);
  }

  /** `groupParameterFindings`, again for any order of the groups. */
  method GroupParameters(fs: seq<Finding>, ss: seq<Source>)
    returns (rf: seq<Finding>, rs: seq<Source>)
    ensures rf == GroupFindings(fs)
    ensures rs == GroupSources(fs, ss)
  {
    hide *;
    var groups := CollectGroups(Parameters, fs);
    GroupKeysAreParams(fs, groups);
    NothingGrouped(fs);
    assert groups.Keys - groups.Keys == {};
    var cf, removed: set<nat> := fs, {};
    var left := groups.Keys;
    while left != {}
      invariant left <= groups.Keys
      invariant GroupedUpTo(fs, groups.Keys - left, cf, removed)
      decreases left
    {
      var k :| k in left;
      assert groups.Keys - (left - {k}) == (groups.Keys - left) + {k};
      CollectedAt(Parameters, fs, groups, k);
      cf, removed := GroupOne(fs, groups.Keys - left, k, groups[k], cf, removed);
      left := left - {k};
    }
    assert groups.Keys - left == AllParams(fs);
    AllGrouped(fs, ss, cf, removed);
    rf, rs := Delete(cf, ss, removed);
  }

  lemma GroupKeysAreParams(fs: seq<Finding>, groups: map<Key, seq<nat>>)
    requires Collected(Parameters, fs, |fs|, groups)
    ensures groups.Keys == AllParams(fs)
  {
    forall k | k in groups ensures k in AllParams(fs) {
      var ms := Members(Parameters, fs, k, |fs|);
      assert ms[0] in ms;
      assert KeyOf(Parameters, fs[ms[0]]) == Some(k);
    }
    forall k | k in AllParams(fs) ensures k in groups {
      var i :| 0 <= i < |fs| && KeyOf(Parameters, fs[i]) == Some(k);
      assert i in Members(Parameters, fs, k, |fs|);
    }
  }
}
