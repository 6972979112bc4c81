/** Requirement verdicts of the compliance report: direct classification, propagation
  over cross references in map order, the summary counts, and grouping by rule. */
module RequirementStatus {
  import opened Options

  datatype Verdict = Pass | Fail | Warning | Suppressed | NotChecked

  /** `see` is the primary requirement a verdict was copied from. */
  datatype Status = Status(verdict: Verdict, see: Option<string>)

  type Statuses = map<string, Status>

  datatype Severity = Critical | High | Medium | Low | Info

  /** Findings of one requirement: severities of the active ones, number suppressed. */
  datatype ReqFindings = ReqFindings(active: seq<Severity>, suppressed: nat)

  predicate Actionable(s: Severity) {
    s.Critical? || s.High? || s.Medium?
  }

  /** `classifyRequirementFromFindings`. */
  method Classify(rf: Option<ReqFindings>) returns (v: Verdict)
    ensures v == Fail <==> rf.Some? && exists s | s in rf.value.active :: s in {Critical, High, Medium}
    ensures v == Suppressed <==> rf.Some? && rf.value.active == [] && rf.value.suppressed > 0
    ensures v in {Pass, Fail, Suppressed}
  {
    if rf.None? { return Pass; }
    var active := rf.value.active;
    for i := 0 to |active|
      invariant forall j | 0 <= j < i :: active[j] !in {Critical, High, Medium}
    {
      if Actionable(active[i]) {
        assert active[i] in active;
        return Fail;
      }
    }
    if |active| == 0 && rf.value.suppressed > 0 { return Suppressed; }
    v := Pass;
  }

  /** `buildRequirementStatus`: a verdict for every requirement of the database, and
      NOT_CHECKED exactly for those no scanner covers. */
  method BuildStatus(all: seq<string>, covered: set<string>, findings: map<string, ReqFindings>) returns (m: Statuses)
    ensures forall id :: id in m <==> id in all
    ensures forall id | id in m :: m[id].see == None && (m[id].verdict == NotChecked <==> id !in covered)
    ensures forall id | id in m && id in covered ::
      m[id].verdict == Fail <==> id in findings && exists s | s in findings[id].active :: s in {Critical, High, Medium}
    ensures forall id | id in m && id in covered ::
      m[id].verdict == Suppressed <==> id in findings && findings[id].active == [] && findings[id].suppressed > 0
    ensures forall id | id in m :: m[id].verdict in {Pass, Fail, Suppressed, NotChecked}
  {
    m := map[];
    for i := 0 to |all|
      invariant forall id :: id in m <==> id in all[..i]
      invariant forall id | id in m :: m[id].see == None && (m[id].verdict == NotChecked <==> id !in covered)
      invariant forall id | id in m && id in covered ::
        m[id].verdict == Fail <==> id in findings && exists s | s in findings[id].active :: s in {Critical, High, Medium}
      invariant forall id | id in m && id in covered ::
        m[id].verdict == Suppressed <==> id in findings && findings[id].active == [] && findings[id].suppressed > 0
      invariant forall id | id in m :: m[id].verdict in {Pass, Fail, Suppressed, NotChecked}
    {
      assert all[..i + 1] == all[..i] + [all[i]];
      if all[i] !in covered {
        m := m[all[i] := Status(NotChecked, None)];
      } else {
        var v := Classify(if all[i] in findings then Some(findings[all[i]]) else None);
        m := m[all[i] := Status(v, None)];
      }
    }
    assert all[..|all|] == all;
  }

  // ---------- cross references ----------

  /** The loop body changes `r`: it is unchecked and its primary is a requirement. */
  predicate Overridable(m: Statuses, related: map<string, string>, r: string) {
    r in related && r in m && m[r].verdict == NotChecked && related[r] in m
  }

  function Copy(m: Statuses, related: map<string, string>, r: string): Statuses {
    if Overridable(m, related, r) then m[r := Status(m[related[r]].verdict, Some(related[r]))] else m
  }

  /** The loop over the related keys in the order `order`. */
  function Propagate(m: Statuses, related: map<string, string>, order: seq<string>): Statuses {
    if order == [] then m else Copy(Propagate(m, related, order[..|order| - 1]), related, order[|order| - 1])
  }

  /** Every key of `related` once, in some order. */
  predicate Enumerates(order: seq<string>, related: map<string, string>) {
    (forall i, j | 0 <= i < j < |order| :: order[i] != order[j]) && (set r | r in order) == related.Keys
  }

  /** `propagateCrossReferences`, for whatever order the map is ranged over in. */
  method PropagateCrossReferences(m: Statuses, related: map<string, string>) returns (out: Statuses)
    ensures exists order :: Enumerates(order, related) && out == Propagate(m, related, order)
  {
    out := m;
    ghost var order: seq<string> := [];
    var left := related.Keys;
    while left != {}
      invariant left <= related.Keys && out == Propagate(m, related, order)
      invariant forall i, j | 0 <= i < j < |order| :: order[i] != order[j]
      invariant forall r :: r in order <==> r in related && r !in left
    {
      var r :| r in left;
      left := left - {r};
      ghost var more := order + [r];
      assert more[..|more| - 1] == order;
      order := more;
      if r !in out || out[r].verdict != NotChecked { continue; }
      var p := related[r];
      if p !in out { continue; }
      out := out[r := Status(out[p].verdict, Some(p))];
    }
    assert Enumerates(order, related);
  }

  /** No order changes a requirement that was checked directly, or the set of
      requirements. */
  lemma {:induction false} CheckedIsKept(m: Statuses, related: map<string, string>, order: seq<string>, r: string)
    ensures Propagate(m, related, order).Keys == m.Keys
    ensures r in m && m[r].verdict != NotChecked ==> Propagate(m, related, order)[r] == m[r]
    decreases |order|
  {
    if order != [] { CheckedIsKept(m, related, order[..|order| - 1], r); }
  }

  /** A key not ranged over is not changed. */
  lemma {:induction false} UntouchedIsKept(m: Statuses, related: map<string, string>, order: seq<string>, r: string)
    requires r in m && r !in order
    ensures r in Propagate(m, related, order) && Propagate(m, related, order)[r] == m[r]
    decreases |order|
  {
    if order != [] { UntouchedIsKept(m, related, order[..|order| - 1], r); }
  }

  /** An unchecked requirement whose primary is itself unchecked, related, and has a
      directly checked primary. */
  predicate TwoLinks(m: Statuses, related: map<string, string>, r: string) {
    Overridable(m, related, r) && Overridable(m, related, related[r]) && m[related[related[r]]].verdict != NotChecked
  }

  /** What propagation makes of `r` when its primary keeps its own verdict. */
  function Copied(m: Statuses, related: map<string, string>, r: string): Status
    requires r in m
  {
    if Overridable(m, related, r) then Status(m[related[r]].verdict, Some(related[r])) else m[r]
  }

  lemma {:induction false} NoChainsNoOrder(m: Statuses, related: map<string, string>, order: seq<string>, r: string)
    requires forall x | x in related :: !TwoLinks(m, related, x)
    requires (forall i, j | 0 <= i < j < |order| :: order[i] != order[j]) && r in m
    ensures r in Propagate(m, related, order)
    ensures Propagate(m, related, order)[r] == if r in order then Copied(m, related, r) else m[r]
    decreases |order|
  {
    if order != [] {
      var init, x := order[..|order| - 1], order[|order| - 1];
      assert order == init + [x];
      NoChainsNoOrder(m, related, init, r);
      CheckedIsKept(m, related, init, r);
      if r == x && r in related && related[r] in m { NoChainsNoOrder(m, related, init, related[r]); }
    }
  }

  lemma {:induction false} SomeOrder(keys: set<string>) returns (order: seq<string>)
    ensures (forall i, j | 0 <= i < j < |order| :: order[i] != order[j]) && forall r :: r in order <==> r in keys
  {
    if keys == {} {
      order := [];
    } else {
      var r :| r in keys;
      order := SomeOrder(keys - {r});
      order := order + [r];
    }
  }

  /** The verdict of `r` once the keys `before` and then `r` itself were ranged over is
      final when it is checked, or when `r` does not come again. */
  lemma {:induction false} LaterKeysKeep(m: Statuses, related: map<string, string>, first: seq<string>, rest: seq<string>, r: string)
    requires r in Propagate(m, related, first) && r !in rest
    ensures r in Propagate(m, related, first + rest) && Propagate(m, related, first + rest)[r] == Propagate(m, related, first)[r]
    decreases |rest|
  {
    if rest == [] {
      assert first + rest == first;
    } else {
      assert (first + rest)[..|first + rest| - 1] == first + rest[..|rest| - 1];
      LaterKeysKeep(m, related, first, rest[..|rest| - 1], r);
    }
  }

  lemma FirstTwo(m: Statuses, related: map<string, string>, x: string, y: string)
    ensures Propagate(m, related, [x, y]) == Copy(Copy(m, related, x), related, y)
  {
    assert [x, y][..1] == [x] && [x][..0] == [];
    assert Propagate(m, related, [x]) == Copy(m, related, x);
  }

  /** With a two-link chain two orders give the end of the chain different verdicts. */
  lemma ChainsNeedOrder(m: Statuses, related: map<string, string>, r: string) returns (a: seq<string>, b: seq<string>)
    requires TwoLinks(m, related, r)
    ensures Enumerates(a, related) && Enumerates(b, related)
    ensures Propagate(m, related, a) != Propagate(m, related, b)
  {
    var p := related[r];
    var rest := SomeOrder(related.Keys - {r, p});
    a, b := [r, p] + rest, [p, r] + rest;
    assert (set x | x in a) == related.Keys && (set x | x in b) == related.Keys;
    FirstTwo(m, related, r, p);
    FirstTwo(m, related, p, r);
    assert Propagate(m, related, [r, p])[r].verdict == NotChecked;
    assert Propagate(m, related, [p, r])[r].verdict == m[related[p]].verdict;
    LaterKeysKeep(m, related, [r, p], rest, r);
    LaterKeysKeep(m, related, [p, r], rest, r);
  }

  /** The propagated statuses are the same for every map order if and only if no
      unchecked requirement has an unchecked primary whose own primary is checked;
      in particular whenever every primary is directly covered. */
  lemma OrderIndependence(m: Statuses, related: map<string, string>)
    ensures (forall a, b | Enumerates(a, related) && Enumerates(b, related) :: Propagate(m, related, a) == Propagate(m, related, b))
      <==> forall r | r in related :: !TwoLinks(m, related, r)
  {
    if r :| r in related && TwoLinks(m, related, r) {
      var a, b := ChainsNeedOrder(m, related, r);
    } else {
      forall a, b | Enumerates(a, related) && Enumerates(b, related)
        ensures Propagate(m, related, a) == Propagate(m, related, b)
      {
        AllCopied(m, related, a);
        AllCopied(m, related, b);
      }
    }
  }

  /** Without such a chain every order gives an unchecked requirement the verdict of its
      primary, when that is a requirement, with a reference to it, and changes no other. */
  lemma PropagationCopies(m: Statuses, related: map<string, string>, order: seq<string>, r: string)
    requires Enumerates(order, related) && r in m
    requires forall x | x in related && x in m && m[x].verdict == NotChecked && related[x] in m ::
      var p := related[x];
      !(m[p].verdict == NotChecked && p in related && related[p] in m && m[related[p]].verdict != NotChecked)
    ensures var out, takes := Propagate(m, related, order), m[r].verdict == NotChecked && r in related && related[r] in m;
      r in out && out[r] == if takes then Status(m[related[r]].verdict, Some(related[r])) else m[r]
  {
    AllCopied(m, related, order);
  }

  /** Such a chain on three requirements: in one order `C` ends up checked, in the other
      not. */
  lemma ThreeRequirements(m: Statuses, related: map<string, string>)
    requires m == map["A" := Status(Fail, None), "B" := Status(NotChecked, None), "C" := Status(NotChecked, None)]
    requires related == map["B" := "A", "C" := "B"]
    ensures TwoLinks(m, related, "C") && Enumerates(["B", "C"], related) && Enumerates(["C", "B"], related)
    ensures var x := Propagate(m, related, ["B", "C"]); "C" in x && x["C"] == Status(Fail, Some("B"))
    ensures var x := Propagate(m, related, ["C", "B"]); "C" in x && x["C"] == Status(NotChecked, Some("B"))
  {
    assert "A"[0] == 'A' && "B"[0] == 'B' && "C"[0] == 'C';
    FirstTwo(m, related, "B", "C");
    FirstTwo(m, related, "C", "B");
  }

  lemma AllCopied(m: Statuses, related: map<string, string>, order: seq<string>)
    requires Enumerates(order, related) && forall r | r in related :: !TwoLinks(m, related, r)
    ensures Propagate(m, related, order) == map r | r in m :: Copied(m, related, r)
  {
    forall r | r in m ensures r in Propagate(m, related, order) && Propagate(m, related, order)[r] == Copied(m, related, r) {
      NoChainsNoOrder(m, related, order, r);
      assert r in order <==> r in (set x | x in order);
    }
    CheckedIsKept(m, related, order, "");
  }

  // ---------- summary ----------

  /** The requirements among `ids` with verdict `v`. */
  function With(m: Statuses, ids: set<string>, v: Verdict): set<string> {
    set r | r in ids && r in m && m[r].verdict == v
  }

  function Count(m: Statuses, ids: set<string>, v: Verdict): nat {
    |With(m, ids, v)|
  }

  lemma CountOne(m: Statuses, ids: set<string>, r: string, v: Verdict)
    requires r in m && r !in ids
    ensures Count(m, ids + {r}, v) == Count(m, ids, v) + if m[r].verdict == v then 1 else 0
  {
    if m[r].verdict == v {
      assert With(m, ids + {r}, v) == With(m, ids, v) + {r};
    } else {
      assert With(m, ids + {r}, v) == With(m, ids, v);
    }
  }

  datatype Summary = Summary(total: nat, checked: nat, notChecked: nat, pass: nat, fail: nat, warning: nat, suppressed: nat)

  lemma CountNone(m: Statuses)
    ensures forall v: Verdict :: Count(m, {}, v) == 0
  {
  }

  /** `buildReportSummary`: the counts, over the map in any order. */
  method BuildSummary(m: Statuses) returns (s: Summary)
    ensures s.total == |m| && s.checked + s.notChecked == s.total
    ensures s.pass == Count(m, m.Keys, Pass) && s.fail == Count(m, m.Keys, Fail) && s.warning == Count(m, m.Keys, Warning)
    ensures s.suppressed == Count(m, m.Keys, Suppressed) && s.notChecked == Count(m, m.Keys, NotChecked)
  {
    CountNone(m);
    hide Count;
    var pass, fail, warning, suppressed, notChecked := 0, 0, 0, 0, 0;
    var left := m.Keys;
    ghost var done: set<string> := {};
    while left != {}
      invariant left !! done && left + done == m.Keys && |done| == pass + fail + warning + suppressed + notChecked
      invariant pass == Count(m, done, Pass) && fail == Count(m, done, Fail) && warning == Count(m, done, Warning)
      invariant suppressed == Count(m, done, Suppressed) && notChecked == Count(m, done, NotChecked)
    {
      var r :| r in left;
      left := left - {r};
      forall v: Verdict ensures Count(m, done + {r}, v) == Count(m, done, v) + if m[r].verdict == v then 1 else 0 {
        CountOne(m, done, r, v);
      }
      done := done + {r};
      match m[r].verdict {
        case Pass => pass := pass + 1;
        case Fail => fail := fail + 1;
        case Warning => warning := warning + 1;
        case Suppressed => suppressed := suppressed + 1;
        case NotChecked => notChecked := notChecked + 1;
      }
    }
    assert done == m.Keys && |m.Keys| == |m|;
    s := Summary(|m|, pass + fail + warning + suppressed, notChecked, pass, fail, warning, suppressed);
  }

  // ---------- grouping by rule ----------

  datatype Finding = Finding(rule: string, severity: Severity, body: nat)

  datatype RuleGroup = RuleGroup(rule: string, severity: Severity, count: nat, instances: seq<Finding>)

  function OfRule(fs: seq<Finding>, rule: string): seq<Finding> {
    if fs == [] then []
    else OfRule(fs[..|fs| - 1], rule) + if fs[|fs| - 1].rule == rule then [fs[|fs| - 1]] else []
  }

  /** A group holds the findings of its rule in order, under the first one's severity. */
  predicate IsGroup(fs: seq<Finding>, g: RuleGroup) {
    g.instances == OfRule(fs, g.rule) && g.count == |g.instances| > 0 && g.severity == g.instances[0].severity
  }

  predicate Groups(fs: seq<Finding>, gs: seq<RuleGroup>) {
    (forall i | 0 <= i < |gs| :: IsGroup(fs, gs[i])) &&
    (forall i, j | 0 <= i < j < |gs| :: gs[i].rule != gs[j].rule) &&
    forall f | f in fs :: exists i | 0 <= i < |gs| :: gs[i].rule == f.rule
  }

  /** The grouping of `groupFindingsByRule`, before its final sort. */
  method GroupByRule(fs: seq<Finding>) returns (gs: seq<RuleGroup>)
    ensures Groups(fs, gs)
  {
    gs := [];
    for k := 0 to |fs|
      invariant Groups(fs[..k], gs)
    {
      gs := AddFinding(fs[..k], gs, fs[k]);
      assert fs[..k + 1] == fs[..k] + [fs[k]];
    }
    assert fs[..|fs|] == fs;
  }

  /** Adds `f` to the group of its rule, or opens one. */
  method AddFinding(fs: seq<Finding>, gs: seq<RuleGroup>, f: Finding) returns (more: seq<RuleGroup>)
    requires Groups(fs, gs)
    ensures Groups(fs + [f], more)
  {
    for i := 0 to |gs|
      invariant forall j | 0 <= j < i :: gs[j].rule != f.rule
    {
      if gs[i].rule == f.rule {
        more := gs[i := gs[i].(count := gs[i].count + 1, instances := gs[i].instances + [f])];
        GrownGroup(fs, gs, f, i);
        return;
      }
    }
    more := gs + [RuleGroup(f.rule, f.severity, 1, [f])];
    NewGroup(fs, gs, f);
  }

  lemma StillGroup(fs: seq<Finding>, f: Finding, g: RuleGroup)
    requires IsGroup(fs, g) && g.rule != f.rule
    ensures IsGroup(fs + [f], g)
  {
    assert (fs + [f])[..|fs|] == fs;
  }

  lemma GrownGroup(fs: seq<Finding>, gs: seq<RuleGroup>, f: Finding, i: nat)
    requires Groups(fs, gs) && i < |gs| && gs[i].rule == f.rule
    ensures Groups(fs + [f], gs[i := gs[i].(count := gs[i].count + 1, instances := gs[i].instances + [f])])
  {
    var more := gs[i := gs[i].(count := gs[i].count + 1, instances := gs[i].instances + [f])];
    forall j | 0 <= j < |more| ensures IsGroup(fs + [f], more[j]) {
      assert IsGroup(fs, gs[j]);
      if j == i { assert (fs + [f])[..|fs|] == fs; } else { StillGroup(fs, f, gs[j]); }
    }
    forall x | x in fs + [f] ensures exists j | 0 <= j < |more| :: more[j].rule == x.rule {
      if x in fs {
        var j :| 0 <= j < |gs| && gs[j].rule == x.rule;
        assert more[j].rule == x.rule;
      } else {
        assert more[i].rule == x.rule;
      }
    }
  }

  /** The rule of every finding has a group, the new finding's own one last. */
  lemma EveryRuleHasGroup(fs: seq<Finding>, gs: seq<RuleGroup>, f: Finding, g: RuleGroup)
    requires Groups(fs, gs) && g.rule == f.rule
    ensures forall x | x in fs + [f] :: exists j | 0 <= j < |gs + [g]| :: (gs + [g])[j].rule == x.rule
  {
    hide IsGroup;
    forall x | x in fs + [f] ensures exists j | 0 <= j < |gs + [g]| :: (gs + [g])[j].rule == x.rule {
      if x in fs {
        var j :| 0 <= j < |gs| && gs[j].rule == x.rule;
        assert (gs + [g])[j].rule == x.rule;
      } else {
        assert (gs + [g])[|gs|].rule == x.rule;
      }
    }
  }

  lemma NewGroup(fs: seq<Finding>, gs: seq<RuleGroup>, f: Finding)
    requires Groups(fs, gs) && forall j | 0 <= j < |gs| :: gs[j].rule != f.rule
    ensures Groups(fs + [f], gs + [RuleGroup(f.rule, f.severity, 1, [f])])
  {
    var g := RuleGroup(f.rule, f.severity, 1, [f]);
    var more := gs + [g];
    NoneOfRule(fs, f.rule, gs);
    assert IsGroup(fs + [f], g) by { assert (fs + [f])[..|fs|] == fs; }
    hide IsGroup, OfRule;
    EveryRuleHasGroup(fs, gs, f, g);
    forall j | 0 <= j < |more| ensures IsGroup(fs + [f], more[j]) {
      if j < |gs| { assert IsGroup(fs, gs[j]); StillGroup(fs, f, gs[j]); }
    }
  }

  lemma {:induction false} NoneOfRule(fs: seq<Finding>, rule: string, gs: seq<RuleGroup>)
    requires forall f | f in fs :: exists i | 0 <= i < |gs| :: gs[i].rule == f.rule
    requires forall j | 0 <= j < |gs| :: gs[j].rule != rule
    ensures OfRule(fs, rule) == []
  {
    if fs != [] {
      assert forall f | f in fs[..|fs| - 1] :: f in fs;
      NoneOfRule(fs[..|fs| - 1], rule, gs);
      assert fs[|fs| - 1] in fs;
    }
  }

  function AllInstances(gs: seq<RuleGroup>): multiset<Finding> {
    if gs == [] then multiset{} else AllInstances(gs[..|gs| - 1]) + multiset(gs[|gs| - 1].instances)
  }

  lemma {:induction false} OfRuleCounts(fs: seq<Finding>, rule: string, f: Finding)
    ensures multiset(OfRule(fs, rule))[f] == if f.rule == rule then multiset(fs)[f] else 0
    decreases |fs|
  {
    if fs != [] {
      var init := fs[..|fs| - 1];
      assert fs == init + [fs[|fs| - 1]];
      OfRuleCounts(init, rule, f);
    }
  }

  predicate HasRule(gs: seq<RuleGroup>, rule: string) {
    exists i | 0 <= i < |gs| :: gs[i].rule == rule
  }

  lemma HasRuleSnoc(gs: seq<RuleGroup>, g: RuleGroup, rule: string)
    ensures HasRule(gs + [g], rule) <==> g.rule == rule || HasRule(gs, rule)
  {
    assert forall i | 0 <= i < |gs| :: (gs + [g])[i] == gs[i];
    assert (gs + [g])[|gs|] == g;
  }

  lemma {:induction false} InstancesOf(fs: seq<Finding>, gs: seq<RuleGroup>, f: Finding)
    requires (forall i | 0 <= i < |gs| :: IsGroup(fs, gs[i])) && forall i, j | 0 <= i < j < |gs| :: gs[i].rule != gs[j].rule
    ensures AllInstances(gs)[f] == if HasRule(gs, f.rule) then multiset(fs)[f] else 0
    decreases |gs|
  {
    if gs != [] {
      var init, g := gs[..|gs| - 1], gs[|gs| - 1];
      assert gs == init + [g] && IsGroup(fs, g);
      hide OfRule;
      InstancesOf(fs, init, f);
      OfRuleCounts(fs, g.rule, f);
      HasRuleSnoc(init, g, f.rule);
      assert forall i | 0 <= i < |init| :: init[i].rule != g.rule;
    }
  }

  /** Rule groups partition the findings: none lost, none repeated, in whatever order the
      groups are finally listed. */
  lemma GroupsPartition(fs: seq<Finding>, gs: seq<RuleGroup>)
    requires Groups(fs, gs)
    ensures AllInstances(gs) == multiset(fs)
  {
    forall f: Finding ensures AllInstances(gs)[f] == multiset(fs)[f] {
      InstancesOf(fs, gs, f);
      if f in multiset(fs) { assert f in fs; }
    }
  }
}
