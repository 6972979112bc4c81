/** The two reductions said over the listed findings alone: which line members merge, what
  a repeated parameter's finding counts, and that no severity is made up. */
module PanMeaning {
  import opened Options
  import opened PanFindings
  import opened PanLockstep

  // ---------- the line rule ----------

  predicate SameLine(fs: seq<Finding>, i: nat, j: nat)
    requires i < |fs| && j < |fs|
  {
    fs[i].rule.Keyword? && fs[j].rule.Keyword? && fs[i].path == fs[j].path && fs[i].line == fs[j].line
  }

  /** Keyword finding `i` is the last tag finding, or the last field finding, of its line. */
  predicate LastOnLine(fs: seq<Finding>, i: nat, tag: bool) {
    i < |fs| && fs[i].rule.Keyword? && (if tag then fs[i].desc.Tag? else fs[i].desc.Field? || fs[i].desc.Merged?) &&
    forall j | i < j < |fs| && SameLine(fs, i, j) :: if tag then !fs[j].desc.Tag? else !fs[j].desc.Field? && !fs[j].desc.Merged?
  }

  /** The last field and the last tag of one line have one normalized name. */
  predicate Merges(fs: seq<Finding>, f: nat, t: nat) {
    LastOnLine(fs, f, false) && LastOnLine(fs, t, true) && SameLine(fs, f, t) &&
    Normalize(fs[f].desc.name) == Normalize(fs[t].desc.name)
  }

  lemma {:induction false} LastOfIs(fs: seq<Finding>, ms: seq<nat>, tag: bool, r: nat)
    requires Within(ms, |fs|) && forall a, b | 0 <= a < b < |ms| :: ms[a] < ms[b]
    ensures LastOf(fs, ms, tag) == Some(r)
       <==> r in ms && OfKind(fs[r].desc, tag) && forall m | m in ms && m > r :: !OfKind(fs[m].desc, tag)
  {
    if ms != [] {
      var n := |ms| - 1;
      var init := ms[..n];
      assert ms == init + [ms[n]];
      LastOfIs(fs, init, tag, r);
      forall m | m in init ensures m < ms[n] {
        var a :| 0 <= a < n && ms[a] == m;
      }
    }
  }

  lemma MembersAreLine(fs: seq<Finding>, k: Key, i: nat)
    requires k.ByLine?
    ensures i in Members(StructTags, fs, k, |fs|) <==> i < |fs| && fs[i].rule.Keyword? && k == ByLine(fs[i].path, fs[i].line)
  {
    hide Members;
  }

  lemma LastOfLine(fs: seq<Finding>, k: Key, i: nat, tag: bool)
    requires k.ByLine?
    ensures LastOf(fs, Members(StructTags, fs, k, |fs|), tag) == Some(i)
       <==> LastOnLine(fs, i, tag) && k == ByLine(fs[i].path, fs[i].line)
  {
    var ms := Members(StructTags, fs, k, |fs|);
    LastOfIs(fs, ms, tag, i);
    forall m: nat { MembersAreLine(fs, k, m); }
    hide Members, LastOf, KeyOf;
    assert LastOnLine(fs, i, tag) && k == ByLine(fs[i].path, fs[i].line) ==> forall m | m in ms && m > i :: SameLine(fs, i, m);
  }

  lemma PairIs(fs: seq<Finding>, f: nat, t: nat)
    requires f < |fs| && fs[f].rule.Keyword?
    ensures Pair(fs, ByLine(fs[f].path, fs[f].line)) == Some((f, t)) <==> Merges(fs, f, t)
  {
    var k := ByLine(fs[f].path, fs[f].line);
    LastOfLine(fs, k, f, false);
    LastOfLine(fs, k, t, true);
    hide Members, LastOf, LastOnLine;
  }

  lemma KeyIsLine(fs: seq<Finding>, i: nat)
    requires i < |fs|
    ensures KeyOf(StructTags, fs[i]) == if fs[i].rule.Keyword? then Some(ByLine(fs[i].path, fs[i].line)) else None
    ensures fs[i].rule.Keyword? ==> ByLine(fs[i].path, fs[i].line) in AllLines(fs)
  {
    if fs[i].rule.Keyword? { assert KeyOf(StructTags, fs[i]) == Some(ByLine(fs[i].path, fs[i].line)); }
  }

  lemma TagRule(fs: seq<Finding>, t: nat)
    requires t < |fs|
    ensures t in DroppedTags(fs) <==> exists f :: Merges(fs, f, t)
  {
    KeyIsLine(fs, t);
    hide Pair, AllLines;
    if t in DroppedTags(fs) {
      var f := Pair(fs, ByLine(fs[t].path, fs[t].line)).value.0;
      PairIs(fs, f, t);
    }
    if f :| Merges(fs, f, t) {
      PairIs(fs, f, t);
    }
  }

  /** `g` is field finding `f` with tag finding `t` merged in, at the higher severity. */
  predicate IsMerger(g: Finding, f: Finding, t: Finding) {
    (f.desc.Field? || f.desc.Merged?) && t.desc.Tag? &&
    g == f.(desc := Merged(f.desc.name, t.desc.name), severity := g.severity) &&
    (g.severity == f.severity || g.severity == t.severity) &&
    Rank(g.severity) >= Rank(f.severity) && Rank(g.severity) >= Rank(t.severity)
  }

  /** Finding `f` and its source become `g` and `s`: merged with its tag, beside the tag's
      source when its own names no type; or as they were, when no tag merges. */
  predicate Becomes(fs: seq<Finding>, ss: seq<Source>, f: nat, g: Finding, s: Source)
    requires f < |fs| == |ss|
  {
    if exists t | 0 <= t < |fs| :: Merges(fs, f, t) then
      exists t | 0 <= t < |fs| :: Merges(fs, f, t) && IsMerger(g, fs[f], fs[t]) &&
        s == if ss[f].typeName == "" && ss[t].typeName != "" then ss[t] else ss[f]
    else g == fs[f] && s == ss[f]
  }

  lemma FieldRule(fs: seq<Finding>, ss: seq<Source>, f: nat)
    requires f < |fs| == |ss|
    ensures Becomes(fs, ss, f, MergedFindings(fs)[f], MergedSources(fs, ss)[f])
  {
    KeyIsLine(fs, f);
    hide AllLines;
    if fs[f].rule.Keyword? {
      var p := Pair(fs, ByLine(fs[f].path, fs[f].line));
      forall x { PairIs(fs, f, x); }
      hide Merges;
      if p.Some? && p.value.0 == f { assert Merges(fs, f, p.value.1); }
    }
  }

  /** The reduction of struct fields and tags, line by line: a tag is absent exactly when it
      merges into a field, and survivors keep their order. */
  lemma LinesAreMerged(fs: seq<Finding>, ss: seq<Source>) returns (idx: seq<nat>)
    requires |fs| == |ss|
    ensures |idx| == |DedupFindings(fs)| == |DedupSources(fs, ss)|
    ensures forall a, b | 0 <= a < b < |idx| :: idx[a] < idx[b]
    ensures forall i: nat | i < |fs| :: i in idx <==> !exists f :: Merges(fs, f, i)
    ensures forall k | 0 <= k < |idx| ::
      idx[k] < |fs| && Becomes(fs, ss, idx[k], DedupFindings(fs)[k], DedupSources(fs, ss)[k])
  {
    idx := Kept(DroppedTags(fs), |fs|);
    forall i: nat | i < |fs| { TagRule(fs, i); }
    hide Merges, DroppedTags, Kept, Becomes;
    forall k | 0 <= k < |idx| ensures Becomes(fs, ss, idx[k], DedupFindings(fs)[k], DedupSources(fs, ss)[k]) {
      FieldRule(fs, ss, idx[k]);
    }
  }

  // ---------- the parameter rule ----------

  /** Two string-type findings about one parameter name in one file. */
  predicate SameParam(fs: seq<Finding>, i: nat, j: nat)
    requires i < |fs| && j < |fs|
  {
    fs[i].rule.StringType? && fs[j].rule.StringType? && fs[i].desc.Param? && fs[j].desc.Param? &&
    fs[i].desc.name == fs[j].desc.name != "" && fs[i].path == fs[j].path
  }

  /** How many of the first `n` findings are about the parameter of `i`, and the names of
      their functions, in order. */
  function Uses(fs: seq<Finding>, i: nat, n: nat): nat
    requires i < |fs| && n <= |fs|
  {
    if n == 0 then 0 else Uses(fs, i, n - 1) + if SameParam(fs, i, n - 1) then 1 else 0
  }

  function UsedIn(fs: seq<Finding>, i: nat, n: nat): seq<string>
    requires i < |fs| && n <= |fs|
  {
    if n == 0 then []
    else UsedIn(fs, i, n - 1) + if SameParam(fs, i, n - 1) && fs[n - 1].desc.fn != "" then [fs[n - 1].desc.fn] else []
  }

  lemma {:induction false} MembersAreUses(fs: seq<Finding>, i: nat, n: nat)
    requires i < |fs| && n <= |fs| && SameParam(fs, i, i)
    ensures var ms := Members(Parameters, fs, ByParam(fs[i].path, fs[i].desc.name), n);
      |ms| == Uses(fs, i, n) && OnParams(fs, ms) && Names(fs, ms) == UsedIn(fs, i, n)
  {
    if n > 0 {
      var k := ByParam(fs[i].path, fs[i].desc.name);
      MembersAreUses(fs, i, n - 1);
      var before := Members(Parameters, fs, k, n - 1);
      assert KeyOf(Parameters, fs[n - 1]) == Some(k) <==> SameParam(fs, i, n - 1);
      assert (before + [n - 1])[..|before|] == before;
    }
  }

  /** `g` is finding `i` summing up all findings about its parameter: their number, their
      functions, and the highest severity among them. */
  predicate IsSummary(fs: seq<Finding>, i: nat, g: Finding)
    requires i < |fs|
  {
    fs[i].desc.Param? &&
    g == fs[i].(desc := Grouped(fs[i].desc.name, Uses(fs, i, |fs|), UsedIn(fs, i, |fs|)), severity := g.severity) &&
    (exists j | 0 <= j < |fs| :: SameParam(fs, i, j) && g.severity == fs[j].severity) &&
    forall j | 0 <= j < |fs| && SameParam(fs, i, j) :: Rank(g.severity) >= Rank(fs[j].severity)
  }

  lemma ParamKey(fs: seq<Finding>, i: nat)
    requires i < |fs|
    ensures KeyOf(Parameters, fs[i]) ==
      if SameParam(fs, i, i) then Some(ByParam(fs[i].path, fs[i].desc.name)) else None
    ensures SameParam(fs, i, i) ==> ByParam(fs[i].path, fs[i].desc.name) in AllParams(fs)
    ensures forall j | 0 <= j < |fs| && SameParam(fs, i, i) ::
      j in Members(Parameters, fs, ByParam(fs[i].path, fs[i].desc.name), |fs|) <==> SameParam(fs, i, j)
  {
    if SameParam(fs, i, i) { assert KeyOf(Parameters, fs[i]) == Some(ByParam(fs[i].path, fs[i].desc.name)); }
  }

  lemma {:induction false} HeadIsLeast(ms: seq<nat>, m: nat)
    requires m in ms && forall a, b | 0 <= a < b < |ms| :: ms[a] < ms[b]
    ensures ms[0] in ms && ms[0] <= m
  {
    var a :| 0 <= a < |ms| && ms[a] == m;
    if a > 0 { assert ms[0] < ms[a]; }
  }

  lemma FollowerRule(fs: seq<Finding>, i: nat)
    requires i < |fs|
    ensures i in Absorbed(fs) <==> exists j | 0 <= j < i :: SameParam(fs, j, i)
  {
    ParamKey(fs, i);
    if SameParam(fs, i, i) {
      var ms := Members(Parameters, fs, ByParam(fs[i].path, fs[i].desc.name), |fs|);
      assert i in ms;
      HeadIsLeast(ms, i);
      assert i in Absorbed(fs) <==> ms[0] != i;
      hide Members, AllParams, KeyOf, Absorbed;
      if ms[0] != i { assert SameParam(fs, i, ms[0]) && SameParam(fs, ms[0], i); }
      if j :| 0 <= j < i && SameParam(fs, j, i) {
        assert SameParam(fs, i, j) && j in ms;
        HeadIsLeast(ms, j);
      }
    }
  }

  lemma LeaderRule(fs: seq<Finding>, i: nat)
    requires i < |fs| && !exists j | 0 <= j < i :: SameParam(fs, j, i)
    ensures if exists j | i < j < |fs| :: SameParam(fs, i, j) then IsSummary(fs, i, Led(fs)[i]) else Led(fs)[i] == fs[i]
  {
    ParamKey(fs, i);
    hide Members, AllParams, KeyOf, Top, Names;
    if SameParam(fs, i, i) {
      var ms := Members(Parameters, fs, ByParam(fs[i].path, fs[i].desc.name), |fs|);
      assert i in ms;
      HeadIsLeast(ms, i);
      assert ms[0] == i by { assert SameParam(fs, i, ms[0]) && SameParam(fs, ms[0], i); }
      MembersAreUses(fs, i, |fs|);
      if |ms| >= 2 {
        assert ms[1] in ms && SameParam(fs, i, ms[1]);
        assert Led(fs)[i] == Summary(fs, ms);
        SummaryIs(fs, i, ms);
      } else {
        assert forall j | i < j < |fs| :: j !in ms;
      }
    }
  }

  lemma SummaryIs(fs: seq<Finding>, i: nat, ms: seq<nat>)
    requires i < |fs| && SameParam(fs, i, i) && ms != [] && ms[0] == i && OnParams(fs, ms)
    requires |ms| == Uses(fs, i, |fs|) && Names(fs, ms) == UsedIn(fs, i, |fs|)
    requires forall j | 0 <= j < |fs| :: j in ms <==> SameParam(fs, i, j)
    ensures IsSummary(fs, i, Summary(fs, ms))
  {
    hide Top, Names, Uses, UsedIn, SameParam;
    var top := Top(fs, ms);
    var x :| 0 <= x < |ms| && fs[ms[x]].severity == top;
    assert ms[x] in ms;
    forall j | 0 <= j < |fs| && SameParam(fs, i, j) ensures Rank(top) >= Rank(fs[j].severity) {
      assert j in ms;
      var y :| 0 <= y < |ms| && ms[y] == j;
    }
  }

  /** The reduction of repeated parameters: the first finding about a parameter of a file
      stays and sums up the others, which go; everything else stays as it is. */
  lemma ParametersAreSummed(fs: seq<Finding>, ss: seq<Source>) returns (idx: seq<nat>)
    requires |fs| == |ss|
    ensures |idx| == |GroupFindings(fs)| == |GroupSources(fs, ss)|
    ensures forall a, b | 0 <= a < b < |idx| :: idx[a] < idx[b]
    ensures forall i: nat | i < |fs| :: i in idx <==> !exists j | 0 <= j < i :: SameParam(fs, j, i)
    ensures forall k | 0 <= k < |idx| :: idx[k] < |fs| && GroupSources(fs, ss)[k] == ss[idx[k]]
    ensures forall k | 0 <= k < |idx| ::
      if exists j | idx[k] < j < |fs| :: SameParam(fs, idx[k], j)
      then IsSummary(fs, idx[k], GroupFindings(fs)[k]) else GroupFindings(fs)[k] == fs[idx[k]]
  {
    idx := Kept(Absorbed(fs), |fs|);
    forall i: nat | i < |fs| { FollowerRule(fs, i); }
    hide SameParam, Absorbed, Kept, Led, IsSummary;
    forall k | 0 <= k < |idx| ensures
      if exists j | idx[k] < j < |fs| :: SameParam(fs, idx[k], j)
      then IsSummary(fs, idx[k], GroupFindings(fs)[k]) else GroupFindings(fs)[k] == fs[idx[k]]
    {
      assert idx[k] in idx;
      LeaderRule(fs, idx[k]);
    }
  }

  // ---------- severities ----------

  /** `g` covers `f` and is no more severe. */
  predicate JustAs(g: Finding, f: Finding) {
    Covers(g, f) && g.severity == f.severity
  }

  predicate Justified(fs: seq<Finding>, g: Finding) {
    exists i | 0 <= i < |fs| :: JustAs(g, fs[i])
  }

  predicate NothingRaised(fs: seq<Finding>, rf: seq<Finding>) {
    forall k | 0 <= k < |rf| :: Justified(fs, rf[k])
  }

  lemma MergerIsJust(fs: seq<Finding>, f: nat, t: nat, g: Finding)
    requires Merges(fs, f, t) && IsMerger(g, fs[f], fs[t])
    ensures f < |fs| && t < |fs| && (JustAs(g, fs[f]) || JustAs(g, fs[t]))
  {
    hide Normalize;
  }

  lemma DedupRaisesNothing(fs: seq<Finding>, ss: seq<Source>)
    requires |fs| == |ss|
    ensures NothingRaised(fs, DedupFindings(fs))
  {
    var idx := LinesAreMerged(fs, ss);
    hide DedupFindings, DedupSources, Merges, IsMerger;
    forall k | 0 <= k < |idx| ensures Justified(fs, DedupFindings(fs)[k]) {
      var g, f := DedupFindings(fs)[k], idx[k];
      if exists t | 0 <= t < |fs| :: Merges(fs, f, t) {
        var t :| 0 <= t < |fs| && Merges(fs, f, t) && IsMerger(g, fs[f], fs[t]);
        MergerIsJust(fs, f, t, g);
      } else {
        assert JustAs(g, fs[f]);
      }
    }
  }

  lemma GroupRaisesNothing(fs: seq<Finding>, ss: seq<Source>)
    requires |fs| == |ss|
    ensures NothingRaised(fs, GroupFindings(fs))
  {
    var idx := ParametersAreSummed(fs, ss);
    hide GroupFindings, GroupSources, Uses, UsedIn;
    forall k | 0 <= k < |idx| ensures Justified(fs, GroupFindings(fs)[k]) {
      var g, f := GroupFindings(fs)[k], idx[k];
      if exists j | f < j < |fs| :: SameParam(fs, f, j) {
        var j :| 0 <= j < |fs| && SameParam(fs, f, j) && g.severity == fs[j].severity;
        assert JustAs(g, fs[j]);
      } else {
        assert JustAs(g, fs[f]);
      }
    }
  }

  lemma RaisedTwice(fs: seq<Finding>, mf: seq<Finding>, rf: seq<Finding>)
    requires NothingRaised(fs, mf) && NothingRaised(mf, rf)
    ensures NothingRaised(fs, rf)
  {
    forall k | 0 <= k < |rf| ensures Justified(fs, rf[k]) {
      assert Justified(mf, rf[k]);
      var j :| 0 <= j < |mf| && JustAs(rf[k], mf[j]);
      assert Justified(fs, mf[j]);
      var i :| 0 <= i < |fs| && JustAs(mf[j], fs[i]);
      assert JustAs(rf[k], fs[i]);
    }
  }

  lemma RaisedAppended(fs: seq<Finding>, rf: seq<Finding>, more: seq<Finding>)
    requires NothingRaised(fs, rf)
    ensures NothingRaised(fs + more, rf + more)
  {
    forall k | 0 <= k < |rf + more| ensures Justified(fs + more, (rf + more)[k]) {
      if k < |rf| {
        assert Justified(fs, rf[k]);
        var i :| 0 <= i < |fs| && JustAs(rf[k], fs[i]);
        assert JustAs((rf + more)[k], (fs + more)[i]);
      } else {
        assert JustAs((rf + more)[k], (fs + more)[|fs| + k - |rf|]);
      }
    }
  }

  /** No severity is made up: each scanned finding of a file has the severity of an emission
      that it covers. */
  lemma {:induction false} ScanRaisesNothing(file: File)
    ensures NothingRaised(Emitted(file), Scanned(file))
  {
    match file
    case EnvFile(found) =>
      forall k | 0 <= k < |found| ensures Justified(found, found[k]) { assert JustAs(found[k], found[k]); }
    case GoFile(_, fields, params, rest) =>
      var fs, ss := FindingsOf(fields), SourcesOf(fields);
      var mf := DedupFindings(fs) + params;
      DedupRaisesNothing(fs, ss);
      RaisedAppended(fs, DedupFindings(fs), params);
      GroupRaisesNothing(mf, Blank(|mf|));
      RaisedTwice(fs + params, mf, GroupFindings(mf));
      RaisedAppended(fs + params, GroupFindings(mf), rest);
  }

  lemma {:induction false} FromSomeFile(os: seq<Outcome>, j: nat) returns (n: nat, k: nat)
    requires j < |Total(os)|
    ensures n < |os| && k < |os[n].findings| && Total(os)[j] == os[n].findings[k]
  {
    var last := |os| - 1;
    TotalSnoc(os);
    if j < |Total(os[..last])| {
      n, k := FromSomeFile(os[..last], j);
    } else {
      n, k := last, j - |Total(os[..last])|;
    }
  }

  /** Over any list of files every finding of the scan has the severity of an emission of
      one file that it covers. */
  lemma {:induction false} SeveritiesAreEmitted(files: seq<File>, j: nat) returns (n: nat)
    requires j < |Total(Outcomes(files))|
    ensures n < |files| && Justified(Emitted(files[n]), Total(Outcomes(files))[j])
  {
    var k;
    n, k := FromSomeFile(Outcomes(files), j);
    hide Total, Emitted, Scanned, ScannedSources, Justified;
    ScanRaisesNothing(files[n]);
    assert Total(Outcomes(files))[j] == Scanned(files[n])[k];
  }

  // ---------- names ----------

  predicate PlainChar(c: char) {
    !('A' <= c <= 'Z') && c != '_' && c != '-'
  }

  /** Normalization works character by character: capitals become small, separators go, and
      the rest stays. */
  lemma {:induction false} NormalizeIs(a: string, b: string, c: char)
    ensures Normalize(a + b) == Normalize(a) + Normalize(b)
    ensures forall x | x in Normalize(a) :: PlainChar(x)
    ensures Normalize([c]) == if 'A' <= c <= 'Z' then [c - 'A' + 'a'] else if c == '_' || c == '-' then [] else [c]
    decreases |a|
  {
    assert [c][1..] == [];
    if a == "" {
      assert a + b == b;
    } else {
      assert (a + b)[1..] == a[1..] + b;
      NormalizeIs(a[1..], b, c);
    }
  }
}
