/** The PAN scanner's index bookkeeping: through field dedup, parameter grouping and
  the concatenation of files, a registered index still names the finding that was
  built from that struct field, and no reported name is lost. */
module PanLockstep {
  import opened Options
  import opened PanFindings

  datatype Emission = Emission(finding: Finding, source: Source)

  /** What the syntax passes report in one file: named struct fields, string
      parameters, and the literal, logger and zeroing passes. */
  datatype File =
    | GoFile(pkg: string, fields: seq<Emission>, params: seq<Finding>, rest: seq<Finding>)
    | EnvFile(found: seq<Finding>)

  // ---------------------------------------------------------------- tracing results to emissions

  /** The same rule at the same place about the same sensitive name. */
  predicate SameSite(f: Finding, g: Finding) {
    f.rule == g.rule && f.path == g.path && f.line == g.line && f.column == g.column && Subject(f.desc) == Subject(g.desc)
  }

  /** `src` was taken over from the json tag finding `t` of the same line and name,
      the field's own source having no type name. */
  predicate TakenFrom(fs: seq<Finding>, ss: seq<Source>, i: nat, t: nat, src: Source) {
    && i < |fs| == |ss| && t < |fs|
    && fs[i].rule == fs[t].rule == Keyword && fs[t].desc.Tag?
    && fs[i].path == fs[t].path && fs[i].line == fs[t].line && Subject(fs[i].desc) == Subject(fs[t].desc)
    && ss[i].typeName == "" && src == ss[t]
  }

  ghost predicate SourceOf(fs: seq<Finding>, ss: seq<Source>, i: nat, src: Source) {
    i < |fs| == |ss| && (src == ss[i] || exists t :: TakenFrom(fs, ss, i, t, src))
  }

  ghost predicate Sourced(fs: seq<Finding>, ss: seq<Source>, i: nat, src: Source, own: bool) {
    SourceOf(fs, ss, i, src) && (own ==> src == ss[i])
  }

  /** No line pairs a field finding without a type name with a tag finding that has one. */
  predicate NoTakeover(fs: seq<Finding>, ss: seq<Source>) {
    forall i | 0 <= i < |ss| :: !TakesTagSource(fs, ss, AllLines(fs), i)
  }

  /** Every result comes from its own emission `idx[k]`, in order, with its source, which
      is that emission's own if `own`. */
  ghost predicate TracedBy(fs: seq<Finding>, ss: seq<Source>, idx: seq<nat>, rf: seq<Finding>, rs: seq<Source>, own: bool) {
    && |idx| == |rf| == |rs|
    && (forall a, b | 0 <= a < b < |idx| :: idx[a] < idx[b])
    && (forall k | 0 <= k < |idx| :: idx[k] < |fs| && SameSite(rf[k], fs[idx[k]]) && Sourced(fs, ss, idx[k], rs[k], own))
  }

  /** `g` still reports what `f` reported, at no lower severity. */
  predicate Covers(g: Finding, f: Finding) {
    && g.rule == f.rule && g.path == f.path && Subject(g.desc) == Subject(f.desc)
    && Rank(g.severity) >= Rank(f.severity) && (f.rule.Keyword? ==> g.line == f.line)
  }

  ghost predicate Covered(rf: seq<Finding>, f: Finding) {
    exists k :: 0 <= k < |rf| && Covers(rf[k], f)
  }

  ghost predicate NothingLost(fs: seq<Finding>, rf: seq<Finding>) {
    forall i | 0 <= i < |fs| :: Covered(rf, fs[i])
  }

  /** A survivor of a deletion is found at its rank among the survivors. */
  lemma SurvivorIsPicked<T>(s: seq<T>, removed: set<nat>, i: nat) returns (k: nat)
    requires i < |s| && i !in removed
    ensures k < |Kept(removed, |s|)| && Pick(s, Kept(removed, |s|))[k] == s[i]
  {
    var idx := Kept(removed, |s|);
    assert i in idx;
    k :| 0 <= k < |idx| && idx[k] == i;
  }

  lemma MergedKeepsSite(fs: seq<Finding>, ss: seq<Source>, i: nat)
    requires i < |fs| == |ss|
    ensures SameSite(MergedAt(fs, AllLines(fs), i), fs[i])
    ensures Sourced(fs, ss, i, SourceAt(fs, ss, AllLines(fs), i), NoTakeover(fs, ss))
  {
    if TakesTagSource(fs, ss, AllLines(fs), i) {
      var t := Pair(fs, KeyOf(StructTags, fs[i]).value).value.1;
      assert TakenFrom(fs, ss, i, t, SourceAt(fs, ss, AllLines(fs), i));
    }
  }

  lemma MergerCovers(fs: seq<Finding>, i: nat) returns (m: nat)
    requires i < |fs|
    ensures m < |fs| && m !in DroppedTags(fs) && Covers(MergedAt(fs, AllLines(fs), m), fs[i])
  {
    hide Pair;
    m := i;
    if TagDropped(fs, AllLines(fs), i) {
      m := Pair(fs, KeyOf(StructTags, fs[i]).value).value.0;
    }
  }

  lemma DedupTraces(fs: seq<Finding>, ss: seq<Source>)
    requires |fs| == |ss|
    ensures TracedBy(fs, ss, Kept(DroppedTags(fs), |fs|), DedupFindings(fs), DedupSources(fs, ss), NoTakeover(fs, ss))
  {
    hide MergedAt, SourceAt, DroppedTags, SameSite, Sourced, NoTakeover;
    var idx := Kept(DroppedTags(fs), |fs|);
    var rf, rs := DedupFindings(fs), DedupSources(fs, ss);
    forall k | 0 <= k < |idx| ensures SameSite(rf[k], fs[idx[k]]) && Sourced(fs, ss, idx[k], rs[k], NoTakeover(fs, ss)) {
      assert rf[k] == MergedFindings(fs)[idx[k]] && rs[k] == MergedSources(fs, ss)[idx[k]];
      MergedKeepsSite(fs, ss, idx[k]);
    }
  }

  /** The surviving findings keep their own sources if and only if no line pairs a field
      finding without a type name with a tag finding that has one. */
  lemma {:induction false} OwnSourcesExactly(fs: seq<Finding>, ss: seq<Source>)
    requires |fs| == |ss|
    ensures DedupSources(fs, ss) == Pick(ss, Kept(DroppedTags(fs), |fs|))
       <==> NoTakeover(fs, ss)
  {
    if NoTakeover(fs, ss) {
      hide TakesTagSource, DroppedTags;
      assert MergedSources(fs, ss) == ss;
    } else {
      var i :| 0 <= i < |ss| && TakesTagSource(fs, ss, AllLines(fs), i);
      TakenSourceDiffers(fs, ss, i);
    }
  }

  lemma TakenSourceDiffers(fs: seq<Finding>, ss: seq<Source>, i: nat)
    requires |fs| == |ss| && i < |ss| && TakesTagSource(fs, ss, AllLines(fs), i)
    ensures DedupSources(fs, ss) != Pick(ss, Kept(DroppedTags(fs), |fs|))
  {
    var idx := Kept(DroppedTags(fs), |fs|);
    assert i !in DroppedTags(fs) && SourceAt(fs, ss, AllLines(fs), i) != ss[i];
    hide TakesTagSource, SourceAt, DroppedTags, AllLines;
    assert i in idx;
    var p :| 0 <= p < |idx| && idx[p] == i;
    assert DedupSources(fs, ss)[p] == MergedSources(fs, ss)[i];
  }

  predicate FieldThenTag(fs: seq<Finding>, k: Key) {
    && |fs| == 2 && fs[0].desc.Field? && fs[1].desc.Tag?
    && KeyOf(StructTags, fs[0]) == KeyOf(StructTags, fs[1]) == Some(k)
    && Normalize(fs[0].desc.name) == Normalize(fs[1].desc.name)
  }

  lemma MembersOfTwo(fs: seq<Finding>, k: Key)
    requires FieldThenTag(fs, k)
    ensures Members(StructTags, fs, k, 2) == [0, 1]
  {
    assert Members(StructTags, fs, k, 1) == [0];
  }

  lemma LastOfTwo(fs: seq<Finding>, k: Key, ms: seq<nat>)
    requires FieldThenTag(fs, k) && ms == [0, 1]
    ensures LastOf(fs, ms, true) == Some(1) && LastOf(fs, ms, false) == Some(0)
  {
    assert ms[..1] == [0];
    assert LastOf(fs, ms[..1], false) == Some(0);
  }

  lemma PairOfTwo(fs: seq<Finding>, k: Key)
    requires FieldThenTag(fs, k)
    ensures Pair(fs, k) == Some((0, 1))
  {
    MembersOfTwo(fs, k);
    LastOfTwo(fs, k, Members(StructTags, fs, k, 2));
  }

  lemma DropOfTwo(fs: seq<Finding>, k: Key)
    requires FieldThenTag(fs, k) && Pair(fs, k) == Some((0, 1))
    ensures k in AllLines(fs) && DroppedTags(fs) == {1}
  {
    assert KeyOf(StructTags, fs[0]) == Some(k);
    assert TagDropped(fs, AllLines(fs), 1) && !TagDropped(fs, AllLines(fs), 0);
  }

  lemma KeepFirst(removed: set<nat>)
    requires removed == {1}
    ensures Kept(removed, 2) == [0]
  {
    assert Kept(removed, 1) == [0];
  }

  lemma TagSourceTakenOver(fs: seq<Finding>, ss: seq<Source>, k: Key)
    requires FieldThenTag(fs, k) && |ss| == 2 && ss[0].typeName == "" && ss[1].typeName != ""
    ensures |DedupFindings(fs)| == 1 && SameSite(DedupFindings(fs)[0], fs[0])
    ensures DedupSources(fs, ss) == [ss[1]]
  {
    PairOfTwo(fs, k);
    DropOfTwo(fs, k);
    KeepFirst(DroppedTags(fs));
    MergedKeepsSite(fs, ss, 0);
    assert DedupFindings(fs)[0] == MergedFindings(fs)[0];
    assert TakesTagSource(fs, ss, AllLines(fs), 0);
  }

  lemma CvvNormalizes()
    ensures Normalize("CVV") == Normalize("cvv")
  {
    assert "CVV"[1..] == "VV" && "VV"[1..] == "V" && "V"[1..] == "";
    assert "cvv"[1..] == "vv" && "vv"[1..] == "v" && "v"[1..] == "";
  }

  /** The other case occurs: an anonymous struct's field `CVV` on one line with field
      `Code` of a named struct, tagged `cvv`, ends up with the source of `Code`. */
  lemma SourceOfAnotherField()
    ensures
      var f := Finding(Keyword, High, "a.go", 1, 9, Field("CVV"), "");
      var t := Finding(Keyword, High, "a.go", 1, 30, Tag("cvv"), "");
      var code := Source("", "Card", "Code", true, false);
      |DedupFindings([f, t])| == 1 && SameSite(DedupFindings([f, t])[0], f)
      && DedupSources([f, t], [Source("", "", "CVV", false, false), code]) == [code]
  {
    CvvNormalizes();
    TagSourceTakenOver([Finding(Keyword, High, "a.go", 1, 9, Field("CVV"), ""),
                        Finding(Keyword, High, "a.go", 1, 30, Tag("cvv"), "")],
                       [Source("", "", "CVV", false, false), Source("", "Card", "Code", true, false)],
                       ByLine("a.go", 1));
  }

  lemma DedupLosesNothing(fs: seq<Finding>)
    ensures NothingLost(fs, DedupFindings(fs))
  {
    forall i | 0 <= i < |fs| ensures Covered(DedupFindings(fs), fs[i]) {
      var m := MergerCovers(fs, i);
      var k := SurvivorIsPicked(MergedFindings(fs), DroppedTags(fs), m);
      assert Covers(DedupFindings(fs)[k], fs[i]);
    }
  }

  lemma LedKeepsSite(fs: seq<Finding>, i: nat)
    requires i < |fs|
    ensures SameSite(Led(fs)[i], fs[i])
  {
  }

  lemma GroupTraces(fs: seq<Finding>, ss: seq<Source>)
    requires |fs| == |ss|
    ensures TracedBy(fs, ss, Kept(Absorbed(fs), |fs|), GroupFindings(fs), GroupSources(fs, ss), true)
  {
    hide Led, Absorbed, SameSite;
    var idx := Kept(Absorbed(fs), |fs|);
    forall k | 0 <= k < |idx| ensures
      SameSite(GroupFindings(fs)[k], fs[idx[k]]) && Sourced(fs, ss, idx[k], GroupSources(fs, ss)[k], true)
    {
      LedKeepsSite(fs, idx[k]);
    }
  }

  lemma GroupLosesNothing(fs: seq<Finding>)
    ensures NothingLost(fs, GroupFindings(fs))
  {
    forall i | 0 <= i < |fs| ensures Covered(GroupFindings(fs), fs[i]) {
      var lead := LeaderCovers(fs, i);
      var k := SurvivorIsPicked(Led(fs), Absorbed(fs), lead);
      assert Covers(GroupFindings(fs)[k], fs[i]);
    }
  }

  lemma LeaderCovers(fs: seq<Finding>, i: nat) returns (lead: nat)
    requires i < |fs|
    ensures lead < |fs| && lead !in Absorbed(fs) && Covers(GroupedAt(fs, AllParams(fs), lead), fs[i])
  {
    var k := KeyOf(Parameters, fs[i]);
    lead := i;
    if k.Some? {
      var ms := Members(Parameters, fs, k.value, |fs|);
      assert i in ms;
      lead := ms[0];
      SummaryCovers(fs, k.value, ms, i);
      FirstLeads(fs, k.value, ms);
    }
  }

  lemma SummaryCovers(fs: seq<Finding>, k: Key, ms: seq<nat>, i: nat)
    requires ms == Members(Parameters, fs, k, |fs|) && i in ms
    ensures OnParams(fs, ms) && Covers(Summary(fs, ms), fs[i])
    ensures |ms| == 1 ==> i == ms[0]
  {
    hide Members, Top, Names;
    assert ms != [] && OnParams(fs, ms);
    assert KeyOf(Parameters, fs[ms[0]]) == KeyOf(Parameters, fs[i]) == Some(k);
    var j :| 0 <= j < |ms| && ms[j] == i;
    assert Rank(fs[ms[j]].severity) <= Rank(Top(fs, ms));
  }

  lemma FirstLeads(fs: seq<Finding>, k: Key, ms: seq<nat>)
    requires ms == Members(Parameters, fs, k, |fs|) && ms != []
    ensures ms[0] !in Absorbed(fs) && OnParams(fs, ms)
    ensures GroupedAt(fs, AllParams(fs), ms[0]) == if |ms| >= 2 then Summary(fs, ms) else fs[ms[0]]
  {
    hide Members, Top, Names;
    assert KeyOf(Parameters, fs[ms[0]]) == Some(k);
    assert k in AllParams(fs);
  }

  lemma NothingLostTwice(fs: seq<Finding>, mf: seq<Finding>, rf: seq<Finding>)
    requires NothingLost(fs, mf) && NothingLost(mf, rf)
    ensures NothingLost(fs, rf)
  {
    forall i | 0 <= i < |fs| ensures Covered(rf, fs[i]) {
      assert Covered(mf, fs[i]);
      var j :| 0 <= j < |mf| && Covers(mf[j], fs[i]);
      assert Covered(rf, mf[j]);
      var k :| 0 <= k < |rf| && Covers(rf[k], mf[j]);
      assert Covers(rf[k], fs[i]);
    }
  }

  lemma NothingLostAppended(fs: seq<Finding>, rf: seq<Finding>, more: seq<Finding>)
    requires NothingLost(fs, rf)
    ensures NothingLost(fs + more, rf + more)
  {
    var r := rf + more;
    forall i | 0 <= i < |fs + more| ensures Covered(r, (fs + more)[i]) {
      if i < |fs| {
        assert Covered(rf, fs[i]);
        var k :| 0 <= k < |rf| && Covers(rf[k], fs[i]);
        assert Covers(r[k], (fs + more)[i]);
      } else {
        assert Covers(r[|rf| + i - |fs|], (fs + more)[i]);
      }
    }
  }

  function Blank(n: nat): (r: seq<Source>)
    ensures |r| == n && forall i | 0 <= i < n :: r[i] == NO_SOURCE
  {
    seq(n, i => NO_SOURCE)
  }

  lemma SourceOfExtends(fs: seq<Finding>, ss: seq<Source>, i: nat, src: Source, more: seq<Finding>)
    requires SourceOf(fs, ss, i, src)
    ensures SourceOf(fs + more, ss + Blank(|more|), i, src)
  {
    if src != ss[i] {
      var t :| TakenFrom(fs, ss, i, t, src);
      assert TakenFrom(fs + more, ss + Blank(|more|), i, t, src);
    }
  }

  /** Findings appended with blank sources stay traced. */
  lemma TracedAppended(fs: seq<Finding>, ss: seq<Source>, idx: seq<nat>, rf: seq<Finding>, rs: seq<Source>,
                      more: seq<Finding>, own: bool)
    returns (wide: seq<nat>)
    requires |fs| == |ss| && TracedBy(fs, ss, idx, rf, rs, own)
    ensures TracedBy(fs + more, ss + Blank(|more|), wide, rf + more, rs + Blank(|more|), own)
  {
    var n := |idx|;
    wide := seq(n + |more|, k requires 0 <= k < n + |more| => if k < n then idx[k] else |fs| + k - n);
    var wf, ws := fs + more, ss + Blank(|more|);
    forall k | 0 <= k < |wide| ensures
      wide[k] < |wf| && SameSite((rf + more)[k], wf[wide[k]]) && Sourced(wf, ws, wide[k], (rs + Blank(|more|))[k], own)
    {
      if k < n {
        SourceOfExtends(fs, ss, idx[k], rs[k], more);
      }
    }
  }

  /** Deleting further findings without touching sources stays traced. */
  lemma TracedThinned(fs: seq<Finding>, ss: seq<Source>, idx: seq<nat>, mf: seq<Finding>, ms: seq<Source>,
                      kept: seq<nat>, rf: seq<Finding>, own: bool)
    returns (thin: seq<nat>)
    requires |fs| == |ss| && TracedBy(fs, ss, idx, mf, ms, own) && |kept| == |rf|
    requires forall a, b | 0 <= a < b < |kept| :: kept[a] < kept[b]
    requires forall k | 0 <= k < |kept| :: kept[k] < |mf| && SameSite(rf[k], mf[kept[k]])
    ensures TracedBy(fs, ss, thin, rf, Pick(ms, kept), own)
  {
    thin := Pick(idx, kept);
    forall k | 0 <= k < |thin| ensures thin[k] < |fs| && SameSite(rf[k], fs[thin[k]]) && Sourced(fs, ss, thin[k], ms[kept[k]], own) {
      assert SameSite(mf[kept[k]], fs[idx[kept[k]]]);
    }
  }

  // ---------------------------------------------------------------- one file

  function FindingsOf(es: seq<Emission>): (r: seq<Finding>)
    ensures |r| == |es|
  {
    seq(|es|, i requires 0 <= i < |es| => es[i].finding)
  }

  function SourcesOf(es: seq<Emission>): (r: seq<Source>)
    ensures |r| == |es|
  {
    seq(|es|, i requires 0 <= i < |es| => es[i].source)
  }

  /** Everything the passes over a file report, before any reduction. */
  function Emitted(file: File): seq<Finding> {
    match file
    case GoFile(_, fields, params, rest) => FindingsOf(fields) + params + rest
    case EnvFile(found) => found
  }

  function EmittedSources(file: File): (r: seq<Source>)
    ensures |r| == |Emitted(file)|
  {
    match file
    case GoFile(_, fields, params, rest) => SourcesOf(fields) + Blank(|params|) + Blank(|rest|)
    case EnvFile(found) => Blank(|found|)
  }

  function Scanned(file: File): seq<Finding> {
    match file
    case GoFile(_, fields, params, rest) => GroupFindings(DedupFindings(FindingsOf(fields)) + params) + rest
    case EnvFile(found) => found
  }

  /** An `.env` file has no source slice. */
  function ScannedSources(file: File): seq<Source> {
    match file
    case GoFile(_, fields, params, rest) =>
      GroupSources(DedupFindings(FindingsOf(fields)) + params,
                   DedupSources(FindingsOf(fields), SourcesOf(fields)) + Blank(|params|)) + Blank(|rest|)
    case EnvFile(_) => []
  }

  ghost predicate Traced(fs: seq<Finding>, ss: seq<Source>, rf: seq<Finding>, rs: seq<Source>, own: bool) {
    exists idx :: TracedBy(fs, ss, idx, rf, rs, own)
  }

  /** No field of the file takes over another one's source. */
  predicate OwnSources(file: File) {
    file.GoFile? ==> NoTakeover(FindingsOf(file.fields), SourcesOf(file.fields))
  }

  /** Every reported finding of a Go file keeps its emission and its source, in order,
      and every emission stays covered; and the source is the emission's own when no
      line pairs an unnamed field with a named tag source. */
  lemma {:induction false} FileIsTraced(file: File)
    ensures file.GoFile? ==> Traced(Emitted(file), EmittedSources(file), Scanned(file), ScannedSources(file), OwnSources(file))
    ensures NothingLost(Emitted(file), Scanned(file))
  {
    match file
    case EnvFile(found) =>
      forall i | 0 <= i < |found| ensures Covered(found, found[i]) {
        assert Covers(found[i], found[i]);
      }
    case GoFile(_, fields, params, rest) =>
      var fs, ss := FindingsOf(fields), SourcesOf(fields);
      var df, ds := DedupFindings(fs), DedupSources(fs, ss);
      var own := NoTakeover(fs, ss);
      DedupTraces(fs, ss);
      var idx := TracedAppended(fs, ss, Kept(DroppedTags(fs), |fs|), df, ds, params, own);
      var mf, ms := df + params, ds + Blank(|params|);
      GroupTraces(mf, ms);
      idx := TracedThinned(fs + params, ss + Blank(|params|), idx, mf, ms, Kept(Absorbed(mf), |mf|), GroupFindings(mf), own);
      idx := TracedAppended(fs + params, ss + Blank(|params|), idx, GroupFindings(mf), GroupSources(mf, ms), rest, own);
      assert TracedBy(Emitted(file), EmittedSources(file), idx, Scanned(file), ScannedSources(file), own);
      DedupLosesNothing(fs);
      NothingLostAppended(fs, df, params);
      GroupLosesNothing(mf);
      NothingLostTwice(fs + params, mf, GroupFindings(mf));
      NothingLostAppended(fs + params, GroupFindings(mf), rest);
  }

  /** `panScanState`: the slices one file's passes append to. */
  class PanScan {
    var findings: seq<Finding>
    var sources: seq<Source>

    constructor ()
      ensures findings == [] && sources == []
    {
      findings, sources := [], [];
    }

    method AppendField(e: Emission)
      modifies this
      ensures findings == old(findings) + [e.finding] && sources == old(sources) + [e.source]
    {
      findings, sources := findings + [e.finding], sources + [e.source];
    }

    method AppendOther(f: Finding)
      modifies this
      ensures findings == old(findings) + [f] && sources == old(sources) + [NO_SOURCE]
    {
      findings, sources := findings + [f], sources + [NO_SOURCE];
    }

    method AppendOthers(fs: seq<Finding>)
      modifies this
      ensures findings == old(findings) + fs && sources == old(sources) + Blank(|fs|)
    {
      for i := 0 to |fs|
        invariant findings == old(findings) + fs[..i] && sources == old(sources) + Blank(i)
      {
        AppendOther(fs[i]);
        assert fs[..i + 1] == fs[..i] + [fs[i]];
      }
    }

    /** `scanGoFile` after parsing. */
    method ScanGoFile(file: File)
      requires file.GoFile? && findings == [] && sources == []
      modifies this
      ensures findings == Scanned(file) && sources == ScannedSources(file)
    {
      for i := 0 to |file.fields|
        invariant findings == FindingsOf(file.fields[..i]) && sources == SourcesOf(file.fields[..i])
      {
        AppendField(file.fields[i]);
        assert file.fields[..i + 1] == file.fields[..i] + [file.fields[i]];
      }
      assert file.fields[..|file.fields|] == file.fields;
      var fs, ss := DeduplicateStruct(findings, sources);
      findings, sources := fs, ss;
      AppendOthers(file.params);
      fs, ss := GroupParameters(findings, sources);
      findings, sources := fs, ss;
      AppendOthers(file.rest);
    }
  }

  // ---------------------------------------------------------------- all files

  /** What `scanGoFile` or `scanEnvFile` hands to the file loop; an `.env` file has no
      source slice. */
  datatype Outcome = Outcome(findings: seq<Finding>, sources: seq<Source>, pkg: string)

  function OutcomeOf(file: File): Outcome {
    Outcome(Scanned(file), ScannedSources(file), if file.GoFile? then file.pkg else "")
  }

  function Outcomes(files: seq<File>): (os: seq<Outcome>)
    ensures |os| == |files| && forall n | 0 <= n < |files| :: os[n] == OutcomeOf(files[n])
  {
    seq(|files|, n requires 0 <= n < |files| => OutcomeOf(files[n]))
  }

  function Total(os: seq<Outcome>): seq<Finding> {
    if os == [] then [] else Total(os[..|os| - 1]) + os[|os| - 1].findings
  }

  predicate Named(s: Source) { s.typeName != "" && s.field != "" }

  /** The registrations of one file's first `n` sources, at offset `base`. */
  function Entries(base: nat, ss: seq<Source>, pkg: string, n: nat): (m: map<nat, Source>)
    requires n <= |ss|
    ensures forall j :: j in m <==> base <= j < base + n && Named(ss[j - base])
    ensures forall j | j in m :: m[j] == ss[j - base].(pkg := pkg)
  {
    if n == 0 then map[]
    else
      var before := Entries(base, ss, pkg, n - 1);
      if Named(ss[n - 1]) then before[base + n - 1 := ss[n - 1].(pkg := pkg)] else before
  }

  function Registry(os: seq<Outcome>): map<nat, Source> {
    if os == [] then map[]
    else
      var init, last := os[..|os| - 1], os[|os| - 1];
      Registry(init) + Entries(|Total(init)|, last.sources, last.pkg, |last.sources|)
  }

  predicate Fitting(os: seq<Outcome>) {
    forall n | 0 <= n < |os| :: |os[n].sources| <= |os[n].findings|
  }

  lemma TotalSnoc(os: seq<Outcome>)
    requires os != []
    ensures Total(os) == Total(os[..|os| - 1]) + os[|os| - 1].findings
  {
  }

  /** Every registration stems from one source of one file and stands at the index of
      the finding beside that source. */
  lemma {:induction false} RegistryOrigin(os: seq<Outcome>, j: nat) returns (n: nat, k: nat)
    requires Fitting(os) && j in Registry(os)
    ensures n < |os| && k < |os[n].sources| && j == |Total(os[..n])| + k < |Total(os)|
    ensures Named(os[n].sources[k]) && Registry(os)[j] == os[n].sources[k].(pkg := os[n].pkg)
    ensures Total(os)[j] == os[n].findings[k]
  {
    hide Entries, Total;
    var last := |os| - 1;
    var init := os[..last];
    TotalSnoc(os);
    if j in Entries(|Total(init)|, os[last].sources, os[last].pkg, |os[last].sources|) {
      n, k := last, j - |Total(init)|;
    } else {
      n, k := RegistryOrigin(init, j);
      assert init[..n] == os[..n];
    }
  }

  /** Every named source is registered. */
  lemma {:induction false} NamedIsRegistered(os: seq<Outcome>, n: nat, k: nat)
    requires Fitting(os) && n < |os| && k < |os[n].findings|
    ensures |Total(os[..n])| + k < |Total(os)| && Total(os)[|Total(os[..n])| + k] == os[n].findings[k]
    ensures k < |os[n].sources| && Named(os[n].sources[k]) ==> |Total(os[..n])| + k in Registry(os)
  {
    var last := |os| - 1;
    if n < last {
      NamedIsRegistered(os[..last], n, k);
      assert os[..last][..n] == os[..n];
    }
  }

  lemma OutcomesFit(files: seq<File>)
    ensures Fitting(Outcomes(files))
    ensures forall n | 0 <= n < |files| && files[n].EnvFile? :: Outcomes(files)[n].sources == []
  {
    forall n | 0 <= n < |files| ensures |OutcomeOf(files[n]).sources| <= |OutcomeOf(files[n]).findings| {
      FileIsTraced(files[n]);
    }
  }

  /** `src` is the source of the struct field that `f` was built from; that of the field
      paired with it only in a file where a takeover happens. */
  ghost predicate NamesFieldOf(file: File, f: Finding, src: Source) {
    file.GoFile? &&
    var fs, ss := Emitted(file), EmittedSources(file);
    exists e: nat, s: Source :: Sourced(fs, ss, e, s, OwnSources(file)) && SameSite(f, fs[e]) && src == s.(pkg := file.pkg)
  }

  predicate Beside(o: Outcome, f: Finding, src: Source, k: nat) {
    k < |o.findings| && k < |o.sources| && f == o.findings[k] && src == o.sources[k].(pkg := o.pkg)
  }

  lemma {:induction false} EntriesNameFields(file: File, f: Finding, src: Source, k: nat)
    ensures Beside(OutcomeOf(file), f, src, k) ==> NamesFieldOf(file, f, src)
  {
    if Beside(OutcomeOf(file), f, src, k) {
      FileIsTraced(file);
      var fs, ss, rf, rs := Emitted(file), EmittedSources(file), Scanned(file), ScannedSources(file);
      var idx :| TracedBy(fs, ss, idx, rf, rs, OwnSources(file));
      assert Sourced(fs, ss, idx[k], rs[k], OwnSources(file)) && SameSite(rf[k], fs[idx[k]]);
    }
  }

  ghost predicate NamesSomeField(files: seq<File>, f: Finding, src: Source) {
    exists n :: 0 <= n < |files| && NamesFieldOf(files[n], f, src)
  }

  ghost predicate Lockstep(files: seq<File>, findings: seq<Finding>, registry: map<nat, Source>) {
    forall j | j in registry :: j < |findings| && NamesSomeField(files, findings[j], registry[j])
  }

  /** Over any list of files every registered index names the finding built from the
      registered struct field. */
  lemma {:induction false} RegistryInLockstep(files: seq<File>)
    ensures Lockstep(files, Total(Outcomes(files)), Registry(Outcomes(files)))
  {
    hide OutcomeOf, Total, Registry, NamesFieldOf;
    var os := Outcomes(files);
    OutcomesFit(files);
    forall j | j in Registry(os) ensures j < |Total(os)| && NamesSomeField(files, Total(os)[j], Registry(os)[j]) {
      var n, k := RegistryOrigin(os, j);
      EntriesNameFields(files[n], Total(os)[j], Registry(os)[j], k);
    }
  }

  /** Whatever a pass reports in some file, the whole scan reports a finding of the same
      rule, file and sensitive name, at no lower severity. */
  lemma {:induction false} ScanLosesNothing(files: seq<File>, n: nat, e: nat)
    requires n < |files| && e < |Emitted(files[n])|
    ensures Covered(Total(Outcomes(files)), Emitted(files[n])[e])
  {
    FileIsTraced(files[n]);
    assert Covered(Scanned(files[n]), Emitted(files[n])[e]);
    var k :| 0 <= k < |Scanned(files[n])| && Covers(Scanned(files[n])[k], Emitted(files[n])[e]);
    var os := Outcomes(files);
    OutcomesFit(files);
    NamedIsRegistered(os, n, k);
    assert Covers(Total(os)[|Total(os[..n])| + k], Emitted(files[n])[e]);
  }

  /** The file loop of `ScanFullWithTaint`; `registry` is filled only when taint is on. */
  method ScanFiles(files: seq<File>, includeTaint: bool)
    returns (findings: seq<Finding>, registry: map<nat, Source>)
    ensures findings == Total(Outcomes(files))
    ensures registry == if includeTaint then Registry(Outcomes(files)) else map[]
  {
    findings, registry := [], map[];
    hide OutcomeOf, Entries;
    ghost var os := Outcomes(files);
    for i := 0 to |files|
      invariant findings == Total(os[..i])
      invariant registry == if includeTaint then Registry(os[..i]) else map[]
    {
      assert os[..i + 1][..i] == os[..i];
      var fs, ss, pkg := ScanFile(files[i]);
      if includeTaint {
        registry := Register(registry, |findings|, ss, pkg);
      }
      findings := findings + fs;
    }
    assert os[..|files|] == os;
  }

  method ScanFile(file: File) returns (fs: seq<Finding>, ss: seq<Source>, pkg: string)
    ensures Outcome(fs, ss, pkg) == OutcomeOf(file)
  {
    match file
    case EnvFile(found) =>
      fs, ss, pkg := found, [], "";
    case GoFile(p, _, _, _) =>
      var scan := new PanScan();
      scan.ScanGoFile(file);
      fs, ss, pkg := scan.findings, scan.sources, p;
  }

  lemma EntriesNext(base: nat, ss: seq<Source>, pkg: string, k: nat)
    requires k < |ss|
    ensures Entries(base, ss, pkg, k + 1)
         == if Named(ss[k]) then Entries(base, ss, pkg, k)[base + k := ss[k].(pkg := pkg)] else Entries(base, ss, pkg, k)
  {
  }

  lemma PutIntoJoin<K, V>(a: map<K, V>, b: map<K, V>, k: K, v: V)
    ensures (a + b)[k := v] == a + b[k := v]
  {
  }

  method Register(registry: map<nat, Source>, base: nat, ss: seq<Source>, pkg: string)
    returns (r: map<nat, Source>)
    ensures r == registry + Entries(base, ss, pkg, |ss|)
  {
    r := registry;
    for k := 0 to |ss|
      invariant r == registry + Entries(base, ss, pkg, k)
    {
      hide Entries;
      EntriesNext(base, ss, pkg, k);
      PutIntoJoin(registry, Entries(base, ss, pkg, k), base + k, ss[k].(pkg := pkg));
      if ss[k].typeName == "" || ss[k].field == "" { continue; }
      r := r[base + k := ss[k].(pkg := pkg)];
    }
  }
}
