/** The taint bridge of the PAN scanner: severity changes and suppression decided by
  the flow engine's answer, the struct's tags, the field name and the path. */
module PanBridge {
  import opened Options
  import opened PanFindings
  import opened PanLockstep

  /** Field names of Sensitive Authentication Data. */
  const SAD_FIELDS: set<string> := {
    "CVV", "CVC", "CVC2", "CVV2", "SecurityCode", "Cvv", "Cvc", "Cvc2", "Cvv2",
    "cvv", "cvc", "cvc2", "cvv2", "securityCode"
  }

  /** `flows` is the engine's answer for the DB sink; `transitPath` is the test for
      request, response, client and handler directories. */
  datatype Oracle = Oracle(flows: Source -> bool, transitPath: string -> bool)

  datatype TagClass = Transit | Storage | Inconclusive

  method StructTagClassification(src: Source) returns (c: TagClass)
    ensures c == Storage <==> src.hasDb
    ensures c == Transit <==> src.hasJson && !src.hasDb
  {
    if src.hasDb { return Storage; }
    if src.hasJson { return Transit; }
    return Inconclusive;
  }

  method NegativeEvidenceTransit(src: Source) returns (b: bool)
    ensures b <==> !src.hasDb && src.field in SAD_FIELDS
  {
    if src.hasDb { return false; }
    if src.field == "" { return false; }
    return src.field in SAD_FIELDS;
  }

  // ---------------------------------------------------------------- the rule table

  datatype Ruling = Keep | Stored | Downgrade | Drop

  predicate Queryable(f: Finding, src: Option<Source>) {
    && (f.rule.Keyword? || f.rule.StringType?) && src.Some?
    && src.value.pkg != "" && src.value.typeName != "" && src.value.field != ""
  }

  /** No DB tag on the struct, and a json tag, a SAD name or a transit path. */
  predicate TransitOnly(o: Oracle, f: Finding, src: Source) {
    !src.hasDb && (src.hasJson || src.field in SAD_FIELDS || o.transitPath(f.path))
  }

  /** The documented table: flow to a DB sink, transit only, inconclusive. */
  function RulingOf(o: Oracle, f: Finding, src: Option<Source>): Ruling {
    if !Queryable(f, src) then Keep
    else if o.flows(src.value) then Stored
    else if !TransitOnly(o, f, src.value) then Keep
    else if f.rule.Keyword? then Downgrade
    else Drop
  }

  function Apply(r: Ruling, f: Finding): Finding {
    match r
    case Keep => f
    case Stored => f.(confidence := "high", desc := Annotated(f.desc, true))
    case Downgrade => f.(severity := Info, confidence := "high", desc := Annotated(f.desc, false))
    case Drop => f.(rule := Suppressed)
  }

  function Lookup(registry: map<nat, Source>, i: nat): Option<Source> {
    if i in registry then Some(registry[i]) else None
  }

  function Ruled(o: Oracle, fs: seq<Finding>, registry: map<nat, Source>, i: nat): Finding
    requires i < |fs|
  {
    Apply(RulingOf(o, fs[i], Lookup(registry, i)), fs[i])
  }

  /** The indices below `n` left after suppression. */
  function Left(fs: seq<Finding>, n: nat): (ks: seq<nat>)
    requires n <= |fs|
    ensures forall j | 0 <= j < |ks| :: ks[j] < n && !fs[ks[j]].rule.Suppressed?
    ensures forall i :: i in ks <==> 0 <= i < n && !fs[i].rule.Suppressed?
    ensures forall a, b | 0 <= a < b < |ks| :: ks[a] < ks[b]
  {
    if n == 0 then []
    else if fs[n - 1].rule.Suppressed? then Left(fs, n - 1)
    else Left(fs, n - 1) + [n - 1]
  }

  function RuledAll(o: Oracle, fs: seq<Finding>, registry: map<nat, Source>): (r: seq<Finding>)
    ensures |r| == |fs| && forall i | 0 <= i < |fs| :: r[i] == Ruled(o, fs, registry, i)
  {
    seq(|fs|, i requires 0 <= i < |fs| => Ruled(o, fs, registry, i))
  }

  function Bridged(o: Oracle, fs: seq<Finding>, registry: map<nat, Source>): seq<Finding> {
    Pick(RuledAll(o, fs, registry), Left(RuledAll(o, fs, registry), |fs|))
  }

  /** The documented outcome for one finding whose registered source is `src`: stored data
      is annotated at its severity, transit-only data becomes INFO or is suppressed, and
      everything else stays as it is. */
  predicate Documented(o: Oracle, f: Finding, src: Option<Source>, g: Finding) {
    var asked := (f.rule.Keyword? || f.rule.StringType?) && src.Some? &&
                 src.value.pkg != "" && src.value.typeName != "" && src.value.field != "";
    var stored := asked && o.flows(src.value);
    var transit := asked && !stored && !src.value.hasDb &&
                   (src.value.hasJson || src.value.field in SAD_FIELDS || o.transitPath(f.path));
    && (stored ==> g == f.(confidence := "high", desc := Annotated(f.desc, true)))
    && (transit && f.rule.Keyword? ==> g == f.(severity := Info, confidence := "high", desc := Annotated(f.desc, false)))
    && (transit && f.rule.StringType? ==> g == f.(rule := Suppressed))
    && (!stored && !transit ==> g == f)
  }

  // ---------------------------------------------------------------- the code

  method ApplyTransit(f: Finding) returns (r: Finding)
    requires f.rule.Keyword? || f.rule.StringType?
    ensures r == Apply(if f.rule.Keyword? then Downgrade else Drop, f)
  {
    r := f;
    if f.rule.Keyword? {
      r := r.(severity := Info);
      r := r.(confidence := "high");
      r := r.(desc := Annotated(f.desc, false));
    } else {
      r := r.(rule := Suppressed);
    }
  }

  /** One turn of the rewriting loop, branch by branch. */
  method AdjustOne(o: Oracle, f: Finding, entry: Option<Source>) returns (r: Finding)
    ensures r == Apply(RulingOf(o, f, entry), f)
    ensures Documented(o, f, entry, r)
  {
    r := f;
    if !f.rule.Keyword? && !f.rule.StringType? { return; }
    if entry.None? { return; }
    var src := entry.value;
    if src.pkg == "" || src.typeName == "" || src.field == "" { return; }
    if o.flows(src) {
      return f.(confidence := "high", desc := Annotated(f.desc, true));
    }
    var cls := StructTagClassification(src);
    match cls
    case Transit => r := ApplyTransit(f);
    case Storage =>
    case Inconclusive =>
      var sad := NegativeEvidenceTransit(src);
      if sad {
        r := ApplyTransit(f);
        return;
      }
      if !o.transitPath(f.path) { return; }
      r := ApplyTransit(f);
  }

  method RemoveSuppressed(fs: seq<Finding>) returns (out: seq<Finding>)
    ensures out == Pick(fs, Left(fs, |fs|))
  {
    out := [];
    for i := 0 to |fs|
      invariant out == Pick(fs, Left(fs, i))
    {
      if fs[i].rule.Suppressed? { continue; }
      out := out + [fs[i]];
    }
  }

  /** `adjustSeverityByTaint`; no oracle means the engine did not load. */
  method AdjustSeverityByTaint(engine: Option<Oracle>, findings: seq<Finding>, registry: map<nat, Source>)
    returns (out: seq<Finding>, ghost idx: seq<nat>)
    ensures out == if engine.Some? then Bridged(engine.value, findings, registry) else findings
    ensures engine.Some? ==> |idx| == |out| && forall a, b | 0 <= a < b < |idx| :: idx[a] < idx[b]
    ensures engine.Some? ==> forall k | 0 <= k < |out| ::
      idx[k] < |findings| &&
      Documented(engine.value, findings[idx[k]], if idx[k] in registry then Some(registry[idx[k]]) else None, out[k])
  {
    if engine.None? { return findings, []; }
    var o := engine.value;
    var fs := findings;
    for i := 0 to |fs|
      invariant |fs| == |findings|
      invariant forall k | 0 <= k < |fs| :: fs[k] == if k < i then Ruled(o, findings, registry, k) else findings[k]
    {
      var f := AdjustOne(o, fs[i], Lookup(registry, i));
      fs := fs[i := f];
    }
    assert fs == RuledAll(o, findings, registry);
    out := RemoveSuppressed(fs);
    idx := BridgeIsConservative(o, findings, registry);
  }

  // ---------------------------------------------------------------- what the bridge may change

  predicate SameButRuling(f: Finding, g: Finding) {
    SameSite(f, g) && Subject(f.desc) == Subject(g.desc) && (f.severity == g.severity || (f.severity == Info && f.rule.Keyword?))
  }

  predicate SuppressedAsTransit(o: Oracle, fs: seq<Finding>, registry: map<nat, Source>, i: nat)
    requires i < |fs|
  {
    && fs[i].rule.StringType? && i in registry
    && registry[i].pkg != "" && registry[i].typeName != "" && registry[i].field != ""
    && !o.flows(registry[i]) && !registry[i].hasDb
    && (registry[i].hasJson || registry[i].field in SAD_FIELDS || o.transitPath(fs[i].path))
  }

  /** Survivors keep their order, place and subject; a severity changes only on a
      PAN-KEYWORD, only to INFO; and what is missing was a PAN-TYPE on transit-only
      data the engine saw reach no database, or came in already suppressed. */
  lemma BridgeIsConservative(o: Oracle, fs: seq<Finding>, registry: map<nat, Source>) returns (idx: seq<nat>)
    ensures |idx| == |Bridged(o, fs, registry)|
    ensures forall a, b | 0 <= a < b < |idx| :: idx[a] < idx[b]
    ensures forall k | 0 <= k < |idx| :: idx[k] < |fs| && SameButRuling(Bridged(o, fs, registry)[k], fs[idx[k]])
    ensures forall k | 0 <= k < |idx| :: Documented(o, fs[idx[k]], Lookup(registry, idx[k]), Bridged(o, fs, registry)[k])
    ensures forall i | 0 <= i < |fs| ::
      i !in idx <==> (fs[i].rule.Suppressed? || SuppressedAsTransit(o, fs, registry, i))
  {
    idx := Left(RuledAll(o, fs, registry), |fs|);
  }

  /** The bridge raises a severity exactly when it takes an unranked keyword finding for
      transit only; no pass of the scanner emits such a finding. */
  lemma RaisesOnlyUnranked(o: Oracle, f: Finding, src: Option<Source>, g: Finding)
    requires Documented(o, f, src, g)
    ensures Rank(g.severity) > Rank(f.severity)
       <==> f.severity == Unranked && f.rule.Keyword? && Queryable(f, src) && !o.flows(src.value) && TransitOnly(o, f, src.value)
  {
  }

  /** `ScanFullWithTaint`: the bridge runs only when something is registered. */
  method ScanFullWithTaint(files: seq<File>, includeTaint: bool, engine: Option<Oracle>)
    returns (out: seq<Finding>)
    ensures out == FullScan(files, includeTaint, engine)
  {
    var registry;
    out, registry := ScanFiles(files, includeTaint);
    if includeTaint && |registry| > 0 {
      ghost var idx;
      out, idx := AdjustSeverityByTaint(engine, out, registry);
    } else {
      NothingRegistered(registry);
    }
  }

  lemma NothingRegistered(registry: map<nat, Source>)
    ensures |registry| == 0 <==> registry == map[]
  {
  }

  function FullScan(files: seq<File>, includeTaint: bool, engine: Option<Oracle>): seq<Finding> {
    var os := Outcomes(files);
    if includeTaint && engine.Some? && Registry(os) != map[] then Bridged(engine.value, Total(os), Registry(os))
    else Total(os)
  }

  predicate StillNames(g: Finding, f: Finding) {
    g.rule == f.rule && g.path == f.path && Subject(g.desc) == Subject(f.desc)
  }

  /** Some listed finding still has the rule, file and sensitive name of `f`. */
  predicate Reports(out: seq<Finding>, f: Finding) {
    exists k | 0 <= k < |out| :: StillNames(out[k], f)
  }

  /** Every finding the scan has for the name of `f` was suppressed as transit-only. */
  predicate AllSuppressed(o: Oracle, fs: seq<Finding>, registry: map<nat, Source>, f: Finding) {
    forall j | 0 <= j < |fs| && StillNames(fs[j], f) :: SuppressedAsTransit(o, fs, registry, j)
  }

  lemma BridgeReportsExactly(o: Oracle, fs: seq<Finding>, registry: map<nat, Source>, f: Finding)
    requires !f.rule.Suppressed? && Reports(fs, f)
    ensures Reports(Bridged(o, fs, registry), f) <==> !AllSuppressed(o, fs, registry, f)
    ensures AllSuppressed(o, fs, registry, f) ==> f.rule.StringType? && registry != map[]
  {
    var out := Bridged(o, fs, registry);
    var idx := BridgeIsConservative(o, fs, registry);
    if Reports(out, f) {
      var k :| 0 <= k < |out| && StillNames(out[k], f);
      assert SameButRuling(out[k], fs[idx[k]]) && StillNames(fs[idx[k]], f) && idx[k] in idx;
    }
    if !AllSuppressed(o, fs, registry, f) {
      var j :| 0 <= j < |fs| && StillNames(fs[j], f) && !SuppressedAsTransit(o, fs, registry, j);
      var k :| 0 <= k < |idx| && idx[k] == j;
      assert SameButRuling(out[k], fs[j]) && StillNames(out[k], f);
    } else {
      var j :| 0 <= j < |fs| && StillNames(fs[j], f);
      assert SuppressedAsTransit(o, fs, registry, j);
    }
  }

  /** End to end: a sensitive name that a pass reports is missing from the result for its
      rule and file if and only if taint ran and every finding the scan had for it was
      suppressed as transit-only; and then the rule is PAN-TYPE. */
  lemma FullScanLosesOnlyTransit(files: seq<File>, includeTaint: bool, engine: Option<Oracle>, n: nat, e: nat)
    requires n < |files| && e < |Emitted(files[n])| && !Emitted(files[n])[e].rule.Suppressed?
    ensures
      var f, os := Emitted(files[n])[e], Outcomes(files);
      var lost := includeTaint && engine.Some? && AllSuppressed(engine.value, Total(os), Registry(os), f);
      (Reports(FullScan(files, includeTaint, engine), f) <==> !lost) && (lost ==> f.rule.StringType?)
  {
    var f, os := Emitted(files[n])[e], Outcomes(files);
    ScanLosesNothing(files, n, e);
    var j :| 0 <= j < |Total(os)| && Covers(Total(os)[j], f);
    assert StillNames(Total(os)[j], f);
    if engine.Some? {
      BridgeReportsExactly(engine.value, Total(os), Registry(os), f);
    }
  }
}
