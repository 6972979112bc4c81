/** Evaluation of OSV range events against a module version. */
module OsvRanges {
  import opened Options

  datatype Event = Event(introduced: string, fixed: string)
  datatype Range = Range(kind: string, events: seq<Event>)

  /** `Compare(a, b) >= 0`, the order of `golang.org/x/mod/semver`. */
  type AtLeast = (string, string) -> bool

  function Normalize(version: string): (r: string)
    ensures "v" <= r && (r == version || r == "v" + version)
    ensures "v" <= version ==> r == version
  {
    if |version| > 0 && version[0] == 'v' then version else "v" + version
  }

  /** One version boundary; no bound means from the beginning. */
  datatype Boundary = Boundary(bound: Option<string>, opens: bool)

  function Boundaries(e: Event): seq<Boundary> {
    (if e.introduced == "" then []
     else [Boundary(if e.introduced == "0" then None else Some(Normalize(e.introduced)), true)]) +
    (if e.fixed == "" then [] else [Boundary(Some(Normalize(e.fixed)), false)])
  }

  function AllBoundaries(es: seq<Event>): seq<Boundary> {
    if es == [] then [] else AllBoundaries(es[..|es| - 1]) + Boundaries(es[|es| - 1])
  }

  predicate AtOrBelow(ge: AtLeast, b: Boundary, v: string) {
    b.bound.None? || ge(v, b.bound.value)
  }

  /** The last listed boundary at or below the version is an introduction. */
  predicate LastOpens(ge: AtLeast, bs: seq<Boundary>, v: string) {
    exists i | 0 <= i < |bs| ::
      AtOrBelow(ge, bs[i], v) && bs[i].opens && forall j | i < j < |bs| :: !AtOrBelow(ge, bs[j], v)
  }

  predicate Considered(r: Range) {
    r.kind == "SEMVER" || r.kind == "ECOSYSTEM"
  }

  lemma OneMore(ge: AtLeast, bs: seq<Boundary>, b: Boundary, v: string)
    ensures LastOpens(ge, bs + [b], v) <==> if AtOrBelow(ge, b, v) then b.opens else LastOpens(ge, bs, v)
  {
    var more := bs + [b];
    assert forall i | 0 <= i < |bs| :: more[i] == bs[i];
    assert more[|bs|] == b;
  }

  // ---------- the verdict on events ----------

  /** The event introduces the vulnerability at or below `v`; "0" is below everything. */
  predicate IntroducedBy(ge: AtLeast, e: Event, v: string) {
    e.introduced == "0" || (e.introduced != "" && ge(v, Normalize(e.introduced)))
  }

  predicate FixedBy(ge: AtLeast, e: Event, v: string) {
    e.fixed != "" && ge(v, Normalize(e.fixed))
  }

  /** Some event introduces it at or below `v`, and neither that event nor a later one fixes
      it at or below `v`. */
  predicate Open(ge: AtLeast, es: seq<Event>, v: string) {
    exists i | 0 <= i < |es| :: IntroducedBy(ge, es[i], v) && forall j | i <= j < |es| :: !FixedBy(ge, es[j], v)
  }

  lemma OpenSnoc(ge: AtLeast, es: seq<Event>, e: Event, v: string)
    ensures Open(ge, es + [e], v) <==> !FixedBy(ge, e, v) && (IntroducedBy(ge, e, v) || Open(ge, es, v))
  {
    var more := es + [e];
    assert forall i | 0 <= i < |es| :: more[i] == es[i];
    assert more[|es|] == e;
    if Open(ge, more, v) {
      var i :| 0 <= i < |more| && IntroducedBy(ge, more[i], v) && forall j | i <= j < |more| :: !FixedBy(ge, more[j], v);
      assert !FixedBy(ge, more[|es|], v);
      if i < |es| { assert forall j | i <= j < |es| :: !FixedBy(ge, es[j], v); }
    }
    if !FixedBy(ge, e, v) && Open(ge, es, v) {
      var i :| 0 <= i < |es| && IntroducedBy(ge, es[i], v) && forall j | i <= j < |es| :: !FixedBy(ge, es[j], v);
      assert IntroducedBy(ge, more[i], v) && forall j | i <= j < |more| :: !FixedBy(ge, more[j], v);
    }
    if !FixedBy(ge, e, v) && IntroducedBy(ge, e, v) {
      assert IntroducedBy(ge, more[|es|], v) && forall j | |es| <= j < |more| :: !FixedBy(ge, more[j], v);
    }
  }

  /** The boundary form and the event form of the verdict agree. */
  lemma {:induction false} VerdictIsOpen(ge: AtLeast, es: seq<Event>, v: string)
    ensures LastOpens(ge, AllBoundaries(es), v) <==> Open(ge, es, v)
    decreases |es|
  {
    if es != [] {
      var init, e := es[..|es| - 1], es[|es| - 1];
      assert es == init + [e];
      VerdictIsOpen(ge, init, v);
      OpenSnoc(ge, init, e, v);
      BoundariesSnoc(ge, AllBoundaries(init), e, v);
    }
  }

  lemma BoundariesSnoc(ge: AtLeast, bs: seq<Boundary>, e: Event, v: string)
    ensures LastOpens(ge, bs + Boundaries(e), v)
       <==> !FixedBy(ge, e, v) && (IntroducedBy(ge, e, v) || LastOpens(ge, bs, v))
  {
    var intro := if e.introduced == "" then [] else [Boundaries(e)[0]];
    var fix := if e.fixed == "" then [] else [Boundary(Some(Normalize(e.fixed)), false)];
    assert Boundaries(e) == intro + fix && bs + Boundaries(e) == bs + intro + fix;
    if intro != [] { OneMore(ge, bs, intro[0], v); } else { assert bs + intro == bs; }
    if fix != [] { OneMore(ge, bs + intro, fix[0], v); } else { assert bs + intro + fix == bs + intro; }
  }

  lemma RangesOpen(ge: AtLeast, ranges: seq<Range>, v: string)
    ensures (exists k | 0 <= k < |ranges| :: Considered(ranges[k]) && LastOpens(ge, AllBoundaries(ranges[k].events), v))
       <==> (exists k | 0 <= k < |ranges| ::
               (ranges[k].kind == "SEMVER" || ranges[k].kind == "ECOSYSTEM") && Open(ge, ranges[k].events, v))
  {
    forall k | 0 <= k < |ranges| ensures LastOpens(ge, AllBoundaries(ranges[k].events), v) <==> Open(ge, ranges[k].events, v) {
      VerdictIsOpen(ge, ranges[k].events, v);
    }
    hide LastOpens, Open, AllBoundaries;
  }

  /** `isAffected`: some SEMVER or ECOSYSTEM range has an event that introduces the
      vulnerability at or below the version, with no fix at or below it in that event or a
      later one. */
  method IsAffected(ge: AtLeast, version: string, ranges: seq<Range>) returns (r: bool)
    ensures r <==> exists k | 0 <= k < |ranges| ::
      (ranges[k].kind == "SEMVER" || ranges[k].kind == "ECOSYSTEM") && Open(ge, ranges[k].events, version)
    ensures r <==> exists k | 0 <= k < |ranges| :: Considered(ranges[k]) && LastOpens(ge, AllBoundaries(ranges[k].events), version)
  {
    RangesOpen(ge, ranges, version);
    hide Open, LastOpens, AllBoundaries, Normalize;
    for k := 0 to |ranges|
      invariant forall m | 0 <= m < k :: !(Considered(ranges[m]) && LastOpens(ge, AllBoundaries(ranges[m].events), version))
    {
      if ranges[k].kind != "SEMVER" && ranges[k].kind != "ECOSYSTEM" { continue; }
      var events := ranges[k].events;
      var affected := false;
      NothingOpens(ge, events, version);
      for i := 0 to |events|
        invariant affected <==> LastOpens(ge, AllBoundaries(events[..i]), version)
      {
        var e := events[i];
        EventStep(ge, events, i, version);
        if e.introduced != "" {
          if e.introduced == "0" {
            affected := true;
          } else if ge(version, Normalize(e.introduced)) {
            affected := true;
          }
        }
        if e.fixed != "" {
          if ge(version, Normalize(e.fixed)) { affected := false; }
        }
      }
      assert events[..|events|] == events;
      if affected { return true; }
    }
    r := false;
  }

  lemma NothingOpens(ge: AtLeast, es: seq<Event>, v: string)
    ensures !LastOpens(ge, AllBoundaries(es[..0]), v)
  {}

  /** What one more event does to the verdict. */
  lemma EventStep(ge: AtLeast, es: seq<Event>, i: nat, v: string)
    requires i < |es|
    ensures LastOpens(ge, AllBoundaries(es[..i + 1]), v)
       <==> !FixedBy(ge, es[i], v) && (IntroducedBy(ge, es[i], v) || LastOpens(ge, AllBoundaries(es[..i]), v))
  {
    assert es[..i + 1][..i] == es[..i];
    BoundariesSnoc(ge, AllBoundaries(es[..i]), es[i], v);
  }

  // ---------- intervals ----------

  ghost predicate Transitive(ge: AtLeast) {
    forall a, b, c :: ge(a, b) && ge(b, c) ==> ge(a, c)
  }

  predicate NotAbove(ge: AtLeast, a: Boundary, b: Boundary) {
    a.bound.None? || (b.bound.Some? && ge(b.bound.value, a.bound.value))
  }

  /** Introductions and fixes alternate, starting with an introduction, in ascending
      order. */
  predicate Alternating(ge: AtLeast, bs: seq<Boundary>) {
    (forall i | 0 <= i < |bs| :: bs[i].opens <==> i % 2 == 0) &&
    forall i, j | 0 <= i < j < |bs| :: NotAbove(ge, bs[i], bs[j])
  }

  /** The version lies in some half-open interval [introduced, fixed); the last
      introduction may stay open. */
  predicate InSomeInterval(ge: AtLeast, bs: seq<Boundary>, v: string) {
    exists i | 0 <= i < |bs| ::
      i % 2 == 0 && AtOrBelow(ge, bs[i], v) && (i + 1 < |bs| ==> !AtOrBelow(ge, bs[i + 1], v))
  }

  /** For ascending alternating events the verdict is interval membership. */
  lemma VerdictIsInterval(ge: AtLeast, bs: seq<Boundary>, v: string)
    requires Transitive(ge) && Alternating(ge, bs)
    ensures LastOpens(ge, bs, v) <==> InSomeInterval(ge, bs, v)
  {
    forall i, j | 0 <= i < j < |bs| && AtOrBelow(ge, bs[j], v) ensures AtOrBelow(ge, bs[i], v) {
      assert NotAbove(ge, bs[i], bs[j]);
    }
    if LastOpens(ge, bs, v) {
      var i :| 0 <= i < |bs| && AtOrBelow(ge, bs[i], v) && bs[i].opens && forall j | i < j < |bs| :: !AtOrBelow(ge, bs[j], v);
      assert i % 2 == 0 && (i + 1 < |bs| ==> !AtOrBelow(ge, bs[i + 1], v));
    }
    if InSomeInterval(ge, bs, v) {
      var i :| 0 <= i < |bs| && i % 2 == 0 && AtOrBelow(ge, bs[i], v) && (i + 1 < |bs| ==> !AtOrBelow(ge, bs[i + 1], v));
      assert bs[i].opens;
    }
  }

  /** A module is affected exactly when its version lies in an interval of a SEMVER or
      ECOSYSTEM range, when every such range lists ascending alternating events. */
  lemma AffectedIsInterval(ge: AtLeast, v: string, ranges: seq<Range>)
    requires Transitive(ge)
    requires forall k | 0 <= k < |ranges| && Considered(ranges[k]) :: Alternating(ge, AllBoundaries(ranges[k].events))
    ensures (exists k | 0 <= k < |ranges| :: Considered(ranges[k]) && LastOpens(ge, AllBoundaries(ranges[k].events), v))
       <==> (exists k | 0 <= k < |ranges| :: Considered(ranges[k]) && InSomeInterval(ge, AllBoundaries(ranges[k].events), v))
  {
    forall k | 0 <= k < |ranges| && Considered(ranges[k])
      ensures LastOpens(ge, AllBoundaries(ranges[k].events), v) <==> InSomeInterval(ge, AllBoundaries(ranges[k].events), v)
    {
      VerdictIsInterval(ge, AllBoundaries(ranges[k].events), v);
    }
  }

  // ---------- evaluation of sorted events ----------

  ghost predicate Total(ge: AtLeast) {
    forall a, b :: ge(a, b) || ge(b, a)
  }

  /** Boundary `i` is the greatest of the first `n` at or below the version, the last
      listed among equals. */
  predicate IsGreatest(ge: AtLeast, bs: seq<Boundary>, v: string, n: nat, i: nat)
    requires n <= |bs|
  {
    i < n && AtOrBelow(ge, bs[i], v) && forall j | 0 <= j < n && AtOrBelow(ge, bs[j], v) ::
      NotAbove(ge, bs[j], bs[i]) && (j > i ==> !NotAbove(ge, bs[i], bs[j]))
  }

  /** The verdict if the events were sorted first: the greatest boundary at or below the
      version is an introduction. */
  predicate SortedOpens(ge: AtLeast, bs: seq<Boundary>, v: string) {
    exists i | 0 <= i < |bs| :: IsGreatest(ge, bs, v, |bs|, i) && bs[i].opens
  }

  predicate SameVerdict(ge: AtLeast, bs: seq<Boundary>, v: string) {
    LastOpens(ge, bs, v) <==> SortedOpens(ge, bs, v)
  }

  /** Only introductions come without a bound. */
  predicate UnboundedOpen(bs: seq<Boundary>) {
    forall i | 0 <= i < |bs| :: bs[i].bound.None? ==> bs[i].opens
  }

  lemma {:induction false} EventsFit(es: seq<Event>)
    ensures UnboundedOpen(AllBoundaries(es))
    decreases |es|
  {
    if es != [] { EventsFit(es[..|es| - 1]); }
  }

  lemma {:induction false} FindGreatest(ge: AtLeast, bs: seq<Boundary>, v: string, n: nat) returns (i: nat)
    requires Transitive(ge) && Total(ge) && n <= |bs|
    requires exists j | 0 <= j < n :: AtOrBelow(ge, bs[j], v)
    ensures IsGreatest(ge, bs, v, n, i)
  {
    var m := n - 1;
    if exists j | 0 <= j < m :: AtOrBelow(ge, bs[j], v) {
      i := FindGreatest(ge, bs, v, m);
      if AtOrBelow(ge, bs[m], v) && NotAbove(ge, bs[i], bs[m]) {
        i := m;
      }
    } else {
      i := m;
    }
  }

  /** A version has the verdicts of the greatest boundary at or below it. */
  lemma VerdictOfBoundary(ge: AtLeast, bs: seq<Boundary>, v: string, m: nat)
    requires Transitive(ge) && Total(ge) && IsGreatest(ge, bs, v, |bs|, m) && bs[m].bound.Some?
    ensures LastOpens(ge, bs, v) <==> LastOpens(ge, bs, bs[m].bound.value)
    ensures SortedOpens(ge, bs, v) <==> SortedOpens(ge, bs, bs[m].bound.value)
  {
    var b := bs[m].bound.value;
    forall j | 0 <= j < |bs| ensures AtOrBelow(ge, bs[j], v) <==> AtOrBelow(ge, bs[j], b) {}
    forall i | 0 <= i < |bs| ensures IsGreatest(ge, bs, v, |bs|, i) <==> IsGreatest(ge, bs, b, |bs|, i) {}
  }

  lemma AgreesAt(ge: AtLeast, bs: seq<Boundary>, v: string)
    requires Transitive(ge) && Total(ge) && UnboundedOpen(bs)
    requires forall i | 0 <= i < |bs| && bs[i].bound.Some? :: SameVerdict(ge, bs, bs[i].bound.value)
    ensures SameVerdict(ge, bs, v)
  {
    if exists j | 0 <= j < |bs| :: AtOrBelow(ge, bs[j], v) {
      var m := FindGreatest(ge, bs, v, |bs|);
      if bs[m].bound.Some? {
        VerdictOfBoundary(ge, bs, v, m);
      } else {
        forall j | 0 <= j < |bs| && AtOrBelow(ge, bs[j], v) ensures bs[j].bound.None? && bs[j].opens {}
        var last := LastAtOrBelow(ge, bs, v);
      }
    }
  }

  lemma {:induction false} LastAtOrBelow(ge: AtLeast, bs: seq<Boundary>, v: string) returns (i: nat)
    requires exists j | 0 <= j < |bs| :: AtOrBelow(ge, bs[j], v)
    ensures i < |bs| && AtOrBelow(ge, bs[i], v) && forall j | i < j < |bs| :: !AtOrBelow(ge, bs[j], v)
  {
    var n := |bs| - 1;
    if AtOrBelow(ge, bs[n], v) {
      i := n;
    } else {
      i := LastAtOrBelow(ge, bs[..n], v);
    }
  }

  /** The order in which events are listed does not matter, for every version, if and only
      if it does not at the listed versions themselves. */
  lemma ListingOrderIsHarmlessExactly(ge: AtLeast, es: seq<Event>)
    requires Transitive(ge) && Total(ge)
    ensures var bs := AllBoundaries(es);
      (forall v: string :: SameVerdict(ge, bs, v))
      <==> forall i | 0 <= i < |bs| && bs[i].bound.Some? :: SameVerdict(ge, bs, bs[i].bound.value)
  {
    EventsFit(es);
    var bs := AllBoundaries(es);
    if forall i | 0 <= i < |bs| && bs[i].bound.Some? :: SameVerdict(ge, bs, bs[i].bound.value) {
      forall v: string ensures SameVerdict(ge, bs, v) { AgreesAt(ge, bs, v); }
    }
  }

  /** A vulnerability from the beginning with one fix affects exactly the versions that are
      not at or past the fix; without a fix, every version. */
  lemma FromTheBeginning(ge: AtLeast, fix: string, v: string)
    ensures Open(ge, [Event("0", fix)], v) <==> fix == "" || !ge(v, Normalize(fix))
    ensures fix != "" ==> (Open(ge, [Event("0", ""), Event("", fix)], v) <==> !ge(v, Normalize(fix)))
  {
    assert [Event("0", fix)][0].introduced == "0";
    if fix != "" {
      var es := [Event("0", ""), Event("", fix)];
      assert IntroducedBy(ge, es[0], v) && FixedBy(ge, es[1], v) == ge(v, Normalize(fix)) && !FixedBy(ge, es[0], v);
    }
  }

  /** The events are not sorted first: a fix listed before an introduction is overruled by
      it, for every version past both, also when the fix is the later version. */
  lemma UnsortedFixIsOverruled(ge: AtLeast, intro: string, fix: string, v: string)
    requires intro != "" && intro != "0" && fix != ""
    requires ge(v, Normalize(intro)) && ge(v, Normalize(fix))
    ensures LastOpens(ge, AllBoundaries([Event("", fix), Event(intro, "")]), v)
    ensures !LastOpens(ge, AllBoundaries([Event(intro, ""), Event("", fix)]), v)
    ensures !ge(Normalize(intro), Normalize(fix)) ==> !SameVerdict(ge, AllBoundaries([Event("", fix), Event(intro, "")]), v)
  {
    var i, f := Event(intro, ""), Event("", fix);
    assert [f, i][..1] == [f] && [i, f][..1] == [i] && [f][..0] == [] && [i][..0] == [];
    var bi, bf := Boundary(Some(Normalize(intro)), true), Boundary(Some(Normalize(fix)), false);
    assert AllBoundaries([f]) == [bf] && AllBoundaries([i]) == [bi];
    OneMore(ge, [bf], bi, v);
    OneMore(ge, [bi], bf, v);
    assert AllBoundaries([f, i]) == [bf] + [bi] && AllBoundaries([i, f]) == [bi] + [bf];
    if !ge(Normalize(intro), Normalize(fix)) {
      var bs := AllBoundaries([f, i]);
      assert bs[0] == bf && AtOrBelow(ge, bs[0], v) && !NotAbove(ge, bs[0], bs[1]);
      assert !IsGreatest(ge, bs, v, 2, 1);
    }
  }
}
