/** The report tool's own selector: no cap on the first page's limit, a filter that is
  projected back onto the report, and a page builder of its own. */
module ReportPaging {
  import opened Options
  import opened SessionCache
  import opened Pagination

  const REPORT_PAGE_SIZE: nat := 24

  datatype ReportInput = ReportInput(cursor: Cursor, minSeverity: string, ruleFilter: string, limit: int, tool: string)

  /** `buildFlatPage`: slices without clamping the offset. */
  function ReportPage<T>(cached: seq<T>, off: int, size: nat, sid: Sid, tool: string): Response<T> {
    var total := |cached|;
    if off >= total then Flat([], total, sid, NoCursor)
    else if off < 0 then Crash
    else
      var end := Min(off + size, total);
      Flat(cached[off..end], total, sid, if end < total then Token(sid, end, tool) else NoCursor)
  }

  /** The report tool pages exactly as the hybrid selector does, for every offset the
      selector would not have to clamp. */
  lemma ReportPageRefines<T>(cached: seq<T>, off: int, size: nat, sid: Sid, tool: string)
    ensures ReportPage(cached, off, size, sid, tool) == FlatPage(cached, off, size, sid, tool) <==> off >= 0
  {}

  // ---------- the filter ----------

  /** Findings that share their rule, file and line with a finding the filter keeps. */
  function Projected<T>(fs: seq<T>, keep: T -> bool, key: T -> string, n: nat): seq<T>
    requires n <= |fs|
  {
    if n == 0 then []
    else
      var before := Projected(fs, keep, key, n - 1);
      if exists i | 0 <= i < |fs| :: keep(fs[i]) && key(fs[i]) == key(fs[n - 1]) then before + [fs[n - 1]] else before
  }

  function Filtered<T>(fs: seq<T>, keep: T -> bool, n: nat): seq<T>
    requires n <= |fs|
  {
    if n == 0 then []
    else if keep(fs[n - 1]) then Filtered(fs, keep, n - 1) + [fs[n - 1]] else Filtered(fs, keep, n - 1)
  }

  method Project<T>(fs: seq<T>, keep: T -> bool, key: T -> string) returns (projected: seq<T>)
    ensures projected == Projected(fs, keep, key, |fs|)
  {
    var kept: set<string> := {};
    for i := 0 to |fs|
      invariant forall k :: k in kept <==> exists j | 0 <= j < i :: keep(fs[j]) && key(fs[j]) == k
    {
      if keep(fs[i]) { kept := kept + {key(fs[i])}; }
    }
    projected := [];
    for i := 0 to |fs|
      invariant projected == Projected(fs, keep, key, i)
    {
      if key(fs[i]) in kept { projected := projected + [fs[i]]; }
    }
  }

  /** No two findings with one key, one kept and one not. */
  predicate KeyDecides<T>(fs: seq<T>, keep: T -> bool, key: T -> string) {
    forall i, j | 0 <= i < |fs| && 0 <= j < |fs| && key(fs[i]) == key(fs[j]) :: keep(fs[i]) == keep(fs[j])
  }

  lemma {:induction false} ProjectionAtLeast<T>(fs: seq<T>, keep: T -> bool, key: T -> string, n: nat)
    requires n <= |fs|
    ensures |Projected(fs, keep, key, n)| >= |Filtered(fs, keep, n)|
    ensures KeyDecides(fs, keep, key) ==> Projected(fs, keep, key, n) == Filtered(fs, keep, n)
    ensures |Projected(fs, keep, key, n)| == |Filtered(fs, keep, n)| ==>
      forall j | 0 <= j < n :: keep(fs[j]) || !exists i | 0 <= i < |fs| :: keep(fs[i]) && key(fs[i]) == key(fs[j])
  {
    if n > 0 { ProjectionAtLeast(fs, keep, key, n - 1); }
  }

  /** The report tool shows exactly the filtered findings if and only if rule, file and
      line decide what the filter keeps; otherwise dropped findings come back. */
  lemma ProjectionIsFilterExactly<T>(fs: seq<T>, keep: T -> bool, key: T -> string)
    ensures Projected(fs, keep, key, |fs|) == Filtered(fs, keep, |fs|) <==> KeyDecides(fs, keep, key)
  {
    ProjectionAtLeast(fs, keep, key, |fs|);
    if Projected(fs, keep, key, |fs|) == Filtered(fs, keep, |fs|) {
      forall i, j | 0 <= i < |fs| && 0 <= j < |fs| && key(fs[i]) == key(fs[j]) ensures keep(fs[i]) == keep(fs[j]) {}
    }
  }

  /** What filter and projection look at; the line as it stands in the key. */
  datatype Listed = Listed(rule: string, file: string, line: string, severity: string)

  function ListedKey(f: Listed): string {
    f.rule + "#" + f.file + "#" + f.line
  }

  predicate IsCritical(f: Listed) {
    f.severity == "CRITICAL"
  }

  /** Dropped findings do come back: a critical field with a high-severity tag on its line,
      as the PAN scanner reports them. The filter keeps the field, the tool shows both. */
  lemma DroppedFindingReturns(fs: seq<Listed>)
    requires fs == [Listed("PAN-KEYWORD", "card.go", "12", "CRITICAL"), Listed("PAN-KEYWORD", "card.go", "12", "HIGH")]
    ensures Filtered(fs, IsCritical, |fs|) == fs[..1] && Projected(fs, IsCritical, ListedKey, |fs|) == fs
  {
    assert IsCritical(fs[0]) && ListedKey(fs[0]) == ListedKey(fs[1]);
    assert Filtered(fs, IsCritical, 0) == [] && Filtered(fs, IsCritical, 1) == [fs[0]];
    assert Projected(fs, IsCritical, ListedKey, 0) == [] && Projected(fs, IsCritical, ListedKey, 1) == [fs[0]];
  }

  // ---------- the selector ----------

  function ReportResume<T>(m: Store<T>, cursor: Cursor, tool: string, now: int): Response<T> {
    match cursor
    case Token(sid, off, issuer) =>
      if issuer != "" && issuer != tool then Rejected(CursorMalformed)
      else
        (match Lookup(m, sid, now)
         case None => Rejected(CursorExpired)
         case Some(e) => ReportPage(e.findings, off, REPORT_PAGE_SIZE, sid, tool))
    case _ => Rejected(CursorMalformed)
  }

  predicate Narrowed(inp: ReportInput) {
    inp.limit > 0 || inp.minSeverity != "" || inp.ruleFilter != ""
  }

  function ReportFresh<T>(inp: ReportInput, findings: seq<T>, projected: seq<T>, plainSid: Sid, filteredSid: Sid): Response<T> {
    if Narrowed(inp)
    then ReportPage(projected, 0, if inp.limit > 0 then inp.limit else REPORT_PAGE_SIZE, filteredSid, inp.tool)
    else Summary(findings, plainSid, Token(plainSid, 0, inp.tool))
  }

  /** `SelectAndExecute` of the report tool. The generated report, the filter's predicate
      and the two session keys are inputs; `None` stands for an error. A limit above the
      page size is not refused. */
  method SelectReport<T>(inp: ReportInput, report: Option<seq<T>>, filter: Option<T -> bool>, key: T -> string,
                         plainSid: Sid, filteredSid: Sid, cache: Cache<T>, now: int) returns (r: Response<T>)
    modifies cache
    ensures !inp.cursor.NoCursor? ==>
      r == ReportResume(old(cache.entries), inp.cursor, inp.tool, now) &&
      forall k, t | t >= now :: Lookup(cache.entries, k, t) == Lookup(old(cache.entries), k, t)
    ensures inp.cursor.NoCursor? && (report.None? || (Narrowed(inp) && filter.None?)) ==>
      r == Failed && cache.entries == old(cache.entries)
    ensures inp.cursor.NoCursor? && report.Some? && (Narrowed(inp) ==> filter.Some?) ==>
      var list := if Narrowed(inp) then Projected(report.value, filter.value, key, |report.value|) else report.value;
      var sid := if Narrowed(inp) then filteredSid else plainSid;
      r == ReportFresh(inp, report.value, list, plainSid, filteredSid) &&
      cache.entries == old(cache.entries)[sid := Entry(list, now + SESSION_TTL)]
  {
    if !inp.cursor.NoCursor? {
      if inp.cursor.Garbled? || (inp.cursor.tool != "" && inp.cursor.tool != inp.tool) {
        return Rejected(CursorMalformed);
      }
      var hit := cache.Get(inp.cursor.sid, now);
      if hit.None? { return Rejected(CursorExpired); }
      var flat := BuildFlatPage(hit.value.findings, inp.cursor.off, REPORT_PAGE_SIZE, inp.cursor.sid, inp.tool);
      return flat;
    }
    if report.None? { return Failed; }
    if Narrowed(inp) {
      if filter.None? { return Failed; }
      var projected := Project(report.value, filter.value, key);
      cache.Put(filteredSid, projected, now);
      var pageSize := REPORT_PAGE_SIZE;
      if inp.limit > 0 { pageSize := inp.limit; }
      r := BuildFlatPage(projected, 0, pageSize, filteredSid, inp.tool);
      return;
    }
    cache.Put(plainSid, report.value, now);
    r := Summary(report.value, plainSid, Token(plainSid, 0, inp.tool));
  }

  method BuildFlatPage<T>(cached: seq<T>, off: int, pageSize: nat, sid: Sid, tool: string) returns (r: Response<T>)
    ensures r == ReportPage(cached, off, pageSize, sid, tool)
  {
    var total := |cached|;
    if off >= total { return Flat([], total, sid, NoCursor); }
    var end := off + pageSize;
    if end > total { end := total; }
    if off < 0 { return Crash; }
    var page := cached[off..end];
    var next := NoCursor;
    if end < total { next := Token(sid, end, tool); }
    r := Flat(page, total, sid, next);
  }

  // ---------- the answers, from the arguments alone ----------

  /** A call with a cursor: as the shared selector answers it with pages of 24, except that a
      negative offset of a live session is a slice out of range. */
  lemma ReportResumeIs<T>(m: Store<T>, cursor: Cursor, tool: string, now: int)
    requires !cursor.NoCursor?
    ensures var r := ReportResume(m, cursor, tool, now);
      var mine := cursor.Token? && (cursor.tool == "" || cursor.tool == tool);
      var live := mine && cursor.sid in m && now <= m[cursor.sid].expiresAt;
      (!mine ==> r == Rejected(CursorMalformed)) && (mine && !live ==> r == Rejected(CursorExpired)) &&
      (live && cursor.off >= 0 ==> PageOf(r, m[cursor.sid].findings, cursor.off, 24, cursor.sid, tool)) &&
      (live && cursor.off < 0 ==> r == Crash)
  {
    if cursor.Token? && cursor.sid in m {
      ReportPageRefines(m[cursor.sid].findings, cursor.off, REPORT_PAGE_SIZE, cursor.sid, tool);
      FlatPageIs(m[cursor.sid].findings, cursor.off, REPORT_PAGE_SIZE, cursor.sid, tool);
    }
  }

  /** A call without a cursor: a page of the limit's size, whatever it is, or of 24; or a
      summary whose cursor starts the full list. */
  lemma ReportFreshIs<T>(inp: ReportInput, findings: seq<T>, projected: seq<T>, plainSid: Sid, filteredSid: Sid)
    ensures var r := ReportFresh(inp, findings, projected, plainSid, filteredSid);
      var narrowed := inp.limit > 0 || inp.minSeverity != "" || inp.ruleFilter != "";
      (Narrowed(inp) <==> narrowed) &&
      (narrowed ==> PageOf(r, projected, 0, if inp.limit > 0 then inp.limit else 24, filteredSid, inp.tool)) &&
      (!narrowed ==> r == Summary(findings, plainSid, Token(plainSid, 0, inp.tool)))
  {
    var size := if inp.limit > 0 then inp.limit else REPORT_PAGE_SIZE;
    ReportPageRefines(projected, 0, size, filteredSid, inp.tool);
    FlatPageIs(projected, 0, size, filteredSid, inp.tool);
  }

  // ---------- a client following the report tool's cursors ----------

  /** One follow-up call: when it is made, and the cache it meets. */
  datatype Visit<T> = Visit(store: Store<T>, now: int)

  function ReportCollect<T>(c: Cursor, tool: string, calls: seq<Visit<T>>): seq<T>
    decreases |calls|
  {
    if calls == [] || !c.Token? then []
    else
      match ReportResume(calls[0].store, c, tool, calls[0].now)
      case Flat(page, _, _, next) => page + ReportCollect(next, tool, calls[1..])
      case _ => []
  }

  function ReportAfter<T>(c: Cursor, tool: string, calls: seq<Visit<T>>): Cursor
    decreases |calls|
  {
    if calls == [] || !c.Token? then c
    else
      match ReportResume(calls[0].store, c, tool, calls[0].now)
      case Flat(_, _, _, next) => ReportAfter(next, tool, calls[1..])
      case _ => c
  }

  function AsFollowUps<T>(calls: seq<Visit<T>>): (r: seq<FollowUp<T>>)
    ensures |r| == |calls| && forall i | 0 <= i < |calls| :: r[i] == FollowUp(calls[i].store, REPORT_PAGE_SIZE, calls[i].now)
  {
    seq(|calls|, i requires 0 <= i < |calls| => FollowUp(calls[i].store, REPORT_PAGE_SIZE, calls[i].now))
  }

  /** From every cursor with an offset in range of the selector, the report tool's run is
      the selector's run with page size 24. */
  lemma {:induction false} ReportRunIs<T>(c: Cursor, tool: string, calls: seq<Visit<T>>)
    requires c.Token? ==> c.off >= 0
    ensures ReportCollect(c, tool, calls) == Collect(c, tool, AsFollowUps(calls))
    ensures ReportAfter(c, tool, calls) == After(c, tool, AsFollowUps(calls))
    decreases |calls|
  {
    if calls != [] && c.Token? {
      var fs := AsFollowUps(calls);
      assert fs[1..] == AsFollowUps(calls[1..]);
      var r := ReportResume(calls[0].store, c, tool, calls[0].now);
      assert r == Resume(fs[0].store, Pagination.Call(c, tool, fs[0].flatPageSize), fs[0].now);
      if r.Flat? { ReportRunIs(r.next, tool, calls[1..]); }
    }
  }

  predicate ReportSessionLives<T(==)>(sid: Sid, list: seq<T>, calls: seq<Visit<T>>) {
    forall i | 0 <= i < |calls| ::
      var e := Lookup(calls[i].store, sid, calls[i].now); e.Some? && e.value.findings == list
  }

  lemma SameSessions<T>(sid: Sid, list: seq<T>, calls: seq<Visit<T>>)
    requires ReportSessionLives(sid, list, calls)
    ensures SessionLives(sid, list, AsFollowUps(calls)) && SameSize(AsFollowUps(calls), REPORT_PAGE_SIZE)
    ensures Reach(AsFollowUps(calls)) == |calls| * REPORT_PAGE_SIZE
  {
    ReachOfEqualSizes(AsFollowUps(calls), REPORT_PAGE_SIZE);
  }

  /** Whole-run losslessness of the report tool: whatever the first call was, a summary or
      a narrowed page of any limit, following its cursor until the pages cover the list
      yields the cached list exactly, and no cursor is left. */
  lemma ReportIsLossless<T>(inp: ReportInput, findings: seq<T>, projected: seq<T>, plainSid: Sid, filteredSid: Sid,
                            calls: seq<Visit<T>>)
    requires var list := if Narrowed(inp) then projected else findings;
      var first := ReportFresh(inp, findings, projected, plainSid, filteredSid);
      ReportSessionLives(first.sid, list, calls) &&
      |Shown(first)| + |calls| * REPORT_PAGE_SIZE >= |list| && (first.Summary? ==> calls != [])
    ensures var list := if Narrowed(inp) then projected else findings;
      var first := ReportFresh(inp, findings, projected, plainSid, filteredSid);
      Shown(first) + ReportCollect(first.next, inp.tool, calls) == list && ReportAfter(first.next, inp.tool, calls) == NoCursor
  {
    var first := ReportFresh(inp, findings, projected, plainSid, filteredSid);
    var same := Input(inp.cursor, inp.minSeverity, inp.ruleFilter, inp.limit, inp.tool, REPORT_PAGE_SIZE);
    assert first == Fresh(same, findings, projected, plainSid, filteredSid);
    SameSessions(first.sid, if Narrowed(inp) then projected else findings, calls);
    FollowingCursorsIsLossless(same, findings, projected, plainSid, filteredSid, AsFollowUps(calls));
    ReportRunIs(first.next, inp.tool, calls);
  }

  /** From an issued cursor the chain has ended exactly from ceil(remaining / 24) calls on. */
  lemma {:induction false} ReportChainLength<T>(sid: Sid, tool: string, list: seq<T>, off: nat, calls: seq<Visit<T>>)
    requires off <= |list| && ReportSessionLives(sid, list, calls) && calls != []
    ensures ReportAfter(Token(sid, off, tool), tool, calls) == NoCursor <==> |calls| >= CeilDiv(|list| - off, REPORT_PAGE_SIZE)
  {
    SameSessions(sid, list, calls);
    ReportRunIs(Token(sid, off, tool), tool, calls);
    ChainLength(sid, tool, list, off, AsFollowUps(calls), REPORT_PAGE_SIZE);
  }

  /** No issued cursor carries an offset outside the list, so no cursor a client was
      given makes the report tool slice out of range. */
  lemma IssuedOffsetsInRange<T>(cached: seq<T>, off: int, size: nat, sid: Sid, tool: string)
    ensures var r := ReportPage(cached, off, size, sid, tool);
      r.Flat? && r.next.Token? ==>
        0 <= r.next.off < |cached| && (size > 0 ==> off < r.next.off) && !ReportPage(cached, r.next.off, REPORT_PAGE_SIZE, sid, tool).Crash?
    ensures var r := FlatPage(cached, off, size, sid, tool);
      r.next.Token? ==> 0 <= r.next.off < |cached| && (size > 0 ==> off < r.next.off)
  {}
}
