/** Cursor pagination over cached scan results: the generic selector of the hybrid
  tools. */
module Pagination {
  import opened Options
  import opened SessionCache

  const FLAT_PAGE_SIZE: nat := 60

  /** A decoded cursor; text that does not decode is `Garbled`. */
  datatype Cursor = NoCursor | Garbled | Token(sid: Sid, off: int, tool: string)

  datatype Input = Input(cursor: Cursor, minSeverity: string, ruleFilter: string, limit: int,
                         tool: string, flatPageSize: int)

  datatype ErrorCode = LimitExceedsPageSize | CursorMalformed | CursorExpired

  datatype Response<T> =
    | Rejected(code: ErrorCode)
    | Failed                      // the scan or the filter returned an error
    | Flat(page: seq<T>, total: nat, sid: Sid, next: Cursor)
    | Summary(findings: seq<T>, sid: Sid, next: Cursor)
    | Crash                       // a slice index out of range

  function EffectivePageSize(flatPageSize: int): int {
    if flatPageSize > 0 then flatPageSize else FLAT_PAGE_SIZE
  }

  function Min(a: int, b: int): int {
    if a < b then a else b
  }

  /** The flat page of `cached` at offset `off`. */
  function FlatPage<T>(cached: seq<T>, off: int, size: nat, sid: Sid, tool: string): Response<T> {
    var o := if off < 0 then 0 else off;
    var end := Min(o + size, |cached|);
    Flat(if o < |cached| then cached[o..end] else [], |cached|, sid, if end < |cached| then Token(sid, end, tool) else NoCursor)
  }

  /** The tool's answer to a call that carries a cursor, given what the cache holds. */
  function Resume<T>(m: Store<T>, inp: Input, now: int): Response<T> {
    match inp.cursor
    case Token(sid, off, tool) =>
      if tool != "" && tool != inp.tool then Rejected(CursorMalformed)
      else
        (match Lookup(m, sid, now)
         case None => Rejected(CursorExpired)
         case Some(e) => FlatPage(e.findings, off, EffectivePageSize(inp.flatPageSize), sid, inp.tool))
    case _ => Rejected(CursorMalformed)
  }

  /** The answer to a call without a cursor, once the scan and the filter are done. */
  function Fresh<T>(inp: Input, findings: seq<T>, filtered: seq<T>, plainSid: Sid, filteredSid: Sid): Response<T> {
    if IsFiltered(inp)
    then FlatPage(filtered, 0, if inp.limit > 0 then inp.limit else EffectivePageSize(inp.flatPageSize), filteredSid, inp.tool)
    else Summary(findings, plainSid, Token(plainSid, 0, inp.tool))
  }

  predicate IsFiltered(inp: Input) {
    inp.limit > 0 || inp.minSeverity != "" || inp.ruleFilter != ""
  }

  predicate TooLarge(inp: Input) {
    inp.limit > EffectivePageSize(inp.flatPageSize)
  }

  /** `SelectAndExecute`. The scan's findings, the filter's result and the two session
      keys are inputs; `None` stands for an error. */
  method SelectAndExecute<T>(inp: Input, scan: Option<seq<T>>, filter: Option<seq<T>>, plainSid: Sid, filteredSid: Sid,
                             cache: Cache<T>, now: int) returns (r: Response<T>)
    modifies cache
    ensures TooLarge(inp) ==> r == Rejected(LimitExceedsPageSize) && cache.entries == old(cache.entries)
    ensures !TooLarge(inp) && !inp.cursor.NoCursor? ==>
      r == Resume(old(cache.entries), inp, now) &&
      forall k, t | t >= now :: Lookup(cache.entries, k, t) == Lookup(old(cache.entries), k, t)
    ensures !TooLarge(inp) && inp.cursor.NoCursor? && (scan.None? || (IsFiltered(inp) && filter.None?)) ==>
      r == Failed && cache.entries == old(cache.entries)
    ensures !TooLarge(inp) && inp.cursor.NoCursor? && scan.Some? && (IsFiltered(inp) ==> filter.Some?) ==>
      var kept := if IsFiltered(inp) then filter.value else scan.value;
      var sid := if IsFiltered(inp) then filteredSid else plainSid;
      r == Fresh(inp, scan.value, kept, plainSid, filteredSid) &&
      cache.entries == old(cache.entries)[sid := Entry(kept, now + SESSION_TTL)]
  {
    if inp.limit > 0 && inp.limit > EffectivePageSize(inp.flatPageSize) {
      return Rejected(LimitExceedsPageSize);
    }
    if !inp.cursor.NoCursor? {
      if inp.cursor.Garbled? || (inp.cursor.tool != "" && inp.cursor.tool != inp.tool) {
        return Rejected(CursorMalformed);
      }
      var sid := inp.cursor.sid;
      var hit := cache.Get(sid, now);
      if hit.None? { return Rejected(CursorExpired); }
      var cached := hit.value.findings;
      var total := |cached|;
      var off := inp.cursor.off;
      if off < 0 { off := 0; }
      var end := off + EffectivePageSize(inp.flatPageSize);
      if end > total { end := total; }
      var page: seq<T> := [];
      if off < total { page := cached[off..end]; }
      var next := NoCursor;
      if end < total { next := Token(sid, end, inp.tool); }
      return Flat(page, total, sid, next);
    }
    if scan.None? { return Failed; }
    var findings := scan.value;
    if IsFiltered(inp) {
      if filter.None? { return Failed; }
      var filtered := filter.value;
      cache.Put(filteredSid, filtered, now);
      var pageSize := EffectivePageSize(inp.flatPageSize);
      if inp.limit > 0 { pageSize := inp.limit; }
      var end := pageSize;
      if end > |filtered| { end := |filtered|; }
      var next := NoCursor;
      if end < |filtered| { next := Token(filteredSid, end, inp.tool); }
      return Flat(filtered[..end], |filtered|, filteredSid, next);
    }
    cache.Put(plainSid, findings, now);
    r := Summary(findings, plainSid, Token(plainSid, 0, inp.tool));
  }

  // ---------- the answers, from the arguments alone ----------

  /** At most `size` entries from `off` on, where a negative offset counts as 0, and a cursor
      to the next one if there is one. */
  predicate PageOf<T(==)>(r: Response<T>, list: seq<T>, off: int, size: nat, sid: Sid, tool: string) {
    var lo := if off < 0 then 0 else off;
    && r.Flat? && r.total == |list| && r.sid == sid
    && (lo >= |list| ==> r.page == [] && r.next == NoCursor)
    && (lo < |list| ==> r.page <= list[lo..] && |r.page| <= size)
    && (lo < |list| && |r.page| < size ==> lo + |r.page| == |list|)
    && (lo < |list| ==> r.next == if lo + |r.page| < |list| then Token(sid, lo + |r.page|, tool) else NoCursor)
  }

  lemma FlatPageIs<T>(cached: seq<T>, off: int, size: nat, sid: Sid, tool: string)
    ensures PageOf(FlatPage(cached, off, size, sid, tool), cached, off, size, sid, tool)
  {}

  /** A call with a cursor: undecodable text and another tool's cursor are malformed, a
      session that is absent or past its time is expired, and otherwise the answer is the
      page at the cursor's offset. */
  lemma ResumeIs<T>(m: Store<T>, inp: Input, now: int)
    requires !inp.cursor.NoCursor?
    ensures var c, r := inp.cursor, Resume(m, inp, now);
      var mine := c.Token? && (c.tool == "" || c.tool == inp.tool);
      var live := mine && c.sid in m && now <= m[c.sid].expiresAt;
      (!mine ==> r == Rejected(CursorMalformed)) && (mine && !live ==> r == Rejected(CursorExpired)) &&
      (live ==> PageOf(r, m[c.sid].findings, c.off, if inp.flatPageSize > 0 then inp.flatPageSize else 60, c.sid, inp.tool))
  {
    if inp.cursor.Token? && inp.cursor.sid in m {
      FlatPageIs(m[inp.cursor.sid].findings, inp.cursor.off, EffectivePageSize(inp.flatPageSize), inp.cursor.sid, inp.tool);
    }
  }

  /** A call without a cursor: with a limit, a severity or a rule it is the first page of the
      filtered list, of the limit's size if there is one; otherwise a summary whose cursor
      starts the full list. And a limit is too large exactly above the page size. */
  lemma FreshIs<T>(inp: Input, findings: seq<T>, filtered: seq<T>, plainSid: Sid, filteredSid: Sid)
    ensures var r, size := Fresh(inp, findings, filtered, plainSid, filteredSid), if inp.flatPageSize > 0 then inp.flatPageSize else 60;
      var narrowed := inp.limit > 0 || inp.minSeverity != "" || inp.ruleFilter != "";
      (IsFiltered(inp) <==> narrowed) && (TooLarge(inp) <==> inp.limit > size) &&
      (narrowed ==> PageOf(r, filtered, 0, if inp.limit > 0 then inp.limit else size, filteredSid, inp.tool)) &&
      (!narrowed ==> r == Summary(findings, plainSid, Token(plainSid, 0, inp.tool)))
  {
    FlatPageIs(filtered, 0, if inp.limit > 0 then inp.limit else EffectivePageSize(inp.flatPageSize), filteredSid, inp.tool);
  }

  // ---------- a client following next_cursor ----------

  /** One follow-up call: its page size and time, and the cache it meets. */
  datatype FollowUp<T> = FollowUp(store: Store<T>, flatPageSize: int, now: int)
  {
    function Size(): nat {
      EffectivePageSize(flatPageSize)
    }
  }

  function Call(c: Cursor, tool: string, flatPageSize: int): Input {
    Input(c, "", "", 0, tool, flatPageSize)
  }

  /** The pages a client collects by following `c` for as many calls as are given. */
  function Collect<T>(c: Cursor, tool: string, calls: seq<FollowUp<T>>): seq<T>
    decreases |calls|
  {
    if calls == [] || !c.Token? then []
    else
      match Resume(calls[0].store, Call(c, tool, calls[0].flatPageSize), calls[0].now)
      case Flat(page, _, _, next) => page + Collect(next, tool, calls[1..])
      case _ => []
  }

  /** The cursor left after those calls. */
  function After<T>(c: Cursor, tool: string, calls: seq<FollowUp<T>>): Cursor
    decreases |calls|
  {
    if calls == [] || !c.Token? then c
    else
      match Resume(calls[0].store, Call(c, tool, calls[0].flatPageSize), calls[0].now)
      case Flat(_, _, _, next) => After(next, tool, calls[1..])
      case _ => c
  }

  /** The session is live at every call and still holds `list`. */
  predicate SessionLives<T(==)>(sid: Sid, list: seq<T>, calls: seq<FollowUp<T>>) {
    forall i | 0 <= i < |calls| ::
      var e := Lookup(calls[i].store, sid, calls[i].now); e.Some? && e.value.findings == list
  }

  function Reach<T>(calls: seq<FollowUp<T>>): nat {
    if calls == [] then 0 else calls[0].Size() + Reach(calls[1..])
  }

  function IssuedNext<T>(sid: Sid, tool: string, list: seq<T>, end: nat): Cursor {
    if end < |list| then Token(sid, end, tool) else NoCursor
  }

  lemma ResumesAt<T>(sid: Sid, tool: string, list: seq<T>, off: nat, calls: seq<FollowUp<T>>)
    requires off <= |list| && SessionLives(sid, list, calls) && calls != []
    ensures var end := Min(off + calls[0].Size(), |list|);
      Resume(calls[0].store, Call(Token(sid, off, tool), tool, calls[0].flatPageSize), calls[0].now)
      == Flat(list[off..end], |list|, sid, IssuedNext(sid, tool, list, end))
  {
    var e := Lookup(calls[0].store, sid, calls[0].now);
    assert Resume(calls[0].store, Call(Token(sid, off, tool), tool, calls[0].flatPageSize), calls[0].now)
        == FlatPage(list, off, calls[0].Size(), sid, tool);
  }

  lemma OneCall<T>(sid: Sid, tool: string, list: seq<T>, off: nat, calls: seq<FollowUp<T>>)
    requires off <= |list| && SessionLives(sid, list, calls) && calls != []
    ensures var end := Min(off + calls[0].Size(), |list|);
      Collect(Token(sid, off, tool), tool, calls) == list[off..end] + Collect(IssuedNext(sid, tool, list, end), tool, calls[1..]) &&
      After(Token(sid, off, tool), tool, calls) == After(IssuedNext(sid, tool, list, end), tool, calls[1..])
  {
    hide Resume, SessionLives, IssuedNext;
    ResumesAt(sid, tool, list, off, calls);
  }

  /** After any follow-up calls from an issued cursor at `off`, with whatever page size
      each asks for, the pages are the list from `off` on without repeat or gap, as far
      as the sizes go; and the chain has ended exactly when they reach the end. */
  lemma {:induction false} ChainIsLossless<T>(sid: Sid, tool: string, list: seq<T>, off: nat, calls: seq<FollowUp<T>>)
    requires off <= |list| && SessionLives(sid, list, calls) && calls != []
    ensures Collect(Token(sid, off, tool), tool, calls) == list[off..Min(off + Reach(calls), |list|)]
    ensures After(Token(sid, off, tool), tool, calls) == IssuedNext(sid, tool, list, off + Reach(calls))
    decreases |calls|
  {
    hide Resume;
    OneCall(sid, tool, list, off, calls);
    var end, rest := Min(off + calls[0].Size(), |list|), calls[1..];
    if end < |list| && rest != [] {
      forall i | 0 <= i < |rest| ensures rest[i] == calls[i + 1] {}
      ChainIsLossless(sid, tool, list, end, rest);
      var last := Min(end + Reach(rest), |list|);
      assert list[off..end] + list[end..last] == list[off..last];
    }
  }

  /** What a first response already shows. */
  function Shown<T>(r: Response<T>): seq<T> {
    if r.Flat? then r.page else []
  }

  /** Whole-run losslessness: whatever the first call (a summary, or a filtered page
      with or without a limit), following its cursor until the sizes cover the list
      yields the cached list exactly, and no cursor is left. */
  lemma FollowingCursorsIsLossless<T>(inp: Input, findings: seq<T>, filtered: seq<T>, plainSid: Sid, filteredSid: Sid,
                                      calls: seq<FollowUp<T>>)
    requires var list := if IsFiltered(inp) then filtered else findings;
      var first := Fresh(inp, findings, filtered, plainSid, filteredSid);
      SessionLives(first.sid, list, calls) && |Shown(first)| + Reach(calls) >= |list| &&
      (first.Summary? ==> calls != [])
    ensures var list := if IsFiltered(inp) then filtered else findings;
      var first := Fresh(inp, findings, filtered, plainSid, filteredSid);
      Shown(first) + Collect(first.next, inp.tool, calls) == list && After(first.next, inp.tool, calls) == NoCursor
  {
    var list := if IsFiltered(inp) then filtered else findings;
    var first := Fresh(inp, findings, filtered, plainSid, filteredSid);
    if first.next.Token? {
      if calls != [] { ChainIsLossless(first.sid, inp.tool, list, first.next.off, calls); }
      assert list == list[..first.next.off] + list[first.next.off..];
    }
  }

  function CeilDiv(n: nat, d: nat): nat
    requires d > 0
  {
    (n + d - 1) / d
  }

  predicate SameSize<T>(calls: seq<FollowUp<T>>, size: nat) {
    forall i | 0 <= i < |calls| :: calls[i].Size() == size
  }

  lemma {:induction false} ReachOfEqualSizes<T>(calls: seq<FollowUp<T>>, size: nat)
    requires SameSize(calls, size)
    ensures Reach(calls) == |calls| * size
  {
    if calls != [] { ReachOfEqualSizes(calls[1..], size); }
  }

  lemma Covers(n: nat, k: nat, d: nat)
    requires d > 0
    ensures k * d >= n <==> k >= CeilDiv(n, d)
  {
    var c := CeilDiv(n, d);
    assert c * d >= n && (n > 0 ==> (c - 1) * d < n);
    if k >= c { Monotone(c, k, d); } else { Monotone(k, c - 1, d); }
  }

  /** With one page size the chain from `off` ends after exactly
      max(1, ceil((total - off) / size)) calls. */
  lemma {:induction false} ChainLength<T>(sid: Sid, tool: string, list: seq<T>, off: nat, calls: seq<FollowUp<T>>, size: nat)
    requires size > 0 && off <= |list| && SessionLives(sid, list, calls) && calls != []
    requires SameSize(calls, size)
    ensures After(Token(sid, off, tool), tool, calls) == NoCursor <==> |calls| >= CeilDiv(|list| - off, size)
  {
    hide *;
    var n: nat := |list| - off;
    assert After(Token(sid, off, tool), tool, calls) == NoCursor <==> Reach(calls) >= n by {
      ChainEnds(sid, tool, list, off, calls);
    }
    assert Reach(calls) >= n <==> |calls| >= CeilDiv(n, size) by { ReachCovers(calls, size, n); }
  }

  lemma ReachCovers<T>(calls: seq<FollowUp<T>>, size: nat, n: nat)
    requires size > 0 && SameSize(calls, size)
    ensures Reach(calls) >= n <==> |calls| >= CeilDiv(n, size)
  {
    ReachOfEqualSizes(calls, size);
    Covers(n, |calls|, size);
  }

  lemma ChainEnds<T>(sid: Sid, tool: string, list: seq<T>, off: nat, calls: seq<FollowUp<T>>)
    requires off <= |list| && SessionLives(sid, list, calls) && calls != []
    ensures After(Token(sid, off, tool), tool, calls) == NoCursor <==> Reach(calls) >= |list| - off
  {
    ChainIsLossless(sid, tool, list, off, calls);
  }

  lemma Monotone(a: nat, b: nat, d: nat)
    requires a <= b
    ensures a * d <= b * d
  {
    assert b * d == a * d + (b - a) * d;
  }
}
