/** Cursor paging over a history that grows at its live end: the newest-first walk
    both pagers use, and what a whole run of pages shows. */
module Paging {
  import opened Options
  import opened Events

  // ---------- one page ----------

  /** Where the anchor cuts the listed events: before the anchor, or at the end. */
  function Cut(all: seq<Event>, before: Option<EventId>): Option<nat> {
    match before
    case None => Some(|all|)
    case Some(id) => var k := Position(all, id); if k < |all| then Some(k) else None
  }

  /** The events before the anchor, or nothing if the anchor is not listed. */
  function SliceBefore(all: seq<Event>, before: Option<EventId>): seq<Event> {
    match Cut(all, before) case Some(k) => all[..k] case None => []
  }

  datatype Verdict = Enough(slice: seq<Event>) | Lost | More

  /** One look at the listed events: a page's worth is there (or nothing older can
      come), the anchor is gone for good, or more must be fetched. */
  function Look(all: seq<Event>, before: Option<EventId>, limit: nat, shown: Event -> bool, reachedStart: bool)
    : Verdict
  {
    match Cut(all, before)
    case Some(cut) =>
      if |Filter(all[..cut], shown)| >= limit || reachedStart then Enough(all[..cut]) else More
    case None =>
      if reachedStart then Lost else More
  }

  /** The ids a stretch of events redacts. */
  function RedactedBy(events: seq<Event>): (ids: set<EventId>)
    ensures forall e :: e in events && e.Redaction? ==> e.redacts in ids
    ensures forall id :: id in ids ==> exists e :: e in events && e.Redaction? && e.redacts == id
  {
    if events == [] then {}
    else (if events[0].Redaction? then {events[0].redacts} else {}) + RedactedBy(events[1..])
  }

  /** The walk of a page: newest first over `events`, collecting shown events until
      `limit` are found. */
  method WalkNewestFirst(events: seq<Event>, limit: nat, shown: Event -> bool)
    returns (consumed: nat, kept: seq<Event>, redacted: set<EventId>)
    requires forall e: Event :: e.Redaction? ==> !shown(e)
    ensures consumed <= |events|
    ensures kept == Reversed(Filter(events[|events| - consumed..], shown))
    ensures |kept| <= limit && (|kept| < limit ==> consumed == |events|)
    ensures 0 < |kept| == limit ==> shown(events[|events| - consumed])
    ensures limit == 0 || events == [] <==> consumed == 0
    ensures redacted == RedactedBy(events[|events| - consumed..])
  {
    consumed, kept, redacted := 0, [], {};
    ghost var walked := [];
    while consumed < |events| && |kept| < limit
      invariant consumed <= |events| && walked == events[|events| - consumed..]
      invariant Tracks(walked, shown, kept, redacted) && |kept| <= limit
      invariant 0 < |kept| == limit ==> shown(events[|events| - consumed])
      invariant consumed > 0 ==> limit > 0
    {
      var ev := events[|events| - consumed - 1];
      WalkStep(ev, walked, shown, kept, redacted);
      assert events[|events| - consumed - 1..] == [ev] + walked;
      walked := [ev] + walked;
      consumed := consumed + 1;
      if ev.Redaction? {
        redacted := redacted + {ev.redacts};
      } else if shown(ev) {
        kept := kept + [ev];
      }
    }
  }

  /** What the walk holds after the stretch `walked`. */
  ghost predicate Tracks(walked: seq<Event>, shown: Event -> bool, kept: seq<Event>, redacted: set<EventId>) {
    kept == Reversed(Filter(walked, shown)) && redacted == RedactedBy(walked)
  }

  lemma {:induction false} WalkStep(ev: Event, walked: seq<Event>, shown: Event -> bool, kept: seq<Event>,
                                    redacted: set<EventId>)
    requires Tracks(walked, shown, kept, redacted)
    ensures Tracks([ev] + walked, shown, if shown(ev) then kept + [ev] else kept,
                   if ev.Redaction? then redacted + {ev.redacts} else redacted)
  {
    assert ([ev] + walked)[1..] == walked;
    var rest := Filter(walked, shown);
    if shown(ev) { assert ([ev] + rest)[1..] == rest; }
  }

  /** The cursor a page hands back. */
  function NextCursor(events: seq<Event>, consumed: nat, reachedStart: bool): Option<EventId>
    requires consumed <= |events|
  {
    if (consumed >= |events| && reachedStart) || consumed == 0 then None
    else events[|events| - consumed].id
  }

  // ---------- what a page is, against the whole history ----------

  /** `hi` is where the anchor sits in the history: the page ends just before it. */
  ghost predicate At(history: seq<Event>, before: Option<EventId>, hi: nat) {
    hi <= |history| &&
    match before
    case None => hi == |history|
    case Some(id) => hi < |history| && history[hi].id == Some(id)
  }

  /** A page walks history[lo..hi]: up to the anchor, and from the event its cursor names,
      if it has one. */
  ghost predicate Walks(history: seq<Event>, before: Option<EventId>, next: Option<EventId>, lo: nat, hi: nat) {
    lo <= hi && At(history, before, hi) &&
    match next
    case None => true
    case Some(id) => lo < hi && history[lo].id == Some(id)
  }

  /** Anchors are unique, so the same anchor means the same place, also after the
      history has grown. */
  lemma {:induction false} AnchorStable(h: seq<Event>, h': seq<Event>, id: EventId, i: nat, j: nat)
    requires h <= h' && UniqueIds(h')
    requires i < |h| && h[i].id == Some(id)
    requires At(h', Some(id), j)
    ensures i == j
  {
    assert h'[i] == h[i];
  }

  // ---------- runs ----------

  /** One request of a run: the history at that moment, the cursors, what was shown
      (oldest first), and the stretch walked. */
  datatype Call = Call(history: seq<Event>, before: Option<EventId>, next: Option<EventId>,
                       shown: seq<Event>, lo: nat, hi: nat)

  ghost predicate ValidCall(c: Call, shown: Event -> bool) {
    UniqueIds(c.history) && Walks(c.history, c.before, c.next, c.lo, c.hi) &&
    c.shown == Filter(c.history[c.lo..c.hi], shown)
  }

  /** `c` passes the cursor `prev` handed out; meanwhile the live end may have grown. */
  ghost predicate Follows(prev: Call, c: Call) {
    prev.next.Some? && c.before == prev.next && prev.history <= c.history
  }

  /** Following `next` from no cursor, while the history may grow at its live end
      between requests. */
  ghost predicate IsRun(calls: seq<Call>, shown: Event -> bool) {
    |calls| > 0 && calls[0].before == None &&
    (forall k :: 0 <= k < |calls| ==> ValidCall(calls[k], shown)) &&
    (forall j, k :: 0 <= j < |calls| && k == j + 1 < |calls| ==> Follows(calls[j], calls[k]))
  }

  /** The stretches walked, joined oldest first. */
  function JoinedStretch(calls: seq<Call>): seq<Event>
    requires forall c :: c in calls ==> c.lo <= c.hi <= |c.history|
  {
    if calls == [] then []
    else
      var last := calls[|calls| - 1];
      last.history[last.lo..last.hi] + JoinedStretch(calls[..|calls| - 1])
  }

  /** The pages shown, joined oldest first. */
  function JoinedPages(calls: seq<Call>): seq<Event> {
    if calls == [] then [] else calls[|calls| - 1].shown + JoinedPages(calls[..|calls| - 1])
  }

  /** A page starts where the one before it left off. */
  lemma {:induction false} PagesMeet(prev: Call, c: Call, shown: Event -> bool)
    requires ValidCall(prev, shown) && ValidCall(c, shown) && Follows(prev, c)
    ensures c.lo <= c.hi == prev.lo < prev.hi
  {
    AnchorStable(prev.history, c.history, c.before.value, prev.lo, c.hi);
  }

  /** One more page extends what has been covered of `h`, the first history. */
  lemma {:induction false} PageExtends(h: seq<Event>, c: Call, shown: Event -> bool)
    requires ValidCall(c, shown) && h <= c.history && c.hi <= |h|
    ensures c.history[c.lo..c.hi] + h[c.hi..] == h[c.lo..]
    ensures c.shown + Filter(h[c.hi..], shown) == Filter(h[c.lo..], shown)
  {
    assert c.history[c.lo..c.hi] == h[c.lo..c.hi];
    assert h[c.lo..] == h[c.lo..c.hi] + h[c.hi..];
    FilterConcat(h[c.lo..c.hi], h[c.hi..], shown);
  }

  /** What a run has covered so far: everything from its oldest cursor up to the live end
      as of the first request, in at most that many pages. */
  ghost predicate Covered(calls: seq<Call>, shown: Event -> bool)
    requires |calls| > 0
    requires forall c :: c in calls ==> c.lo <= c.hi <= |c.history|
  {
    var h, last := calls[0].history, calls[|calls| - 1];
    h <= last.history && last.hi + |calls| <= |h| + 1 &&
    JoinedStretch(calls) == h[last.lo..] &&
    JoinedPages(calls) == Filter(h[last.lo..], shown)
  }

  lemma {:induction false} FirstCovered(c: Call, shown: Event -> bool)
    requires ValidCall(c, shown) && c.before == None
    ensures Covered([c], shown)
  {
    var h := c.history;
    assert h[c.hi..] == [] && [c][..0] == [];
    PageExtends(h, c, shown);
  }

  lemma {:induction false} CoveredGrows(calls: seq<Call>, c: Call, shown: Event -> bool)
    requires calls != [] && forall x :: x in calls + [c] ==> x.lo <= x.hi <= |x.history|
    requires Covered(calls, shown) && ValidCall(calls[|calls| - 1], shown) && ValidCall(c, shown)
    requires Follows(calls[|calls| - 1], c)
    ensures Covered(calls + [c], shown)
  {
    var all := calls + [c];
    assert all[..|calls|] == calls;
    PagesMeet(calls[|calls| - 1], c, shown);
    PageExtends(calls[0].history, c, shown);
  }

  /** A run of more than one page is a run and a page that follows it. */
  lemma {:induction false} RunSplits(calls: seq<Call>, shown: Event -> bool) returns (before: seq<Call>, c: Call)
    requires IsRun(calls, shown) && |calls| > 1
    ensures calls == before + [c] && 0 < |before| < |calls| && IsRun(before, shown)
    ensures ValidCall(before[|before| - 1], shown) && ValidCall(c, shown) && Follows(before[|before| - 1], c)
  {
    var n := |calls| - 1;
    before, c := calls[..n], calls[n];
    assert ValidCall(calls[n - 1], shown) && Follows(calls[n - 1], calls[n]);
  }

  lemma {:induction false} RunSoFar(calls: seq<Call>, shown: Event -> bool)
    requires IsRun(calls, shown)
    ensures forall c :: c in calls ==> c.lo <= c.hi <= |c.history|
    ensures Covered(calls, shown)
    decreases |calls|
  {
    if |calls| == 1 {
      assert ValidCall(calls[0], shown) && calls == [calls[0]];
      FirstCovered(calls[0], shown);
    } else {
      var before, c := RunSplits(calls, shown);
      RunSoFar(before, shown);
      CoveredGrows(before, c, shown);
    }
  }

  /** Paging completeness. A run that has ended shows, joined oldest first, exactly the
      shown events of the history as of its first request, provided its last page either
      reached the start or had nothing before it. */
  lemma {:induction false} RunIsComplete(calls: seq<Call>, shown: Event -> bool)
    requires IsRun(calls, shown)
    requires calls[|calls| - 1].next.None? && calls[|calls| - 1].lo == 0
    ensures JoinedPages(calls) == Filter(calls[0].history, shown)
    ensures forall c :: c in calls ==> c.lo <= c.hi <= |c.history|
    ensures JoinedStretch(calls) == calls[0].history
  {
    RunSoFar(calls, shown);
    assert calls[0].history[0..] == calls[0].history;
  }

  /** For an ended run the stretches cover the history exactly when the last page walked to
      its very start. */
  lemma {:induction false} RunCompleteIff(calls: seq<Call>, shown: Event -> bool)
    requires IsRun(calls, shown) && calls[|calls| - 1].next.None?
    ensures forall c :: c in calls ==> c.lo <= c.hi <= |c.history|
    ensures JoinedStretch(calls) == calls[0].history <==> calls[|calls| - 1].lo == 0
  {
    RunSoFar(calls, shown);
    var last, h := calls[|calls| - 1], calls[0].history;
    assert ValidCall(last, shown);
    if last.lo == 0 {
      assert h[0..] == h;
    } else {
      assert |h[last.lo..]| < |h|;
    }
  }

  /** A run has at most one page more than its first history has events, and each page
      lies wholly before every earlier one. */
  lemma {:induction false} RunIsBounded(calls: seq<Call>, shown: Event -> bool)
    requires IsRun(calls, shown)
    ensures |calls| <= |calls[0].history| + 1
    ensures forall i, j :: 0 <= i < j < |calls| ==> calls[j].hi <= calls[i].lo < calls[i].hi
  {
    RunSoFar(calls, shown);
    forall i, j | 0 <= i < j < |calls| ensures calls[j].hi <= calls[i].lo < calls[i].hi {
      CursorsDescend(calls, shown, i, j);
    }
  }

  lemma {:induction false} CursorsDescend(calls: seq<Call>, shown: Event -> bool, i: nat, j: nat)
    requires IsRun(calls, shown) && i < j < |calls|
    ensures calls[j].hi <= calls[i].lo < calls[i].hi
    decreases j
  {
    assert Follows(calls[j - 1], calls[j]);
    PagesMeet(calls[j - 1], calls[j], shown);
    if i < j - 1 { CursorsDescend(calls, shown, i, j - 1); }
  }

  lemma {:induction false} FilterComplete(events: seq<Event>, shown: Event -> bool)
    ensures forall e :: e in Filter(events, shown) <==> e in events && shown(e)
    ensures UniqueIds(events) ==> UniqueIds(Filter(events, shown))
  {
    if events != [] {
      FilterComplete(events[1..], shown);
      assert events == [events[0]] + events[1..];
      if UniqueIds(events) {
        var rest, all := Filter(events[1..], shown), Filter(events, shown);
        forall i | 0 <= i < |rest| ensures rest[i].id.Some? && rest[i].id != events[0].id {
          assert rest[i] in events[1..];
          var k :| 0 <= k < |events| - 1 && events[1..][k] == rest[i];
          assert events[k + 1] == rest[i];
        }
        assert UniqueIds(events[1..]) by {
          forall i | 0 <= i < |events| - 1 ensures events[1..][i] == events[i + 1] {}
        }
      }
    }
  }

  /** Over a complete run every shown event of the first history appears, and no id
      appears twice. */
  lemma {:induction false} EachShownOnce(calls: seq<Call>, shown: Event -> bool)
    requires IsRun(calls, shown)
    requires calls[|calls| - 1].next.None? && calls[|calls| - 1].lo == 0
    ensures forall e :: e in JoinedPages(calls) <==> e in calls[0].history && shown(e)
    ensures UniqueIds(JoinedPages(calls))
  {
    RunIsComplete(calls, shown);
    FilterComplete(calls[0].history, shown);
    assert ValidCall(calls[0], shown);
  }
}
