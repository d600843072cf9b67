/** What a client sees that follows the timeline's `next` cursors to the end. */
module TimelineRuns {
  import opened Options
  import opened Events
  import opened ChunkListing
  import opened EventCache
  import opened Paging
  import opened Relations
  import opened Sequences
  import opened Timeline

  /** How a request came out: as usual; having spent its rounds without an event before its
      anchor; or without a cursor at a gap that came between the report of the start and the
      reading of the cache. */
  datatype Ending = Usual | GivenUp | CutShort

  /** One timeline request. */
  datatype PageCall = PageCall(history: seq<Event>, before: Option<EventId>, limit: nat, l: Lookups, page: Page,
                               lo: nat, hi: nat, ending: Ending)

  ghost predicate ValidPageCall(c: PageCall, converts: Event -> bool) {
    UniqueIds(c.history) && Faithful(c.l, converts) &&
    match c.ending
    case Usual => IsPage(c.history, c.before, c.limit, c.l, c.page, c.lo, c.hi)
    case GivenUp => c.page == Page([], None) && c.lo == c.hi && At(c.history, c.before, c.hi)
    case CutShort => c.page.next.None? && IsStretchPage(c.history, c.before, c.limit, c.l, c.page, c.lo, c.hi)
  }

  /** What ending early costs: a message of the history comes before what was walked. */
  ghost predicate Misses(c: PageCall, converts: Event -> bool) {
    !c.ending.Usual? && c.lo <= |c.history| &&
    exists e :: e in c.history[..c.lo] && IsMessageLike(e) && converts(e)
  }

  /** Following `next` from no cursor. Limits and lookups may differ from page to page,
      and sync may append to the history in between. */
  ghost predicate IsPageRun(calls: seq<PageCall>, converts: Event -> bool) {
    |calls| > 0 && calls[0].before == None &&
    (forall k :: 0 <= k < |calls| ==> ValidPageCall(calls[k], converts)) &&
    Linked(calls)
  }

  /** Each request passes the cursor of the one before it. */
  ghost predicate Linked(calls: seq<PageCall>) {
    forall j, k :: 0 <= j < |calls| && k == j + 1 < |calls| ==> Continues(calls[j], calls[k])
  }

  ghost predicate Continues(prev: PageCall, c: PageCall) {
    prev.page.next.Some? && c.before == prev.page.next && prev.history <= c.history
  }

  ghost function AsCall(c: PageCall): Call
    requires c.lo <= c.hi <= |c.history|
  {
    Call(c.history, c.before, c.page.next, Filter(c.history[c.lo..c.hi], IsMessageLike), c.lo, c.hi)
  }

  ghost function AsCalls(calls: seq<PageCall>): (r: seq<Call>)
    requires forall c :: c in calls ==> c.lo <= c.hi <= |c.history|
    ensures |r| == |calls| && forall k :: 0 <= k < |r| ==> r[k] == AsCall(calls[k])
  {
    if calls == [] then [] else AsCalls(calls[..|calls| - 1]) + [AsCall(calls[|calls| - 1])]
  }

  /** The message ids of the pages, joined oldest first. */
  function JoinedIds(calls: seq<PageCall>): seq<EventId> {
    if calls == [] then []
    else MessageIds(calls[|calls| - 1].page.messages) + JoinedIds(calls[..|calls| - 1])
  }

  lemma {:induction false} HaveIdsConcat(a: seq<Event>, b: seq<Event>)
    requires HaveIds(a) && HaveIds(b)
    ensures HaveIds(a + b)
  {
  }

  lemma {:induction false} IdsConcat(a: seq<Event>, b: seq<Event>, converts: Event -> bool)
    requires HaveIds(a) && HaveIds(b)
    ensures HaveIds(a + b) && IdsOf(a + b, converts) == IdsOf(a, converts) + IdsOf(b, converts)
  {
    if a == [] {
      assert a + b == b;
    } else {
      assert (a + b)[1..] == a[1..] + b;
      HaveIdsConcat(a, b);
      IdsConcat(a[1..], b, converts);
      Regroup(if converts(a[0]) then [a[0].id.value] else [], IdsOf(a[1..], converts), IdsOf(b, converts));
    }
  }

  lemma {:induction false} StretchHasIds(h: seq<Event>, lo: nat, hi: nat, shown: Event -> bool)
    requires HaveIds(h) && lo <= hi <= |h|
    ensures HaveIds(Filter(h[lo..hi], shown))
  {
    forall e | e in Filter(h[lo..hi], shown) ensures e.id.Some? {
      assert e in h[lo..hi];
    }
  }

  /** The ids on a page are those of the convertible events it walked. */
  lemma {:induction false} PageShows(c: PageCall, converts: Event -> bool)
    requires ValidPageCall(c, converts)
    ensures c.lo <= c.hi <= |c.history| && HaveIds(Filter(c.history[c.lo..c.hi], IsMessageLike))
    ensures MessageIds(c.page.messages) == IdsOf(Filter(c.history[c.lo..c.hi], IsMessageLike), converts)
  {
    var walked := c.history[c.lo..c.hi];
    StretchHasIds(c.history, c.lo, c.hi, IsMessageLike);
    if c.ending.GivenUp? {
      assert walked == [];
    } else {
      MessagesKeepIds(Filter(walked, IsMessageLike), c.l, RedactedBy(walked), converts);
    }
  }

  /** Page by page, the ids a client sees are those of the convertible events walked. */
  lemma {:induction false} PagesShowEvents(calls: seq<PageCall>, converts: Event -> bool)
    requires forall k :: 0 <= k < |calls| ==> ValidPageCall(calls[k], converts)
    ensures forall c :: c in calls ==> c.lo <= c.hi <= |c.history|
    ensures HaveIds(JoinedPages(AsCalls(calls)))
    ensures JoinedIds(calls) == IdsOf(JoinedPages(AsCalls(calls)), converts)
  {
    if calls != [] {
      var before, last := calls[..|calls| - 1], calls[|calls| - 1];
      PagesShowEvents(before, converts);
      PageShows(last, converts);
      var all := AsCalls(calls);
      assert all[..|all| - 1] == AsCalls(before);
      IdsConcat(Filter(last.history[last.lo..last.hi], IsMessageLike), JoinedPages(AsCalls(before)), converts);
    }
  }

  lemma {:induction false} RunOfCalls(calls: seq<PageCall>, converts: Event -> bool)
    requires IsPageRun(calls, converts)
    ensures forall c :: c in calls ==> c.lo <= c.hi <= |c.history|
    ensures IsRun(AsCalls(calls), IsMessageLike)
  {
    var all := AsCalls(calls);
    forall k | 0 <= k < |all| ensures ValidCall(all[k], IsMessageLike) {
      assert calls[k] in calls;
    }
    forall j, k | 0 <= j < |all| && k == j + 1 < |all| ensures Follows(all[j], all[k]) {
      assert Continues(calls[j], calls[k]);
    }
  }

  lemma {:induction false} NoIdsIff(events: seq<Event>, converts: Event -> bool)
    requires HaveIds(events)
    ensures IdsOf(events, converts) == [] <==> forall e :: e in events ==> !converts(e)
  {
    if events != [] {
      NoIdsIff(events[1..], converts);
      assert events == [events[0]] + events[1..];
    }
  }

  /** The ids of a history are those of its older part and those of the rest; they are those
      of the rest alone exactly when the older part has no message. */
  lemma {:induction false} RestIsAllIff(h: seq<Event>, lo: nat, shown: Event -> bool, converts: Event -> bool)
    requires HaveIds(h) && lo <= |h|
    ensures HaveIds(Filter(h, shown)) && HaveIds(Filter(h[lo..], shown))
    ensures IdsOf(Filter(h[lo..], shown), converts) == IdsOf(Filter(h, shown), converts) <==>
            !exists e :: e in h[..lo] && shown(e) && converts(e)
  {
    assert h == h[..lo] + h[lo..];
    StretchHasIds(h, 0, lo, shown);
    StretchHasIds(h, lo, |h|, shown);
    assert h[0..lo] == h[..lo] && h[lo..|h|] == h[lo..];
    var older, rest := Filter(h[..lo], shown), Filter(h[lo..], shown);
    FilterConcat(h[..lo], h[lo..], shown);
    FilterComplete(h[..lo], shown);
    IdsConcat(older, rest, converts);
    NoIdsIff(older, converts);
    assert |IdsOf(Filter(h, shown), converts)| == |IdsOf(older, converts)| + |IdsOf(rest, converts)|;
  }

  /** What the pages of a run show: the messages from its last page on. */
  lemma {:induction false} RunShows(calls: seq<PageCall>, converts: Event -> bool)
    requires IsPageRun(calls, converts)
    ensures var h, last := calls[0].history, calls[|calls| - 1];
            UniqueIds(h) && last.lo <= last.hi <= |h| && h <= last.history &&
            HaveIds(Filter(h[last.lo..], IsMessageLike)) &&
            JoinedIds(calls) == IdsOf(Filter(h[last.lo..], IsMessageLike), converts)
  {
    RunOfCalls(calls, converts);
    PagesShowEvents(calls, converts);
    RunSoFar(AsCalls(calls), IsMessageLike);
    assert ValidPageCall(calls[0], converts);
  }

  /** Paging completeness for the client. When `next` is absent, the pages joined oldest first
      are exactly the messages of the history as of the first request, in order, if and only
      if the last request did not end early with a message before what it walked. */
  lemma {:induction false} TimelineIsComplete(calls: seq<PageCall>, converts: Event -> bool)
    requires IsPageRun(calls, converts) && calls[|calls| - 1].page.next.None?
    ensures HaveIds(Filter(calls[0].history, IsMessageLike))
    ensures JoinedIds(calls) == IdsOf(Filter(calls[0].history, IsMessageLike), converts) <==>
            !Misses(calls[|calls| - 1], converts)
  {
    var h, last := calls[0].history, calls[|calls| - 1];
    RunShows(calls, converts);
    RestIsAllIff(h, last.lo, IsMessageLike, converts);
    assert ValidPageCall(last, converts);
    assert h[..last.lo] == last.history[..last.lo];
  }

  /** `m` is the message of an event the request walked, with what is that event's own. */
  ghost predicate IsShownBy(m: Message, c: PageCall) {
    c.lo <= c.hi <= |c.history| &&
    exists e :: e in c.history[c.lo..c.hi] && IsMessageLike(e) && c.l.convert(e).Some? &&
      IsDecorated(m, c.l.convert(e).value, e, c.l, RedactedBy(c.history[c.lo..c.hi]))
  }

  /** Every message of a run has the reactions, readers, summary and edit of its own event. */
  lemma {:induction false} RunDecorated(calls: seq<PageCall>, converts: Event -> bool)
    requires IsPageRun(calls, converts)
    ensures forall c, m :: c in calls && m in c.page.messages ==> IsShownBy(m, c)
  {
    forall c, m | c in calls && m in c.page.messages ensures IsShownBy(m, c) {
      var k :| 0 <= k < |calls| && calls[k] == c;
      assert ValidPageCall(calls[k], converts);
      PageDecorated(c.history, c.before, c.limit, c.l, c.page, c.lo, c.hi);
    }
  }

  /** Nothing is shown twice, whether or not the run has ended. */
  lemma {:induction false} TimelineShowsOnce(calls: seq<PageCall>, converts: Event -> bool)
    requires IsPageRun(calls, converts)
    ensures forall i, j :: 0 <= i < j < |JoinedIds(calls)| ==> JoinedIds(calls)[i] != JoinedIds(calls)[j]
  {
    RunShows(calls, converts);
    var rest := calls[0].history[calls[|calls| - 1].lo..];
    assert UniqueIds(rest) by { TailIsUnique(calls[0].history, calls[|calls| - 1].lo); }
    FilterComplete(rest, IsMessageLike);
    IdsDistinct(Filter(rest, IsMessageLike), converts);
  }

  lemma {:induction false} TailIsUnique(h: seq<Event>, lo: nat)
    requires UniqueIds(h) && lo <= |h|
    ensures UniqueIds(h[lo..])
  {
    forall i | 0 <= i < |h| - lo ensures h[lo..][i] == h[lo + i] {}
  }

  /** Any run, ended or not, has at most one page more than its first history has events. */
  lemma {:induction false} TimelineIsBounded(calls: seq<PageCall>, converts: Event -> bool)
    requires IsPageRun(calls, converts)
    ensures |calls| <= |calls[0].history| + 1
  {
    RunOfCalls(calls, converts);
    RunIsBounded(AsCalls(calls), IsMessageLike);
  }

  lemma {:induction false} IdsDistinct(events: seq<Event>, converts: Event -> bool)
    requires UniqueIds(events)
    ensures forall i, j :: 0 <= i < j < |IdsOf(events, converts)| ==>
              IdsOf(events, converts)[i] != IdsOf(events, converts)[j]
    ensures forall id :: id in IdsOf(events, converts) ==> exists e :: e in events && e.id == Some(id)
  {
    if events != [] {
      forall i | 0 <= i < |events| - 1 ensures events[1..][i] == events[i + 1] {}
      IdsDistinct(events[1..], converts);
      forall id | id in IdsOf(events[1..], converts) ensures id != events[0].id.value {
        var e :| e in events[1..] && e.id == Some(id);
        var k :| 0 <= k < |events| - 1 && events[1..][k] == e;
        assert events[k + 1] == e;
      }
      assert events == [events[0]] + events[1..];
    }
  }

  /** A page that gave up is an ended run's empty last page: it walks nothing, wherever
      its anchor is. */
  lemma {:induction false} GaveUpEndsRun(h: seq<Event>, before: Option<EventId>, hi: nat)
    requires UniqueIds(h) && At(h, before, hi)
    ensures ValidCall(Call(h, before, None, [], hi, hi), IsMessageLike)
  {
    assert h[hi..hi] == [];
  }

  // ---------- a run that misses a message ----------

  /** Lookups of a room without relations, whose events show as themselves. */
  function PlainLookups(converts: Event -> bool): Lookups {
    Lookups((e: Event) => if converts(e) then Some(PlainMessage(IdText(e))) else None,
            _ => [], _ => None, _ => [], _ => None, name => name, None)
  }

  function PlainMessage(id: EventId): Message { Message(id, "", None, false, false, [], [], None) }

  lemma {:induction false} PlainIsFaithful(converts: Event -> bool)
    ensures Faithful(PlainLookups(converts), converts)
  {
  }

  predicate Anything(e: Event) { true }

  function TextEvent(id: EventId): Event { Other(Some(id), Some("m.room.message"), None) }

  /** A room whose client holds the cursor `$2` when a limited sync leaves a gap. */
  function GappyRoom(): View {
    View([], [Items([TextEvent("$1"), TextEvent("$2")]), Gap("t", [TextEvent("$3")]), Items([])])
  }

  lemma {:induction false} GappyHistory()
    ensures History(GappyRoom()) == [TextEvent("$1"), TextEvent("$2"), TextEvent("$3")]
    ensures Tail(GappyRoom().chunks) == []
  {
    var chunks := GappyRoom().chunks;
    var live, rest := chunks[2..], chunks[1..];
    assert live == [Items([])] && live[1..] == [];
    assert rest[1..] == live;
    assert Contents(live) == [];
    assert Contents(rest) == [TextEvent("$3")];
    assert chunks[..2][..1] == chunks[..1];
    assert Tail(chunks[..2]) == [];
  }

  lemma {:induction false} GappyIsSound()
    ensures Sound(GappyRoom())
  {
    GappyHistory();
    var h := History(GappyRoom());
    var digits := ['1', '2', '3'];
    assert forall i :: 0 <= i < |h| ==> h[i].id.value == ['$', digits[i]];
    assert forall i, j :: 0 <= i < j < 3 ==> digits[i] != digits[j];
  }

  /** The request for the page before `$2` gives up, if the server resolves none of the gap in
      its twelve rounds. */
  lemma {:induction false} GapOutlastsRounds()
    ensures GivesUp(seq(MAX_ROUNDS + 1, _ => GappyRoom()), Some("$2"), 1)
  {
    GappyHistory();
    GappyIsSound();
    assert Paginated(GappyRoom(), GappyRoom(), false) && Synced(GappyRoom(), GappyRoom());
    assert FetchesMore(GappyRoom(), GappyRoom(), Some("$2"), 1, false);
  }

  const FIRST_HISTORY := [TextEvent("$1"), TextEvent("$2")]

  /** Two requests for pages of one message: the first shows `$2`, the second gives up. */
  function MissingRun(): seq<PageCall> {
    var l := PlainLookups(Anything);
    [PageCall(FIRST_HISTORY, None, 1, l, Page([PlainMessage("$2")], Some("$2")), 1, 2, Usual),
     PageCall(History(GappyRoom()), Some("$2"), 1, l, Page([], None), 1, 1, GivenUp)]
  }

  lemma {:induction false} FirstPageShows()
    ensures IsPage(FIRST_HISTORY, None, 1, PlainLookups(Anything), Page([PlainMessage("$2")], Some("$2")), 1, 2)
  {
    var e, l := TextEvent("$2"), PlainLookups(Anything);
    var walked := FIRST_HISTORY[1..2];
    assert walked == [e] && [e][1..] == [];
    assert Filter(walked, IsMessageLike) == [e];
    assert RedactedBy(walked) == {};
    assert ReactionsIn([]) == [] && NewestEdit([], None) == None;
    assert Finished(e, l, {}) == PlainMessage("$2");
    assert MessagesOf([e], l, {}) == [PlainMessage("$2")] + MessagesOf([], l, {});
  }

  lemma {:induction false} MissingRunIsRun()
    ensures IsPageRun(MissingRun(), Anything)
  {
    var calls := MissingRun();
    GappyHistory();
    GappyIsSound();
    PlainIsFaithful(Anything);
    FirstPageShows();
    var h := calls[1].history;
    assert FIRST_HISTORY == h[..2];
    assert UniqueIds(FIRST_HISTORY) by { assert h[0].id != h[1].id; }
    assert ValidPageCall(calls[0], Anything) && ValidPageCall(calls[1], Anything);
  }

  /** It happens: a gap newer than the client's cursor hides the anchor, the run ends, and the
      message before the cursor is never shown. */
  lemma {:induction false} GapHidesAnchor()
    ensures IsPageRun(MissingRun(), Anything) && MissingRun()[1].page.next.None?
    ensures GivesUp(seq(MAX_ROUNDS + 1, _ => GappyRoom()), MissingRun()[1].before, MissingRun()[1].limit)
    ensures MissingRun()[1].history == History(GappyRoom())
    ensures JoinedIds(MissingRun()) == ["$2"] && TextEvent("$1") in MissingRun()[0].history
    ensures Misses(MissingRun()[1], Anything)
  {
    var calls := MissingRun();
    GapOutlastsRounds();
    MissingRunIsRun();
    assert calls[..1] == [calls[0]] && [calls[0]][..0] == [];
    assert calls[1].history[..1] == [TextEvent("$1")] by { GappyHistory(); }
  }

  // ---------- a start that goes stale ----------

  /** The same room before the limited sync: everything is loaded. */
  function WholeRoom(): View { View([], [Items([TextEvent("$1"), TextEvent("$2")])]) }

  lemma {:induction false} WholeHistory()
    ensures History(WholeRoom()) == FIRST_HISTORY && Tail(WholeRoom().chunks) == FIRST_HISTORY
  {
    var chunks := WholeRoom().chunks;
    assert chunks[1..] == [] && chunks[..0] == [];
    assert FIRST_HISTORY + [] == FIRST_HISTORY == [] + FIRST_HISTORY;
  }

  lemma {:induction false} WholeIsSynced()
    ensures Sound(WholeRoom()) && Synced(WholeRoom(), GappyRoom())
  {
    WholeHistory();
    GappyHistory();
    GappyIsSound();
    PrefixIsSound(WholeRoom(), GappyRoom());
  }

  lemma {:induction false} PrefixIsSound(v: View, v': View)
    requires Sound(v') && History(v) <= History(v')
    ensures Sound(v)
  {
    var h, h' := History(v), History(v');
    forall i | 0 <= i < |h| ensures h[i] == h'[i] && h[i] in h' {}
  }

  lemma {:induction false} TwoAreTooFew(v: View, before: Option<EventId>)
    requires |Tail(v.chunks)| <= 2 && Cut(Tail(v.chunks), before).Some?
    ensures Look(Tail(v.chunks), before, 5, IsMessageLike, false) == More
  {
    assert |SliceBefore(Tail(v.chunks), before)| <= 2;
  }

  /** A back-pagination reports the start, then a limited sync leaves a gap: the request looks
      at what is behind the gap and takes it for everything. */
  lemma {:induction false} SyncCutsStart(before: Option<EventId>)
    requires before == None || before == Some("$2")
    ensures FetchesMore(WholeRoom(), GappyRoom(), before, 5, true)
    ensures Look(Tail(GappyRoom().chunks), before, 5, IsMessageLike, true) == if before.None? then Enough([]) else Lost
  {
    WholeHistory();
    AnchorListed(before);
    TwoAreTooFew(WholeRoom(), before);
    SyncAfterStart();
    GappyHistory();
  }

  lemma {:induction false} AnchorListed(before: Option<EventId>)
    requires before == None || before == Some("$2")
    ensures Cut(FIRST_HISTORY, before).Some?
  {
    assert FIRST_HISTORY[1].id == Some("$2");
  }

  lemma {:induction false} SyncAfterStart()
    ensures BackPaginated(WholeRoom(), GappyRoom(), true)
  {
    WholeHistory();
    WholeIsSynced();
    assert Paginated(WholeRoom(), WholeRoom(), true);
  }

  /** One request, for which the start went stale. */
  function CutRun(): seq<PageCall> {
    [PageCall(History(GappyRoom()), None, 5, PlainLookups(Anything), Page([], None), 3, 3, CutShort)]
  }

  /** It happens: the run of that one request ends at once and shows none of the three messages
      of the room; with the cursor `$2` the request fails although its anchor is there. */
  lemma {:induction false} StaleStartEndsShort()
    ensures FetchesMore(WholeRoom(), GappyRoom(), None, 5, true)
    ensures Look(Tail(GappyRoom().chunks), None, 5, IsMessageLike, true) == Enough([])
    ensures NextCursor([], 0, true) == None
    ensures IsPageRun(CutRun(), Anything) && JoinedIds(CutRun()) == [] && Misses(CutRun()[0], Anything)
    ensures FetchesMore(WholeRoom(), GappyRoom(), Some("$2"), 5, true)
    ensures Look(Tail(GappyRoom().chunks), Some("$2"), 5, IsMessageLike, true) == Lost
    ensures At(History(GappyRoom()), Some("$2"), 1)
  {
    SyncCutsStart(None);
    SyncCutsStart(Some("$2"));
    CutRunIsRun();
    GappyHistory();
    var c := CutRun()[0];
    assert CutRun()[..0] == [];
    assert TextEvent("$1") == c.history[..3][0];
  }

  lemma {:induction false} CutRunIsRun()
    ensures IsPageRun(CutRun(), Anything)
  {
    GappyHistory();
    GappyIsSound();
    PlainIsFaithful(Anything);
    var c := CutRun()[0];
    assert c.history[3..3] == [];
    assert ValidPageCall(c, Anything);
  }
}
