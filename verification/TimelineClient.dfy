/** A client that opens a room and follows `next` to the end, against the real requests. */
module TimelineClient {
  import opened Options
  import opened Events
  import opened EventCache
  import opened Paging
  import opened Timeline
  import opened TimelineRuns

  /** What sync does to the room before request `n`. */
  ghost predicate IsSync(sync: (nat, View) -> View) {
    forall n, v :: Synced(v, sync(n, v))
  }

  /** The anchor a page handed out stays in the history. */
  lemma {:induction false} AnchorHeld(prev: PageCall, h: seq<Event>, converts: Event -> bool)
    requires ValidPageCall(prev, converts) && prev.page.next.Some? && prev.history <= h
    ensures prev.lo < prev.hi && At(h, prev.page.next, prev.lo)
  {
  }

  /** `ids` is what the client has after these calls, of which `last` is the last. */
  ghost predicate Following(calls: seq<PageCall>, ids: seq<EventId>, last: PageCall, first: seq<Event>,
                            converts: Event -> bool)
  {
    IsPageRun(calls, converts) && ids == JoinedIds(calls) && calls[|calls| - 1] == last &&
    first <= calls[0].history
  }

  lemma {:induction false} NextFollows(calls: seq<PageCall>, ids: seq<EventId>, prev: PageCall, c: PageCall,
                                       first: seq<Event>, converts: Event -> bool)
    requires Following(calls, ids, prev, first, converts) && ValidPageCall(c, converts) && Continues(prev, c)
    ensures Following(calls + [c], MessageIds(c.page.messages) + ids, c, first, converts)
  {
    RunGrows(calls, c, converts);
    assert (calls + [c])[..|calls|] == calls;
  }

  lemma {:induction false} RunGrows(calls: seq<PageCall>, c: PageCall, converts: Event -> bool)
    requires IsPageRun(calls, converts) && ValidPageCall(c, converts) && Continues(calls[|calls| - 1], c)
    ensures IsPageRun(calls + [c], converts)
  {
    var all := calls + [c];
    forall k | 0 <= k < |all| ensures ValidPageCall(all[k], converts) {
      if k < |calls| { assert ValidPageCall(calls[k], converts); }
    }
  }

  lemma {:induction false} FollowedSome(calls: seq<PageCall>, ids: seq<EventId>, last: PageCall, first: seq<Event>,
                                        converts: Event -> bool)
    requires Following(calls, ids, last, first, converts)
    ensures IsPageRun(calls, converts) && ids == JoinedIds(calls) && calls[|calls| - 1] == last
    ensures first <= calls[0].history && UniqueIds(calls[0].history)
    ensures HaveIds(Filter(calls[0].history, IsMessageLike))
  {
    assert ValidPageCall(calls[0], converts);
    FilterComplete(calls[0].history, IsMessageLike);
  }

  lemma {:induction false} FollowedAll(calls: seq<PageCall>, ids: seq<EventId>, last: PageCall, first: seq<Event>,
                                       converts: Event -> bool)
    requires Following(calls, ids, last, first, converts) && last.page.next.None?
    ensures UniqueIds(calls[0].history) && HaveIds(Filter(calls[0].history, IsMessageLike))
    ensures ids == IdsOf(Filter(calls[0].history, IsMessageLike), converts) <==> !Misses(last, converts)
  {
    TimelineIsComplete(calls, converts);
    assert ValidPageCall(calls[0], converts);
  }

  /** What a page that was served is in a run. */
  lemma {:induction false} Record(h: seq<Event>, before: Option<EventId>, at: nat, limit: nat, l: Lookups, page: Page,
                                  gaveUp: bool, stale: bool, spent: bool, converts: Event -> bool)
    returns (c: PageCall)
    requires UniqueIds(h) && Faithful(l, converts) && At(h, before, at) && !(gaveUp && stale)
    requires Serves(h, before, limit, l, Ok(page), gaveUp, stale, spent)
    ensures ValidPageCall(c, converts) && c.history == h && c.before == before && c.page == page
    ensures (c.ending.GivenUp? <==> gaveUp) && (c.ending.CutShort? ==> stale)
  {
    if gaveUp {
      c := PageCall(h, before, limit, l, page, at, at, GivenUp);
    } else if stale {
      var lo: nat, hi: nat :| IsStretchPage(h, before, limit, l, page, lo, hi);
      c := PageCall(h, before, limit, l, page, lo, hi, if page.next.None? then CutShort else Usual);
    } else {
      var lo: nat, hi: nat :| IsPage(h, before, limit, l, page, lo, hi);
      c := PageCall(h, before, limit, l, page, lo, hi, Usual);
    }
  }

  /** One request of a run, recorded. It fails only when the start went stale: its anchor is
      in the history. */
  method RequestPage(cache: RoomCache, limit: nat, before: Option<EventId>, l: Lookups, ghost at: nat,
                     ghost converts: Event -> bool)
    returns (r: Result<Page>, ghost c: PageCall)
    requires Sound(cache.view) && Faithful(l, converts) && At(History(cache.view), before, at)
    modifies cache
    ensures Sound(cache.view) && old(History(cache.view)) <= History(cache.view)
    ensures r.Err? ==> before.Some? && StaleStart(cache, old(cache.asked))
    ensures r.Ok? ==> ValidPageCall(c, converts) && c.history == History(cache.view) && c.before == before &&
                      c.page == r.value
    ensures r.Ok? ==> (c.ending.GivenUp? <==> GaveUp(cache, old(cache.asked), before))
    ensures r.Ok? && c.ending.CutShort? ==> StaleStart(cache, old(cache.asked))
  {
    ghost var asked := cache.asked;
    assert forall e :: e in History(cache.view) ==> e.id != Some("");
    ghost var views;
    r, views := Timeline.Timeline(cache, limit, before, l);
    ghost var h := History(cache.view);
    ghost var hi := if before.None? then |h| else at;
    assert At(h, before, hi);
    if r.Ok? {
      c := Record(h, before, hi, Clamped(limit), l, r.value, GaveUp(cache, asked, before), StaleStart(cache, asked),
                  cache.asked == asked + MAX_ROUNDS, converts);
    } else {
      c := PageCall(h, before, Clamped(limit), l, Page([], None), hi, hi, GivenUp);
    }
  }

  /** Follow `next` from no cursor until it is absent or a request fails, sync doing what it
      will in between. Limits and lookups may differ from request to request. The ids shown,
      oldest first, are the messages of the history as of the first request, unless the last
      request ended early; and a request fails only when its start went stale. */
  method FollowTimeline(cache: RoomCache, limits: nat -> nat, lookups: nat -> Lookups, sync: (nat, View) -> View,
                        ghost converts: Event -> bool)
    returns (ids: seq<EventId>, done: bool, ghost calls: seq<PageCall>)
    requires Sound(cache.view) && IsSync(sync) && forall n :: Faithful(lookups(n), converts)
    modifies cache
    ensures IsPageRun(calls, converts) && ids == JoinedIds(calls)
    ensures old(History(cache.view)) <= calls[0].history && UniqueIds(calls[0].history)
    ensures done <==> calls[|calls| - 1].page.next.None?
    ensures HaveIds(Filter(calls[0].history, IsMessageLike))
    ensures done ==>
              (ids == IdsOf(Filter(calls[0].history, IsMessageLike), converts) <==>
               !Misses(calls[|calls| - 1], converts))
    ensures !done ==> cache.atStart && Tail(cache.view.chunks) != History(cache.view)
  {
    ghost var first := History(cache.view);
    var r;
    ghost var c;
    r, c := RequestPage(cache, limits(0), None, lookups(0), |History(cache.view)|, converts);
    var page := r.value;
    ids, calls := MessageIds(page.messages), [c];
    var n := 1;
    done := true;
    while page.next.Some?
      invariant Following(calls, ids, c, first, converts) && c.page == page && ValidPageCall(c, converts)
      invariant Sound(cache.view) && c.history == History(cache.view) && done
      decreases if c.page.next.Some? then c.lo + 1 else 0
    {
      ghost var prev := c;
      cache.view := sync(n, cache.view);
      AnchorHeld(prev, History(cache.view), converts);
      r, c := RequestPage(cache, limits(n), page.next, lookups(n), prev.lo, converts);
      if r.Err? {
        FollowedSome(calls, ids, prev, first, converts);
        return ids, false, calls;
      }
      page := r.value;
      NextFollows(calls, ids, prev, c, first, converts);
      NextIsOlder(prev, c, converts);
      ids, calls := MessageIds(page.messages) + ids, calls + [c];
      n := n + 1;
    }
    FollowedSome(calls, ids, c, first, converts);
    FollowedAll(calls, ids, c, first, converts);
  }

  lemma {:induction false} NextIsOlder(prev: PageCall, c: PageCall, converts: Event -> bool)
    requires ValidPageCall(prev, converts) && ValidPageCall(c, converts) && Continues(prev, c)
    ensures c.lo <= c.hi == prev.lo && (c.page.next.Some? ==> c.lo < prev.lo)
  {
    AnchorHeld(prev, c.history, converts);
    AnchorStable(prev.history, c.history, c.before.value, prev.lo, c.hi);
  }
}
