/** A client that opens a thread and follows `next` to the end, against the real requests. */
module ThreadClient {
  import opened Options
  import opened Events
  import opened Paging
  import opened Timeline
  import opened Threads
  import opened ThreadRuns

  /** What sync may do to a thread between two requests: append to it. What the cache holds in
      memory at the next one is `sync.1` of it, whatever was loaded before. */
  ghost predicate IsSync(sync: (nat, seq<Event>) -> (seq<Event>, nat)) {
    forall n, t :: Whole(t) ==> Whole(sync(n, t).0) && t <= sync(n, t).0 && sync(n, t).1 <= |sync(n, t).0|
  }

  ghost predicate Whole(thread: seq<Event>) {
    UniqueIds(thread) && forall e :: e in thread ==> e.id != Some("")
  }

  /** A longer thread has the same replies and then some. */
  lemma {:induction false} RepliesGrow(t: seq<Event>, t': seq<Event>, root: EventId)
    requires t <= t'
    ensures Replies(t, root) <= Replies(t', root)
  {
    assert t' == t + t'[|t|..];
    FilterConcat(t, t'[|t|..], NotRoot(root));
  }

  lemma {:induction false} RepliesWhole(t: seq<Event>, root: EventId)
    requires Whole(t)
    ensures Whole(Replies(t, root)) && forall e :: e in Replies(t, root) ==> e.id != Some(root)
  {
    FilterComplete(t, NotRoot(root));
  }

  /** The anchor a page handed out stays among the replies. */
  lemma {:induction false} AnchorHeld(prev: ThreadCall, replies: seq<Event>, root: EventId, converts: Event -> bool)
    requires ValidThreadCall(prev, root, converts) && prev.page.next.Some? && prev.replies <= replies
    ensures prev.lo < prev.hi && At(replies, prev.page.next, prev.lo)
  {
  }

  lemma {:induction false} NextIsOlder(prev: ThreadCall, c: ThreadCall, root: EventId, converts: Event -> bool)
    requires ValidThreadCall(prev, root, converts) && ValidThreadCall(c, root, converts) && Resumes(prev, c)
    ensures c.lo <= c.hi == prev.lo && (c.page.next.Some? ==> c.lo < prev.lo)
  {
    AnchorHeld(prev, c.replies, root, converts);
    AnchorStable(prev.replies, c.replies, c.before.value, prev.lo, c.hi);
  }

  /** `ids` is what the client has after these calls, of which `last` is the last. */
  ghost predicate Following(calls: seq<ThreadCall>, ids: seq<EventId>, last: ThreadCall, first: seq<Event>,
                            root: EventId, converts: Event -> bool)
  {
    IsThreadRun(calls, root, converts) && ids == JoinedThreadIds(calls) && calls[|calls| - 1] == last &&
    first <= calls[0].replies && forall e :: e in calls[0].replies ==> e.id != Some(root)
  }

  lemma {:induction false} FirstFollows(c: ThreadCall, first: seq<Event>, root: EventId, converts: Event -> bool)
    requires ValidThreadCall(c, root, converts) && c.before == None && first <= c.replies
    requires forall e :: e in c.replies ==> e.id != Some(root)
    ensures Following([c], MessageIds(c.page.messages), c, first, root, converts)
  {
    assert PageLists([]) == [] && [] + [c] == [c];
    IdsGrow([], c);
    assert JoinedThreadIds([]) == [];
    assert MessageIds(c.page.messages) + [] == MessageIds(c.page.messages);
    assert forall k :: 0 <= k < |[c]| ==> ValidThreadCall([c][k], root, converts);
  }

  lemma {:induction false} NextFollows(calls: seq<ThreadCall>, ids: seq<EventId>, prev: ThreadCall, c: ThreadCall,
                                       first: seq<Event>, root: EventId, converts: Event -> bool)
    requires Following(calls, ids, prev, first, root, converts)
    requires ValidThreadCall(c, root, converts) && Resumes(prev, c)
    ensures Following(calls + [c], MessageIds(c.page.messages) + ids, c, first, root, converts)
  {
    RunGrows(calls, c, root, converts);
    IdsGrow(calls, c);
  }

  lemma {:induction false} IdsGrow(calls: seq<ThreadCall>, c: ThreadCall)
    ensures JoinedThreadIds(calls + [c]) == MessageIds(c.page.messages) + JoinedThreadIds(calls)
  {
    assert (calls + [c])[..|calls|] == calls;
    var lists, page := PageLists(calls), MessageIds(c.page.messages);
    assert PageLists(calls + [c]) == lists + [page] && (lists + [page])[..|lists|] == lists;
  }

  lemma {:induction false} RunGrows(calls: seq<ThreadCall>, c: ThreadCall, root: EventId, converts: Event -> bool)
    requires IsThreadRun(calls, root, converts) && ValidThreadCall(c, root, converts)
    requires Resumes(calls[|calls| - 1], c)
    ensures IsThreadRun(calls + [c], root, converts)
  {
    var all := calls + [c];
    LinkedGrows(calls, c);
    forall k | 0 <= k < |all| ensures ValidThreadCall(all[k], root, converts) {
      if k < |calls| { assert ValidThreadCall(calls[k], root, converts); }
    }
  }

  lemma {:induction false} LinkedGrows(calls: seq<ThreadCall>, c: ThreadCall)
    requires calls != [] && Linked(calls) && Resumes(calls[|calls| - 1], c)
    ensures Linked(calls + [c])
  {
  }

  /** What the client has at the end: every convertible reply as of the first request, unless
      the last one gave up, led by the root where the pages put it. */
  ghost predicate Read(ids: seq<EventId>, calls: seq<ThreadCall>, root: EventId, converts: Event -> bool) {
    calls != [] && HaveIds(Filter(calls[0].replies, IsThreadReply)) &&
    (!MissesReply(calls[|calls| - 1], converts) <==>
      Led(ids, IdsOf(Filter(calls[0].replies, IsThreadReply), converts), root,
          RootLeads(calls[|calls| - 1], converts), RootFillsIn(calls[0], converts)))
  }

  lemma {:induction false} FollowedAll(calls: seq<ThreadCall>, ids: seq<EventId>, last: ThreadCall, first: seq<Event>,
                                       root: EventId, converts: Event -> bool)
    requires Following(calls, ids, last, first, root, converts) && last.page.next.None?
    ensures Read(ids, calls, root, converts)
  {
    ThreadIsComplete(calls, root, converts);
    ThreadShows(calls, root, converts);
    var top, again := RootLeads(last, converts), RootFillsIn(calls[0], converts);
    var all := IdsOf(Filter(calls[0].replies, IsThreadReply), converts);
    LedOnce(ids, ShownReplies(calls, converts), all, root, top, again);
  }

  lemma {:induction false} LedOnce(ids: seq<EventId>, a: seq<EventId>, b: seq<EventId>, root: EventId, top: bool,
                                   again: bool)
    requires Led(ids, a, root, top, again)
    ensures Led(ids, b, root, top, again) <==> a == b
  {
    if Led(ids, b, root, top, again) {
      var n, m := |When(top, root)|, |When(again, root)|;
      assert ids[n..|ids| - m] == a && ids[n..|ids| - m] == b;
    }
  }

  /** One request of a run, recorded. It cannot fail: its anchor is among the replies. */
  method RequestPage(cache: ThreadCache, root: EventId, rootEvent: Option<Event>, limit: nat, before: Option<EventId>,
                     l: Lookups, ghost at: nat, ghost converts: Event -> bool)
    returns (page: Page, ghost c: ThreadCall)
    requires cache.Valid() && Faithful(l, converts) && (rootEvent.Some? ==> rootEvent.value.id == Some(root))
    requires At(Replies(cache.thread, root), before, at)
    modifies cache`from, cache`asked, cache`atStart
    ensures cache.Valid() && ValidThreadCall(c, root, converts) && c.replies == Replies(cache.thread, root)
    ensures c.before == before && c.page == page
    ensures c.gaveUp <==> ThreadGaveUp(cache, old(cache.asked), root, before)
  {
    ghost var asked, replies := cache.asked, Replies(cache.thread, root);
    RepliesWhole(cache.thread, root);
    var r := Thread(cache, root, rootEvent, limit, before, l);
    page := r.value;
    if ThreadGaveUp(cache, asked, root, before) {
      c := ThreadCall(replies, rootEvent, before, Clamped(limit), l, page, at, at, true);
    } else {
      ghost var lo: nat, hi: nat :| IsThreadPage(replies, rootEvent, before, Clamped(limit), l, page, lo, hi);
      c := ThreadCall(replies, rootEvent, before, Clamped(limit), l, page, lo, hi, false);
    }
  }

  /** Follow `next` from no cursor until it is absent, sync doing what it will in between.
      Limits, lookups and whether the root can be loaded may differ from request to request. */
  method FollowThread(cache: ThreadCache, root: EventId, roots: nat -> Option<Event>, limits: nat -> nat,
                      lookups: nat -> Lookups, sync: (nat, seq<Event>) -> (seq<Event>, nat),
                      ghost converts: Event -> bool)
    returns (ids: seq<EventId>, ghost calls: seq<ThreadCall>)
    requires cache.Valid() && IsSync(sync) && forall n :: Faithful(lookups(n), converts)
    requires forall n :: roots(n).Some? ==> roots(n).value.id == Some(root)
    modifies cache
    ensures IsThreadRun(calls, root, converts) && calls[|calls| - 1].page.next.None? && ids == JoinedThreadIds(calls)
    ensures old(Replies(cache.thread, root)) == calls[0].replies
    ensures Read(ids, calls, root, converts)
  {
    ghost var first := Replies(cache.thread, root);
    RepliesWhole(cache.thread, root);
    var page;
    ghost var c;
    page, c := RequestPage(cache, root, roots(0), limits(0), None, lookups(0), |first|, converts);
    FirstFollows(c, first, root, converts);
    ids, calls := MessageIds(page.messages), [c];
    var n := 1;
    while page.next.Some?
      invariant Following(calls, ids, c, first, root, converts) && c.page == page && ValidThreadCall(c, root, converts)
      invariant calls[0].replies == first
      invariant cache.Valid() && c.replies == Replies(cache.thread, root)
      decreases if c.page.next.Some? then c.lo + 1 else 0
    {
      ghost var prev, thread := c, cache.thread;
      var after := sync(n, cache.thread);
      cache.thread, cache.from := after.0, after.1;
      RepliesGrow(thread, cache.thread, root);
      AnchorHeld(prev, Replies(cache.thread, root), root, converts);
      page, c := RequestPage(cache, root, roots(n), limits(n), page.next, lookups(n), prev.lo, converts);
      NextFollows(calls, ids, prev, c, first, root, converts);
      NextIsOlder(prev, c, root, converts);
      ids, calls := MessageIds(page.messages) + ids, calls + [c];
      n := n + 1;
    }
    FollowedAll(calls, ids, c, first, root, converts);
  }
}
