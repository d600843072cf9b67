/** A page of a thread: the fetch loop that keeps its own list of replies, the walk, and
    the root that leads the page reaching the start of the thread. */
module Threads {
  import opened Options
  import opened Events
  import opened Paging
  import opened Timeline

  function NotRoot(root: EventId): Event -> bool { (e: Event) => e.id != Some(root) }

  /** A thread without its root, oldest first: what is paged. */
  function Replies(thread: seq<Event>, root: EventId): seq<Event> { Filter(thread, NotRoot(root)) }

  /** Events of a batch that are neither the root nor already listed. */
  function Fresh(batch: seq<Event>, root: EventId, all: seq<Event>): seq<Event> {
    if batch == [] then []
    else (if batch[0].id != Some(root) && forall x :: x in all ==> x.id != batch[0].id then [batch[0]] else []) +
         Fresh(batch[1..], root, all)
  }

  /** The SDK's thread cache, subscribed to for one page. `thread` is the whole thread as
      of the subscription, the root possibly among its events. */
  class ThreadCache {
    var thread: seq<Event>
    /** Everything from here on has been delivered. */
    var from: nat
    /** Back-paginations so far, and what the last one reported. */
    var asked: nat
    var atStart: bool

    ghost predicate Valid()
      reads this
    {
      UniqueIds(thread) && from <= |thread| && forall e :: e in thread ==> e.id != Some("")
    }

    method Subscribe() returns (initial: seq<Event>)
      requires Valid()
      ensures initial == thread[from..]
    {
      initial := thread[from..];
    }

    /** A batch of events newest first: contiguous with what was delivered before, which
        it may overlap. */
    method RunBackwardsOnce(batch: nat) returns (loaded: seq<Event>, reachedStart: bool)
      requires Valid()
      modifies this`from, this`asked, this`atStart
      ensures Valid() && from <= old(from) && asked == old(asked) + 1
      ensures exists j :: old(from) <= j <= |thread| && loaded == Reversed(thread[from..j])
      ensures atStart == reachedStart && (reachedStart ==> from == 0)
    {
      var j: nat :| from <= j <= |thread|;
      var i: nat :| i <= from;
      loaded := Reversed(thread[i..j]);
      from, asked, atStart, reachedStart := i, asked + 1, i == 0, i == 0;
    }
  }

  lemma {:induction false} FreshConcat(a: seq<Event>, b: seq<Event>, root: EventId, all: seq<Event>)
    ensures Fresh(a + b, root, all) == Fresh(a, root, all) + Fresh(b, root, all)
  {
    if a == [] {
      assert a + b == b;
    } else {
      assert (a + b)[1..] == a[1..] + b;
      FreshConcat(a[1..], b, root, all);
    }
  }

  lemma {:induction false} FreshNone(batch: seq<Event>, root: EventId, all: seq<Event>)
    requires forall e :: e in batch ==> e.id == Some(root) || e in all
    ensures Fresh(batch, root, all) == []
  {
    if batch != [] {
      assert batch[0] in batch;
      FreshNone(batch[1..], root, all);
    }
  }

  lemma {:induction false} FreshAll(batch: seq<Event>, root: EventId, all: seq<Event>)
    requires forall e, x :: e in batch && x in all ==> x.id != e.id
    ensures Fresh(batch, root, all) == Filter(batch, NotRoot(root))
  {
    if batch != [] {
      assert batch[0] in batch;
      FreshAll(batch[1..], root, all);
    }
  }

  lemma {:induction false} ReversedConcat<T>(a: seq<T>, b: seq<T>)
    ensures Reversed(a + b) == Reversed(b) + Reversed(a)
  {
    if a == [] {
      assert a + b == b;
    } else {
      assert (a + b)[1..] == a[1..] + b;
      ReversedConcat(a[1..], b);
    }
  }

  lemma {:induction false} FilterReversed(s: seq<Event>, shown: Event -> bool)
    ensures Filter(Reversed(s), shown) == Reversed(Filter(s, shown))
  {
    if s != [] {
      var rest, kept := s[1..], Filter(s[1..], shown);
      FilterReversed(rest, shown);
      FilterConcat(Reversed(rest), [s[0]], shown);
      assert [s[0]][1..] == [];
      assert Filter([s[0]], shown) == if shown(s[0]) then [s[0]] else [];
      if shown(s[0]) {
        assert ([s[0]] + kept)[1..] == kept;
        assert Reversed([s[0]] + kept) == Reversed(kept) + [s[0]];
      } else {
        assert Filter(s, shown) == kept;
      }
    }
  }

  /** The part of a batch that is already listed is dropped. */
  lemma {:induction false} KnownDropped(known: seq<Event>, loaded: seq<Event>, root: EventId)
    requires known <= loaded
    ensures Fresh(Reversed(known), root, Replies(loaded, root)) == []
  {
    var all := Replies(loaded, root);
    FilterComplete(loaded, NotRoot(root));
    forall e | e in Reversed(known) ensures e.id == Some(root) || e in all {
      var p :| 0 <= p < |known| && Reversed(known)[p] == e;
      assert loaded[|known| - 1 - p] == e;
    }
    FreshNone(Reversed(known), root, all);
  }

  /** The older part of a batch is kept but for the root, newest first. */
  lemma {:induction false} OlderKept(older: seq<Event>, loaded: seq<Event>, root: EventId)
    requires UniqueIds(older + loaded)
    ensures Fresh(Reversed(older), root, Replies(loaded, root)) == Reversed(Replies(older, root))
  {
    var all, both := Replies(loaded, root), older + loaded;
    FilterComplete(loaded, NotRoot(root));
    forall e, x | e in Reversed(older) && x in all ensures x.id != e.id {
      var p :| 0 <= p < |older| && Reversed(older)[p] == e;
      var q :| 0 <= q < |loaded| && loaded[q] == x;
      assert both[|older| - 1 - p] == e && both[|older| + q] == x;
    }
    FreshAll(Reversed(older), root, all);
    FilterReversed(older, NotRoot(root));
  }

  /** One round of the fetch loop: filtering a batch, turning it around and putting it in
      front lists exactly what is now loaded, however much the batch overlaps. */
  lemma {:induction false} RoundExtends(older: seq<Event>, known: seq<Event>, loaded: seq<Event>, root: EventId)
    requires UniqueIds(older + loaded) && known <= loaded
    ensures var all := Replies(loaded, root);
            Reversed(Fresh(Reversed(older + known), root, all)) + all == Replies(older + loaded, root)
  {
    var all, kept := Replies(loaded, root), Replies(older, root);
    KnownDropped(known, loaded, root);
    OlderKept(older, loaded, root);
    ReversedConcat(older, known);
    FreshConcat(Reversed(known), Reversed(older), root, all);
    assert Fresh(Reversed(older + known), root, all) == Reversed(kept);
    ReversedTwice(kept);
    FilterConcat(older, loaded, NotRoot(root));
  }

  lemma {:induction false} BatchSplits(thread: seq<Event>, i: nat, k: nat, j: nat)
    requires UniqueIds(thread) && i <= k <= j <= |thread|
    ensures thread[i..j] == thread[i..k] + thread[k..j] && thread[k..j] <= thread[k..]
    ensures thread[i..] == thread[i..k] + thread[k..] && UniqueIds(thread[i..k] + thread[k..])
  {
    assert UniqueIds(thread[i..]) by {
      forall x | 0 <= x < |thread| - i ensures thread[i..][x] == thread[i + x] {}
    }
    assert thread[i..] == thread[i..k] + thread[k..];
  }

  /** What is listed is always a root-free, duplicate-free stretch ending the thread. */
  lemma {:induction false} ListedIsSuffix(thread: seq<Event>, root: EventId, k: nat)
    requires UniqueIds(thread) && k <= |thread|
    ensures IsSuffix(Replies(thread[k..], root), Replies(thread, root))
    ensures UniqueIds(Replies(thread, root)) && UniqueIds(Replies(thread[k..], root))
    ensures forall e :: e in Replies(thread, root) <==> e in thread && e.id != Some(root)
  {
    assert thread == thread[..k] + thread[k..];
    FilterConcat(thread[..k], thread[k..], NotRoot(root));
    FilterComplete(thread, NotRoot(root));
    assert UniqueIds(thread[k..]) by {
      forall x | 0 <= x < |thread| - k ensures thread[k..][x] == thread[k + x] {}
    }
    FilterComplete(thread[k..], NotRoot(root));
  }

  // ---------- one page ----------

  /** Load until the replies before the anchor fill a page. */
  method LoadReplies(cache: ThreadCache, root: EventId, limit: nat, before: Option<EventId>)
    returns (slice: Option<seq<Event>>, reachedStart: bool)
    requires cache.Valid() && limit >= 1
    modifies cache`from, cache`asked, cache`atStart
    ensures cache.Valid() && cache.asked <= old(cache.asked) + MAX_ROUNDS
    ensures reachedStart ==> cache.from == 0
    ensures if cache.asked == old(cache.asked) then !reachedStart else cache.atStart == reachedStart
    ensures cache.asked == old(cache.asked) <==>
              old(Look(Replies(cache.thread[cache.from..], root), before, limit, IsThreadReply, false)).Enough?
    ensures Fetched(slice, Replies(cache.thread[cache.from..], root), before, limit, IsThreadReply, reachedStart,
                    cache.asked == old(cache.asked) + MAX_ROUNDS)
  {
    var initial := cache.Subscribe();
    var all := Filter(initial, NotRoot(root));
    reachedStart := false;
    ghost var first := Look(all, before, limit, IsThreadReply, false);
    var rounds := 0;
    while true
      invariant cache.Valid() && rounds <= MAX_ROUNDS && cache.asked == old(cache.asked) + rounds
      invariant all == Replies(cache.thread[cache.from..], root)
      invariant reachedStart ==> cache.from == 0
      invariant rounds > 0 ==> cache.atStart == reachedStart
      invariant if rounds == 0 then !reachedStart && all == Replies(initial, root) else first == More
      decreases MAX_ROUNDS - rounds
    {
      match Look(all, before, limit, IsThreadReply, reachedStart) {
        case Enough(s) => return Some(s), reachedStart;
        case Lost => return None, reachedStart;
        case More =>
      }
      if rounds + 1 > MAX_ROUNDS {
        return Some(SliceBefore(all, before)), reachedStart;
      }
      rounds := rounds + 1;
      ghost var k := cache.from;
      var loaded;
      loaded, reachedStart := cache.RunBackwardsOnce(if limit < 40 then 40 else limit);
      ghost var j :| k <= j <= |cache.thread| && loaded == Reversed(cache.thread[cache.from..j]);
      BatchSplits(cache.thread, cache.from, k, j);
      RoundExtends(cache.thread[cache.from..k], cache.thread[k..j], cache.thread[k..], root);
      // A batch is newest first, the list oldest first.
      all := Reversed(Fresh(loaded, root, all)) + all;
    }
  }

  /** Replies are not looked up for a thread summary. */
  function WithoutSummaries(l: Lookups): Lookups { l.(summary := _ => None) }

  /** `m` is the line of the thread's reply `e`: its message with the reactions, readers and
      newest edit that are its own, and otherwise as it converts. */
  ghost predicate IsReplyLine(m: Message, e: Event, l: Lookups, redacted: set<EventId>) {
    IsThreadReply(e) && l.convert(e).Some? && IsRelated(m, l.convert(e).value, l, redacted) &&
    m.thread == l.convert(e).value.thread
  }

  ghost predicate IsSomeReply(m: Message, walked: seq<Event>, l: Lookups, redacted: set<EventId>) {
    exists e :: e in walked && IsReplyLine(m, e, l, redacted)
  }

  /** `m` is the root's line: its message with all that is its own. */
  ghost predicate IsRootLine(m: Message, rootEvent: Option<Event>, l: Lookups, redacted: set<EventId>) {
    rootEvent.Some? && l.convert(rootEvent.value).Some? &&
    IsDecorated(m, l.convert(rootEvent.value).value, rootEvent.value, l, redacted)
  }

  lemma {:induction false} RepliesDecorated(walked: seq<Event>, l: Lookups, redacted: set<EventId>)
    ensures forall m :: m in MessagesOf(Filter(walked, IsThreadReply), WithoutSummaries(l), redacted) ==>
              IsSomeReply(m, walked, l, redacted)
  {
    var replies, plain := Filter(walked, IsThreadReply), WithoutSummaries(l);
    EachItsOwn(replies, plain, redacted);
    forall m | m in MessagesOf(replies, plain, redacted) ensures IsSomeReply(m, walked, l, redacted) {
      var e :| e in replies && plain.convert(e).Some? && IsDecorated(m, plain.convert(e).value, e, plain, redacted);
      assert IsRelated(m, l.convert(e).value, l, redacted);
      assert IsReplyLine(m, e, l, redacted);
    }
  }

  lemma {:induction false} RootDecorated(rootEvent: Option<Event>, before: Option<EventId>, next: Option<EventId>,
                                         messages: seq<Message>, l: Lookups, redacted: set<EventId>)
    ensures forall m :: m in RootLine(rootEvent, before, next, messages, l, redacted) ==>
              IsRootLine(m, rootEvent, l, redacted)
  {
    if rootEvent.Some? && l.convert(rootEvent.value).Some? { FinishedIsDecorated(rootEvent.value, l, redacted); }
  }

  /** Every message of a page is the line of a reply of the stretch walked, or the root's in
      front of them all. */
  lemma {:induction false} ThreadPageDecorated(replies: seq<Event>, rootEvent: Option<Event>, before: Option<EventId>,
                                               limit: nat, l: Lookups, page: Page, lo: nat, hi: nat)
    requires IsThreadPage(replies, rootEvent, before, limit, l, page, lo, hi)
    ensures var redacted := RedactedBy(replies[lo..hi]);
            forall i :: 0 <= i < |page.messages| ==>
              (i == 0 && IsRootLine(page.messages[i], rootEvent, l, redacted)) ||
              IsSomeReply(page.messages[i], replies[lo..hi], l, redacted)
  {
    var walked, redacted := replies[lo..hi], RedactedBy(replies[lo..hi]);
    var messages := MessagesOf(Filter(walked, IsThreadReply), WithoutSummaries(l), redacted);
    var top := RootLine(rootEvent, before, page.next, messages, l, redacted);
    RepliesDecorated(walked, l, redacted);
    RootDecorated(rootEvent, before, page.next, messages, l, redacted);
    assert page.messages == top + messages;
    forall i | |top| <= i < |page.messages| ensures page.messages[i] in messages {
      assert page.messages[i] == messages[i - |top|];
    }
  }

  /** A request that gave up shows nothing but the root, with all that is its own. */
  lemma {:induction false} GivenUpDecorated(rootEvent: Option<Event>, before: Option<EventId>, l: Lookups)
    ensures var page := GivenUpPage(rootEvent, before, l);
            page.next.None? && |page.messages| <= 1 && (before.Some? ==> page.messages == []) &&
            (before.None? && rootEvent.Some? && l.convert(rootEvent.value).Some? ==> |page.messages| == 1) &&
            forall m :: m in page.messages ==> IsRootLine(m, rootEvent, l, {})
  {
    RootDecorated(rootEvent, None, None, [], l, {});
  }

  /** The page walks a stretch that ends before the anchor and holds exactly `n` replies. */
  ghost predicate ShowsReplies(replies: seq<Event>, rootEvent: Option<Event>, before: Option<EventId>, l: Lookups,
                               page: Page, n: nat)
  {
    exists lo: nat, hi: nat ::
      IsThreadPage(replies, rootEvent, before, n, l, page, lo, hi) && |Filter(replies[lo..hi], IsThreadReply)| == n
  }

  /** The root's line, if it leads this page: the page reaches the start of the thread, or
      is a first page without messages. `rootEvent` is the root if it can be loaded. */
  function RootLine(rootEvent: Option<Event>, before: Option<EventId>, next: Option<EventId>, messages: seq<Message>,
                    l: Lookups, redacted: set<EventId>): seq<Message>
  {
    if (next.None? || (before.None? && messages == [])) && rootEvent.Some? && l.convert(rootEvent.value).Some?
    then [Finished(rootEvent.value, l, redacted)] else []
  }

  /** What a thread page is: the replies of replies[lo..hi], and the root where it leads. */
  ghost predicate IsThreadPage(replies: seq<Event>, rootEvent: Option<Event>, before: Option<EventId>, limit: nat,
                               l: Lookups, page: Page, lo: nat, hi: nat)
  {
    Walks(replies, before, page.next, lo, hi) &&
    (page.next.None? ==> lo == 0) &&
    var walked := replies[lo..hi];
    var messages := MessagesOf(Filter(walked, IsThreadReply), WithoutSummaries(l), RedactedBy(walked));
    page.messages == RootLine(rootEvent, before, page.next, messages, l, RedactedBy(walked)) + messages &&
    |Filter(walked, IsThreadReply)| <= limit
  }

  /** Some stretch of the replies makes the page. A page with a cursor is full, unless the
      rounds were spent. */
  ghost predicate ServesThreadPage(replies: seq<Event>, rootEvent: Option<Event>, before: Option<EventId>, limit: nat,
                                   l: Lookups, page: Page, spent: bool)
  {
    exists lo: nat, hi: nat ::
      IsThreadPage(replies, rootEvent, before, limit, l, page, lo, hi) &&
      (page.next.Some? && !spent ==> |Filter(replies[lo..hi], IsThreadReply)| == limit)
  }

  /** The page came back empty-handed: every round was spent without reaching the start or
      listing a reply before the anchor. */
  ghost predicate ThreadGaveUp(cache: ThreadCache, askedBefore: nat, root: EventId, before: Option<EventId>)
    requires cache.Valid()
    reads cache
  {
    cache.asked == askedBefore + MAX_ROUNDS && !cache.atStart &&
    SliceBefore(Replies(cache.thread[cache.from..], root), before) == []
  }

  /** Put the root in front when it belongs there and can be shown. */
  method LeadWithRoot(out: seq<Message>, leads: bool, rootEvent: Option<Event>, l: Lookups, redacted: set<EventId>)
    returns (led: seq<Message>)
    ensures led == (if leads && rootEvent.Some? && l.convert(rootEvent.value).Some?
                    then [Finished(rootEvent.value, l, redacted)] else []) + out
  {
    led := out;
    if leads && rootEvent.Some? && l.convert(rootEvent.value).Some? {
      var line := DecorateOne(l.convert(rootEvent.value).value, l, redacted);
      if l.summary(rootEvent.value).Some? {
        line := line.(thread := l.summary(rootEvent.value));
      }
      led := [line] + out;
    }
  }

  /** What a thread page takes from the slice before its anchor. */
  ghost predicate FromReplies(slice: seq<Event>, consumed: nat, limit: nat, reachedStart: bool, before: Option<EventId>,
                              rootEvent: Option<Event>, l: Lookups, page: Page)
  {
    consumed <= |slice| && (consumed == 0 <==> slice == []) &&
    var walked := slice[|slice| - consumed..];
    var messages := MessagesOf(Filter(walked, IsThreadReply), WithoutSummaries(l), RedactedBy(walked));
    page.next == NextCursor(slice, consumed, reachedStart) && |Filter(walked, IsThreadReply)| <= limit &&
    (|Filter(walked, IsThreadReply)| < limit ==> consumed == |slice|) &&
    page.messages == RootLine(rootEvent, before, page.next, messages, l, RedactedBy(walked)) + messages
  }

  /** The page of a request that gave up: the root, if it is a first page, and no cursor. */
  function GivenUpPage(rootEvent: Option<Event>, before: Option<EventId>, l: Lookups): Page {
    Page(if before.None? then RootLine(rootEvent, None, None, [], l, {}) else [], None)
  }

  method BuildThreadPage(slice: seq<Event>, limit: nat, reachedStart: bool, before: Option<EventId>,
                         rootEvent: Option<Event>, l: Lookups)
    returns (page: Page, consumed: nat)
    requires limit >= 1
    ensures HaveIds(slice) && (slice != [] || reachedStart) ==>
              FromReplies(slice, consumed, limit, reachedStart, before, rootEvent, l, page)
    ensures slice == [] && !reachedStart ==> page == GivenUpPage(rootEvent, before, l)
    ensures consumed == 0 ==> slice == []
  {
    var out, redacted;
    consumed, out, redacted := ShowNewest(slice, limit, IsThreadReply, WithoutSummaries(l));
    var atStart := consumed >= |slice| && reachedStart;
    var next := if atStart || consumed == 0 then None else slice[|slice| - consumed].id;
    // The root leads the page that reaches the start, and a first page without messages.
    var led := LeadWithRoot(out, atStart || (before.None? && out == []), rootEvent, l, redacted);
    page := Page(led, next);
    if slice == [] {
      assert out == [] && redacted == {};
    }
    if HaveIds(slice) && (slice != [] || reachedStart) {
      assert next.None? <==> atStart;
      assert next == NextCursor(slice, consumed, reachedStart);
      assert led == RootLine(rootEvent, before, next, out, l, redacted) + out;
    }
  }

  /** A request for `limitArg` replies, with the bounds of a timeline's. */
  method Thread(cache: ThreadCache, root: EventId, rootEvent: Option<Event>, limitArg: nat, beforeArg: Option<EventId>,
                l: Lookups)
    returns (r: Result<Page>)
    requires cache.Valid()
    modifies cache`from, cache`asked, cache`atStart
    ensures cache.Valid() && cache.asked <= old(cache.asked) + 12
    ensures r.Err? ==> NonEmpty(beforeArg).Some? && NowhereIn(Replies(cache.thread, root), NonEmpty(beforeArg))
    ensures r.Ok? && ThreadGaveUp(cache, old(cache.asked), root, NonEmpty(beforeArg)) ==>
              r.value == GivenUpPage(rootEvent, NonEmpty(beforeArg), l)
    ensures r.Ok? && !ThreadGaveUp(cache, old(cache.asked), root, NonEmpty(beforeArg)) ==>
              ServesThreadPage(Replies(cache.thread, root), rootEvent, NonEmpty(beforeArg), Clamped(limitArg), l,
                               r.value, cache.asked == old(cache.asked) + MAX_ROUNDS)
    ensures var before := if beforeArg == Some("") then None else beforeArg;
            var n := if limitArg == 0 then 1 else if limitArg <= 200 then limitArg else 200;
            && (cache.asked == old(cache.asked) <==>
                old(HoldsPage(Replies(cache.thread[cache.from..], root), before, n, IsThreadReply)))
            && (cache.asked == old(cache.asked) ==> r.Ok?)
            && (r.Ok? && r.value.next.Some? && cache.asked < old(cache.asked) + 12 ==>
                ShowsReplies(Replies(cache.thread, root), rootEvent, before, l, r.value, n))
  {
    var limit, before := Clamped(limitArg), NonEmpty(beforeArg);
    ListedIsSuffix(cache.thread, root, cache.from);
    LookDecides(Replies(cache.thread[cache.from..], root), before, limit, IsThreadReply);
    var slice, reachedStart := LoadReplies(cache, root, limit, before);
    r := Respond(slice, limit, reachedStart, before, rootEvent, l, cache.thread, cache.from, root,
                 cache.asked == old(cache.asked) + MAX_ROUNDS);
  }

  /** What to answer with what was loaded of the thread. */
  method Respond(slice: Option<seq<Event>>, limit: nat, reachedStart: bool, before: Option<EventId>,
                 rootEvent: Option<Event>, l: Lookups, ghost thread: seq<Event>, ghost k: nat, ghost root: EventId,
                 ghost spent: bool)
    returns (r: Result<Page>)
    requires limit >= 1 && UniqueIds(thread) && k <= |thread| && (reachedStart ==> k == 0)
    requires Fetched(slice, Replies(thread[k..], root), before, limit, IsThreadReply, reachedStart, spent)
    ensures r.Err? <==> slice.None?
    ensures r.Err? ==> before.Some? && NowhereIn(Replies(thread, root), before)
    ensures r.Ok? && spent && !reachedStart && SliceBefore(Replies(thread[k..], root), before) == [] ==>
              r.value == GivenUpPage(rootEvent, before, l)
    ensures r.Ok? && !(spent && !reachedStart && SliceBefore(Replies(thread[k..], root), before) == []) ==>
              ServesThreadPage(Replies(thread, root), rootEvent, before, limit, l, r.value, spent)
    ensures r.Ok? && r.value.next.Some? && !spent ==>
              ShowsReplies(Replies(thread, root), rootEvent, before, l, r.value, limit)
  {
    ghost var all := Replies(thread[k..], root);
    if slice.None? {
      assert thread[k..] == thread;
      return Err("the earlier replies are no longer loaded; reopen the thread");
    }
    var page, consumed := BuildThreadPage(slice.value, limit, reachedStart, before, rootEvent, l);
    r := Ok(page);
    if !(spent && !reachedStart && SliceBefore(all, before) == []) {
      PageFromThread(thread, k, root, rootEvent, before, limit, l, consumed, reachedStart, page, spent);
    }
  }

  /** A page built from what is loaded of a thread. */
  lemma {:induction false} PageFromThread(thread: seq<Event>, k: nat, root: EventId, rootEvent: Option<Event>,
                                          before: Option<EventId>, limit: nat, l: Lookups, consumed: nat,
                                          reachedStart: bool, page: Page, spent: bool)
    requires UniqueIds(thread) && k <= |thread| && (reachedStart ==> k == 0)
    requires Cut(Replies(thread[k..], root), before).Some?
    requires var slice := SliceBefore(Replies(thread[k..], root), before);
             (slice != [] || reachedStart) &&
             (HaveIds(slice) ==> FromReplies(slice, consumed, limit, reachedStart, before, rootEvent, l, page))
    requires !reachedStart && |Filter(SliceBefore(Replies(thread[k..], root), before), IsThreadReply)| < limit ==> spent
    ensures ServesThreadPage(Replies(thread, root), rootEvent, before, limit, l, page, spent)
    ensures page.next.Some? && !spent ==> ShowsReplies(Replies(thread, root), rootEvent, before, l, page, limit)
  {
    ListedIsSuffix(thread, root, k);
    if reachedStart { assert thread[k..] == thread; }
    PageInThread(Replies(thread, root), Replies(thread[k..], root), rootEvent, before, limit, l, consumed,
                 reachedStart, page, spent);
  }

  /** A page built from a contiguous stretch ending the thread is a page of the thread. */
  lemma {:induction false} PageInThread(replies: seq<Event>, all: seq<Event>, rootEvent: Option<Event>,
                                        before: Option<EventId>, limit: nat, l: Lookups, consumed: nat,
                                        reachedStart: bool, page: Page, spent: bool)
    requires HaveIds(replies) && IsSuffix(all, replies) && (reachedStart ==> all == replies) && Cut(all, before).Some?
    requires FromReplies(SliceBefore(all, before), consumed, limit, reachedStart, before, rootEvent, l, page)
    requires consumed == 0 ==> reachedStart
    requires !reachedStart && |Filter(SliceBefore(all, before), IsThreadReply)| < limit ==> spent
    ensures ServesThreadPage(replies, rootEvent, before, limit, l, page, spent)
    ensures page.next.Some? && !spent ==> ShowsReplies(replies, rootEvent, before, l, page, limit)
  {
    var lo, hi := StretchOf(replies, all, before, consumed, reachedStart);
    assert IsThreadPage(replies, rootEvent, before, limit, l, page, lo, hi);
    var slice := SliceBefore(all, before);
    if |Filter(replies[lo..hi], IsThreadReply)| < limit { assert slice[0..] == slice; }
  }
}
