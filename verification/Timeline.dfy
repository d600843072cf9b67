/** A page of a room's timeline: the fetch loop over the event cache, the walk, and the
    messages it becomes. */
module Timeline {
  import opened Options
  import opened Events
  import opened ChunkListing
  import opened EventCache
  import opened Paging
  import opened Relations

  const MAX_ROUNDS := 12
  const MAX_LIMIT := 200

  // ---------- messages ----------

  datatype ThreadInfo = ThreadInfo(replies: nat, unread: nat, latest: Option<EventId>)

  datatype Message = Message(eventId: EventId, body: string, html: Option<string>, edited: bool, deleted: bool,
                             reactions: seq<Reaction>, readBy: seq<string>, thread: Option<ThreadInfo>)

  /** What the SDK answers while a page is put together: `convert` turns an event into a
      message, or not; the others are the lookups made for each message. */
  datatype Lookups = Lookups(convert: Event -> Option<Message>, related: EventId -> seq<Related>,
                             author: EventId -> Option<string>, readers: EventId -> seq<string>,
                             summary: Event -> Option<ThreadInfo>, nameOf: string -> string, me: Option<string>)

  /** A message with its own reactions, readers and newest edit. */
  function WithRelations(m: Message, l: Lookups, redacted: set<EventId>): Message {
    var edit := NewestEdit(l.related(m.eventId), l.author(m.eventId));
    var m1 := m.(reactions := Summary(ReactionsIn(l.related(m.eventId)), l.me, redacted, l.nameOf),
                 readBy := l.readers(m.eventId));
    if edit.Some? && !m.deleted then m1.(body := edit.value.body, html := edit.value.html, edited := true) else m1
  }

  function WithThread(m: Message, ev: Event, l: Lookups): Message {
    if l.summary(ev).Some? then m.(thread := l.summary(ev)) else m
  }

  function Finished(ev: Event, l: Lookups, redacted: set<EventId>): Message
    requires l.convert(ev).Some?
  {
    WithThread(WithRelations(l.convert(ev).value, l, redacted), ev, l)
  }

  /** The messages of a stretch of shown events, in the order of the events; those that
      convert to nothing are left out. */
  function MessagesOf(events: seq<Event>, l: Lookups, redacted: set<EventId>): seq<Message> {
    if events == [] then []
    else (if l.convert(events[0]).Some? then [Finished(events[0], l, redacted)] else []) +
         MessagesOf(events[1..], l, redacted)
  }

  /** The ids a client sees for a stretch of shown events. */
  function IdsOf(events: seq<Event>, converts: Event -> bool): seq<EventId>
    requires HaveIds(events)
  {
    if events == [] then []
    else (if converts(events[0]) then [events[0].id.value] else []) + IdsOf(events[1..], converts)
  }

  function MessageIds(messages: seq<Message>): (ids: seq<EventId>)
    ensures |ids| == |messages| && forall i :: 0 <= i < |ids| ==> ids[i] == messages[i].eventId
  {
    seq(|messages|, i requires 0 <= i < |messages| => messages[i].eventId)
  }

  /** Conversion keeps the event's id and succeeds on the events `converts` says. */
  ghost predicate Faithful(l: Lookups, converts: Event -> bool) {
    (forall e :: l.convert(e).Some? <==> converts(e)) &&
    forall e: Event :: e.id.Some? && l.convert(e).Some? ==> l.convert(e).value.eventId == e.id.value
  }

  lemma {:induction false} MessagesKeepIds(events: seq<Event>, l: Lookups, redacted: set<EventId>,
                                           converts: Event -> bool)
    requires HaveIds(events) && Faithful(l, converts)
    ensures MessageIds(MessagesOf(events, l, redacted)) == IdsOf(events, converts)
  {
    if events != [] {
      var e, rest := events[0], MessagesOf(events[1..], l, redacted);
      MessagesKeepIds(events[1..], l, redacted, converts);
      if converts(e) {
        var m := Finished(e, l, redacted);
        assert m.eventId == e.id.value;
        assert MessagesOf(events, l, redacted) == [m] + rest;
        assert MessageIds([m] + rest) == [m.eventId] + MessageIds(rest);
      } else {
        assert MessagesOf(events, l, redacted) == rest;
      }
    }
  }

  /** `m` is `plain` with the reactions, readers and newest edit that are its own; a deleted
      message keeps its body. */
  ghost predicate IsRelated(m: Message, plain: Message, l: Lookups, redacted: set<EventId>) {
    m.eventId == plain.eventId && m.deleted == plain.deleted &&
    m.reactions == Summary(ReactionsIn(l.related(plain.eventId)), l.me, redacted, l.nameOf) &&
    m.readBy == l.readers(plain.eventId) &&
    exists edit :: IsNewestEdit(l.related(plain.eventId), l.author(plain.eventId), edit) &&
      if edit.Some? && !plain.deleted then m.body == edit.value.body && m.html == edit.value.html && m.edited
      else m.body == plain.body && m.html == plain.html && m.edited == plain.edited
  }

  /** `m` is `plain`, the message of `ev`, with everything that is its own: the thread summary
      of `ev` too. */
  ghost predicate IsDecorated(m: Message, plain: Message, ev: Event, l: Lookups, redacted: set<EventId>) {
    IsRelated(m, plain, l, redacted) &&
    m.thread == if l.summary(ev).Some? then l.summary(ev) else plain.thread
  }

  lemma {:induction false} FinishedIsDecorated(ev: Event, l: Lookups, redacted: set<EventId>)
    requires l.convert(ev).Some?
    ensures IsDecorated(Finished(ev, l, redacted), l.convert(ev).value, ev, l, redacted)
  {
    var id := l.convert(ev).value.eventId;
    NewestEditMeaning(l.related(id), l.author(id));
  }

  /** Every message of a page is decorated with what belongs to its own event. */
  lemma {:induction false} EachItsOwn(events: seq<Event>, l: Lookups, redacted: set<EventId>)
    ensures forall m :: m in MessagesOf(events, l, redacted) ==>
              exists e :: e in events && l.convert(e).Some? && IsDecorated(m, l.convert(e).value, e, l, redacted)
  {
    if events != [] {
      var e := events[0];
      EachItsOwn(events[1..], l, redacted);
      if l.convert(e).Some? { FinishedIsDecorated(e, l, redacted); }
    }
  }

  lemma {:induction false} ReversedSnoc<T>(s: seq<T>, x: T)
    ensures Reversed(s + [x]) == [x] + Reversed(s)
  {
    if s == [] {
      assert s + [x] == [x];
    } else {
      assert (s + [x])[1..] == s[1..] + [x];
      ReversedSnoc(s[1..], x);
    }
  }

  lemma {:induction false} ReversedTwice<T>(s: seq<T>)
    ensures Reversed(Reversed(s)) == s
  {
    if s != [] {
      ReversedTwice(s[1..]);
      ReversedSnoc(Reversed(s[1..]), s[0]);
    }
  }

  /** The events that convert, in order. */
  function Converting(events: seq<Event>, l: Lookups): seq<Event> {
    if events == [] then []
    else
      var before, last := Converting(events[..|events| - 1], l), events[|events| - 1];
      if l.convert(last).Some? then before + [last] else before
  }

  /** Convert the walked events, dropping those that are no message and keeping each
      message beside the event it came from. */
  method Convert(kept: seq<Event>, l: Lookups) returns (sources: seq<Event>, msgs: seq<Message>)
    ensures sources == Converting(kept, l) && |msgs| == |sources|
    ensures forall i :: 0 <= i < |msgs| ==> l.convert(sources[i]) == Some(msgs[i])
  {
    sources, msgs := [], [];
    for k := 0 to |kept|
      invariant sources == Converting(kept[..k], l) && |msgs| == |sources|
      invariant forall i :: 0 <= i < |msgs| ==> l.convert(sources[i]) == Some(msgs[i])
    {
      assert kept[..k + 1][..k] == kept[..k];
      var m := l.convert(kept[k]);
      if m.Some? {
        sources, msgs := sources + [kept[k]], msgs + [m.value];
      }
    }
    assert kept[..|kept|] == kept;
  }

  /** Give every message its own reactions, newest edit and readers. */
  method Decorate(plain: seq<Message>, l: Lookups, redacted: set<EventId>) returns (msgs: seq<Message>)
    ensures |msgs| == |plain|
    ensures forall i :: 0 <= i < |msgs| ==> msgs[i] == WithRelations(plain[i], l, redacted)
  {
    msgs := plain;
    for k := 0 to |plain|
      invariant |msgs| == |plain|
      invariant forall i :: 0 <= i < k ==> msgs[i] == WithRelations(plain[i], l, redacted)
      invariant forall i :: k <= i < |msgs| ==> msgs[i] == plain[i]
    {
      var m := DecorateOne(msgs[k], l, redacted);
      msgs := msgs[k := m];
    }
  }

  method DecorateOne(plain: Message, l: Lookups, redacted: set<EventId>) returns (m: Message)
    ensures m == WithRelations(plain, l, redacted)
  {
    var raw, edit := CachedRelations(l.related(plain.eventId), l.author(plain.eventId));
    var reactions := Aggregate(raw, l.me, redacted, l.nameOf);
    m := plain.(reactions := reactions, readBy := l.readers(plain.eventId));
    if edit.Some? && !m.deleted {
      m := m.(body := edit.value.body, html := edit.value.html, edited := true);
    }
  }

  /** Each message takes the summary of the event beside it. */
  method AddThreads(plain: seq<Message>, sources: seq<Event>, l: Lookups) returns (msgs: seq<Message>)
    requires |plain| == |sources|
    ensures |msgs| == |plain| && forall i :: 0 <= i < |msgs| ==> msgs[i] == WithThread(plain[i], sources[i], l)
  {
    msgs := plain;
    for k := 0 to |plain|
      invariant |msgs| == |plain|
      invariant forall i :: 0 <= i < k ==> msgs[i] == WithThread(plain[i], sources[i], l)
      invariant forall i :: k <= i < |msgs| ==> msgs[i] == plain[i]
    {
      var summary := l.summary(sources[k]);
      if summary.Some? {
        msgs := msgs[k := msgs[k].(thread := summary)];
      }
    }
  }

  /** The messages of the walked events (newest first), oldest first, each with what
      belongs to it. */
  method BuildMessages(kept: seq<Event>, l: Lookups, redacted: set<EventId>) returns (out: seq<Message>)
    ensures out == MessagesOf(Reversed(kept), l, redacted)
  {
    var sources, plain := Convert(kept, l);
    var decorated := Decorate(plain, l, redacted);
    var msgs := AddThreads(decorated, sources, l);
    FinishedAre(sources, msgs, l, redacted);
    ConvertingMessages(kept, l, redacted);
    out := Reversed(msgs);
  }

  lemma {:induction false} ConvertingMessages(kept: seq<Event>, l: Lookups, redacted: set<EventId>)
    ensures MessagesOf(Reversed(Converting(kept, l)), l, redacted) == MessagesOf(Reversed(kept), l, redacted)
  {
    if kept != [] {
      var before, last := kept[..|kept| - 1], kept[|kept| - 1];
      assert kept == before + [last];
      ConvertingMessages(before, l, redacted);
      ReversedSnoc(before, last);
      ReversedSnoc(Converting(before, l), last);
    }
  }

  lemma {:induction false} FinishedAre(sources: seq<Event>, msgs: seq<Message>, l: Lookups, redacted: set<EventId>)
    requires |sources| == |msgs|
    requires forall i :: 0 <= i < |msgs| ==> l.convert(sources[i]).Some? && msgs[i] == Finished(sources[i], l, redacted)
    ensures Reversed(msgs) == MessagesOf(Reversed(sources), l, redacted)
  {
    if msgs != [] {
      var n := |msgs| - 1;
      var before, ms := sources[..n], msgs[..n];
      assert msgs == ms + [msgs[n]] && sources == before + [sources[n]];
      FinishedAre(before, ms, l, redacted);
      ReversedSnoc(ms, msgs[n]);
      ReversedSnoc(before, sources[n]);
    }
  }

  // ---------- one page ----------

  datatype Page = Page(messages: seq<Message>, next: Option<EventId>)

  function Clamped(limit: nat): (n: nat)
    ensures 1 <= n <= MAX_LIMIT
  {
    if limit < 1 then 1 else if limit > MAX_LIMIT then MAX_LIMIT else limit
  }

  function NonEmpty(before: Option<EventId>): Option<EventId> {
    if before == Some("") then None else before
  }

  /** Walk and build in one go: the messages of the stretch walked. */
  method ShowNewest(events: seq<Event>, limit: nat, shown: Event -> bool, l: Lookups)
    returns (consumed: nat, messages: seq<Message>, redacted: set<EventId>)
    requires limit >= 1 && forall e: Event :: e.Redaction? ==> !shown(e)
    ensures consumed <= |events| && (consumed == 0 <==> events == [])
    ensures redacted == RedactedBy(events[|events| - consumed..])
    ensures messages == MessagesOf(Filter(events[|events| - consumed..], shown), l, redacted)
    ensures |Filter(events[|events| - consumed..], shown)| <= limit
    ensures |Filter(events[|events| - consumed..], shown)| < limit ==> consumed == |events|
  {
    var kept;
    consumed, kept, redacted := WalkNewestFirst(events, limit, shown);
    messages := BuildMessages(kept, l, redacted);
    ReversedTwice(Filter(events[|events| - consumed..], shown));
  }

  /** The tail the listing tells, clipped to what is loaded. */
  method ReadTail(cache: RoomCache) returns (tail: seq<Event>)
    requires Sound(cache.view)
    ensures tail == Tail(cache.view.chunks) && IsSuffix(tail, History(cache.view))
  {
    var all := cache.Events();
    var lines := cache.DebugString();
    var n := ContiguousTail(lines);
    n := if n < |all| then n else |all|;
    TailIsSuffix(cache.view.chunks);
    TailInHistory(cache.view);
    ListingExact(lines, cache.view.chunks);
    tail := all[|all| - n..];
  }

  lemma {:induction false} TailInHistory(v: View)
    ensures IsSuffix(Tail(v.chunks), History(v))
    ensures forall e :: e in Tail(v.chunks) ==> e in History(v)
  {
    TailIsSuffix(v.chunks);
    var contents, tail := Contents(v.chunks), Tail(v.chunks);
    var front := contents[..|contents| - |tail|];
    assert contents == front + tail;
    assert History(v) == (v.older + front) + tail;
  }

  /** A slice cut from the end of the history lies just before the anchor in it. */
  lemma {:induction false} CutIsAnchored(h: seq<Event>, tail: seq<Event>, before: Option<EventId>) returns (hi: nat)
    requires IsSuffix(tail, h) && Cut(tail, before).Some?
    ensures var slice := SliceBefore(tail, before);
            At(h, before, hi) && |slice| <= hi && slice == h[hi - |slice|..hi] &&
            (tail == h ==> |slice| == hi)
  {
    var start, cut := |h| - |tail|, Cut(tail, before).value;
    hi := start + cut;
    assert tail == h[start..];
    assert tail[..cut] == h[start..hi];
    if before.Some? { assert tail[cut] == h[hi]; }
  }

  /** The views a fetch loop looks at: each but the last holds too little, and the next one is
      a back-pagination later. */
  ghost predicate IsFetch(views: seq<View>, before: Option<EventId>, limit: nat, reachedStart: bool) {
    0 < |views| <= MAX_ROUNDS + 1 &&
    forall i, j :: 0 <= i < |views| - 1 && j == i + 1 ==>
      FetchesMore(views[i], views[j], before, limit, reachedStart && j == |views| - 1)
  }

  ghost predicate FetchesMore(v: View, v': View, before: Option<EventId>, limit: nat, reachedStart: bool) {
    Look(Tail(v.chunks), before, limit, IsMessageLike, false) == More && BackPaginated(v, v', reachedStart)
  }

  /** A fetch that spends all its rounds and has nothing before the anchor. */
  ghost predicate GivesUp(views: seq<View>, before: Option<EventId>, limit: nat) {
    IsFetch(views, before, limit, false) && |views| == MAX_ROUNDS + 1 &&
    SliceBefore(Tail(views[MAX_ROUNDS].chunks), before) == []
  }

  /** The fetch loop after `rounds` back-paginations. */
  ghost predicate Fetching(first: View, views: seq<View>, now: View, before: Option<EventId>, limit: nat,
                           reachedStart: bool, rounds: nat)
  {
    Sound(now) && History(first) <= History(now) &&
    IsFetch(views, before, limit, reachedStart) && |views| == rounds + 1 && views[0] == first && views[rounds] == now
  }

  lemma {:induction false} RoundFetched(first: View, views: seq<View>, now: View, next: View, before: Option<EventId>,
                                        limit: nat, reachedStart: bool, rounds: nat)
    requires Fetching(first, views, now, before, limit, false, rounds) && rounds < MAX_ROUNDS
    requires Synced(now, next) && FetchesMore(now, next, before, limit, reachedStart)
    ensures Fetching(first, views + [next], next, before, limit, reachedStart, rounds + 1)
  {
  }

  /** What a fetch loop hands over, with `listed` what it has listed in the end: the events
      before the anchor, unless the start was reported and the anchor is not there; a page's
      worth of them, unless the start was reported or the rounds were `spent`. */
  ghost predicate Fetched(slice: Option<seq<Event>>, listed: seq<Event>, before: Option<EventId>, limit: nat,
                          shown: Event -> bool, reachedStart: bool, spent: bool)
  {
    match slice
    case None => reachedStart && Cut(listed, before).None?
    case Some(events) =>
      events == SliceBefore(listed, before) &&
      if reachedStart then Cut(listed, before).Some?
      else spent || (Cut(listed, before).Some? && |Filter(events, shown)| >= limit)
  }

  /** The fetch loop of a page: read the gap-free tail, look, and back-paginate, until a
      look decides or the rounds are used up. */
  method LoadSlice(cache: RoomCache, limit: nat, before: Option<EventId>)
    returns (slice: Option<seq<Event>>, reachedStart: bool, ghost views: seq<View>, ghost rounds: nat)
    requires Sound(cache.view) && limit >= 1
    modifies cache
    ensures rounds <= MAX_ROUNDS && cache.asked == old(cache.asked) + rounds
    ensures Fetching(old(cache.view), views, cache.view, before, limit, reachedStart, rounds)
    ensures if rounds > 0 then cache.atStart == reachedStart else !reachedStart && cache.view == old(cache.view)
    ensures Fetched(slice, Tail(cache.view.chunks), before, limit, IsMessageLike, reachedStart, rounds == MAX_ROUNDS)
  {
    ghost var first := cache.view;
    reachedStart, views, rounds := false, [first], 0;
    var made := 0;
    while true
      invariant Fetching(first, views, cache.view, before, limit, reachedStart, rounds)
      invariant made == rounds <= MAX_ROUNDS && cache.asked == old(cache.asked) + rounds
      invariant if rounds > 0 then cache.atStart == reachedStart else !reachedStart && cache.view == first
      decreases MAX_ROUNDS - made
    {
      var all := ReadTail(cache);
      match Look(all, before, limit, IsMessageLike, reachedStart) {
        case Enough(s) => return Some(s), reachedStart, views, rounds;
        case Lost => return None, reachedStart, views, rounds;
        case More =>
      }
      assert !reachedStart;
      made := made + 1;
      if made > MAX_ROUNDS {
        // The rounds are used up.
        return Some(SliceBefore(all, before)), reachedStart, views, rounds;
      }
      ghost var now := cache.view;
      reachedStart := cache.RunBackwardsOnce(if limit < 40 then 40 else limit);
      RoundFetched(first, views, now, cache.view, before, limit, reachedStart, rounds);
      rounds, views := rounds + 1, views + [cache.view];
    }
  }

  /** A page came back empty-handed: all rounds were spent without reaching the start or
      loading a single event before the anchor. */
  ghost predicate GaveUp(cache: RoomCache, askedBefore: nat, before: Option<EventId>)
    reads cache
  {
    cache.asked == askedBefore + MAX_ROUNDS && !cache.atStart &&
    SliceBefore(Tail(cache.view.chunks), before) == []
  }

  /** The start was reported, but when the cache was read a new gap had cut it off. */
  ghost predicate StaleStart(cache: RoomCache, askedBefore: nat)
    reads cache
  {
    cache.asked > askedBefore && cache.atStart && Tail(cache.view.chunks) != History(cache.view)
  }

  /** What a page is: the messages of a stretch of the history that is walked to its start if
      there is no cursor. */
  ghost predicate IsPage(history: seq<Event>, before: Option<EventId>, limit: nat, l: Lookups, page: Page,
                         lo: nat, hi: nat)
  {
    IsStretchPage(history, before, limit, l, page, lo, hi) && (page.next.None? ==> lo == 0)
  }

  /** The messages of history[lo..hi], at most `limit` of them. */
  ghost predicate IsStretchPage(history: seq<Event>, before: Option<EventId>, limit: nat, l: Lookups, page: Page,
                                lo: nat, hi: nat)
  {
    Walks(history, before, page.next, lo, hi) &&
    var walked := history[lo..hi];
    page.messages == MessagesOf(Filter(walked, IsMessageLike), l, RedactedBy(walked)) &&
    |Filter(walked, IsMessageLike)| <= limit
  }

  /** Some stretch of the history makes the page. A page with a cursor is full, unless the
      rounds were spent. */
  ghost predicate ServesPage(history: seq<Event>, before: Option<EventId>, limit: nat, l: Lookups, page: Page,
                             spent: bool)
  {
    exists lo: nat, hi: nat ::
      IsPage(history, before, limit, l, page, lo, hi) &&
      (page.next.Some? && !spent ==> |Filter(history[lo..hi], IsMessageLike)| == limit)
  }

  ghost predicate ServesStretch(history: seq<Event>, before: Option<EventId>, limit: nat, l: Lookups, page: Page) {
    exists lo: nat, hi: nat :: IsStretchPage(history, before, limit, l, page, lo, hi)
  }

  /** The page walks a stretch that ends before the anchor and holds exactly `n` events the
      room shows. */
  ghost predicate ShowsExactly(history: seq<Event>, before: Option<EventId>, l: Lookups, page: Page, n: nat) {
    exists lo: nat, hi: nat ::
      IsStretchPage(history, before, n, l, page, lo, hi) && |Filter(history[lo..hi], IsMessageLike)| == n
  }

  /** At least `n` of the listed events before the anchor are shown. */
  ghost predicate HoldsPage(listed: seq<Event>, before: Option<EventId>, n: nat, shown: Event -> bool) {
    exists cut: nat :: At(listed, before, cut) && |Filter(listed[..cut], shown)| >= n
  }

  lemma {:induction false} LookDecides(listed: seq<Event>, before: Option<EventId>, n: nat, shown: Event -> bool)
    requires UniqueIds(listed)
    ensures HoldsPage(listed, before, n, shown) <==> Look(listed, before, n, shown, false).Enough?
  {
    if HoldsPage(listed, before, n, shown) {
      var cut: nat :| At(listed, before, cut) && |Filter(listed[..cut], shown)| >= n;
      assert Cut(listed, before) == Some(cut);
    } else if Cut(listed, before).Some? {
      assert At(listed, before, Cut(listed, before).value);
    }
  }

  /** Every message of a page belongs to an event of the stretch that the room shows, and has
      what is that event's own. */
  lemma {:induction false} PageDecorated(history: seq<Event>, before: Option<EventId>, limit: nat, l: Lookups,
                                         page: Page, lo: nat, hi: nat)
    requires IsStretchPage(history, before, limit, l, page, lo, hi)
    ensures forall m :: m in page.messages ==>
              exists e :: e in history[lo..hi] && IsMessageLike(e) && l.convert(e).Some? &&
                          IsDecorated(m, l.convert(e).value, e, l, RedactedBy(history[lo..hi]))
  {
    EachItsOwn(Filter(history[lo..hi], IsMessageLike), l, RedactedBy(history[lo..hi]));
  }

  ghost predicate NowhereIn(history: seq<Event>, before: Option<EventId>) {
    forall hi: nat :: !At(history, before, hi)
  }

  /** What a page takes from the slice before its anchor: its newest `consumed` events. */
  ghost predicate FromSlice(slice: seq<Event>, consumed: nat, limit: nat, reachedStart: bool, l: Lookups, page: Page) {
    consumed <= |slice| && (consumed == 0 <==> slice == []) &&
    var walked := slice[|slice| - consumed..];
    page == Page(MessagesOf(Filter(walked, IsMessageLike), l, RedactedBy(walked)),
                 NextCursor(slice, consumed, reachedStart)) &&
    |Filter(walked, IsMessageLike)| <= limit &&
    (|Filter(walked, IsMessageLike)| < limit ==> consumed == |slice|)
  }

  method BuildPage(slice: seq<Event>, limit: nat, reachedStart: bool, l: Lookups) returns (page: Page, consumed: nat)
    requires limit >= 1
    ensures FromSlice(slice, consumed, limit, reachedStart, l, page)
  {
    var messages, redacted;
    consumed, messages, redacted := ShowNewest(slice, limit, IsMessageLike, l);
    page := Page(messages, NextCursor(slice, consumed, reachedStart));
  }

  /** What a request for a page may answer. It errs only if the anchor is not in the history or
      the start was stale; a page for which it `gaveUp` is empty and without a cursor; with a
      stale start it is a page of some stretch, and otherwise a page of the history. */
  ghost predicate Serves(h: seq<Event>, before: Option<EventId>, limit: nat, l: Lookups, r: Result<Page>,
                         gaveUp: bool, stale: bool, spent: bool)
  {
    (r.Err? ==> before.Some? && (stale || NowhereIn(h, before))) &&
    (r.Ok? && gaveUp ==> r.value == Page([], None)) &&
    (r.Ok? && stale ==> ServesStretch(h, before, limit, l, r.value)) &&
    (r.Ok? && !gaveUp && !stale ==> ServesPage(h, before, limit, l, r.value, spent))
  }

  lemma {:induction false} TailUnique(v: View)
    requires Sound(v)
    ensures UniqueIds(Tail(v.chunks))
  {
    TailInHistory(v);
    var h, tail := History(v), Tail(v.chunks);
    forall i | 0 <= i < |tail| ensures tail[i] == h[|h| - |tail| + i] {}
  }

  /** A fetch makes a round exactly when its first look finds too little. */
  lemma {:induction false} FirstLook(first: View, slice: Option<seq<Event>>, views: seq<View>, now: View,
                                     before: Option<EventId>, limit: nat, reachedStart: bool, rounds: nat)
    requires Sound(first) && Fetching(first, views, now, before, limit, reachedStart, rounds)
    requires Fetched(slice, Tail(now.chunks), before, limit, IsMessageLike, reachedStart, rounds == MAX_ROUNDS)
    requires rounds == 0 ==> !reachedStart
    ensures rounds == 0 <==> HoldsPage(Tail(first.chunks), before, limit, IsMessageLike)
    ensures rounds == 0 ==> slice.Some?
  {
    TailUnique(first);
    LookDecides(Tail(first.chunks), before, limit, IsMessageLike);
    if rounds > 0 {
      assert FetchesMore(views[0], views[1], before, limit, reachedStart && 1 == |views| - 1);
    }
  }

  lemma {:induction false} FetchViews(first: View, views: seq<View>, now: View, before: Option<EventId>, limit: nat,
                                      reachedStart: bool, rounds: nat)
    requires Fetching(first, views, now, before, limit, reachedStart, rounds)
    ensures |views| > 0 && views[0] == first && views[|views| - 1] == now
    ensures rounds == MAX_ROUNDS && !reachedStart && SliceBefore(Tail(now.chunks), before) == [] ==>
              GivesUp(views, before, limit)
    ensures rounds > 0 && reachedStart ==> |views| > 1 && IsFetch(views, before, limit, true)
  {
  }

  /** A request for `limitArg` messages. Without a stretch the server has yet to send, it
      shows that many, at least one and at most two hundred, and asks the server only if fewer
      are listed. */
  method Timeline(cache: RoomCache, limitArg: nat, beforeArg: Option<EventId>, l: Lookups)
    returns (r: Result<Page>, ghost views: seq<View>)
    requires Sound(cache.view)
    modifies cache
    ensures Sound(cache.view) && old(History(cache.view)) <= History(cache.view)
    ensures cache.asked <= old(cache.asked) + 12
    ensures Serves(History(cache.view), NonEmpty(beforeArg), Clamped(limitArg), l, r,
                   GaveUp(cache, old(cache.asked), NonEmpty(beforeArg)), StaleStart(cache, old(cache.asked)),
                   cache.asked == old(cache.asked) + MAX_ROUNDS)
    ensures var before := if beforeArg == Some("") then None else beforeArg;
            var n := if limitArg == 0 then 1 else if limitArg <= 200 then limitArg else 200;
            && (cache.asked == old(cache.asked) <==>
                old(HoldsPage(Tail(cache.view.chunks), before, n, IsMessageLike)))
            && (cache.asked == old(cache.asked) ==> r.Ok?)
            && (r.Ok? && r.value.next.Some? && cache.asked < old(cache.asked) + 12 ==>
                ShowsExactly(History(cache.view), before, l, r.value, n))
    ensures r.Err? <==> cache.asked > old(cache.asked) && cache.atStart &&
                        Cut(Tail(cache.view.chunks), NonEmpty(beforeArg)).None?
    ensures |views| > 0 && views[0] == old(cache.view) && views[|views| - 1] == cache.view
    ensures GaveUp(cache, old(cache.asked), NonEmpty(beforeArg)) ==>
              GivesUp(views, NonEmpty(beforeArg), Clamped(limitArg))
    ensures StaleStart(cache, old(cache.asked)) ==>
              |views| > 1 && IsFetch(views, NonEmpty(beforeArg), Clamped(limitArg), true)
  {
    var limit, before := Clamped(limitArg), NonEmpty(beforeArg);
    ghost var first := cache.view;
    var slice, reachedStart;
    ghost var rounds;
    slice, reachedStart, views, rounds := LoadSlice(cache, limit, before);
    FirstLook(first, slice, views, cache.view, before, limit, reachedStart, rounds);
    FetchViews(first, views, cache.view, before, limit, reachedStart, rounds);
    r := Respond(slice, limit, reachedStart, l, cache.view, before, rounds);
  }

  /** What to answer with what was fetched. */
  method Respond(slice: Option<seq<Event>>, limit: nat, reachedStart: bool, l: Lookups, ghost v: View,
                 ghost before: Option<EventId>, ghost rounds: nat)
    returns (r: Result<Page>)
    requires limit >= 1 && HaveIds(History(v)) && rounds <= MAX_ROUNDS
    requires Fetched(slice, Tail(v.chunks), before, limit, IsMessageLike, reachedStart, rounds == MAX_ROUNDS)
    ensures Serves(History(v), before, limit, l, r,
                   rounds == MAX_ROUNDS && !reachedStart && SliceBefore(Tail(v.chunks), before) == [],
                   reachedStart && Tail(v.chunks) != History(v), rounds == MAX_ROUNDS)
    ensures r.Ok? <==> slice.Some?
    ensures r.Ok? && r.value.next.Some? && rounds < MAX_ROUNDS ==> ShowsExactly(History(v), before, l, r.value, limit)
  {
    ghost var h, tail := History(v), Tail(v.chunks);
    ghost var gaveUp := rounds == MAX_ROUNDS && !reachedStart && SliceBefore(tail, before) == [];
    TailInHistory(v);
    if slice.None? {
      return Err("the earlier messages are no longer loaded; reopen the room");
    }
    var page, consumed := BuildPage(slice.value, limit, reachedStart, l);
    r := Ok(page);
    if !gaveUp {
      PageInHistory(h, tail, before, limit, l, consumed, reachedStart, page, rounds == MAX_ROUNDS);
    }
  }

  /** A page built from the contiguous tail is a page of a stretch of the history. It is a page
      of the history if the start is only reported when the tail is all of it, and then it is
      full unless it reaches the start or all events before the anchor were walked. */
  lemma {:induction false} PageInHistory(h: seq<Event>, tail: seq<Event>, before: Option<EventId>, limit: nat,
                                         l: Lookups, consumed: nat, reachedStart: bool, page: Page, spent: bool)
    requires HaveIds(h) && IsSuffix(tail, h) && Cut(tail, before).Some?
    requires FromSlice(SliceBefore(tail, before), consumed, limit, reachedStart, l, page)
    requires consumed == 0 ==> reachedStart
    requires !reachedStart && |Filter(SliceBefore(tail, before), IsMessageLike)| < limit ==> spent
    ensures ServesStretch(h, before, limit, l, page)
    ensures (reachedStart ==> tail == h) ==> ServesPage(h, before, limit, l, page, spent)
    ensures page.next.Some? && !spent ==> ShowsExactly(h, before, l, page, limit)
  {
    var lo, hi := StretchOf(h, tail, before, consumed, reachedStart);
    assert IsStretchPage(h, before, limit, l, page, lo, hi);
    var events := SliceBefore(tail, before);
    if |Filter(h[lo..hi], IsMessageLike)| < limit { assert events[0..] == events; }
    if reachedStart ==> tail == h { assert IsPage(h, before, limit, l, page, lo, hi); }
  }

  /** Where in the history the stretch walked from a contiguous tail lies. */
  lemma {:induction false} StretchOf(h: seq<Event>, tail: seq<Event>, before: Option<EventId>, consumed: nat,
                                     reachedStart: bool) returns (lo: nat, hi: nat)
    requires HaveIds(h) && IsSuffix(tail, h) && Cut(tail, before).Some?
    requires consumed <= |SliceBefore(tail, before)|
    requires consumed == 0 ==> SliceBefore(tail, before) == [] && reachedStart
    ensures var events := SliceBefore(tail, before);
            var next := NextCursor(events, consumed, reachedStart);
            Walks(h, before, next, lo, hi) && h[lo..hi] == events[|events| - consumed..] &&
            ((reachedStart ==> tail == h) && next.None? ==> lo == 0)
  {
    hi := CutIsAnchored(h, tail, before);
    lo := hi - consumed;
  }
}
