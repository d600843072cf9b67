/** What a client sees that follows a thread's `next` cursors to the end. */
module ThreadRuns {
  import opened Options
  import opened Events
  import opened Paging
  import opened Relations
  import opened Timeline
  import opened TimelineRuns
  import opened Threads

  /** One thread request. `rootEvent` is the root if it could be loaded for this page. A
      request that `gaveUp` has walked nothing before its anchor `hi`. */
  datatype ThreadCall = ThreadCall(replies: seq<Event>, rootEvent: Option<Event>, before: Option<EventId>, limit: nat,
                                   l: Lookups, page: Page, lo: nat, hi: nat, gaveUp: bool)

  ghost predicate ValidThreadCall(c: ThreadCall, root: EventId, converts: Event -> bool) {
    UniqueIds(c.replies) && Faithful(c.l, converts) && (c.rootEvent.Some? ==> c.rootEvent.value.id == Some(root)) &&
    if c.gaveUp then
      c.page == GivenUpPage(c.rootEvent, c.before, c.l) && c.lo == c.hi && At(c.replies, c.before, c.hi)
    else IsThreadPage(c.replies, c.rootEvent, c.before, c.limit, c.l, c.page, c.lo, c.hi)
  }

  /** The root could be shown on this page. */
  ghost predicate HasRoot(c: ThreadCall, converts: Event -> bool) {
    c.rootEvent.Some? && converts(c.rootEvent.value)
  }

  /** What giving up costs: a reply of the thread comes before the anchor. */
  ghost predicate MissesReply(c: ThreadCall, converts: Event -> bool) {
    c.gaveUp && c.hi <= |c.replies| && exists e :: e in c.replies[..c.hi] && IsThreadReply(e) && converts(e)
  }

  ghost predicate Resumes(prev: ThreadCall, c: ThreadCall) {
    prev.page.next.Some? && c.before == prev.page.next && prev.replies <= c.replies
  }

  ghost predicate IsThreadRun(calls: seq<ThreadCall>, root: EventId, converts: Event -> bool) {
    |calls| > 0 && calls[0].before == None &&
    (forall k {:trigger ValidThreadCall(calls[k], root, converts)} ::
      0 <= k < |calls| ==> ValidThreadCall(calls[k], root, converts)) &&
    Linked(calls)
  }

  /** Each request passes the cursor of the one before it. */
  ghost predicate Linked(calls: seq<ThreadCall>) {
    forall j, k :: 0 <= j < |calls| && k == j + 1 < |calls| ==> Resumes(calls[j], calls[k])
  }

  ghost function Stretch(c: ThreadCall): Call {
    if c.lo <= c.hi <= |c.replies| then
      Call(c.replies, c.before, c.page.next, Filter(c.replies[c.lo..c.hi], IsThreadReply), c.lo, c.hi)
    else Call(c.replies, c.before, c.page.next, [], 0, 0)
  }

  ghost function Stretches(calls: seq<ThreadCall>): (r: seq<Call>)
    ensures |r| == |calls| && forall k :: 0 <= k < |r| ==> r[k] == Stretch(calls[k])
  {
    if calls == [] then [] else Stretches(calls[..|calls| - 1]) + [Stretch(calls[|calls| - 1])]
  }

  ghost function ReplyIds(c: ThreadCall, converts: Event -> bool): seq<EventId> {
    if HaveIds(Stretch(c).shown) then IdsOf(Stretch(c).shown, converts) else []
  }

  /** Lists joined oldest page first: the last page's ids lead. */
  function Join(lists: seq<seq<EventId>>): seq<EventId> {
    if lists == [] then [] else lists[|lists| - 1] + Join(lists[..|lists| - 1])
  }

  /** The ids each page shows, and those of its replies alone. */
  ghost function PageLists(calls: seq<ThreadCall>): (r: seq<seq<EventId>>)
    ensures |r| == |calls| && forall k :: 0 <= k < |r| ==> r[k] == MessageIds(calls[k].page.messages)
  {
    if calls == [] then [] else PageLists(calls[..|calls| - 1]) + [MessageIds(calls[|calls| - 1].page.messages)]
  }

  ghost function ReplyLists(calls: seq<ThreadCall>, converts: Event -> bool): (r: seq<seq<EventId>>)
    ensures |r| == |calls| && forall k :: 0 <= k < |r| ==> r[k] == ReplyIds(calls[k], converts)
  {
    if calls == [] then []
    else ReplyLists(calls[..|calls| - 1], converts) + [ReplyIds(calls[|calls| - 1], converts)]
  }

  /** The message ids of a run's pages, joined oldest first. */
  ghost function JoinedThreadIds(calls: seq<ThreadCall>): seq<EventId> { Join(PageLists(calls)) }

  function When(b: bool, id: EventId): seq<EventId> { if b then [id] else [] }

  lemma {:induction false} StretchHasIds(c: ThreadCall, root: EventId, converts: Event -> bool)
    requires ValidThreadCall(c, root, converts)
    ensures c.lo <= c.hi <= |c.replies| && HaveIds(Stretch(c).shown)
  {
    var walked := c.replies[c.lo..c.hi];
    forall e | e in Filter(walked, IsThreadReply) ensures e.id.Some? { assert e in walked; }
  }

  lemma {:induction false} LedIds(rootLine: seq<Message>, messages: seq<Message>, root: EventId)
    requires rootLine == [] || (|rootLine| == 1 && rootLine[0].eventId == root)
    ensures MessageIds(rootLine + messages) == When(rootLine != [], root) + MessageIds(messages)
  {
  }

  /** The root leads the page that reaches the start of the thread. */
  ghost predicate RootLeads(c: ThreadCall, converts: Event -> bool) {
    HasRoot(c, converts) && c.page.next.None? && !c.gaveUp
  }

  /** The root is on a first page for want of a reply to show, without reaching the start. */
  ghost predicate RootFillsIn(c: ThreadCall, converts: Event -> bool) {
    HasRoot(c, converts) && c.before.None? && ReplyIds(c, converts) == [] && (c.page.next.Some? || c.gaveUp)
  }

  /** A page shows its replies, led by the root where it reaches the start of the thread and
      on a first page in which no reply converts. */
  lemma {:induction false} PageIds(c: ThreadCall, root: EventId, converts: Event -> bool)
    requires ValidThreadCall(c, root, converts)
    ensures Led(MessageIds(c.page.messages), ReplyIds(c, converts), root, RootLeads(c, converts),
                RootFillsIn(c, converts))
  {
    StretchHasIds(c, root, converts);
    if !c.gaveUp { ServedIds(c, root, converts); }
  }

  lemma {:induction false} ServedIds(c: ThreadCall, root: EventId, converts: Event -> bool)
    requires ValidThreadCall(c, root, converts) && !c.gaveUp
    ensures MessageIds(c.page.messages) ==
            When(HasRoot(c, converts) && (c.page.next.None? || (c.before.None? && ReplyIds(c, converts) == [])), root) +
            ReplyIds(c, converts)
  {
    StretchHasIds(c, root, converts);
    var walked, l := c.replies[c.lo..c.hi], WithoutSummaries(c.l);
    var shown := Filter(walked, IsThreadReply);
    var messages := MessagesOf(shown, l, RedactedBy(walked));
    MessagesKeepIds(shown, l, RedactedBy(walked), converts);
    assert |messages| == |ReplyIds(c, converts)|;
    LedIds(RootLine(c.rootEvent, c.before, c.page.next, messages, c.l, RedactedBy(walked)), messages, root);
  }

  /** A page's ids: the root if `top`, its replies, the root if `again`. */
  ghost predicate Led(page: seq<EventId>, replies: seq<EventId>, root: EventId, top: bool, again: bool) {
    page == When(top, root) + replies + When(again, root)
  }

  /** Joining pages whose last is led by the root, and whose first may consist of it. */
  lemma {:induction false} JoinLed(pages: seq<seq<EventId>>, replies: seq<seq<EventId>>, root: EventId, ended: bool,
                                   repeats: bool)
    requires |pages| == |replies| > 0
    requires forall k :: 0 <= k < |pages| ==>
      Led(pages[k], replies[k], root, ended && k == |pages| - 1, repeats && k == 0)
    ensures Led(Join(pages), Join(replies), root, ended, repeats)
  {
    var n := |pages| - 1;
    assert Led(pages[n], replies[n], root, ended, repeats && n == 0);
    if n == 0 {
      assert Join(pages[..0]) == [] && Join(replies[..0]) == [];
    } else {
      JoinLed(pages[..n], replies[..n], root, false, repeats);
      OnePageMore(When(ended, root), replies[n], Join(replies[..n]), When(repeats, root));
      assert Join(pages[..n]) == Join(replies[..n]) + When(repeats, root);
    }
  }

  lemma {:induction false} OnePageMore(top: seq<EventId>, last: seq<EventId>, rest: seq<EventId>, again: seq<EventId>)
    ensures top + last + [] + (rest + again) == top + (last + rest) + again
  {
  }

  lemma {:induction false} JoinReplies(calls: seq<ThreadCall>, converts: Event -> bool)
    requires forall k :: 0 <= k < |calls| ==> HaveIds(Stretch(calls[k]).shown)
    ensures HaveIds(JoinedPages(Stretches(calls)))
    ensures Join(ReplyLists(calls, converts)) == IdsOf(JoinedPages(Stretches(calls)), converts)
  {
    if calls != [] {
      var n := |calls| - 1;
      JoinReplies(calls[..n], converts);
      assert Stretches(calls)[..n] == Stretches(calls[..n]);
      assert ReplyLists(calls, converts)[..n] == ReplyLists(calls[..n], converts);
      IdsConcat(Stretch(calls[n]).shown, JoinedPages(Stretches(calls[..n])), converts);
    }
  }

  lemma {:induction false} PagesLed(calls: seq<ThreadCall>, root: EventId, converts: Event -> bool, k: nat)
    requires IsThreadRun(calls, root, converts) && k < |calls|
    ensures HaveIds(Stretch(calls[k]).shown)
    ensures Led(PageLists(calls)[k], ReplyLists(calls, converts)[k], root,
                RootLeads(calls[|calls| - 1], converts) && k == |calls| - 1, RootFillsIn(calls[0], converts) && k == 0)
  {
    assert ValidThreadCall(calls[k], root, converts);
    StretchHasIds(calls[k], root, converts);
    PageIds(calls[k], root, converts);
    if k > 0 { assert Resumes(calls[k - 1], calls[k]); }
    if k < |calls| - 1 { assert Resumes(calls[k], calls[k + 1]); }
  }

  lemma {:induction false} RunOfStretches(calls: seq<ThreadCall>, root: EventId, converts: Event -> bool)
    requires IsThreadRun(calls, root, converts)
    ensures IsRun(Stretches(calls), IsThreadReply)
  {
    var all := Stretches(calls);
    forall k | 0 <= k < |all| ensures ValidCall(all[k], IsThreadReply) {
      assert ValidThreadCall(calls[k], root, converts);
    }
    forall j, k | 0 <= j < |all| && k == j + 1 < |all| ensures Follows(all[j], all[k]) {
      assert Resumes(calls[j], calls[k]);
    }
  }

  /** The replies the pages of a run show: those from its last page on. */
  ghost function ShownReplies(calls: seq<ThreadCall>, converts: Event -> bool): seq<EventId> {
    Join(ReplyLists(calls, converts))
  }

  lemma {:induction false} AllHaveIds(calls: seq<ThreadCall>, root: EventId, converts: Event -> bool)
    requires IsThreadRun(calls, root, converts)
    ensures forall k :: 0 <= k < |calls| ==> HaveIds(Stretch(calls[k]).shown)
  {
    forall k | 0 <= k < |calls| ensures HaveIds(Stretch(calls[k]).shown) {
      assert ValidThreadCall(calls[k], root, converts);
      StretchHasIds(calls[k], root, converts);
    }
  }

  lemma {:induction false} ThreadCovered(calls: seq<ThreadCall>, root: EventId, converts: Event -> bool)
    requires IsThreadRun(calls, root, converts)
    ensures var all, last := calls[0].replies, calls[|calls| - 1];
            UniqueIds(all) && last.lo <= last.hi <= |all| && all <= last.replies &&
            HaveIds(Filter(all[last.lo..], IsThreadReply)) &&
            ShownReplies(calls, converts) == IdsOf(Filter(all[last.lo..], IsThreadReply), converts)
    ensures |calls| <= |calls[0].replies| + 1
  {
    RunOfStretches(calls, root, converts);
    AllHaveIds(calls, root, converts);
    JoinReplies(calls, converts);
    var last := calls[|calls| - 1];
    assert ValidThreadCall(last, root, converts) && ValidThreadCall(calls[0], root, converts);
    StretchHasIds(last, root, converts);
    RunSoFar(Stretches(calls), IsThreadReply);
    RunIsBounded(Stretches(calls), IsThreadReply);
  }

  /** What the pages of a run show, joined oldest first: its replies, led by the root if the
      last page reaches the start, and followed by the root if it filled in on the first. */
  lemma {:induction false} ThreadShows(calls: seq<ThreadCall>, root: EventId, converts: Event -> bool)
    requires IsThreadRun(calls, root, converts)
    ensures Led(JoinedThreadIds(calls), ShownReplies(calls, converts), root,
                RootLeads(calls[|calls| - 1], converts), RootFillsIn(calls[0], converts))
  {
    var top, again := RootLeads(calls[|calls| - 1], converts), RootFillsIn(calls[0], converts);
    forall k | 0 <= k < |calls| ensures
      Led(PageLists(calls)[k], ReplyLists(calls, converts)[k], root, top && k == |calls| - 1, again && k == 0)
    {
      PagesLed(calls, root, converts, k);
    }
    JoinLed(PageLists(calls), ReplyLists(calls, converts), root, top, again);
  }

  /** Thread completeness. The replies an ended run shows are every convertible reply of the
      thread as of the first request, once and in order, if and only if the last request did
      not give up with a reply before its anchor. */
  lemma {:induction false} ThreadIsComplete(calls: seq<ThreadCall>, root: EventId, converts: Event -> bool)
    requires IsThreadRun(calls, root, converts) && calls[|calls| - 1].page.next.None?
    ensures HaveIds(Filter(calls[0].replies, IsThreadReply))
    ensures ShownReplies(calls, converts) == IdsOf(Filter(calls[0].replies, IsThreadReply), converts) <==>
            !MissesReply(calls[|calls| - 1], converts)
  {
    var all, last := calls[0].replies, calls[|calls| - 1];
    ThreadCovered(calls, root, converts);
    RestIsAllIff(all, last.lo, IsThreadReply, converts);
    assert ValidThreadCall(last, root, converts);
    assert all[..last.lo] == last.replies[..last.lo];
  }

  /** `m` is a reply the request walked, or the root, with what is its own. */
  ghost predicate IsShownBy(m: Message, c: ThreadCall) {
    c.lo <= c.hi <= |c.replies| &&
    (IsRootLine(m, c.rootEvent, c.l, RedactedBy(c.replies[c.lo..c.hi])) ||
     IsSomeReply(m, c.replies[c.lo..c.hi], c.l, RedactedBy(c.replies[c.lo..c.hi])))
  }

  /** Every message of a run is a reply or the root with what is its own. */
  lemma {:induction false} RunDecorated(calls: seq<ThreadCall>, root: EventId, converts: Event -> bool)
    requires IsThreadRun(calls, root, converts)
    ensures forall c, m :: c in calls && m in c.page.messages ==> IsShownBy(m, c)
  {
    forall c, m | c in calls && m in c.page.messages ensures IsShownBy(m, c) {
      var k :| 0 <= k < |calls| && calls[k] == c;
      assert ValidThreadCall(calls[k], root, converts);
      if c.gaveUp {
        GivenUpDecorated(c.rootEvent, c.before, c.l);
        assert RedactedBy(c.replies[c.lo..c.hi]) == {};
      } else {
        ThreadPageDecorated(c.replies, c.rootEvent, c.before, c.limit, c.l, c.page, c.lo, c.hi);
        var i :| 0 <= i < |c.page.messages| && c.page.messages[i] == m;
      }
    }
  }

  /** In a thread whose replies exclude the root, the root comes first if the last page reaches
      the start with the root at hand, and is shown exactly once if and only if it either leads
      that page or fills in on the first one, but not both. */
  lemma {:induction false} RootShownOnce(calls: seq<ThreadCall>, root: EventId, converts: Event -> bool)
    requires IsThreadRun(calls, root, converts)
    requires forall e :: e in calls[0].replies ==> e.id != Some(root)
    ensures RootLeads(calls[|calls| - 1], converts) ==>
              |JoinedThreadIds(calls)| > 0 && JoinedThreadIds(calls)[0] == root
    ensures multiset(JoinedThreadIds(calls))[root] == 1 <==>
            RootLeads(calls[|calls| - 1], converts) != RootFillsIn(calls[0], converts)
  {
    ThreadShows(calls, root, converts);
    ThreadCovered(calls, root, converts);
    var rest := calls[0].replies[calls[|calls| - 1].lo..];
    TailIsUnique(calls[0].replies, calls[|calls| - 1].lo);
    FilterComplete(rest, IsThreadReply);
    IdsDistinct(Filter(rest, IsThreadReply), converts);
    var ids := ShownReplies(calls, converts);
    assert root !in ids;
    assert multiset(ids)[root] == 0 by { assert root !in multiset(ids); }
  }

  // ---------- a run that shows the root twice ----------

  const ROOT_ID: EventId := "$root"
  const ROOT := Other(Some(ROOT_ID), Some("m.room.message"), None)
  const STICKER := Other(Some("$reply"), Some("m.sticker"), Some("m.thread"))

  /** Stickers become no message. */
  predicate NoSticker(e: Event) { !(e.Other? && e.kind == Some("m.sticker")) }

  /** A thread whose one reply is a sticker, read a page of one message at a time. */
  function StickerRun(): seq<ThreadCall> {
    var l := PlainLookups(NoSticker);
    [ThreadCall([STICKER], Some(ROOT), None, 1, l, Page([PlainMessage(ROOT_ID)], Some("$reply")), 0, 1, false),
     ThreadCall([STICKER], Some(ROOT), Some("$reply"), 1, l, Page([PlainMessage(ROOT_ID)], None), 0, 0, false)]
  }

  lemma {:induction false} PlainRoot(redacted: set<EventId>)
    ensures Finished(ROOT, PlainLookups(NoSticker), redacted) == PlainMessage(ROOT_ID)
  {
    var l := PlainLookups(NoSticker);
    assert ReactionsIn([]) == [] && Live([], redacted) == [] && Keys([]) == [];
    assert Summary([], None, redacted, l.nameOf) == [];
    assert NewestEdit([], None) == None;
    assert ROOT.id.value == ROOT_ID && NoSticker(ROOT);
    assert l.convert(ROOT) == Some(PlainMessage(ROOT_ID));
  }

  lemma {:induction false} StickerPages()
    ensures ValidThreadCall(StickerRun()[0], ROOT_ID, NoSticker) && ValidThreadCall(StickerRun()[1], ROOT_ID, NoSticker)
  {
    PlainIsFaithful(NoSticker);
    var l := WithoutSummaries(PlainLookups(NoSticker));
    var walked := [STICKER][0..1];
    assert walked == [STICKER] && [STICKER][1..] == [] && [STICKER][0..0] == [];
    assert Filter(walked, IsThreadReply) == [STICKER];
    assert MessagesOf([STICKER], l, RedactedBy(walked)) == [];
    PlainRoot(RedactedBy(walked));
    PlainRoot(RedactedBy([]));
  }

  lemma {:induction false} JoinTwo(page: seq<EventId>)
    ensures Join([page] + [page]) == page + page
  {
    var lists := [page] + [page];
    assert lists[..1] == [page] && [page][..0] == [];
    assert Join([page]) == page + Join([]);
  }

  lemma {:induction false} StickerRunIsRun()
    ensures IsThreadRun(StickerRun(), ROOT_ID, NoSticker)
  {
    var calls := StickerRun();
    StickerPages();
    assert Resumes(calls[0], calls[1]);
  }

  lemma {:induction false} StickerLists()
    ensures PageLists(StickerRun()) == [[ROOT_ID]] + [[ROOT_ID]]
  {
    assert MessageIds([PlainMessage(ROOT_ID)]) == [ROOT_ID];
  }

  /** The run shows the root on both of its pages. */
  lemma {:induction false} RootShownTwice()
    ensures IsThreadRun(StickerRun(), ROOT_ID, NoSticker) && StickerRun()[1].page.next.None?
    ensures JoinedThreadIds(StickerRun()) == [ROOT_ID] + [ROOT_ID]
  {
    StickerRunIsRun();
    StickerLists();
    JoinTwo([ROOT_ID]);
  }
}
