/** Timeline events as the pager sees them, the cache's chunks, and the views of
    a room's history that the event cache offers. */
module Events {
  import opened Options
  import opened Sequences

  type EventId = string

  /** `kind` and `relType` are the raw `type` and `content.m.relates_to.rel_type`
      fields. A `Redaction` is an event that deserialises as an original redaction. */
  datatype Event =
    | Redaction(id: Option<EventId>, redacts: EventId)
    | Other(id: Option<EventId>, kind: Option<string>, relType: Option<string>)

  /** The events a room's pages are made of. */
  predicate IsMessageLike(e: Event) {
    e.Other? && e.kind.Some? &&
    (e.kind.value in {"m.room.encrypted", "m.room.member", "m.sticker"} ||
     (e.kind.value == "m.room.message" &&
      e.relType != Some("m.replace") && e.relType != Some("m.thread")))
  }

  /** The events a thread's pages are made of. */
  predicate IsThreadReply(e: Event) {
    e.Other? && e.kind.Some? &&
    (e.kind.value in {"m.room.encrypted", "m.sticker"} ||
     (e.kind.value == "m.room.message" && e.relType != Some("m.replace")))
  }

  predicate IsKind(e: Event, kind: string) { e.Other? && e.kind == Some(kind) }

  /** A room shows what a thread does but its messages, and membership changes; edits and
      redactions are shown nowhere. */
  lemma {:induction false} KindsShown(e: Event)
    ensures IsMessageLike(e) <==>
              IsKind(e, "m.room.member") ||
              (IsThreadReply(e) && !(IsKind(e, "m.room.message") && e.relType == Some("m.thread")))
    ensures IsThreadReply(e) <==>
              IsKind(e, "m.sticker") || IsKind(e, "m.room.encrypted") ||
              (IsKind(e, "m.room.message") && e.relType != Some("m.replace"))
  {
  }

  ghost predicate HaveIds(events: seq<Event>) {
    forall i :: 0 <= i < |events| ==> events[i].id.Some?
  }

  /** Every event has an id and no id occurs twice. */
  ghost predicate UniqueIds(events: seq<Event>) {
    HaveIds(events) &&
    forall i, j :: 0 <= i < j < |events| ==> events[i].id != events[j].id
  }

  function Reversed<T>(s: seq<T>): (r: seq<T>)
    ensures |r| == |s|
    ensures forall i :: 0 <= i < |s| ==> r[i] == s[|s| - 1 - i]
  {
    if s == [] then [] else Reversed(s[1..]) + [s[0]]
  }

  /** The events `shown` accepts, in order. */
  function Filter(events: seq<Event>, shown: Event -> bool): (kept: seq<Event>)
    ensures |kept| <= |events|
    ensures forall e :: e in kept ==> shown(e) && e in events
  {
    if events == [] then []
    else (if shown(events[0]) then [events[0]] else []) + Filter(events[1..], shown)
  }

  lemma {:induction false} FilterConcat(a: seq<Event>, b: seq<Event>, shown: Event -> bool)
    ensures Filter(a + b, shown) == Filter(a, shown) + Filter(b, shown)
  {
    if a == [] {
      assert a + b == b;
    } else {
      assert (a + b)[1..] == a[1..] + b;
      FilterConcat(a[1..], b, shown);
    }
  }

  /** The position of the first event with this id, or the length if there is none. */
  function Position(events: seq<Event>, id: EventId): (k: nat)
    ensures k <= |events|
    ensures k < |events| ==> events[k].id == Some(id)
    ensures forall i :: 0 <= i < k ==> events[i].id != Some(id)
  {
    if events == [] || events[0].id == Some(id) then 0 else 1 + Position(events[1..], id)
  }

  // ---------- the event cache ----------

  /** A chunk of the cache's linked chunk. A gap stands for events the cache has not
      fetched; `hidden` is what the server would answer for it. */
  datatype Chunk = Gap(token: string, hidden: seq<Event>) | Items(events: seq<Event>)

  /** A room as the cache sees it: `older` is everything before its first chunk. */
  datatype View = View(older: seq<Event>, chunks: seq<Chunk>)

  /** Everything the chunks stand for, fetched or not. */
  function Contents(chunks: seq<Chunk>): seq<Event> {
    if chunks == [] then []
    else (match chunks[0] case Gap(_, h) => h case Items(es) => es) + Contents(chunks[1..])
  }

  /** The events the cache can list: those of the fetched chunks. */
  function Loaded(chunks: seq<Chunk>): seq<Event> {
    if chunks == [] then []
    else (match chunks[0] case Gap(_, _) => [] case Items(es) => es) + Loaded(chunks[1..])
  }

  /** What is listed behind the newest gap, or everything listed if there is none. */
  function Tail(chunks: seq<Chunk>): seq<Event> {
    if chunks == [] then []
    else
      var last := chunks[|chunks| - 1];
      if last.Gap? then [] else Tail(chunks[..|chunks| - 1]) + last.events
  }

  /** The room's full history at this moment, oldest first. */
  function History(v: View): seq<Event> { v.older + Contents(v.chunks) }

  lemma {:induction false} ConcatChunks(a: seq<Chunk>, b: seq<Chunk>)
    ensures Contents(a + b) == Contents(a) + Contents(b)
    ensures Loaded(a + b) == Loaded(a) + Loaded(b)
  {
    if a == [] {
      assert a + b == b;
    } else {
      assert (a + b)[1..] == a[1..] + b;
      ConcatChunks(a[1..], b);
      var rest := a[1..];
      match a[0] {
        case Gap(_, h) =>
          Regroup(h, Contents(rest), Contents(b));
        case Items(es) =>
          Regroup(es, Contents(rest), Contents(b));
          Regroup(es, Loaded(rest), Loaded(b));
      }
    }
  }

  /** One chunk stands for what it holds or hides, and lists what it holds. */
  lemma {:induction false} OneChunk(token: string, es: seq<Event>)
    ensures Contents([Gap(token, es)]) == es && Loaded([Gap(token, es)]) == []
    ensures Contents([Items(es)]) == es == Loaded([Items(es)])
  {
    assert [Gap(token, es)][1..] == [] && [Items(es)][1..] == [];
  }

  lemma {:induction false} TailSnoc(chunks: seq<Chunk>, es: seq<Event>)
    ensures Tail(chunks + [Items(es)]) == Tail(chunks) + es
  {
    assert (chunks + [Items(es)])[..|chunks|] == chunks;
  }

  /** The tail is everything listed behind the newest gap. */
  lemma {:induction false} TailIsBehindGap(before: seq<Chunk>, after: seq<Chunk>)
    requires before == [] || before[|before| - 1].Gap?
    requires forall c :: c in after ==> c.Items?
    ensures Tail(before + after) == Loaded(after) == Contents(after)
  {
    if after == [] {
      assert before + after == before;
    } else {
      var n := |after| - 1;
      assert after[n] in after && after == after[..n] + [after[n]];
      TailIsBehindGap(before, after[..n]);
      TailSnoc(before + after[..n], after[n].events);
      assert before + after[..n] + [after[n]] == before + after;
      SplitLast(after);
    }
  }

  ghost predicate IsSuffix<T>(s: seq<T>, whole: seq<T>) {
    |s| <= |whole| && whole[|whole| - |s|..] == s
  }

  lemma {:induction false} SuffixExtends<T>(s: seq<T>, whole: seq<T>, more: seq<T>)
    requires IsSuffix(s, whole)
    ensures IsSuffix(s + more, whole + more)
  {
    var front := whole[..|whole| - |s|];
    assert whole == front + s;
    assert whole + more == front + (s + more);
  }

  /** The contiguous tail ends both what is loaded and the history itself: nothing is
      missing between it and the live end. */
  lemma {:induction false} TailIsSuffix(chunks: seq<Chunk>)
    ensures IsSuffix(Tail(chunks), Loaded(chunks))
    ensures IsSuffix(Tail(chunks), Contents(chunks))
  {
    if chunks != [] {
      var init, last := chunks[..|chunks| - 1], chunks[|chunks| - 1];
      if last.Items? {
        TailIsSuffix(init);
        SuffixExtends(Tail(init), Loaded(init), last.events);
        SuffixExtends(Tail(init), Contents(init), last.events);
        SplitLast(chunks);
      }
    }
  }

  lemma {:induction false} SplitLast(chunks: seq<Chunk>)
    requires chunks != [] && chunks[|chunks| - 1].Items?
    ensures var init, es := chunks[..|chunks| - 1], chunks[|chunks| - 1].events;
            Loaded(chunks) == Loaded(init) + es && Contents(chunks) == Contents(init) + es
  {
    var init, last := chunks[..|chunks| - 1], chunks[|chunks| - 1];
    assert chunks == init + [last];
    ConcatChunks(init, [last]);
    assert Loaded([last]) == last.events == Contents([last]);
  }
}
