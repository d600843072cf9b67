/** The room event cache the pager runs against, as much of it as the pager relies on. */
module EventCache {
  import opened Events
  import opened ChunkListing

  /** What the pager takes for granted about a room's history. */
  ghost predicate Sound(v: View) {
    UniqueIds(History(v)) && forall e :: e in History(v) ==> '#' !in IdText(e) && IdText(e) != ""
  }

  /** What sync may do to a room: append to its history. It may leave gaps, drop fetched
      chunks, or do nothing. */
  ghost predicate Synced(v: View, v': View) {
    (Sound(v) ==> Sound(v')) && History(v) <= History(v')
  }

  /** What a back-pagination may do: resolve a gap or fetch older events, with sync going on.
      It reports the start only when no gap and nothing older is left. */
  ghost predicate Paginated(v: View, v': View, reachedStart: bool) {
    Synced(v, v') && (reachedStart ==> Tail(v'.chunks) == History(v'))
  }

  /** A back-pagination and whatever sync delivers before the cache is read again: then the
      start that was reported may have been cut off by a new gap. */
  ghost predicate BackPaginated(v: View, v': View, reachedStart: bool) {
    exists mid :: Paginated(v, mid, reachedStart) && Synced(mid, v')
  }

  /** Resolve up to `k` events of the newest gap, or bring in up to `k` older events. */
  function Resolve(v: View, k: nat): (v': View)
    ensures History(v') == History(v)
  {
    var g := LastGap(v.chunks);
    if g < |v.chunks| then
      var hidden := v.chunks[g].hidden;
      var keep := if k < |hidden| then |hidden| - k else 0;
      var filled := (if keep == 0 then [] else [Gap(v.chunks[g].token, hidden[..keep])]) + [Items(hidden[keep..])];
      var v' := View(v.older, v.chunks[..g] + filled + v.chunks[g + 1..]);
      assert History(v') == History(v) by {
        GapRefilled(v.chunks, g, keep);
      }
      v'
    else
      var keep := if k < |v.older| then |v.older| - k else 0;
      var v' := View(v.older[..keep], [Items(v.older[keep..])] + v.chunks);
      assert v'.chunks[1..] == v.chunks;
      assert v.older == v.older[..keep] + v.older[keep..];
      v'
  }

  /** The position of the newest gap, or the number of chunks if there is none. */
  function LastGap(chunks: seq<Chunk>): (g: nat)
    ensures g <= |chunks| && (g < |chunks| ==> chunks[g].Gap?)
    ensures forall i :: (if g < |chunks| then g else -1) < i < |chunks| ==> chunks[i].Items?
  {
    if chunks == [] then 0
    else if chunks[|chunks| - 1].Gap? then |chunks| - 1
    else
      var g := LastGap(chunks[..|chunks| - 1]);
      if g == |chunks| - 1 then |chunks| else g
  }

  lemma {:induction false} GapRefilled(chunks: seq<Chunk>, g: nat, keep: nat)
    requires g < |chunks| && chunks[g].Gap? && keep <= |chunks[g].hidden|
    ensures var hidden := chunks[g].hidden;
            var filled := (if keep == 0 then [] else [Gap(chunks[g].token, hidden[..keep])]) + [Items(hidden[keep..])];
            Contents(chunks[..g] + filled + chunks[g + 1..]) == Contents(chunks)
  {
    var hidden := chunks[g].hidden;
    var rest := [Items(hidden[keep..])];
    var filled := (if keep == 0 then [] else [Gap(chunks[g].token, hidden[..keep])]) + rest;
    assert chunks == chunks[..g] + [chunks[g]] + chunks[g + 1..];
    ConcatChunks(chunks[..g] + [chunks[g]], chunks[g + 1..]);
    ConcatChunks(chunks[..g], [chunks[g]]);
    ConcatChunks(chunks[..g] + filled, chunks[g + 1..]);
    ConcatChunks(chunks[..g], filled);
    assert Contents(rest) == hidden[keep..] by { assert rest[1..] == []; }
    assert hidden == hidden[..keep] + hidden[keep..];
    if keep != 0 { assert filled[1..] == rest; }
  }

  /** How much the newest gap hides, or how much is older than the first chunk. */
  function Missing(v: View): nat {
    if LastGap(v.chunks) < |v.chunks| then |v.chunks[LastGap(v.chunks)].hidden| else |v.older|
  }

  /** It lists up to `k` events more. */
  lemma {:induction false} ResolveLoads(v: View, k: nat)
    ensures |Loaded(Resolve(v, k).chunks)| == |Loaded(v.chunks)| + if k < Missing(v) then k else Missing(v)
  {
    var g, chunks := LastGap(v.chunks), v.chunks;
    if g < |chunks| {
      var hidden := chunks[g].hidden;
      var keep := if k < |hidden| then |hidden| - k else 0;
      var filled := (if keep == 0 then [] else [Gap(chunks[g].token, hidden[..keep])]) + [Items(hidden[keep..])];
      LoadedRefilled(chunks, g, filled);
      ConcatChunks(if keep == 0 then [] else [Gap(chunks[g].token, hidden[..keep])], [Items(hidden[keep..])]);
    } else {
      var keep := if k < |v.older| then |v.older| - k else 0;
      ConcatChunks([Items(v.older[keep..])], chunks);
    }
  }

  lemma {:induction false} LoadedRefilled(chunks: seq<Chunk>, g: nat, filled: seq<Chunk>)
    requires g < |chunks| && chunks[g].Gap?
    ensures |Loaded(chunks[..g] + filled + chunks[g + 1..])| == |Loaded(chunks)| + |Loaded(filled)|
  {
    assert chunks == chunks[..g] + [chunks[g]] + chunks[g + 1..];
    ConcatChunks(chunks[..g] + [chunks[g]], chunks[g + 1..]);
    ConcatChunks(chunks[..g], [chunks[g]]);
    ConcatChunks(chunks[..g] + filled, chunks[g + 1..]);
    ConcatChunks(chunks[..g], filled);
  }

  lemma {:induction false} GaplessTail(chunks: seq<Chunk>)
    requires LastGap(chunks) == |chunks|
    ensures Tail(chunks) == Contents(chunks)
  {
    if chunks != [] {
      GaplessTail(chunks[..|chunks| - 1]);
      SplitLast(chunks);
    }
  }

  class RoomCache {
    var view: View
    /** Back-paginations so far, and what the last one reported. */
    var asked: nat
    var atStart: bool

    /** All events of the chunks in memory, oldest first. */
    method Events() returns (all: seq<Event>)
      ensures all == Loaded(view.chunks)
    {
      all := Loaded(view.chunks);
    }

    /** A line of text for each chunk. */
    method DebugString() returns (lines: seq<string>)
      ensures IsListing(lines, view.chunks)
    {
      lines := [];
      for i := 0 to |view.chunks|
        invariant |lines| == i && forall j :: 0 <= j < i ==> Describes(lines[j], view.chunks[j])
      {
        var line := RenderLine(i, view.chunks[i], |Loaded(view.chunks[..i])|);
        assert Describes(line, view.chunks[i]);
        lines := lines + [line];
      }
    }

    /** One back-pagination. The server decides how much of a batch it sends. */
    method RunBackwardsOnce(batch: nat) returns (reachedStart: bool)
      modifies this
      ensures asked == old(asked) + 1 && atStart == reachedStart
      ensures BackPaginated(old(view), view, reachedStart)
      ensures Synced(old(view), view)
    {
      var k: nat :| k <= batch;
      view := Resolve(view, k);
      reachedStart := view.older == [] && LastGap(view.chunks) == |view.chunks|;
      if reachedStart { GaplessTail(view.chunks); }
      assert Paginated(old(view), view, reachedStart) && Synced(view, view);
      asked, atStart := asked + 1, reachedStart;
    }
  }
}
