/** The cache's chunks as lines of text, and reading off them how long the gap-free end of
    the history is. */
module ChunkListing {
  import opened Options
  import opened Events

  // ---------- the listing ----------

  function Decimal(n: nat): (s: string)
    ensures |s| > 0
    ensures forall c :: c in s ==> '0' <= c <= '9'
  {
    var digit := ('0' as int + n % 10) as char;
    if n < 10 then [digit] else Decimal(n / 10) + [digit]
  }

  function IdText(e: Event): string { if e.id.Some? then e.id.value else "" }

  /** `#order: $id, #order: $id, …` */
  function RenderItems(events: seq<Event>, order: nat): string {
    if events == [] then ""
    else
      var item := "#" + Decimal(order) + ": " + IdText(events[0]);
      if |events| == 1 then item else item + ", " + RenderItems(events[1..], order + 1)
  }

  function RenderBody(c: Chunk, order: nat): string {
    match c
    case Gap(token, _) => "gap['" + token + "']"
    case Items(events) => "[" + RenderItems(events, order) + "]"
  }

  function RenderLine(index: nat, c: Chunk, order: nat): string {
    "chunk #" + Decimal(index) + ": " + RenderBody(c, order)
  }

  /** A line of the listing describing `c`, whatever numbers it carries. */
  ghost predicate Describes(line: string, c: Chunk) {
    exists index: nat, order: nat :: line == RenderLine(index, c, order)
  }

  /** What the items of two events look like. */
  lemma {:induction false} ItemsLook(a: Event, b: Event, order: nat)
    ensures RenderItems([a, b], order) ==
            "#" + Decimal(order) + ": " + IdText(a) + ", " + ("#" + Decimal(order + 1) + ": " + IdText(b))
  {
    assert [a, b][1..] == [b];
  }

  /** What a line looks like: that of a gap, and that of two events. */
  lemma {:induction false} LinesLook(a: Event, b: Event)
    ensures RenderLine(3, Gap("t", [a]), 0) == "chunk #" + "3" + ": " + "gap['t']"
    ensures RenderLine(3, Items([a, b]), 1) ==
            "chunk #" + "3" + ": " + ("[" + ("#1: " + IdText(a) + ", " + ("#2: " + IdText(b))) + "]")
  {
    ItemsLook(a, b, 1);
    assert Decimal(3) == "3" && Decimal(1) == "1" && Decimal(2) == "2";
    assert "#" + "1" + ": " == "#1: " && "#" + "2" + ": " == "#2: ";
  }

  /** One line per chunk, oldest first. */
  ghost predicate IsListing(lines: seq<string>, chunks: seq<Chunk>) {
    |lines| == |chunks| && forall i :: 0 <= i < |lines| ==> Describes(lines[i], chunks[i])
  }

  // ---------- reading it back ----------

  function CountHash(s: string): nat {
    if s == "" then 0 else (if s[0] == '#' then 1 else 0) + CountHash(s[1..])
  }

  /** What follows the first ": " of a line, if there is one. */
  function AfterSeparator(line: string): Option<string> {
    if |line| < 2 then None
    else if line[..2] == ": " then Some(line[2..])
    else AfterSeparator(line[1..])
  }

  /** The meaning of a listing, read from its end: lines up to the last gap line count. */
  function TailCount(lines: seq<string>): nat {
    if lines == [] then 0
    else
      var before := lines[..|lines| - 1];
      match AfterSeparator(lines[|lines| - 1])
      case None => TailCount(before)
      case Some(body) => if "gap[" <= body then 0 else TailCount(before) + CountHash(body)
  }

  /** The source's loop over the listing's lines. */
  method ContiguousTail(lines: seq<string>) returns (n: nat)
    ensures n == TailCount(lines)
  {
    n := 0;
    for i := 0 to |lines|
      invariant n == TailCount(lines[..i])
    {
      assert lines[..i + 1][..i] == lines[..i];
      var body := AfterSeparator(lines[i]);
      if body.None? { continue; }
      if "gap[" <= body.value {
        n := 0;
      } else {
        n := n + CountHash(body.value);
      }
    }
    assert lines[..|lines|] == lines;
  }

  // ---------- text and chunks agree ----------

  lemma {:induction false} CountHashConcat(a: string, b: string)
    ensures CountHash(a + b) == CountHash(a) + CountHash(b)
  {
    if a == "" {
      assert a + b == b;
    } else {
      assert (a + b)[1..] == a[1..] + b;
      CountHashConcat(a[1..], b);
    }
  }

  lemma {:induction false} CountHashNone(s: string)
    ensures CountHash(s) == 0 <==> '#' !in s
  {
    if s != "" {
      CountHashNone(s[1..]);
      assert s == [s[0]] + s[1..];
    }
  }

  /** The '#' characters inside the events' own ids. */
  function StrayHashes(events: seq<Event>): nat {
    if events == [] then 0 else CountHash(IdText(events[0])) + StrayHashes(events[1..])
  }

  lemma {:induction false} StrayConcat(a: seq<Event>, b: seq<Event>)
    ensures StrayHashes(a + b) == StrayHashes(a) + StrayHashes(b)
  {
    if a == [] {
      assert a + b == b;
    } else {
      assert (a + b)[1..] == a[1..] + b;
      StrayConcat(a[1..], b);
    }
  }

  lemma {:induction false} StrayNone(events: seq<Event>)
    ensures StrayHashes(events) == 0 <==> forall e :: e in events ==> '#' !in IdText(e)
  {
    if events != [] {
      StrayNone(events[1..]);
      CountHashNone(IdText(events[0]));
      assert events == [events[0]] + events[1..];
    }
  }

  /** Each rendered event contributes one '#', plus those of its own id. */
  lemma {:induction false} RenderItemsHashes(events: seq<Event>, order: nat)
    ensures CountHash(RenderItems(events, order)) == |events| + StrayHashes(events)
  {
    if events != [] {
      var num, id := Decimal(order), IdText(events[0]);
      CountHashNone(num);
      CountHashConcat("#" + num + ": ", id);
      CountHashConcat("#" + num, ": ");
      CountHashConcat("#", num);
      assert CountHash(": ") == 0 by { CountHashNone(": "); }
      if |events| > 1 {
        var item, rest := "#" + num + ": " + id, RenderItems(events[1..], order + 1);
        CountHashConcat(item + ", ", rest);
        CountHashConcat(item, ", ");
        assert CountHash(", ") == 0 by { CountHashNone(", "); }
        RenderItemsHashes(events[1..], order + 1);
      }
    }
  }

  lemma {:induction false} SeparatorFound(prefix: string, body: string)
    requires ':' !in prefix
    ensures AfterSeparator(prefix + ": " + body) == Some(body)
  {
    var line := prefix + ": " + body;
    if prefix == "" {
      assert line == ": " + body;
      assert line[..2] == ": " && line[2..] == body;
    } else {
      assert line[0] == prefix[0] != ':';
      assert line[1..] == prefix[1..] + ": " + body;
      SeparatorFound(prefix[1..], body);
    }
  }

  lemma {:induction false} LineBody(index: nat, c: Chunk, order: nat)
    ensures AfterSeparator(RenderLine(index, c, order)) == Some(RenderBody(c, order))
  {
    SeparatorFound("chunk #" + Decimal(index), RenderBody(c, order));
  }

  lemma {:induction false} BodyHashes(events: seq<Event>, order: nat)
    ensures !("gap[" <= RenderBody(Items(events), order))
    ensures CountHash(RenderBody(Items(events), order)) == |events| + StrayHashes(events)
  {
    var items := RenderItems(events, order);
    CountHashConcat("[" + items, "]");
    CountHashConcat("[", items);
    assert CountHash("[") == 0 by { CountHashNone("["); }
    assert CountHash("]") == 0 by { CountHashNone("]"); }
    assert RenderBody(Items(events), order)[0] == '[';
    RenderItemsHashes(events, order);
  }

  /** What one more line does to a count, by the chunk it describes. */
  lemma {:induction false} LineCounts(lines: seq<string>, line: string, c: Chunk)
    requires Describes(line, c)
    ensures TailCount(lines + [line]) ==
            if c.Gap? then 0 else TailCount(lines) + |c.events| + StrayHashes(c.events)
  {
    var index: nat, order: nat :| line == RenderLine(index, c, order);
    LineBody(index, c, order);
    assert (lines + [line])[..|lines|] == lines;
    if c.Items? { BodyHashes(c.events, order); }
  }

  lemma {:induction false} CountsOneMore(lines: seq<string>, line: string, chunks: seq<Chunk>, c: Chunk)
    requires Describes(line, c) && TailCount(lines) == |Tail(chunks)| + StrayHashes(Tail(chunks))
    ensures var tail := Tail(chunks + [c]); TailCount(lines + [line]) == |tail| + StrayHashes(tail)
  {
    LineCounts(lines, line, c);
    match c {
      case Gap(_, _) =>
        assert Tail(chunks + [c]) == [];
      case Items(es) =>
        TailSnoc(chunks, es);
        StrayConcat(Tail(chunks), es);
    }
  }

  lemma {:induction false} ListingInit(lines: seq<string>, chunks: seq<Chunk>, n: nat)
    requires IsListing(lines, chunks) && |chunks| == n + 1
    ensures IsListing(lines[..n], chunks[..n]) && Describes(lines[n], chunks[n])
  {
  }

  /** For every chunk list, the count read from any listing of it is the number of
      events after the last gap, plus any '#' their ids contain. */
  lemma {:induction false} ListingCountsTail(lines: seq<string>, chunks: seq<Chunk>)
    requires IsListing(lines, chunks)
    ensures TailCount(lines) == |Tail(chunks)| + StrayHashes(Tail(chunks))
  {
    if chunks != [] {
      var n := |chunks| - 1;
      var before, init := lines[..n], chunks[..n];
      assert lines == before + [lines[n]] && chunks == init + [chunks[n]];
      ListingInit(lines, chunks, n);
      ListingCountsTail(before, init);
      CountsOneMore(before, lines[n], init, chunks[n]);
    }
  }

  /** The reading is exact for precisely the listings whose contiguous tail has
      '#'-free ids; otherwise it overcounts. */
  lemma {:induction false} ListingExact(lines: seq<string>, chunks: seq<Chunk>)
    requires IsListing(lines, chunks)
    ensures TailCount(lines) == |Tail(chunks)| <==> forall e :: e in Tail(chunks) ==> '#' !in IdText(e)
    ensures TailCount(lines) >= |Tail(chunks)|
  {
    ListingCountsTail(lines, chunks);
    StrayNone(Tail(chunks));
  }

  /** A '#' in one id is enough for the counted slice to reach across a gap. */
  lemma {:induction false} HashInIdSpansGap(lines: seq<string>)
    requires IsListing(lines, [Items([Other(Some("$a"), None, None)]), Gap("t", [Other(Some("$lost"), None, None)]),
                               Items([Other(Some("$b#"), None, None)])])
    ensures TailCount(lines) == 2
  {
    var live := Other(Some("$b#"), None, None);
    var chunks := [Items([Other(Some("$a"), None, None)]), Gap("t", [Other(Some("$lost"), None, None)]), Items([live])];
    assert Tail(chunks) == [live] by {
      assert Tail(chunks[..2]) == [];
    }
    ListingCountsTail(lines, chunks);
    assert StrayHashes([live]) == 1 by {
      assert "$b#" == "$b" + "#";
      CountHashConcat("$b", "#");
      CountHashNone("$b");
      assert CountHash("#") == 1;
    }
  }
}
