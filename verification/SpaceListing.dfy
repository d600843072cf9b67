/** The cached listing of a community space: reused for five minutes, a refusal for one. */
module SpaceListing {
  import opened Options
  import opened Sequences

  /** Seconds; a monotonic clock. */
  type Instant = nat

  const HIERARCHY_TTL := 300
  const HIERARCHY_FAILURE_TTL := 60

  // ---------- what the server says ----------

  datatype Summary = Summary(roomId: string, name: Option<string>, topic: Option<string>, members: nat)

  datatype Reply = Refused(why: string) | Answered(rooms: seq<Summary>)

  datatype Room = Room(id: string, name: string, topic: Option<string>, members: nat)

  datatype Listing = Listing(name: Option<string>, topic: Option<string>, members: nat, rooms: seq<Room>)

  function RoomOf(s: Summary): Room {
    Room(s.roomId, if s.name.Some? then s.name.value else s.roomId, s.topic, s.members)
  }

  /** The children of the space, in the server's order: every summary but the space's own. */
  function Children(space: string, rooms: seq<Summary>): seq<Room> {
    if rooms == [] then []
    else
      var last := rooms[|rooms| - 1];
      Children(space, rooms[..|rooms| - 1]) + if last.roomId == space then [] else [RoomOf(last)]
  }

  /** The space's own summary: the last one, if the server repeats it. */
  function Own(space: string, rooms: seq<Summary>): Option<Summary> {
    if rooms == [] then None
    else if rooms[|rooms| - 1].roomId == space then Some(rooms[|rooms| - 1])
    else Own(space, rooms[..|rooms| - 1])
  }

  function ListingOf(space: string, rooms: seq<Summary>): Listing {
    match Own(space, rooms)
    case Some(s) => Listing(s.name, s.topic, s.members, Children(space, rooms))
    case None => Listing(None, None, 0, Children(space, rooms))
  }

  /** The room a summary gives, if it is not the space's own; without a name it goes by its
      id. */
  lemma {:induction false} OneChild(space: string, s: Summary)
    ensures s.roomId == space ==> Children(space, [s]) == []
    ensures s.roomId != space && s.name.Some? ==>
              Children(space, [s]) == [Room(s.roomId, s.name.value, s.topic, s.members)]
    ensures s.roomId != space && s.name.None? ==>
              Children(space, [s]) == [Room(s.roomId, s.roomId, s.topic, s.members)]
  {
    assert [s][..0] == [];
  }

  /** The rooms come in the order of the summaries. */
  lemma {:induction false} ChildrenConcat(space: string, a: seq<Summary>, b: seq<Summary>)
    ensures Children(space, a + b) == Children(space, a) + Children(space, b)
  {
    if b == [] {
      assert a + b == a;
    } else {
      var n, before := |b| - 1, a + b[..|b| - 1];
      assert a + b == before + [b[n]] && b == b[..n] + [b[n]];
      ChildrenConcat(space, a, b[..n]);
      Regroup(Children(space, a), Children(space, b[..n]), Children(space, [b[n]]));
    }
  }

  /** Summary `i` is the last that is the space's own. */
  ghost predicate IsOwn(space: string, rooms: seq<Summary>, i: int) {
    0 <= i < |rooms| && rooms[i].roomId == space && forall j :: i < j < |rooms| ==> rooms[j].roomId != space
  }

  lemma {:induction false} OwnMeaning(space: string, rooms: seq<Summary>)
    ensures forall i :: IsOwn(space, rooms, i) ==> Own(space, rooms) == Some(rooms[i])
    ensures (forall i :: 0 <= i < |rooms| ==> rooms[i].roomId != space) ==> Own(space, rooms) == None
  {
    if rooms != [] && rooms[|rooms| - 1].roomId != space {
      var n := |rooms| - 1;
      OwnMeaning(space, rooms[..n]);
      forall i | IsOwn(space, rooms, i) ensures IsOwn(space, rooms[..n], i) {}
    }
  }

  /** The heading is the space's own summary, or nothing if it is not among them. */
  lemma {:induction false} HeadingMeaning(space: string, rooms: seq<Summary>)
    ensures var l := ListingOf(space, rooms);
            && l.rooms == Children(space, rooms)
            && (forall i :: IsOwn(space, rooms, i) ==>
                 l.name == rooms[i].name && l.topic == rooms[i].topic && l.members == rooms[i].members)
            && ((forall i :: 0 <= i < |rooms| ==> rooms[i].roomId != space) ==>
                 l.name == None && l.topic == None && l.members == 0)
  {
    OwnMeaning(space, rooms);
  }

  method ReadListing(space: string, rooms: seq<Summary>) returns (listing: Listing)
    ensures listing == ListingOf(space, rooms)
  {
    listing := Listing(None, None, 0, []);
    for i := 0 to |rooms|
      invariant listing == ListingOf(space, rooms[..i])
    {
      var s := rooms[i];
      assert rooms[..i + 1][..i] == rooms[..i];
      if s.roomId == space {
        listing := listing.(name := s.name, topic := s.topic, members := s.members);
        assert Children(space, rooms[..i + 1]) == Children(space, rooms[..i]);
      } else {
        listing := listing.(rooms := listing.rooms + [RoomOf(s)]);
      }
    }
    assert rooms[..|rooms|] == rooms;
  }

  // ---------- the cache ----------

  datatype Cached = Cached(fetched: Instant, failure: Option<string>, listing: Listing)

  const NO_LISTING := Listing(None, None, 0, [])

  /** One request for the listing under `alias`: when it looked into the cache, when a reply
      would be there, and what the reply would be. */
  datatype Ask = Ask(alias: string, space: string, at: Instant, later: Instant, reply: Reply)

  datatype Given =
    | FromServer(listing: Listing) | FromCache(listing: Listing)
    | Denied(why: string) | NotAsked(why: string)

  /** The cache entry that answers without asking the server. */
  predicate Answers(cache: map<string, Cached>, ask: Ask) {
    ask.alias in cache && ask.at >= cache[ask.alias].fetched &&
    ask.at - cache[ask.alias].fetched <
      (if cache[ask.alias].failure.None? then HIERARCHY_TTL else HIERARCHY_FAILURE_TTL)
  }

  function GivenFor(cache: map<string, Cached>, ask: Ask): Given {
    if Answers(cache, ask) then
      match cache[ask.alias].failure
      case None => FromCache(cache[ask.alias].listing)
      case Some(why) => NotAsked(why)
    else
      match ask.reply
      case Refused(why) => Denied(why)
      case Answered(rooms) => FromServer(ListingOf(ask.space, rooms))
  }

  function CacheAfter(cache: map<string, Cached>, ask: Ask): map<string, Cached> {
    if Answers(cache, ask) then cache
    else
      match ask.reply
      case Refused(why) => cache[ask.alias := Cached(ask.later, Some(why), NO_LISTING)]
      case Answered(rooms) =>
        if Children(ask.space, rooms) == [] then cache
        else cache[ask.alias := Cached(ask.later, None, ListingOf(ask.space, rooms))]
  }

  class CommunityState {
    var entries: map<string, Cached>

    method Forget(alias: string)
      modifies this
      ensures entries == old(entries) - {alias}
    {
      entries := entries - {alias};
    }

    method Hierarchy(ask: Ask) returns (r: Given)
      requires forall alias :: alias in entries ==> entries[alias].fetched <= ask.at
      modifies this
      ensures r == GivenFor(old(entries), ask)
      ensures entries == CacheAfter(old(entries), ask)
    {
      if ask.alias in entries {
        var cached := entries[ask.alias];
        var elapsed := ask.at - cached.fetched;
        match cached.failure {
          case None =>
            if elapsed < HIERARCHY_TTL { return FromCache(cached.listing); }
          case Some(why) =>
            if elapsed < HIERARCHY_FAILURE_TTL { return NotAsked(why); }
        }
      }
      match ask.reply {
        case Refused(why) =>
          entries := entries[ask.alias := Cached(ask.later, Some(why), NO_LISTING)];
          r := Denied(why);
        case Answered(rooms) =>
          var listing := ReadListing(ask.space, rooms);
          if listing.rooms != [] {
            entries := entries[ask.alias := Cached(ask.later, None, listing)];
          }
          r := FromServer(listing);
      }
    }
  }

  // ---------- runs ----------

  datatype Op = Request(ask: Ask) | Drop(alias: string)

  function Step(cache: map<string, Cached>, op: Op): map<string, Cached> {
    match op
    case Request(ask) => CacheAfter(cache, ask)
    case Drop(alias) => cache - {alias}
  }

  function Run(ops: seq<Op>): map<string, Cached> {
    if ops == [] then map[] else Step(Run(ops[..|ops| - 1]), ops[|ops| - 1])
  }

  /** One request after another: time goes on. */
  ghost predicate Sequential(ops: seq<Op>) {
    (forall k :: 0 <= k < |ops| && ops[k].Request? ==> ops[k].ask.at <= ops[k].ask.later) &&
    forall j, k :: 0 <= j < k < |ops| && ops[j].Request? && ops[k].Request? ==> ops[j].ask.later <= ops[k].ask.at
  }

  /** Request `k` reached the server. */
  ghost predicate Sent(ops: seq<Op>, k: nat)
    requires k < |ops|
  {
    ops[k].Request? && !Answers(Run(ops[..k]), ops[k].ask)
  }

  /** Where an entry comes from: request `k` for that alias reached the server and its reply
      is the entry. */
  ghost predicate CameFrom(ops: seq<Op>, alias: string, c: Cached, k: nat) {
    k < |ops| && Sent(ops, k) && ops[k].ask.alias == alias && ops[k].ask.later == c.fetched &&
    (match ops[k].ask.reply
     case Refused(why) => c == Cached(c.fetched, Some(why), NO_LISTING)
     case Answered(rooms) =>
       c.failure.None? && c.listing == ListingOf(ops[k].ask.space, rooms) && c.listing.rooms != [])
  }

  lemma {:induction false} EntriesHaveOrigins(ops: seq<Op>, alias: string) returns (k: nat)
    requires alias in Run(ops)
    ensures CameFrom(ops, alias, Run(ops)[alias], k)
  {
    var n := |ops| - 1;
    var before := ops[..n];
    if alias in Run(before) && Run(before)[alias] == Run(ops)[alias] {
      k := EntriesHaveOrigins(before, alias);
      assert ops[..k] == before[..k];
    } else {
      k := n;
    }
  }

  lemma {:induction false} EntriesInPast(ops: seq<Op>, alias: string, ask: Ask)
    requires Sequential(ops + [Request(ask)]) && alias in Run(ops)
    ensures Run(ops)[alias].fetched <= ask.at
  {
    var k := EntriesHaveOrigins(ops, alias);
    var all := ops + [Request(ask)];
    assert all[k] == ops[k] && all[|ops|] == Request(ask);
  }

  /** Every listing handed out is one the server answered: just now, or, out of the cache,
      less than five minutes ago under the same alias. */
  lemma {:induction false} ListingsAreServers(ops: seq<Op>, ask: Ask)
    requires Sequential(ops + [Request(ask)])
    ensures match GivenFor(Run(ops), ask)
            case FromServer(l) => ask.reply.Answered? && l == ListingOf(ask.space, ask.reply.rooms)
            case FromCache(l) => exists k :: CacheSource(ops, ask, l, k)
            case _ => true
  {
    if GivenFor(Run(ops), ask).FromCache? {
      var k := EntriesHaveOrigins(ops, ask.alias);
      EntriesInPast(ops, ask.alias, ask);
      assert CacheSource(ops, ask, GivenFor(Run(ops), ask).listing, k);
    }
  }

  /** Every refusal handed out is one the server gave: just now, or, out of the cache, less
      than one minute ago under the same alias. */
  lemma {:induction false} RefusalsAreServers(ops: seq<Op>, ask: Ask)
    requires Sequential(ops + [Request(ask)])
    ensures match GivenFor(Run(ops), ask)
            case Denied(why) => ask.reply == Refused(why)
            case NotAsked(why) => exists k: nat :: RefusalSource(ops, ask, why, k)
            case _ => true
  {
    if GivenFor(Run(ops), ask).NotAsked? {
      var k := EntriesHaveOrigins(ops, ask.alias);
      EntriesInPast(ops, ask.alias, ask);
      assert RefusalSource(ops, ask, GivenFor(Run(ops), ask).why, k);
    }
  }

  ghost predicate RefusalSource(ops: seq<Op>, ask: Ask, why: string, k: nat) {
    k < |ops| && Sent(ops, k) && ops[k].ask.alias == ask.alias && ops[k].ask.reply == Refused(why) &&
    ops[k].ask.later <= ask.at < ops[k].ask.later + 60
  }

  ghost predicate CacheSource(ops: seq<Op>, ask: Ask, l: Listing, k: nat) {
    k < |ops| && Sent(ops, k) && ops[k].ask.alias == ask.alias && ops[k].ask.reply.Answered? &&
    l == ListingOf(ops[k].ask.space, ops[k].ask.reply.rooms) && l.rooms != [] &&
    ops[k].ask.later <= ask.at < ops[k].ask.later + 300
  }

  /** What a sent request leaves in the cache stays there until it is sent again, which for
      as long as it is fresh does not happen, or forgotten. */
  ghost predicate Quiet(ops: seq<Op>, from: nat, alias: string) {
    from < |ops| && forall j :: from < j < |ops| ==> ops[j] != Drop(alias)
  }

  function Lifetime(reply: Reply): nat {
    if reply.Refused? then 60 else 300
  }

  ghost predicate Remembered(ask: Ask) {
    ask.reply.Answered? ==> Children(ask.space, ask.reply.rooms) != []
  }

  lemma {:induction false} EntryStays(ops: seq<Op>, k: nat)
    requires k < |ops| && Sent(ops, k) && Sequential(ops) && Quiet(ops, k, ops[k].ask.alias) && Remembered(ops[k].ask)
    requires forall j :: k < j < |ops| && ops[j].Request? ==>
      ops[j].ask.at < ops[k].ask.later + Lifetime(ops[k].ask.reply)
    ensures ops[k].ask.alias in Run(ops)
    ensures Run(ops)[ops[k].ask.alias].fetched == ops[k].ask.later
    ensures Run(ops)[ops[k].ask.alias].failure.Some? <==> ops[k].ask.reply.Refused?
  {
    var n := |ops| - 1;
    if k < n {
      var before := ops[..n];
      assert before[..k] == ops[..k];
      EntryStays(before, k);
      assert ops[n] != Drop(ops[k].ask.alias);
    }
  }

  /** After a listing with rooms the server is not asked again under that alias for five
      minutes, after a refusal not for one, unless the alias is forgotten. */
  lemma {:induction false} NotAskedAgain(ops: seq<Op>, k: nat, ask: Ask)
    requires Sequential(ops + [Request(ask)]) && Quiet(ops, k, ask.alias)
    requires Sent(ops, k) && ops[k].ask.alias == ask.alias && Remembered(ops[k].ask)
    requires ask.at < ops[k].ask.later + Lifetime(ops[k].ask.reply)
    ensures !Sent(ops + [Request(ask)], |ops|)
    ensures if ops[k].ask.reply.Refused? then GivenFor(Run(ops), ask).NotAsked? else GivenFor(Run(ops), ask).FromCache?
  {
    var all := ops + [Request(ask)];
    assert all[..|ops|] == ops && all[|ops|] == Request(ask);
    forall j | 0 <= j < |ops| && ops[j].Request? ensures ops[j].ask.at <= ops[j].ask.later <= ask.at {
      assert all[j] == ops[j];
    }
    forall i, j | 0 <= i < j < |ops| && ops[i].Request? && ops[j].Request? ensures ops[i].ask.later <= ops[j].ask.at {
      assert all[i] == ops[i] && all[j] == ops[j];
    }
    EntryStays(ops, k);
    EntriesInPast(ops, ask.alias, ask);
  }

  /** An alias that was forgotten is asked for again, whatever was remembered under it. */
  lemma {:induction false} ForgottenIsAsked(ops: seq<Op>, j: nat, ask: Ask)
    requires j < |ops| && ops[j] == Drop(ask.alias)
    requires forall k :: j < k < |ops| && ops[k].Request? ==> ops[k].ask.alias != ask.alias
    ensures ask.alias !in Run(ops) && Sent(ops + [Request(ask)], |ops|)
    decreases |ops|
  {
    var n, all := |ops| - 1, ops + [Request(ask)];
    assert all[..|ops|] == ops && all[|ops|] == Request(ask);
    if j < n { ForgottenIsAsked(ops[..n], j, ask); }
  }

  // ---------- the cache goes by alias ----------

  /** The last request under the alias that reached the server. */
  ghost function LastSent(ops: seq<Op>, alias: string): (k: Option<nat>)
    ensures k.Some? ==> k.value < |ops| && Sent(ops, k.value) && ops[k.value].ask.alias == alias
  {
    if ops == [] then None
    else
      var n := |ops| - 1;
      if Sent(ops, n) && ops[n].ask.alias == alias then Some(n)
      else
        var k := LastSent(ops[..n], alias);
        if k.Some? then (SentEarlier(ops, k.value, n); k) else None
  }

  lemma {:induction false} SentEarlier(ops: seq<Op>, k: nat, n: nat)
    requires k < n <= |ops|
    ensures Sent(ops[..n], k) <==> Sent(ops, k)
  {
    assert ops[..n][..k] == ops[..k];
  }

  /** No later request under the alias reached the server. */
  lemma {:induction false} LastSentIsLast(ops: seq<Op>, alias: string, j: nat)
    requires j < |ops| && Sent(ops, j) && ops[j].ask.alias == alias
    ensures LastSent(ops, alias).Some? && j <= LastSent(ops, alias).value
  {
    var n := |ops| - 1;
    if j < n {
      SentEarlier(ops, j, n);
      LastSentIsLast(ops[..n], alias, j);
    }
  }

  predicate Alive(c: Cached, at: Instant) {
    at < c.fetched + (if c.failure.None? then 300 else 60)
  }

  /** A cache entry is the reply to the last request under its alias that reached the server,
      or had expired when that request was made, which then got a listing without rooms. */
  lemma {:induction false} EntryIsLastSent(ops: seq<Op>, alias: string)
    requires Sequential(ops) && alias in Run(ops)
    ensures LastSent(ops, alias).Some?
    ensures var k := LastSent(ops, alias).value;
            CameFrom(ops, alias, Run(ops)[alias], k) || !Alive(Run(ops)[alias], ops[k].ask.at)
  {
    var n := |ops| - 1;
    var before, op := ops[..n], ops[n];
    if Sent(ops, n) && op.ask.alias == alias {
      if Run(ops) == Run(before) {
        var j := EntriesHaveOrigins(before, alias);
        assert before[j] == ops[j];
      }
    } else {
      assert alias in Run(before) && Run(before)[alias] == Run(ops)[alias];
      EntryIsLastSent(before, alias);
      var k := LastSent(before, alias).value;
      assert before[..k] == ops[..k] && before[k] == ops[k];
    }
  }

  /** A listing out of the cache is the reply to the last request under the alias that
      reached the server. */
  lemma {:induction false} CachedIsLastSent(ops: seq<Op>, ask: Ask)
    requires Sequential(ops + [Request(ask)]) && GivenFor(Run(ops), ask).FromCache?
    ensures LastSent(ops, ask.alias).Some?
    ensures CacheSource(ops, ask, GivenFor(Run(ops), ask).listing, LastSent(ops, ask.alias).value)
  {
    var all := ops + [Request(ask)];
    assert all[..|ops|] == ops;
    EntryIsLastSent(ops, ask.alias);
    var k := LastSent(ops, ask.alias).value;
    assert all[k] == ops[k] && all[|ops|] == Request(ask);
    assert ops[k].ask.at <= ops[k].ask.later <= ask.at;
  }

  /** A listing from which the asked space's own entry is not missing tells which space was
      asked: reading the reply for another space gives another listing. */
  lemma {:induction false} ListingTellsSpace(a: string, b: string, rooms: seq<Summary>)
    requires Own(a, rooms).Some?
    ensures ListingOf(a, rooms) == ListingOf(b, rooms) <==> a == b
  {
    if a != b {
      ChildIds(a, rooms);
      ChildIds(b, rooms);
      OwnIsThere(a, rooms);
      var i :| 0 <= i < |rooms| && rooms[i].roomId == a;
      assert RoomOf(rooms[i]) in Children(b, rooms);
    }
  }

  lemma {:induction false} ChildIds(space: string, rooms: seq<Summary>)
    ensures forall r :: r in Children(space, rooms) ==> r.id != space
    ensures forall i :: 0 <= i < |rooms| && rooms[i].roomId != space ==> RoomOf(rooms[i]) in Children(space, rooms)
  {
    if rooms != [] { ChildIds(space, rooms[..|rooms| - 1]); }
  }

  lemma {:induction false} OwnIsThere(space: string, rooms: seq<Summary>)
    requires Own(space, rooms).Some?
    ensures exists i :: 0 <= i < |rooms| && rooms[i].roomId == space
  {
    var n := |rooms| - 1;
    if rooms[n].roomId != space {
      OwnIsThere(space, rooms[..n]);
      var i :| 0 <= i < n && rooms[..n][i].roomId == space;
      assert rooms[i].roomId == space;
    }
  }

  /** The listing is the reply to the last request sent under the alias, as read for that
      request's space. It is what this reply reads for the space now asked for if and only if
      the request was for this space, provided the reply listed the space itself. */
  lemma {:induction false} ListingTellsIff(ops: seq<Op>, ask: Ask)
    requires Sequential(ops + [Request(ask)]) && GivenFor(Run(ops), ask).FromCache?
    ensures LastSent(ops, ask.alias).Some?
    ensures var last, listing := ops[LastSent(ops, ask.alias).value].ask, GivenFor(Run(ops), ask).listing;
            last.reply.Answered? && listing == ListingOf(last.space, last.reply.rooms) &&
            (Own(last.space, last.reply.rooms).Some? ==>
              (listing == ListingOf(ask.space, last.reply.rooms) <==> last.space == ask.space))
  {
    CachedIsLastSent(ops, ask);
    var last := ops[LastSent(ops, ask.alias).value].ask;
    if Own(last.space, last.reply.rooms).Some? { ListingTellsSpace(last.space, ask.space, last.reply.rooms); }
  }

  /** When it was not, the other space's rooms are handed out: here two spaces with one room
      each, the alias moved from the first to the second between two requests. */
  lemma {:induction false} MovedAliasIsStale(one: Summary, two: Summary)
    requires one.roomId != "a" && two.roomId != "b" && one.roomId != two.roomId
    ensures var first := Ask("#s", "a", 0, 1, Answered([one]));
            var second := Ask("#s", "b", 2, 3, Answered([two]));
            Sequential([Request(first), Request(second)]) &&
            GivenFor(Run([Request(first)]), second) == FromCache(ListingOf("a", [one])) &&
            ListingOf("a", [one]) != ListingOf("b", [two])
  {
    var first := Ask("#s", "a", 0, 1, Answered([one]));
    assert [Request(first)][..0] == [];
    assert Children("a", [one]) == [RoomOf(one)] by { assert [one][..0] == []; }
    assert Children("b", [two]) == [RoomOf(two)] by { assert [two][..0] == []; }
    assert ListingOf("a", [one]).rooms[0].id != ListingOf("b", [two]).rooms[0].id;
  }
}
