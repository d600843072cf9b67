/** The background joiner of a community's rooms: paced, patient with rate limits, and
    counted. */
module Joiner {
  import opened Options
  import opened Sequences
  import SpaceListing

  /** Durations in nanoseconds. */
  const SECOND: nat := 1_000_000_000
  const JOIN_SPACING: nat := 5 * SECOND
  const MAX_RETRY_AFTER: nat := 300 * SECOND
  const JOIN_ATTEMPTS := 5

  /** What a 429 says about trying again; a moment is given relative to now. */
  datatype RetryAfter = Delay(d: nat) | Moment(fromNow: int)

  datatype Answer = Joined | Limited(retry: Option<RetryAfter>) | Failed(why: string)

  function Shorter(x: nat, y: nat): (r: nat)
    ensures r <= x && r <= y && (r == x || r == y)
  {
    if x <= y then x else y
  }

  /** How long to sleep after a rate-limited answer; a moment in the past counts as a second. */
  function RetryAfterOf(a: Answer): (wait: Option<nat>)
    ensures wait.Some? <==> a.Limited?
    ensures wait.Some? ==> 1_000_000_000 <= wait.value <= 301_000_000_000
    ensures a.Limited? && a.retry.None? ==> wait == Some(31_000_000_000)
    ensures a.Limited? && a.retry.Some? && a.retry.value.Delay? ==>
              wait.value == Shorter(a.retry.value.d, 300_000_000_000) + 1_000_000_000
    ensures a.Limited? && a.retry.Some? && a.retry.value.Moment? ==>
              wait.value == if a.retry.value.fromNow < 0 then 2_000_000_000
                            else Shorter(a.retry.value.fromNow, 300_000_000_000) + 1_000_000_000
  {
    match a
    case Limited(retry) =>
      var wait: nat := match retry
        case Some(Delay(d)) => d
        case Some(Moment(t)) => if t >= 0 then t else SECOND
        case None => 30 * SECOND;
      Some(Shorter(wait, MAX_RETRY_AFTER) + SECOND)
    case _ => None
  }

  /** Everything the joiner does that can be seen from outside. */
  datatype Act = Slept(d: nat) | Tried(room: string, answer: Answer) | Counted(left: int)

  /** How the server answers a room's attempts. */
  type Server = (string, nat) -> Answer

  // ---------- what one room's attempts amount to ----------

  /** From attempt `n` on: try; when told to wait, wait and try again, five times at most. */
  function Attempts(server: Server, room: string, n: nat): seq<Act>
    requires 1 <= n <= JOIN_ATTEMPTS
    decreases JOIN_ATTEMPTS - n
  {
    var a := server(room, n);
    var wait := RetryAfterOf(a);
    if wait.Some? && n < JOIN_ATTEMPTS then [Tried(room, a)] + ([Slept(wait.value)] + Attempts(server, room, n + 1))
    else [Tried(room, a)]
  }

  /** Whether the room is joined: the first answer that is no rate limit decides, if it comes
      within five attempts. */
  function Outcome(server: Server, room: string, n: nat): bool
    requires 1 <= n <= JOIN_ATTEMPTS
    decreases JOIN_ATTEMPTS - n
  {
    match server(room, n)
    case Joined => true
    case Limited(_) => n < JOIN_ATTEMPTS && Outcome(server, room, n + 1)
    case Failed(_) => false
  }

  /** The spacing before every room but the first. */
  function Pause(i: nat): seq<Act> {
    if i > 0 then [Slept(JOIN_SPACING)] else []
  }

  /** Everything done for room `i`. */
  function RoomActs(server: Server, room: string, i: nat, left: int): seq<Act> {
    Pause(i) + (Attempts(server, room, 1) + [Counted(left)])
  }

  function AllRooms(server: Server, rooms: seq<string>, total: nat): seq<Act>
    requires |rooms| <= total
  {
    if rooms == [] then [Counted(total)]
    else
      var n := |rooms| - 1;
      AllRooms(server, rooms[..n], total) + RoomActs(server, rooms[n], n, total - |rooms|)
  }

  function JoinedRooms(server: Server, rooms: seq<string>): seq<string> {
    if rooms == [] then []
    else
      var n := |rooms| - 1;
      JoinedRooms(server, rooms[..n]) + (if Outcome(server, rooms[n], 1) then [rooms[n]] else [])
  }

  lemma {:induction false} OneMoreRoom(server: Server, rooms: seq<string>, i: nat)
    requires i < |rooms|
    ensures AllRooms(server, rooms[..i + 1], |rooms|) ==
            AllRooms(server, rooms[..i], |rooms|) + RoomActs(server, rooms[i], i, |rooms| - i - 1)
    ensures JoinedRooms(server, rooms[..i + 1]) ==
            JoinedRooms(server, rooms[..i]) + if Outcome(server, rooms[i], 1) then [rooms[i]] else []
  {
    assert rooms[..i + 1][..i] == rooms[..i];
  }

  class Community {
    var joining: int
    var log: seq<Act>
    /** The rooms announced as joined, in order. */
    var announced: seq<string>

    /** All attempts at one room. */
    method JoinPatiently(server: Server, room: string) returns (ok: bool)
      modifies this`log
      ensures log == old(log) + Attempts(server, room, 1)
      ensures ok == Outcome(server, room, 1)
    {
      var attempt: nat := 1;
      while attempt <= JOIN_ATTEMPTS
        invariant 1 <= attempt <= JOIN_ATTEMPTS
        invariant log + Attempts(server, room, attempt) == old(log) + Attempts(server, room, 1)
        invariant Outcome(server, room, attempt) == Outcome(server, room, 1)
        decreases JOIN_ATTEMPTS - attempt
      {
        var a := server(room, attempt);
        ghost var before := log;
        log := log + [Tried(room, a)];
        if a.Joined? {
          return true;
        }
        var wait := RetryAfterOf(a);
        if wait.Some? && attempt < JOIN_ATTEMPTS {
          log := log + [Slept(wait.value)];
          ghost var rest := Attempts(server, room, attempt + 1);
          Regroup(before, [Tried(room, a)], [Slept(wait.value)] + rest);
          Regroup(before + [Tried(room, a)], [Slept(wait.value)], rest);
        } else {
          return false;
        }
        attempt := attempt + 1;
      }
      // The line that gives up after the loop is not reached.
      assert false;
    }

    /** One round of the loop over the rooms. */
    method NextRoom(server: Server, room: string, i: nat)
      modifies this
      ensures log == old(log) + RoomActs(server, room, i, joining) && joining == old(joining) - 1
      ensures announced == old(announced) + if Outcome(server, room, 1) then [room] else []
    {
      if i > 0 {
        log := log + [Slept(JOIN_SPACING)];
      }
      assert log == old(log) + Pause(i);
      var ok := JoinPatiently(server, room);
      if ok {
        announced := announced + [room];
      }
      joining := joining - 1;
      log := log + [Counted(joining)];
      Regroup(old(log), Pause(i), Attempts(server, room, 1) + [Counted(joining)]);
      Regroup(old(log) + Pause(i), Attempts(server, room, 1), [Counted(joining)]);
    }

    /** Join the pending rooms one after another, five seconds apart. `joining` counts the
        rooms still to finish; there is no leave meanwhile. */
    method JoinRooms(server: Server, pending: seq<string>)
      requires log == [] && announced == []
      modifies this
      ensures joining == 0
      ensures log == AllRooms(server, pending, |pending|)
      ensures announced == JoinedRooms(server, pending)
    {
      joining := |pending|;
      log := log + [Counted(joining)];
      var i := 0;
      while i < |pending|
        invariant 0 <= i <= |pending| && joining == |pending| - i
        invariant log == AllRooms(server, pending[..i], |pending|)
        invariant announced == JoinedRooms(server, pending[..i])
      {
        OneMoreRoom(server, pending, i);
        NextRoom(server, pending[i], i);
        i := i + 1;
      }
      assert pending[..i] == pending;
    }
  }

  // ---------- the whole task ----------

  /** The listed rooms still to join: ids that parse, of rooms we are not in. */
  function Unjoined(rooms: seq<SpaceListing.Room>, parses: string -> bool, isIn: string -> bool): seq<string> {
    if rooms == [] then []
    else
      var id := rooms[|rooms| - 1].id;
      Unjoined(rooms[..|rooms| - 1], parses, isIn) + if parses(id) && !isIn(id) then [id] else []
  }

  /** Without a listing there is nothing to join. */
  function Pending(given: SpaceListing.Given, parses: string -> bool, isIn: string -> bool): seq<string> {
    match given
    case FromServer(l) => Unjoined(l.rooms, parses, isIn)
    case FromCache(l) => Unjoined(l.rooms, parses, isIn)
    case _ => []
  }

  lemma {:induction false} UnjoinedMeaning(rooms: seq<SpaceListing.Room>, parses: string -> bool,
                                           isIn: string -> bool)
    ensures forall id :: id in Unjoined(rooms, parses, isIn) <==>
              parses(id) && !isIn(id) && exists r :: r in rooms && r.id == id
  {
    if rooms != [] {
      UnjoinedMeaning(rooms[..|rooms| - 1], parses, isIn);
      assert rooms == rooms[..|rooms| - 1] + [rooms[|rooms| - 1]];
    }
  }

  /** The rooms to join are those of the listing, fresh or cached, whose ids parse and that we
      are not in. */
  lemma {:induction false} PendingMeaning(given: SpaceListing.Given, parses: string -> bool, isIn: string -> bool)
    ensures forall id :: id in Pending(given, parses, isIn) <==>
              (given.FromServer? || given.FromCache?) && parses(id) && !isIn(id) &&
              exists r :: r in given.listing.rooms && r.id == id
  {
    if given.FromServer? || given.FromCache? { UnjoinedMeaning(given.listing.rooms, parses, isIn); }
  }

  lemma {:induction false} OnePending(r: SpaceListing.Room, parses: string -> bool, isIn: string -> bool)
    ensures Unjoined([r], parses, isIn) == if parses(r.id) && !isIn(r.id) then [r.id] else []
  {
    assert [r][..0] == [];
  }

  /** The rooms to join are taken in the order of the listing. */
  lemma {:induction false} PendingConcat(a: seq<SpaceListing.Room>, b: seq<SpaceListing.Room>, parses: string -> bool,
                                         isIn: string -> bool)
    ensures Unjoined(a + b, parses, isIn) == Unjoined(a, parses, isIn) + Unjoined(b, parses, isIn)
  {
    if b == [] {
      assert a + b == a;
    } else {
      var n, before := |b| - 1, a + b[..|b| - 1];
      assert a + b == before + [b[n]] && b == b[..n] + [b[n]];
      PendingConcat(a, b[..n], parses, isIn);
      Regroup(Unjoined(a, parses, isIn), Unjoined(b[..n], parses, isIn), Unjoined([b[n]], parses, isIn));
    }
  }

  method ChoosePending(given: SpaceListing.Given, parses: string -> bool, isIn: string -> bool)
    returns (pending: seq<string>)
    ensures pending == Pending(given, parses, isIn)
  {
    pending := [];
    if !given.FromServer? && !given.FromCache? { return; }
    var rooms := given.listing.rooms;
    for i := 0 to |rooms|
      invariant pending == Unjoined(rooms[..i], parses, isIn)
    {
      assert rooms[..i + 1][..i] == rooms[..i];
      if parses(rooms[i].id) && !isIn(rooms[i].id) {
        pending := pending + [rooms[i].id];
      }
    }
    assert rooms[..|rooms|] == rooms;
  }

  /** The background task: list the space's rooms, join those we are not in, and forget the
      listing, which no longer says the truth about us. */
  method JoinListed(state: SpaceListing.CommunityState, joiner: Community, ask: SpaceListing.Ask, server: Server,
                    parses: string -> bool, isIn: string -> bool)
    requires joiner.log == [] && joiner.announced == []
    requires forall alias :: alias in state.entries ==> state.entries[alias].fetched <= ask.at
    modifies state, joiner
    ensures var pending := Pending(SpaceListing.GivenFor(old(state.entries), ask), parses, isIn);
            joiner.joining == 0 && joiner.log == AllRooms(server, pending, |pending|) &&
            joiner.announced == JoinedRooms(server, pending)
    ensures state.entries == SpaceListing.CacheAfter(old(state.entries), ask) - {ask.alias}
  {
    var given := state.Hierarchy(ask);
    var pending := ChoosePending(given, parses, isIn);
    joiner.JoinRooms(server, pending);
    state.Forget(ask.alias);
  }

  // ---------- picking from the log ----------

  function Collect<T>(acts: seq<Act>, pick: Act -> seq<T>): seq<T> {
    if acts == [] then [] else pick(acts[0]) + Collect(acts[1..], pick)
  }

  lemma {:induction false} CollectConcat<T>(a: seq<Act>, b: seq<Act>, pick: Act -> seq<T>)
    ensures Collect(a + b, pick) == Collect(a, pick) + Collect(b, pick)
  {
    if a == [] {
      assert a + b == b;
    } else {
      assert (a + b)[1..] == a[1..] + b;
      CollectConcat(a[1..], b, pick);
      var x, y, z := pick(a[0]), Collect(a[1..], pick), Collect(b, pick);
      assert x + (y + z) == (x + y) + z;
    }
  }

  lemma {:induction false} CollectOne<T>(act: Act, pick: Act -> seq<T>)
    ensures Collect([act], pick) == pick(act)
  {
    assert Collect([act][1..], pick) == [];
  }

  /** What a rate-limited attempt contributes: itself, and what follows its wait. */
  lemma {:induction false} CollectRetry<T>(first: Act, wait: Act, rest: seq<Act>, pick: Act -> seq<T>)
    requires pick(wait) == []
    ensures Collect([first] + ([wait] + rest), pick) == pick(first) + Collect(rest, pick)
  {
    CollectConcat([first], [wait] + rest, pick);
    CollectConcat([wait], rest, pick);
    CollectOne(first, pick);
    CollectOne(wait, pick);
  }

  // ---------- how long it sleeps ----------

  function Sleep(acts: seq<Act>): nat {
    if acts == [] then 0 else (if acts[0].Slept? then acts[0].d else 0) + Sleep(acts[1..])
  }

  lemma {:induction false} SleepConcat(a: seq<Act>, b: seq<Act>)
    ensures Sleep(a + b) == Sleep(a) + Sleep(b)
  {
    if a == [] {
      assert a + b == b;
    } else {
      assert (a + b)[1..] == a[1..] + b;
      SleepConcat(a[1..], b);
    }
  }

  lemma {:induction false} AttemptsSleep(server: Server, room: string, n: nat)
    requires 1 <= n <= JOIN_ATTEMPTS
    ensures Sleep(Attempts(server, room, n)) <= (JOIN_ATTEMPTS - n) * 301 * SECOND
    decreases JOIN_ATTEMPTS - n
  {
    var a := server(room, n);
    var wait := RetryAfterOf(a);
    if wait.Some? && n < JOIN_ATTEMPTS {
      AttemptsSleep(server, room, n + 1);
      var rest := Attempts(server, room, n + 1);
      SleepConcat([Tried(room, a)], [Slept(wait.value)] + rest);
      SleepConcat([Slept(wait.value)], rest);
    }
  }

  /** For `n` rooms the joiner sleeps at most 5(n - 1) + 1204 n seconds. */
  lemma {:induction false} TotalSleep(server: Server, rooms: seq<string>, total: nat)
    requires |rooms| <= total
    ensures rooms == [] ==> Sleep(AllRooms(server, rooms, total)) == 0
    ensures rooms != [] ==>
      Sleep(AllRooms(server, rooms, total)) <= (5 * (|rooms| - 1) + 1204 * |rooms|) * SECOND
  {
    if rooms != [] {
      var n := |rooms| - 1;
      var tries, last := Attempts(server, rooms[n], 1), [Counted(total - |rooms|)];
      TotalSleep(server, rooms[..n], total);
      AttemptsSleep(server, rooms[n], 1);
      SleepConcat(AllRooms(server, rooms[..n], total), Pause(n) + (tries + last));
      SleepConcat(Pause(n), tries + last);
      SleepConcat(tries, last);
    }
  }

  // ---------- what it asks of the server ----------

  function TryOf(act: Act): seq<(string, Answer)> {
    if act.Tried? then [(act.room, act.answer)] else []
  }

  /** The attempts in a log, in order. */
  function Tries(acts: seq<Act>): seq<(string, Answer)> {
    Collect(acts, TryOf)
  }

  /** These are the tries of a room from attempt `n` on: one to five in all, every answer but
      the last a rate limit, and the last one only when it is the fifth. */
  ghost predicate AreTries(t: seq<(string, Answer)>, server: Server, room: string, n: nat) {
    1 <= |t| <= 6 - n &&
    (forall k :: 0 <= k < |t| ==> t[k] == (room, server(room, n + k))) &&
    (forall k :: 0 <= k < |t| - 1 ==> t[k].1.Limited?) &&
    (t[|t| - 1].1.Limited? ==> |t| == 6 - n)
  }

  lemma {:induction false} AreTriesCons(t: seq<(string, Answer)>, server: Server, room: string, n: nat)
    requires n < JOIN_ATTEMPTS && server(room, n).Limited? && AreTries(t, server, room, n + 1)
    ensures AreTries([(room, server(room, n))] + t, server, room, n)
  {
    var u := [(room, server(room, n))] + t;
    forall k | 0 <= k < |u| ensures u[k] == (room, server(room, n + k)) {
      if k > 0 { assert u[k] == t[k - 1]; }
    }
  }

  lemma {:induction false} TriesOfRoom(server: Server, room: string, n: nat)
    requires 1 <= n <= JOIN_ATTEMPTS
    ensures AreTries(Tries(Attempts(server, room, n)), server, room, n)
    decreases JOIN_ATTEMPTS - n
  {
    var a := server(room, n);
    var wait := RetryAfterOf(a);
    if wait.Some? && n < JOIN_ATTEMPTS {
      TriesOfRoom(server, room, n + 1);
      var rest := Attempts(server, room, n + 1);
      CollectRetry(Tried(room, a), Slept(wait.value), rest, TryOf);
      AreTriesCons(Tries(rest), server, room, n);
    } else {
      assert Attempts(server, room, n) == [Tried(room, a)];
      CollectOne(Tried(room, a), TryOf);
    }
  }

  /** Tries and sleeps take turns: behind every attempt but the last comes a sleep as long as
      its answer says. */
  ghost predicate TakeTurns(acts: seq<Act>, m: nat, server: Server, room: string, n: nat) {
    |acts| == 2 * m + 1 && forall k: nat :: k <= m ==> IsTurn(acts, k, m, server, room, n)
  }

  ghost predicate IsTurn(acts: seq<Act>, k: nat, m: nat, server: Server, room: string, n: nat) {
    var answer := server(room, n + k);
    |acts| == 2 * m + 1 && k <= m && acts[2 * k] == Tried(room, answer) &&
    (k < m ==> answer.Limited? && acts[2 * k + 1] == Slept(RetryAfterOf(answer).value))
  }

  lemma {:induction false} TurnLater(rest: seq<Act>, k: nat, m: nat, server: Server, room: string, n: nat, x: Act,
                                     y: Act)
    requires IsTurn(rest, k, m, server, room, n + 1)
    ensures IsTurn([x] + ([y] + rest), k + 1, m + 1, server, room, n)
  {
    var acts := [x] + ([y] + rest);
    assert n + 1 + k == n + (k + 1);
    assert acts[2 * k + 2] == rest[2 * k];
    if k < m { assert acts[2 * k + 3] == rest[2 * k + 1]; }
  }

  lemma {:induction false} TurnsCons(rest: seq<Act>, m: nat, server: Server, room: string, n: nat, wait: Act)
    requires TakeTurns(rest, m, server, room, n + 1)
    requires server(room, n).Limited? && wait == Slept(RetryAfterOf(server(room, n)).value)
    ensures TakeTurns([Tried(room, server(room, n))] + ([wait] + rest), m + 1, server, room, n)
  {
    var first := Tried(room, server(room, n));
    var acts := [first] + ([wait] + rest);
    var last := m + 1;
    forall k: nat | k <= last ensures IsTurn(acts, k, last, server, room, n) {
      if k == 0 {
        assert acts[0] == first && acts[1] == wait;
      } else {
        TurnLater(rest, k - 1, m, server, room, n, first, wait);
      }
    }
  }

  lemma {:induction false} AttemptsTakeTurns(server: Server, room: string, n: nat) returns (m: nat)
    requires 1 <= n <= JOIN_ATTEMPTS
    ensures m <= 5 - n && TakeTurns(Attempts(server, room, n), m, server, room, n)
    decreases JOIN_ATTEMPTS - n
  {
    var a := server(room, n);
    var wait := RetryAfterOf(a);
    m := 0;
    if wait.Some? && n < JOIN_ATTEMPTS {
      m := AttemptsTakeTurns(server, room, n + 1);
      TurnsCons(Attempts(server, room, n + 1), m, server, room, n, Slept(wait.value));
      m := m + 1;
    }
  }

  lemma {:induction false} TriesOfActs(server: Server, room: string, i: nat, left: int)
    ensures Tries(RoomActs(server, room, i, left)) == Tries(Attempts(server, room, 1))
  {
    var tries, last := Attempts(server, room, 1), [Counted(left)];
    CollectConcat(Pause(i), tries + last, TryOf);
    CollectConcat(tries, last, TryOf);
    CollectOne(Slept(JOIN_SPACING), TryOf);
    CollectOne(Counted(left), TryOf);
  }

  /** Tries `cuts[i]` to `cuts[i + 1]` are those of room `i`, for every room in turn. */
  ghost predicate AreTriesInTurn(t: seq<(string, Answer)>, cuts: seq<nat>, server: Server, rooms: seq<string>) {
    |cuts| == |rooms| + 1 && cuts[0] == 0 && cuts[|rooms|] == |t| &&
    forall i :: 0 <= i < |rooms| ==> TriesBetween(t, cuts[i], cuts[i + 1], server, rooms[i])
  }

  ghost predicate TriesBetween(t: seq<(string, Answer)>, from: nat, to: nat, server: Server, room: string) {
    from <= to <= |t| && AreTries(t[from..to], server, room, 1)
  }

  lemma {:induction false} TriesInTurnSnoc(t: seq<(string, Answer)>, cuts: seq<nat>, u: seq<(string, Answer)>,
                                           server: Server, rooms: seq<string>, room: string)
    requires AreTriesInTurn(t, cuts, server, rooms) && AreTries(u, server, room, 1)
    ensures AreTriesInTurn(t + u, cuts + [|t + u|], server, rooms + [room])
  {
    var all, more := t + u, cuts + [|t + u|];
    forall i | 0 <= i <= |rooms| ensures TriesBetween(all, more[i], more[i + 1], server, (rooms + [room])[i]) {
      if i < |rooms| {
        assert TriesBetween(t, cuts[i], cuts[i + 1], server, rooms[i]);
        assert all[cuts[i]..cuts[i + 1]] == t[cuts[i]..cuts[i + 1]];
      } else {
        assert all[|t|..|all|] == u;
      }
    }
  }

  lemma {:induction false} TriesGrow(server: Server, rooms: seq<string>, total: nat)
    requires 0 < |rooms| <= total
    ensures var n := |rooms| - 1;
            Tries(AllRooms(server, rooms, total)) ==
            Tries(AllRooms(server, rooms[..n], total)) + Tries(Attempts(server, rooms[n], 1))
  {
    var n := |rooms| - 1;
    CollectConcat(AllRooms(server, rooms[..n], total), RoomActs(server, rooms[n], n, total - |rooms|), TryOf);
    TriesOfActs(server, rooms[n], n, total - |rooms|);
  }

  /** Every room is tried, one after the other, and nothing else is. */
  lemma {:induction false} EveryRoomTried(server: Server, rooms: seq<string>, total: nat) returns (cuts: seq<nat>)
    requires |rooms| <= total
    ensures AreTriesInTurn(Tries(AllRooms(server, rooms, total)), cuts, server, rooms)
  {
    if rooms == [] {
      CollectOne(Counted(total), TryOf);
      cuts := [0];
    } else {
      var n := |rooms| - 1;
      var before, last := Tries(AllRooms(server, rooms[..n], total)), Tries(Attempts(server, rooms[n], 1));
      cuts := EveryRoomTried(server, rooms[..n], total);
      TriesGrow(server, rooms, total);
      TriesOfRoom(server, rooms[n], 1);
      TriesInTurnSnoc(before, cuts, last, server, rooms[..n], rooms[n]);
      cuts := cuts + [|before + last|];
      assert rooms == rooms[..n] + [rooms[n]];
    }
  }

  predicate EndsJoined(t: seq<(string, Answer)>) {
    t != [] && t[|t| - 1].1.Joined?
  }

  /** A room is joined exactly when its last answer says so. */
  lemma {:induction false} JoinedIff(server: Server, room: string, n: nat)
    requires 1 <= n <= JOIN_ATTEMPTS
    ensures Outcome(server, room, n) <==> EndsJoined(Tries(Attempts(server, room, n)))
    decreases JOIN_ATTEMPTS - n
  {
    var a := server(room, n);
    var wait := RetryAfterOf(a);
    if wait.Some? && n < JOIN_ATTEMPTS {
      JoinedIff(server, room, n + 1);
      TriesOfRoom(server, room, n + 1);
      var rest := Attempts(server, room, n + 1);
      CollectRetry(Tried(room, a), Slept(wait.value), rest, TryOf);
      assert Tries(Attempts(server, room, n)) == [(room, a)] + Tries(rest);
    } else {
      assert Attempts(server, room, n) == [Tried(room, a)];
      CollectOne(Tried(room, a), TryOf);
    }
  }

  /** A room is announced exactly when its last answer says it is joined, in the order of the
      rooms. */
  lemma {:induction false} AnnouncedConcat(server: Server, a: seq<string>, b: seq<string>)
    ensures JoinedRooms(server, a + b) == JoinedRooms(server, a) + JoinedRooms(server, b)
    ensures forall room :: JoinedRooms(server, [room]) ==
              if EndsJoined(Tries(Attempts(server, room, 1))) then [room] else []
  {
    forall room: string ensures [room][..0] == [] {}
    forall room ensures JoinedRooms(server, [room]) ==
                        if EndsJoined(Tries(Attempts(server, room, 1))) then [room] else []
    {
      JoinedIff(server, room, 1);
    }
    if b == [] {
      assert a + b == a;
    } else {
      var n := |b| - 1;
      assert (a + b)[..|a| + n] == a + b[..n];
      AnnouncedConcat(server, a, b[..n]);
    }
  }

  // ---------- pacing ----------

  /** Between the last attempt at one room and the first at the next lies the spacing. */
  ghost predicate Paced(acts: seq<Act>) {
    forall j, k :: 0 <= j < k < |acts| && acts[j].Tried? && acts[k].Tried? && acts[j].room != acts[k].room ==>
      Sleep(acts[j..k]) >= 5_000_000_000
  }

  ghost predicate TriesOnly(acts: seq<Act>, rooms: seq<string>) {
    forall k :: 0 <= k < |acts| && acts[k].Tried? ==> acts[k].room in rooms
  }

  lemma {:induction false} AttemptsTryOne(server: Server, room: string, n: nat)
    requires 1 <= n <= JOIN_ATTEMPTS
    ensures TriesOnly(Attempts(server, room, n), [room])
    decreases JOIN_ATTEMPTS - n
  {
    if n < JOIN_ATTEMPTS { AttemptsTryOne(server, room, n + 1); }
  }

  lemma {:induction false} SleepWithin(acts: seq<Act>, j: nat, k: nat, m: nat)
    requires j <= m < k <= |acts| && acts[m].Slept?
    ensures Sleep(acts[j..k]) >= acts[m].d
  {
    assert acts[j..k] == acts[j..m] + ([acts[m]] + acts[m + 1..k]);
    SleepConcat(acts[j..m], [acts[m]] + acts[m + 1..k]);
    SleepConcat([acts[m]], acts[m + 1..k]);
  }

  lemma {:induction false} PacedRooms(server: Server, rooms: seq<string>, total: nat)
    requires |rooms| <= total
    ensures Paced(AllRooms(server, rooms, total)) && TriesOnly(AllRooms(server, rooms, total), rooms)
  {
    if rooms != [] {
      var n := |rooms| - 1;
      var before := AllRooms(server, rooms[..n], total);
      var tries, last := Attempts(server, rooms[n], 1), [Counted(total - |rooms|)];
      PacedRooms(server, rooms[..n], total);
      AttemptsTryOne(server, rooms[n], 1);
      assert TriesOnly(tries + last, [rooms[n]]);
      if n == 0 {
      } else {
        PacedJoin(before, rooms[..n], tries + last, rooms[n]);
        assert rooms == rooms[..n] + [rooms[n]];
      }
    }
  }

  lemma {:induction false} PacedJoin(before: seq<Act>, rooms: seq<string>, after: seq<Act>, room: string)
    requires Paced(before) && TriesOnly(before, rooms) && TriesOnly(after, [room])
    ensures var all := before + ([Slept(JOIN_SPACING)] + after);
            Paced(all) && TriesOnly(all, rooms + [room])
  {
    var all, m := before + ([Slept(JOIN_SPACING)] + after), |before|;
    assert forall k :: m < k < |all| ==> all[k] == after[k - m - 1];
    assert JOIN_SPACING == 5_000_000_000;
    forall j, k | 0 <= j < k < |all| && all[j].Tried? && all[k].Tried? && all[j].room != all[k].room
      ensures Sleep(all[j..k]) >= 5_000_000_000
    {
      if k < m {
        assert all[..m] == before && all[j..k] == all[..m][j..k];
      } else if j < m {
        SleepWithin(all, j, k, m);
      }
    }
  }

  // ---------- the counter ----------

  function CountOf(act: Act): seq<int> {
    if act.Counted? then [act.left] else []
  }

  function Counts(acts: seq<Act>): seq<int> {
    Collect(acts, CountOf)
  }

  lemma {:induction false} AttemptsKeepCount(server: Server, room: string, n: nat)
    requires 1 <= n <= JOIN_ATTEMPTS
    ensures Counts(Attempts(server, room, n)) == []
    decreases JOIN_ATTEMPTS - n
  {
    var a := server(room, n);
    var wait := RetryAfterOf(a);
    if wait.Some? && n < JOIN_ATTEMPTS {
      AttemptsKeepCount(server, room, n + 1);
      CollectRetry(Tried(room, a), Slept(wait.value), Attempts(server, room, n + 1), CountOf);
    } else {
      assert Attempts(server, room, n) == [Tried(room, a)];
      CollectOne(Tried(room, a), CountOf);
    }
  }

  lemma {:induction false} RoomCounts(server: Server, room: string, i: nat, left: int)
    ensures Counts(RoomActs(server, room, i, left)) == [left]
  {
    var tries, last := Attempts(server, room, 1), [Counted(left)];
    AttemptsKeepCount(server, room, 1);
    CollectConcat(Pause(i), tries + last, CountOf);
    CollectConcat(tries, last, CountOf);
    CollectOne(Slept(JOIN_SPACING), CountOf);
    CollectOne(Counted(left), CountOf);
  }

  /** `total`, `total` - 1 and so on, `steps` steps down. */
  ghost predicate CountDown(c: seq<int>, total: int, steps: nat) {
    |c| == steps + 1 && forall k :: 0 <= k < |c| ==> c[k] == total - k
  }

  lemma {:induction false} CountsStep(before: seq<Act>, acts: seq<Act>, total: int, steps: nat)
    requires CountDown(Counts(before), total, steps) && Counts(acts) == [total - steps - 1]
    ensures CountDown(Counts(before + acts), total, steps + 1)
  {
    CollectConcat(before, acts, CountOf);
  }

  /** The counter starts at the number of rooms and falls by one with each, to zero. */
  lemma {:induction false} CountsDown(server: Server, rooms: seq<string>, total: nat)
    requires |rooms| <= total
    ensures CountDown(Counts(AllRooms(server, rooms, total)), total, |rooms|)
  {
    if rooms == [] {
      CollectOne(Counted(total), CountOf);
    } else {
      var n := |rooms| - 1;
      CountsDown(server, rooms[..n], total);
      RoomCounts(server, rooms[n], n, total - |rooms|);
      CountsStep(AllRooms(server, rooms[..n], total), RoomActs(server, rooms[n], n, total - |rooms|), total, n);
    }
  }
}
