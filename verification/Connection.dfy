/** One socket connection as interleaved steps: the reader, the handlers holding permits,
    the queue of lines, the single writer and the pusher of events. */
module Connection {
  import opened Bytes
  import opened Options
  import opened Sequences

  const MAX_IN_FLIGHT := 8
  const QUEUE_SLOTS := 64
  const BROADCAST_SLOTS := 256

  /** A line as read, with its newline. */
  type Request = seq<Byte>

  type Event = string

  /** `Answer(i, r)` is the response made for the i-th accepted request, which was `r`. */
  datatype Line = Greeting | Answer(index: nat, request: Request) | Notice(event: Event)

  datatype Phase = Greets | Reads | Waits(request: Request) | Drains | Returned

  datatype Writer = Running | Finished | Broken

  datatype Pusher = Idle | Holding(event: Event) | Stopped

  datatype State = State(
    phase: Phase,
    read: seq<Request>,        // non-blank lines read, in order
    accepted: seq<Request>,    // those given a permit
    running: set<nat>,         // handlers computing a response
    sending: set<nat>,         // handlers with a response, waiting to queue it
    queue: seq<Line>,
    hand: Option<Line>,        // the line the writer is writing
    written: seq<Line>,
    writer: Writer,
    pusher: Pusher,
    inbox: seq<Event>,         // broadcast to this subscriber, not yet received
    broadcast: seq<Event>,     // everything broadcast since the subscription
    silent: set<nat>,          // responses that would not serialise
    lost: set<nat>)            // responses the writer failed to write

  const START := State(Greets, [], [], {}, {}, [], None, [], Running, Idle, [], [], {}, {})

  datatype Step =
    // the connection's own task
    | Greet | Read(request: Request) | Close | Admit | Return
    // handlers
    | Respond(i: nat) | Fail(i: nat) | Enqueue(i: nat) | Discard(i: nat)
    // writer
    | Take | Write | Break | Finish
    // pusher
    | Receive | SkipEvent | Push | PushFails | Abort
    // the rest of the daemon
    | Broadcast(event: Event)

  function InHand(s: State): seq<Line> { if s.hand.Some? then [s.hand.value] else [] }

  /** Everything that was queued and not lost, in the order it was queued. */
  function Out(s: State): seq<Line> { s.written + InHand(s) + s.queue }

  predicate HasSlot(s: State) { s.writer == Running && |s.queue| < QUEUE_SLOTS }

  /** The queue's receiving end is gone: sending fails. */
  predicate Closed(s: State) { s.writer != Running }

  function AnswersIn(lines: seq<Line>): set<nat> {
    set l | l in lines && l.Answer? :: l.index
  }

  predicate Enabled(s: State, step: Step) {
    match step
    case Greet => s.phase == Greets && (HasSlot(s) || Closed(s))
    case Read(_) => s.phase == Reads
    case Close => s.phase == Reads
    case Admit => s.phase.Waits? && |s.running| + |s.sending| < MAX_IN_FLIGHT
    case Return => s.phase == Drains && Closed(s)
    case Respond(i) => i in s.running
    case Fail(i) => i in s.running
    case Enqueue(i) => i in s.sending && i < |s.accepted| && HasSlot(s)
    case Discard(i) => i in s.sending && Closed(s)
    case Take => s.writer == Running && s.hand.None? && s.queue != []
    case Write => s.hand.Some?
    case Break => s.hand.Some?
    // every sender is gone and the queue is empty
    case Finish => s.writer == Running && s.hand.None? && s.queue == [] && s.running == {} && s.sending == {} &&
                   s.phase == Drains && s.pusher == Stopped
    case Receive => s.pusher == Idle && s.inbox != []
    case SkipEvent => s.pusher == Idle && s.inbox != []
    case Push => s.pusher.Holding? && HasSlot(s)
    case PushFails => s.pusher.Holding? && Closed(s)
    case Abort => (s.phase == Drains || s.phase == Returned) && s.pusher != Stopped
    case Broadcast(_) => true
  }

  function Next(s: State, step: Step): State
    requires Enabled(s, step)
  {
    match step
    case Greet => s.(phase := Reads, queue := if HasSlot(s) then s.queue + [Greeting] else s.queue)
    case Read(r) => s.(phase := Waits(r), read := s.read + [r])
    case Close => s.(phase := Drains)
    case Admit => s.(phase := Reads, accepted := s.accepted + [s.phase.request], running := s.running + {|s.accepted|})
    case Return => s.(phase := Returned)
    case Respond(i) => s.(running := s.running - {i}, sending := s.sending + {i})
    case Fail(i) => s.(running := s.running - {i}, silent := s.silent + {i})
    case Enqueue(i) =>
      s.(sending := s.sending - {i}, queue := s.queue + [Answer(i, s.accepted[i])])
    case Discard(i) => s.(sending := s.sending - {i}, lost := s.lost + {i})
    case Take => s.(hand := Some(s.queue[0]), queue := s.queue[1..])
    case Write => s.(hand := None, written := s.written + [s.hand.value])
    case Break => s.(hand := None, queue := [], writer := Broken, lost := s.lost + AnswersIn(InHand(s) + s.queue))
    case Finish => s.(writer := Finished)
    case Receive => s.(pusher := Holding(s.inbox[0]), inbox := s.inbox[1..])
    case SkipEvent => s.(inbox := s.inbox[1..])
    case Push => s.(pusher := Idle, queue := s.queue + [Notice(s.pusher.event)])
    case PushFails => s.(pusher := Stopped)
    case Abort => s.(pusher := Stopped)
    // a subscriber that lags loses the oldest event
    case Broadcast(e) =>
      s.(broadcast := s.broadcast + [e],
         inbox := (if |s.inbox| < BROADCAST_SLOTS then s.inbox else s.inbox[1..]) + [e])
  }

  /** Eight requests may run at once and no more, sixty-four lines wait and two hundred and
      fifty-six events be kept; then requests wait, senders wait, and the oldest event goes. */
  lemma {:induction false} LimitsExact(s: State, e: Event)
    ensures s.phase.Waits? ==> (Enabled(s, Admit) <==> |s.running| + |s.sending| < 8)
    ensures s.writer == Running ==> (HasSlot(s) <==> |s.queue| < 64)
    ensures Next(s, Broadcast(e)).inbox == (if |s.inbox| < 256 then s.inbox else s.inbox[1..]) + [e]
  {
  }

  predicate CanRun(s: State, steps: seq<Step>)
    decreases |steps|
  {
    steps == [] || (Enabled(s, steps[0]) && CanRun(Next(s, steps[0]), steps[1..]))
  }

  function After(s: State, steps: seq<Step>): State
    requires CanRun(s, steps)
    decreases |steps|
  {
    if steps == [] then s else After(Next(s, steps[0]), steps[1..])
  }

  // ---------- conservation ----------

  function CountAnswer(lines: seq<Line>, i: nat): nat {
    if lines == [] then 0
    else CountAnswer(lines[..|lines| - 1], i) +
         (if lines[|lines| - 1].Answer? && lines[|lines| - 1].index == i then 1 else 0)
  }

  /** In how many places request `i` is: running, waiting to queue its response, its
      response somewhere on the way to the client or written, or given up. */
  function Places(s: State, i: nat): nat {
    (if i in s.running then 1 else 0) + (if i in s.sending then 1 else 0) + CountAnswer(Out(s), i) +
    (if i in s.silent then 1 else 0) + (if i in s.lost then 1 else 0)
  }

  /** Every accepted request is in exactly one place, and nothing else is anywhere. */
  ghost predicate Conserved(s: State) {
    forall i: nat :: Places(s, i) == if i < |s.accepted| then 1 else 0
  }

  /** Every response on its way answers the request it was made for. */
  ghost predicate Faithful(s: State) {
    forall l :: l in Out(s) && l.Answer? ==> l.index < |s.accepted| && l.request == s.accepted[l.index]
  }

  ghost predicate Bounded(s: State) {
    |s.running| + |s.sending| <= 8 && |s.queue| <= 64 && |s.inbox| <= 256
  }

  /** Requests are accepted in the order read; at most one read request waits. */
  ghost predicate InOrder(s: State) {
    s.read == s.accepted + (if s.phase.Waits? then [s.phase.request] else [])
  }

  ghost predicate Tidy(s: State) {
    (s.writer != Broken ==> s.lost == {}) &&
    (s.writer == Finished ==> s.hand.None? && s.queue == [] && s.running == {} && s.sending == {} &&
                              (s.phase == Drains || s.phase == Returned)) &&
    (s.writer == Broken ==> s.hand.None? && s.queue == []) &&
    (s.phase == Returned ==> Closed(s)) &&
    (s.pusher == Stopped && s.writer == Running ==> s.phase == Drains)
  }

  // ---------- events ----------

  ghost predicate Subsequence<T>(a: seq<T>, b: seq<T>) {
    a == [] || (b != [] && ((a[|a| - 1] == b[|b| - 1] && Subsequence(a[..|a| - 1], b[..|b| - 1])) ||
                            Subsequence(a, b[..|b| - 1])))
  }

  function NoticesIn(lines: seq<Line>): seq<Event> {
    if lines == [] then []
    else NoticesIn(lines[..|lines| - 1]) +
         (if lines[|lines| - 1].Notice? then [lines[|lines| - 1].event] else [])
  }

  function Held(s: State): seq<Event> { if s.pusher.Holding? then [s.pusher.event] else [] }

  /** With `sent` queued or written, what the subscriber has kept and will still see. */
  function Stream(sent: seq<Event>, s: State): seq<Event> { sent + Held(s) + s.inbox }

  /** Events queued or written, held, and still to come are broadcasts in broadcast order. */
  ghost predicate EventsInOrder(s: State) { Subsequence(Stream(NoticesIn(Out(s)), s), s.broadcast) }

  ghost predicate Inv(s: State) {
    Conserved(s) && Faithful(s) && Bounded(s) && InOrder(s) && Tidy(s) && EventsInOrder(s)
  }

  lemma {:induction false} CountConcat(a: seq<Line>, b: seq<Line>, i: nat)
    ensures CountAnswer(a + b, i) == CountAnswer(a, i) + CountAnswer(b, i)
  {
    if b == [] {
      assert a + b == a;
    } else {
      assert (a + b)[..|a + b| - 1] == a + b[..|b| - 1];
      CountConcat(a, b[..|b| - 1], i);
    }
  }

  lemma {:induction false} CountMember(lines: seq<Line>, i: nat)
    ensures CountAnswer(lines, i) > 0 <==> i in AnswersIn(lines)
  {
    if lines != [] {
      CountMember(lines[..|lines| - 1], i);
      assert lines == lines[..|lines| - 1] + [lines[|lines| - 1]];
    }
  }

  lemma {:induction false} NoticesConcat(a: seq<Line>, b: seq<Line>)
    ensures NoticesIn(a + b) == NoticesIn(a) + NoticesIn(b)
  {
    if b == [] {
      assert a + b == a;
    } else {
      assert (a + b)[..|a + b| - 1] == a + b[..|b| - 1];
      NoticesConcat(a, b[..|b| - 1]);
    }
  }

  lemma {:induction false} SubsequenceDrop<T>(a: seq<T>, m: seq<T>, c: seq<T>, b: seq<T>)
    requires Subsequence(a + m + c, b)
    ensures Subsequence(a + c, b)
    decreases |b|
  {
    if a + c != [] && b != [] {
      var whole, n := a + m + c, |b| - 1;
      if Subsequence(whole, b[..n]) {
        SubsequenceDrop(a, m, c, b[..n]);
      } else if c != [] {
        var c' := c[..|c| - 1];
        assert whole[..|whole| - 1] == a + m + c';
        SubsequenceDrop(a, m, c', b[..n]);
        assert (a + c)[..|a + c| - 1] == a + c';
      } else if m == [] {
        assert whole == a + c;
      } else {
        var m' := m[..|m| - 1];
        assert whole[..|whole| - 1] == a + m' + c;
        SubsequenceDrop(a, m', c, b[..n]);
      }
    }
  }

  // ---------- every step keeps the invariant ----------

  /** The line a step queues, if it queues one. */
  function Queued(s: State, step: Step): seq<Line>
    requires Enabled(s, step)
  {
    match step
    case Greet => if HasSlot(s) then [Greeting] else []
    case Enqueue(i) => [Answer(i, s.accepted[i])]
    case Push => [Notice(s.pusher.event)]
    case _ => []
  }

  lemma {:induction false} OutNext(s: State, step: Step)
    requires Enabled(s, step) && Tidy(s)
    ensures Out(Next(s, step)) == if step.Break? then s.written else Out(s) + Queued(s, step)
    ensures step.Break? ==> Out(s) == s.written + (InHand(s) + s.queue)
  {
    if step.Break? {
      Regroup(s.written, InHand(s), s.queue);
    } else if step.Take? {
    } else {
    }
  }

  lemma {:induction false} OutCount(s: State, step: Step, i: nat)
    requires Enabled(s, step) && Tidy(s)
    ensures CountAnswer(Out(Next(s, step)), i) + CountAnswer(if step.Break? then InHand(s) + s.queue else [], i) ==
            CountAnswer(Out(s), i) + (if step == Enqueue(i) then 1 else 0)
  {
    OutNext(s, step);
    if step.Break? {
      CountConcat(s.written, InHand(s) + s.queue, i);
    } else {
      CountConcat(Out(s), Queued(s, step), i);
    }
  }

  /** The places of request `i` other than the lines on their way. */
  function Elsewhere(s: State, i: nat): nat {
    (if i in s.running then 1 else 0) + (if i in s.sending then 1 else 0) +
    (if i in s.silent then 1 else 0) + (if i in s.lost then 1 else 0)
  }

  lemma {:induction false} BreakConserves(s: State, i: nat)
    requires Enabled(s, Break) && Tidy(s) && Places(s, i) <= 1
    ensures Places(Next(s, Break), i) == Places(s, i)
  {
    OutCount(s, Break, i);
    CountMember(InHand(s) + s.queue, i);
  }

  lemma {:induction false} ElsewhereNext(s: State, step: Step, i: nat)
    requires Enabled(s, step) && !step.Break? && Elsewhere(s, i) <= 1
    requires step.Admit? ==> Elsewhere(s, |s.accepted|) == 0
    ensures Elsewhere(Next(s, step), i) ==
            Elsewhere(s, i) + (if step.Admit? && i == |s.accepted| then 1 else 0) -
            (if step == Enqueue(i) then 1 else 0)
  {
  }

  lemma {:induction false} ConservedNext(s: State, step: Step, i: nat)
    requires Enabled(s, step) && Conserved(s) && Tidy(s)
    ensures Places(Next(s, step), i) == if i < |Next(s, step).accepted| then 1 else 0
  {
    assert Places(s, i) == if i < |s.accepted| then 1 else 0;
    if step.Break? {
      BreakConserves(s, i);
    } else {
      var n := |s.accepted|;
      assert Places(s, n) == 0;
      OutCount(s, step, i);
      ElsewhereNext(s, step, i);
    }
  }

  lemma {:induction false} FaithfulNext(s: State, step: Step)
    requires Enabled(s, step) && Faithful(s) && Tidy(s)
    ensures Faithful(Next(s, step))
  {
    OutNext(s, step);
  }

  lemma {:induction false} TidyNext(s: State, step: Step)
    requires Enabled(s, step) && Tidy(s)
    ensures Tidy(Next(s, step))
  {
  }

  lemma {:induction false} InOrderNext(s: State, step: Step)
    requires Enabled(s, step) && InOrder(s)
    ensures InOrder(Next(s, step))
  {
  }

  lemma {:induction false} BoundedNext(s: State, step: Step)
    requires Enabled(s, step) && Bounded(s)
    ensures Bounded(Next(s, step))
  {
    match step
    case Respond(i) => OneLess(s.running, i); OneMore(s.sending, i);
    case Admit => OneMore(s.running, |s.accepted|);
    case _ =>
  }

  lemma {:induction false} OutNotices(s: State, step: Step)
    requires Enabled(s, step) && Tidy(s)
    ensures step.Break? ==> NoticesIn(Out(s)) == NoticesIn(s.written) + NoticesIn(InHand(s) + s.queue) &&
                            Out(Next(s, step)) == s.written
    ensures !step.Break? ==> NoticesIn(Out(Next(s, step))) == NoticesIn(Out(s)) + (if step.Push? then Held(s) else [])
  {
    OutNext(s, step);
    if step.Break? {
      NoticesConcat(s.written, InHand(s) + s.queue);
    } else {
      NoticesConcat(Out(s), Queued(s, step));
    }
  }

  /** A step moves an event along the stream or drops a stretch of it: the middle of
      `a + m + c`. */
  lemma {:induction false} StreamNext(s: State, step: Step, sent: seq<Event>)
    returns (a: seq<Event>, m: seq<Event>, c: seq<Event>)
    requires Enabled(s, step) && !step.Break? && !step.Broadcast?
    ensures Stream(sent, s) == a + m + c
    ensures !step.SkipEvent? && !step.PushFails? && !step.Abort? ==> m == []
    ensures Stream(sent + (if step.Push? then Held(s) else []), Next(s, step)) == a + c
  {
    var s' := Next(s, step);
    assert sent + [] == sent;
    if step.SkipEvent? {
      a, m, c := sent + Held(s), [s.inbox[0]], s.inbox[1..];
      assert s.inbox == m + c;
    } else if step.PushFails? || step.Abort? {
      a, m, c := sent, Held(s), s.inbox;
    } else {
      a, m, c := Stream(sent, s), [], [];
      if step.Receive? { assert s.inbox == [s.inbox[0]] + s.inbox[1..]; }
    }
  }

  /** A broadcast joins the stream, pushing the oldest event out of a full inbox. */
  lemma {:induction false} StreamBroadcast(s: State, e: Event, sent: seq<Event>)
    returns (a: seq<Event>, m: seq<Event>, c: seq<Event>)
    ensures Stream(sent, s) + [e] == a + m + c
    ensures |s.inbox| < 256 ==> m == []
    ensures Stream(sent, Next(s, Broadcast(e))) == a + c
  {
    a := sent + Held(s);
    if |s.inbox| < BROADCAST_SLOTS {
      m, c := [], s.inbox + [e];
    } else {
      m, c := [s.inbox[0]], s.inbox[1..] + [e];
      assert s.inbox == m + s.inbox[1..];
    }
  }

  lemma {:induction false} EventsBreak(s: State)
    requires Enabled(s, Break) && EventsInOrder(s) && Tidy(s)
    ensures EventsInOrder(Next(s, Break))
  {
    var kept, gone, rest := NoticesIn(s.written), NoticesIn(InHand(s) + s.queue), Held(s) + s.inbox;
    OutNotices(s, Break);
    Regroup(kept + gone, Held(s), s.inbox);
    SubsequenceDrop(kept, gone, rest, s.broadcast);
    Regroup(kept, Held(s), s.inbox);
  }

  lemma {:induction false} EventsBroadcast(s: State, e: Event)
    requires EventsInOrder(s) && Tidy(s)
    ensures EventsInOrder(Next(s, Broadcast(e)))
  {
    var sent := NoticesIn(Out(s));
    assert NoticesIn(Out(Next(s, Broadcast(e)))) == sent by {
      OutNotices(s, Broadcast(e));
      assert sent + [] == sent;
    }
    var a, m, c := StreamBroadcast(s, e, sent);
    SubsequenceDrop(a, m, c, s.broadcast + [e]);
  }

  lemma {:induction false} EventsNext(s: State, step: Step)
    requires Enabled(s, step) && EventsInOrder(s) && Tidy(s)
    ensures EventsInOrder(Next(s, step))
  {
    if step.Break? {
      EventsBreak(s);
    } else if step.Broadcast? {
      EventsBroadcast(s, step.event);
    } else {
      OutNotices(s, step);
      var a, m, c := StreamNext(s, step, NoticesIn(Out(s)));
      SubsequenceDrop(a, m, c, s.broadcast);
    }
  }

  lemma {:induction false} InvNext(s: State, step: Step)
    requires Enabled(s, step) && Inv(s)
    ensures Inv(Next(s, step))
  {
    forall i: nat ensures Places(Next(s, step), i) == if i < |Next(s, step).accepted| then 1 else 0 {
      ConservedNext(s, step, i);
    }
    FaithfulNext(s, step);
    TidyNext(s, step);
    InOrderNext(s, step);
    BoundedNext(s, step);
    EventsNext(s, step);
  }

  lemma {:induction false} InvAfter(s: State, steps: seq<Step>)
    requires Inv(s) && CanRun(s, steps)
    ensures Inv(After(s, steps))
    decreases |steps|
  {
    if steps != [] {
      InvNext(s, steps[0]);
      InvAfter(Next(s, steps[0]), steps[1..]);
    }
  }

  /** In every reachable state: accepted requests are each in exactly one place, responses
      belong to their requests, at most 8 requests run at once and at most 64 lines are
      queued, and events go out in broadcast order. */
  lemma {:induction false} ReachableInv(steps: seq<Step>)
    requires CanRun(START, steps)
    ensures Inv(After(START, steps))
  {
    InvAfter(START, steps);
  }

  /** Nothing is given up unless a response does not serialise or a write fails. */
  lemma {:induction false} CleanRun(s: State, steps: seq<Step>)
    requires CanRun(s, steps) && forall k :: 0 <= k < |steps| ==> !steps[k].Fail? && !steps[k].Break?
    requires s.silent == {} && s.writer != Broken
    ensures After(s, steps).silent == {} && After(s, steps).writer != Broken
    decreases |steps|
  {
    if steps != [] {
      var step := steps[0];
      assert !step.Fail? && !step.Break?;
      forall k | 0 <= k < |steps[1..]| ensures !steps[1..][k].Fail? && !steps[1..][k].Break? {
        assert steps[1..][k] == steps[k + 1];
      }
      CleanRun(Next(s, step), steps[1..]);
    }
  }

  /** A step at which no event is dropped: none is skipped or too many, and neither the pusher
      nor the writer is stopped. */
  predicate KeepsEvents(s: State, step: Step) {
    !step.SkipEvent? && !step.PushFails? && !step.Abort? && !step.Break? && (step.Broadcast? ==> |s.inbox| < 256)
  }

  /** A run of such steps. */
  predicate CanRunKeeping(s: State, steps: seq<Step>)
    decreases |steps|
  {
    steps == [] ||
    (Enabled(s, steps[0]) && KeepsEvents(s, steps[0]) && CanRunKeeping(Next(s, steps[0]), steps[1..]))
  }

  lemma {:induction false} StreamKept(s: State, step: Step, sent: seq<Event>, more: seq<Event>)
    requires Enabled(s, step) && KeepsEvents(s, step) && more == if step.Push? then Held(s) else []
    ensures Stream(sent + more, Next(s, step)) == Stream(sent, s) + if step.Broadcast? then [step.event] else []
    ensures Next(s, step).broadcast == s.broadcast + if step.Broadcast? then [step.event] else []
  {
    assert sent + [] == sent;
    if step.Broadcast? {
      var a, m, c := StreamBroadcast(s, step.event, sent);
      assert a + m + c == a + c;
    } else {
      var a, m, c := StreamNext(s, step, sent);
      assert a + m + c == a + c;
    }
  }

  lemma {:induction false} EventsKept(s: State, step: Step)
    requires Enabled(s, step) && Tidy(s) && KeepsEvents(s, step)
    requires Stream(NoticesIn(Out(s)), s) == s.broadcast
    ensures Stream(NoticesIn(Out(Next(s, step))), Next(s, step)) == Next(s, step).broadcast
  {
    var sent, more := NoticesIn(Out(s)), if step.Push? then Held(s) else [];
    OutNotices(s, step);
    assert sent + [] == sent;
    StreamKept(s, step, sent, more);
  }

  /** In such a run every event broadcast is written, on its way or still to be pushed, in
      broadcast order. */
  lemma {:induction false} NoEventLost(s: State, steps: seq<Step>)
    requires CanRunKeeping(s, steps) && Tidy(s)
    requires Stream(NoticesIn(Out(s)), s) == s.broadcast
    ensures CanRun(s, steps)
    ensures Stream(NoticesIn(Out(After(s, steps))), After(s, steps)) == After(s, steps).broadcast
    decreases |steps|
  {
    if steps != [] {
      EventsKept(s, steps[0]);
      TidyNext(s, steps[0]);
      NoEventLost(Next(s, steps[0]), steps[1..]);
    }
  }

  /** Request `i` is answered: one line of `written` is its response, and that line
      answers the `i`-th request read. */
  ghost predicate AnsweredOnce(s: State, i: nat) {
    CountAnswer(s.written, i) == 1 &&
    forall l :: l in s.written && l.Answer? && l.index == i ==> i < |s.read| && l.request == s.read[i]
  }

  /** When a connection returns and its writer did not break, every request it read has
      exactly one response written, save those whose response would not serialise. */
  lemma {:induction false} AllAnswered(steps: seq<Step>)
    requires CanRun(START, steps)
    requires After(START, steps).phase == Returned && After(START, steps).writer != Broken
    ensures var s := After(START, steps);
            s.running == {} && s.sending == {} && s.queue == [] && s.accepted == s.read &&
            forall i: nat :: i < |s.read| ==> (AnsweredOnce(s, i) <==> i !in s.silent)
  {
    ReachableInv(steps);
    var s := After(START, steps);
    assert Out(s) == s.written;
    forall i: nat | i < |s.read| ensures AnsweredOnce(s, i) <==> i !in s.silent {
      assert Places(s, i) == 1;
    }
  }

  /** Without such failures a connection that has returned has answered every request. */
  lemma {:induction false} EveryRequestAnswered(steps: seq<Step>)
    requires CanRun(START, steps) && After(START, steps).phase == Returned
    requires forall k :: 0 <= k < |steps| ==> !steps[k].Fail? && !steps[k].Break?
    ensures forall i: nat :: i < |After(START, steps).read| ==> AnsweredOnce(After(START, steps), i)
  {
    CleanRun(START, steps);
    AllAnswered(steps);
  }

  // ---------- the drain ends ----------

  /** A step the daemon takes by itself: neither the client nor the rest of the daemon. */
  predicate Internal(step: Step) { !step.Read? && !step.Close? && !step.Broadcast? }

  /** Work left: each internal step lowers it. */
  function Work(s: State): nat {
    (match s.phase case Greets => 8 case Reads => 2 case Waits(_) => 8 case Drains => 1 case Returned => 0) +
    4 * |s.running| + 3 * |s.sending| + 2 * |s.queue| + |InHand(s)| +
    5 * |s.inbox| + (match s.pusher case Idle => 1 case Holding(_) => 4 case Stopped => 0) +
    (if s.writer == Running then 1 else 0)
  }

  lemma {:induction false} WorkLowers(s: State, step: Step)
    requires Enabled(s, step) && Internal(step)
    ensures Work(Next(s, step)) < Work(s)
  {
    match step
    case Respond(i) => RespondLowers(s, i);
    case Fail(i) => FailLowers(s, i);
    case Enqueue(i) => EnqueueLowers(s, i);
    case Discard(i) => DiscardLowers(s, i);
    case Admit => AdmitLowers(s);
    case _ =>
  }

  lemma {:induction false} RespondLowers(s: State, i: nat)
    requires i in s.running
    ensures Work(Next(s, Respond(i))) < Work(s)
  {
    OneLess(s.running, i);
    OneMore(s.sending, i);
  }

  lemma {:induction false} FailLowers(s: State, i: nat)
    requires i in s.running
    ensures Work(Next(s, Fail(i))) < Work(s)
  {
    OneLess(s.running, i);
  }

  lemma {:induction false} EnqueueLowers(s: State, i: nat)
    requires Enabled(s, Enqueue(i))
    ensures Work(Next(s, Enqueue(i))) < Work(s)
  {
    OneLess(s.sending, i);
  }

  lemma {:induction false} DiscardLowers(s: State, i: nat)
    requires Enabled(s, Discard(i))
    ensures Work(Next(s, Discard(i))) < Work(s)
  {
    OneLess(s.sending, i);
  }

  lemma {:induction false} AdmitLowers(s: State)
    requires Enabled(s, Admit)
    ensures Work(Next(s, Admit)) < Work(s)
  {
    OneMore(s.running, |s.accepted|);
  }

  lemma {:induction false} OneLess(a: set<nat>, i: nat)
    requires i in a
    ensures |a - {i}| == |a| - 1
  {
  }

  lemma {:induction false} OneMore(a: set<nat>, i: nat)
    ensures |a + {i}| <= |a| + 1
  {
    if i in a { assert a + {i} == a; }
  }

  /** No deadlock: until the connection has returned, an internal step is possible unless it
      is waiting for the client with nothing left to do. */
  lemma {:induction false} SomeStep(s: State) returns (step: Step)
    requires Inv(s) && s.phase != Returned
    requires s.phase == Reads ==> s.running != {} || s.sending != {} || s.queue != [] || s.hand.Some?
    ensures Internal(step) && Enabled(s, step)
  {
    if s.hand.Some? {
      step := Write;
    } else if s.writer == Running && s.queue != [] {
      step := Take;
    } else if s.running != {} {
      var i :| i in s.running;
      step := Respond(i);
    } else if s.sending != {} {
      var i :| i in s.sending;
      assert Places(s, i) > 0;
      step := if s.writer == Running then Enqueue(i) else Discard(i);
    } else {
      match s.phase {
        case Greets => step := Greet;
        case Waits(_) => step := Admit;
        case Drains => step := if s.writer != Running then Return else if s.pusher != Stopped then Abort else Finish;
        case Reads => assert false;
      }
    }
  }

  lemma {:induction false} WorkBounds(s: State, steps: seq<Step>)
    requires Inv(s) && CanRun(s, steps) && forall k :: 0 <= k < |steps| ==> Internal(steps[k])
    ensures |steps| + Work(After(s, steps)) <= Work(s)
    decreases |steps|
  {
    if steps != [] {
      assert Internal(steps[0]);
      WorkLowers(s, steps[0]);
      InvNext(s, steps[0]);
      forall k | 0 <= k < |steps[1..]| ensures Internal(steps[1..][k]) { assert Internal(steps[k + 1]); }
      WorkBounds(Next(s, steps[0]), steps[1..]);
    }
  }

  // ---------- the drain, whatever is broadcast meanwhile ----------

  /** The input has ended and the pusher has been stopped. */
  predicate Draining(s: State) {
    (s.phase == Drains || s.phase == Returned) && s.pusher == Stopped
  }

  /** Work left that does not depend on what is broadcast. */
  function DrainWork(s: State): nat {
    (match s.phase case Greets => 8 case Reads => 2 case Waits(_) => 8 case Drains => 1 case Returned => 0) +
    4 * |s.running| + 3 * |s.sending| + 2 * |s.queue| + |InHand(s)| + (if s.writer == Running then 1 else 0)
  }

  /** In a draining connection a broadcast changes nothing that is left to do, and every step
      of the daemon lowers it. */
  lemma {:induction false} DrainWorkLowers(s: State, step: Step)
    requires Enabled(s, step) && Draining(s)
    ensures Draining(Next(s, step))
    ensures if Internal(step) then DrainWork(Next(s, step)) < DrainWork(s) else DrainWork(Next(s, step)) == DrainWork(s)
  {
    if Internal(step) {
      WorkLowers(s, step);
    }
  }

  /** The daemon's own steps in a run. */
  function CountInternal(steps: seq<Step>): nat {
    if steps == [] then 0 else (if Internal(steps[0]) then 1 else 0) + CountInternal(steps[1..])
  }

  lemma {:induction false} DrainBounds(s: State, steps: seq<Step>)
    requires Draining(s) && CanRun(s, steps)
    ensures Draining(After(s, steps)) && CountInternal(steps) + DrainWork(After(s, steps)) <= DrainWork(s)
    decreases |steps|
  {
    if steps != [] {
      DrainWorkLowers(s, steps[0]);
      DrainBounds(Next(s, steps[0]), steps[1..]);
    }
  }

  /** The state from which the connection drains: its next own step stops the pusher. */
  function WithoutPusher(s: State): State
    requires s.phase == Drains
  {
    if s.pusher == Stopped then s else Next(s, Abort)
  }

  /** The drain. Once the stream has ended and the pusher is stopped, which is possible at
      once, every run has at most 163 steps of the daemon, whatever is broadcast meanwhile,
      and when none of them is left the connection has returned. */
  lemma {:induction false} DrainEnds(before: seq<Step>, steps: seq<Step>)
    requires CanRun(START, before) && After(START, before).phase == Drains
    requires CanRun(WithoutPusher(After(START, before)), steps)
    ensures var s := After(START, before);
            s.pusher != Stopped ==> Enabled(s, Abort)
    ensures CountInternal(steps) <= DrainWork(WithoutPusher(After(START, before))) <= 163
    ensures var t := After(WithoutPusher(After(START, before)), steps);
            (forall step :: Internal(step) ==> !Enabled(t, step)) ==> t.phase == Returned
  {
    var s := After(START, before);
    ReachableInv(before);
    if s.pusher != Stopped { InvNext(s, Abort); }
    DrainBounds(WithoutPusher(s), steps);
    InvAfter(WithoutPusher(s), steps);
    var t := After(WithoutPusher(s), steps);
    if t.phase != Returned {
      var step := SomeStep(t);
    }
  }
}
