/** The cache of previews of replied-to messages: bounded, forgotten on edits, and filled by
    builds that edits may overtake. */
module ReplyPreviews {
  import opened Options

  /** A room and an event in it. */
  type Key = (string, string)

  datatype Preview = Preview(sender: string, senderName: string, body: string)

  const MAX_REPLY_CACHE := 4096

  function Inserted(cache: map<Key, Preview>, key: Key, p: Preview): map<Key, Preview> {
    (if |cache| >= MAX_REPLY_CACHE then map[] else cache)[key := p]
  }

  /** One more preview drops none of the others, unless the table was full. */
  lemma {:induction false} InsertKeeps(cache: map<Key, Preview>, key: Key, p: Preview, other: Key)
    ensures key in Inserted(cache, key, p) && Inserted(cache, key, p)[key] == p
    ensures |cache| < 4096 && other != key ==>
              (other in Inserted(cache, key, p) <==> other in cache) &&
              (other in cache ==> Inserted(cache, key, p)[other] == cache[other])
    ensures |cache| >= 4096 && other != key ==> other !in Inserted(cache, key, p)
  {
  }

  class PreviewCache {
    var entries: map<Key, Preview>

    method ForgetReplyPreview(key: Key)
      modifies this
      ensures entries == old(entries) - {key}
    {
      entries := entries - {key};
    }

    /** `built` is what building the preview gave, if anything; it is used on a miss only. */
    method ReplyPreview(key: Key, built: Option<Preview>) returns (r: Option<Preview>)
      modifies this
      ensures r == if key in old(entries) then Some(old(entries)[key]) else built
      ensures entries == if key in old(entries) || built.None? then old(entries)
                         else Inserted(old(entries), key, built.value)
      ensures old(|entries|) <= MAX_REPLY_CACHE ==> |entries| <= MAX_REPLY_CACHE
    {
      if key in entries { return Some(entries[key]); }
      if built.None? { return None; }
      if |entries| >= MAX_REPLY_CACHE {
        entries := map[];
      }
      entries := entries[key := built.value];
      r := built;
    }
  }

  // ---------- steps of concurrent requests ----------

  /** `truth`: what building would give now. `building`: builds whose answer is known but
      not yet stored. `due`: messages whose edit is known but whose preview the message
      handler has still to forget. */
  datatype World = World(entries: map<Key, Preview>, truth: map<Key, Preview>, building: seq<(Key, Preview)>,
                         due: set<Key>)

  /** An edit takes two steps: the event cache learns it, and the handler, which has looked up
      the original in between, forgets the preview. `Changed` is any change of what a build
      would give that no handler will follow: a deletion, a new display name, or an edit that
      the event cache learns only when the handler is done. */
  datatype Step =
    | Begin(key: Key)
    | End(i: nat)
    | Learned(key: Key, now: Preview)
    | Forgotten(key: Key)
    | Changed(key: Key, next: Option<Preview>)

  predicate Enabled(w: World, step: Step) {
    match step
    case Begin(key) => key !in w.entries && key in w.truth
    case End(i) => i < |w.building|
    case _ => true
  }

  function Next(w: World, step: Step): World
    requires Enabled(w, step)
  {
    match step
    case Begin(key) => w.(building := w.building + [(key, w.truth[key])])
    case End(i) =>
      w.(entries := Inserted(w.entries, w.building[i].0, w.building[i].1),
         building := w.building[..i] + w.building[i + 1..])
    case Learned(key, p) => w.(truth := w.truth[key := p], due := w.due + {key})
    case Forgotten(key) => w.(entries := w.entries - {key}, due := w.due - {key})
    case Changed(key, next) =>
      w.(truth := match next case Some(p) => w.truth[key := p] case None => w.truth - {key})
  }

  ghost predicate CanRun(w: World, steps: seq<Step>)
    decreases |steps|
  {
    steps == [] || (Enabled(w, steps[0]) && CanRun(Next(w, steps[0]), steps[1..]))
  }

  function Run(w: World, steps: seq<Step>): World
    requires CanRun(w, steps)
    decreases |steps|
  {
    if steps == [] then w else Run(Next(w, steps[0]), steps[1..])
  }

  // ---------- bounded ----------

  lemma {:induction false} Bounded(w: World, steps: seq<Step>)
    requires CanRun(w, steps) && |w.entries| <= 4096
    ensures |Run(w, steps).entries| <= 4096
    decreases |steps|
  {
    if steps != [] {
      Bounded(Next(w, steps[0]), steps[1..]);
    }
  }

  // ---------- fresh ----------

  /** Every cached preview is what building it again would give. */
  ghost predicate Fresh(w: World) {
    forall key :: key in w.entries ==> key in w.truth && w.entries[key] == w.truth[key]
  }

  /** Every cached preview is, but for messages whose edit is still being handled. */
  ghost predicate FreshButDue(w: World) {
    forall key :: key in w.entries && key !in w.due ==> key in w.truth && w.entries[key] == w.truth[key]
  }

  /** Every build under way has the preview that building now would give. */
  ghost predicate Settled(w: World) {
    forall i :: 0 <= i < |w.building| ==> IsTrue(w, w.building[i].0, w.building[i].1)
  }

  predicate IsTrue(w: World, key: Key, p: Preview) { key in w.truth && w.truth[key] == p }

  ghost predicate Right(w: World) { FreshButDue(w) && Settled(w) }

  /** Between the two steps of an edit: the cache is fresh exactly when the message is not
      cached, or with the preview it has now. */
  lemma {:induction false} BetweenFreshIff(w: World, key: Key, now: Preview)
    requires Fresh(w)
    ensures Fresh(Next(w, Learned(key, now))) <==> (key in w.entries ==> w.entries[key] == now)
  {
    var w' := Next(w, Learned(key, now));
    if key in w.entries { assert w'.entries[key] == w.entries[key] && w'.truth[key] == now; }
  }

  /** A fresh cache stays fresh whichever build ends next if and only if the builds under
      way are right. */
  lemma {:induction false} EndsFreshIff(w: World)
    requires Fresh(w)
    ensures (forall i :: 0 <= i < |w.building| ==> Fresh(Next(w, End(i)))) <==> Settled(w)
  {
    forall i | 0 <= i < |w.building|
      ensures Fresh(Next(w, End(i))) <==> IsTrue(w, w.building[i].0, w.building[i].1)
    {
    }
  }

  /** An edit overtakes a build: one of the same message is under way with another preview. */
  predicate Overtakes(w: World, key: Key, now: Preview) {
    exists i :: 0 <= i < |w.building| && w.building[i].0 == key && w.building[i].1 != now
  }

  /** After both steps of an edit: the cache is fresh, and whichever build ends then leaves it
      fresh exactly for the edits that overtake no build. */
  lemma {:induction false} EditSafeIff(w: World, key: Key, now: Preview)
    requires Fresh(w) && Settled(w)
    ensures var w' := Next(Next(w, Learned(key, now)), Forgotten(key));
            Fresh(w') &&
            ((forall i :: 0 <= i < |w'.building| ==> Fresh(Next(w', End(i)))) <==> !Overtakes(w, key, now))
  {
    var w' := Next(Next(w, Learned(key, now)), Forgotten(key));
    EndsFreshIff(w');
    SettledAfterEditIff(w, key, now);
    assert Settled(w') <==> Settled(Next(w, Learned(key, now)));
  }

  lemma {:induction false} SettledAfterEditIff(w: World, key: Key, now: Preview)
    requires Settled(w)
    ensures Settled(Next(w, Learned(key, now))) <==> !Overtakes(w, key, now)
  {
    var w' := Next(w, Learned(key, now));
    if i :| 0 <= i < |w.building| && w.building[i].0 == key && w.building[i].1 != now {
      assert w'.building[i] == w.building[i] && w'.truth[key] == now;
    }
  }

  /** What a step must not do: edit a message while a build of it is under way, or change one
      behind the handler's back that is cached or being built. Every other step is allowed. */
  predicate Disturbs(w: World, step: Step) {
    match step
    case Learned(key, now) => Overtakes(w, key, now)
    case Changed(key, next) =>
      (key in w.entries && key !in w.due && next != Some(w.entries[key])) ||
      exists i :: 0 <= i < |w.building| && w.building[i].0 == key && next != Some(w.building[i].1)
    case _ => false
  }

  lemma {:induction false} StepRightIff(w: World, step: Step)
    requires Enabled(w, step) && Right(w)
    ensures Right(Next(w, step)) <==> !Disturbs(w, step)
  {
    match step
    case Begin(_) =>
    case End(i) => EndRight(w, i);
    case Learned(key, now) => SettledAfterEditIff(w, key, now);
    case Forgotten(_) =>
    case Changed(key, next) => ChangeRightIff(w, key, next);
  }

  lemma {:induction false} EndRight(w: World, i: nat)
    requires i < |w.building| && Right(w)
    ensures Right(Next(w, End(i)))
  {
    var (key, p) := w.building[i];
    var w' := Next(w, End(i));
    assert IsTrue(w, key, p);
    forall k | k in w'.entries && k != key ensures k in w.entries && w'.entries[k] == w.entries[k] {}
    forall j | 0 <= j < |w'.building| ensures w'.building[j] in w.building {}
  }

  lemma {:induction false} ChangeRightIff(w: World, key: Key, next: Option<Preview>)
    requires Right(w)
    ensures Right(Next(w, Changed(key, next))) <==> !Disturbs(w, Changed(key, next))
  {
    var w' := Next(w, Changed(key, next));
    if key in w.entries && key !in w.due && next != Some(w.entries[key]) {
      assert key in w'.entries && key !in w'.due;
    }
    if i :| 0 <= i < |w.building| && w.building[i].0 == key && next != Some(w.building[i].1) {
      assert w'.building[i] == w.building[i];
    }
  }

  ghost predicate AlwaysRight(w: World, steps: seq<Step>)
    requires CanRun(w, steps)
    decreases |steps|
  {
    Right(w) && (steps == [] || AlwaysRight(Next(w, steps[0]), steps[1..]))
  }

  ghost predicate NoneDisturbs(w: World, steps: seq<Step>)
    requires CanRun(w, steps)
    decreases |steps|
  {
    steps == [] || (!Disturbs(w, steps[0]) && NoneDisturbs(Next(w, steps[0]), steps[1..]))
  }

  /** Over a whole run cache and builds are right at every moment, but for previews that are
      being forgotten, if and only if no step disturbs them. */
  lemma {:induction false} AlwaysRightIff(w: World, steps: seq<Step>)
    requires CanRun(w, steps) && Right(w)
    ensures AlwaysRight(w, steps) <==> NoneDisturbs(w, steps)
    decreases |steps|
  {
    if steps != [] {
      StepRightIff(w, steps[0]);
      if Right(Next(w, steps[0])) {
        AlwaysRightIff(Next(w, steps[0]), steps[1..]);
      } else {
        assert !AlwaysRight(Next(w, steps[0]), steps[1..]);
      }
    }
  }

  /** No change escapes the handler, and no edit overtakes a build. */
  ghost predicate WellTimed(w: World, steps: seq<Step>)
    requires CanRun(w, steps)
    decreases |steps|
  {
    steps == [] ||
    (!steps[0].Changed? && (steps[0].Learned? ==> !Overtakes(w, steps[0].key, steps[0].now)) &&
     WellTimed(Next(w, steps[0]), steps[1..]))
  }

  /** However requests and edits interleave in a run so timed: a preview can be stale only
      while an edit of its message is being handled, and with all edits handled the cache is
      fresh. */
  lemma {:induction false} StaysFresh(w: World, steps: seq<Step>)
    requires CanRun(w, steps) && Right(w) && WellTimed(w, steps)
    ensures FreshButDue(Run(w, steps))
    ensures Run(w, steps).due == {} ==> Fresh(Run(w, steps))
    decreases |steps|
  {
    if steps != [] {
      StepRightIff(w, steps[0]);
      StaysFresh(Next(w, steps[0]), steps[1..]);
    }
  }

  /** One request or edit after another, and changes through handled edits only. */
  ghost predicate OneAtATime(steps: seq<Step>) {
    steps == [] ||
    (|steps| >= 2 && OneAtATime(steps[2..]) &&
     ((steps[0].Begin? && steps[1] == End(0)) || (steps[0].Learned? && steps[1] == Forgotten(steps[0].key))))
  }

  lemma {:induction false} OneAtATimeIsFresh(w: World, steps: seq<Step>)
    requires CanRun(w, steps) && Fresh(w) && w.building == [] && w.due == {} && OneAtATime(steps)
    ensures Fresh(Run(w, steps))
    decreases |steps|
  {
    if steps != [] {
      var w1 := Next(w, steps[0]);
      assert steps[1..][0] == steps[1] && steps[1..][1..] == steps[2..];
      var w2 := Next(w1, steps[1]);
      assert Fresh(w2) && w2.building == [] && w2.due == {};
      OneAtATimeIsFresh(w2, steps[2..]);
    }
  }

  /** Overtaken: an edit handled while a build is under way leaves the preview from before
      the edit in the cache. */
  lemma {:induction false} OvertakenBuildIsStale(key: Key, before: Preview, after: Preview)
    requires before != after
    ensures var w := World(map[], map[key := before], [], {});
            var steps := [Begin(key), Learned(key, after), Forgotten(key), End(0)];
            CanRun(w, steps) && Run(w, steps).entries == map[key := before] && Run(w, steps).due == {} &&
            Run(w, steps).truth == map[key := after]
  {
    var w := World(map[], map[key := before], [], {});
    var w1 := Next(w, Begin(key));
    assert w1.building == [(key, before)];
    var w2 := Next(w1, Learned(key, after));
    assert w2.due == {key};
    var w3 := Next(w2, Forgotten(key));
    assert w3 == World(map[], map[key := after], [(key, before)], {});
    RunOfMore(w2, Forgotten(key), [End(0)]);
    RunOfMore(w1, Learned(key, after), [Forgotten(key)] + [End(0)]);
    RunOfMore(w, Begin(key), [Learned(key, after)] + ([Forgotten(key)] + [End(0)]));
    assert [Begin(key), Learned(key, after), Forgotten(key), End(0)] ==
           [Begin(key)] + ([Learned(key, after)] + ([Forgotten(key)] + [End(0)]));
  }

  /** Too early: the handler forgets before the event cache has learnt the edit, and a request
      in between stores the old preview, which then stays. */
  lemma {:induction false} ForgottenTooEarlyIsStale(key: Key, before: Preview, after: Preview)
    requires before != after
    ensures var w := World(map[], map[key := before], [], {});
            var steps := [Forgotten(key), Begin(key), End(0), Changed(key, Some(after))];
            CanRun(w, steps) && Run(w, steps).entries == map[key := before] &&
            Run(w, steps).truth == map[key := after]
  {
    var w := World(map[], map[key := before], [], {});
    var late := Changed(key, Some(after));
    assert Next(w, Forgotten(key)) == w;
    var w2 := Next(w, Begin(key));
    assert w2.building == [(key, before)];
    var w3 := Next(w2, End(0));
    assert w3 == World(map[key := before], map[key := before], [], {});
    RunOfMore(w2, End(0), [late]);
    RunOfMore(w, Begin(key), [End(0)] + [late]);
    RunOfMore(w, Forgotten(key), [Begin(key)] + ([End(0)] + [late]));
    assert [Forgotten(key), Begin(key), End(0), late] == [Forgotten(key)] + ([Begin(key)] + ([End(0)] + [late]));
  }

  lemma {:induction false} RunOfMore(w: World, step: Step, steps: seq<Step>)
    requires Enabled(w, step) && CanRun(Next(w, step), steps)
    ensures CanRun(w, [step] + steps) && Run(w, [step] + steps) == Run(Next(w, step), steps)
  {
    assert ([step] + steps)[1..] == steps;
  }
}
