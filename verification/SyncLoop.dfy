/** The sync loop: retrying until the first sync succeeds, then backing off on failures,
    and what status and session file show meanwhile. */
module SyncLoop {
  import opened Options

  /** How one sync request went; `written`: the session file took the token. */
  datatype Outcome = Synced(nextBatch: string, written: bool) | Lost(why: string)

  const MAX_WAIT := 60

  function Capped(n: nat): nat { if n <= MAX_WAIT then n else MAX_WAIT }

  function Pow2(n: nat): (p: nat)
    ensures p >= 1
  {
    if n == 0 then 1 else 2 * Pow2(n - 1)
  }

  // ---------- what a history of outcomes amounts to ----------

  /** Whether any sync has succeeded. */
  ghost predicate Started(o: seq<Outcome>) {
    exists k :: 0 <= k < |o| && o[k].Synced?
  }

  /** Failures since the last success, or since the beginning. */
  function Failures(o: seq<Outcome>): nat {
    if o == [] || o[|o| - 1].Synced? then 0 else Failures(o[..|o| - 1]) + 1
  }

  /** The wait after the `n`th failure in a row: 2, 4, 8 … seconds before the first success,
      and 4, 8, 16 … after it. */
  function WaitAfter(started: bool, n: nat): nat {
    Capped(Pow2(if started then n + 1 else n))
  }

  ghost function Waits(o: seq<Outcome>): seq<nat> {
    if o == [] then []
    else if o[|o| - 1].Synced? then Waits(o[..|o| - 1])
    else Waits(o[..|o| - 1]) + [WaitAfter(Started(o), Failures(o))]
  }

  ghost function ErrorShown(o: seq<Outcome>): Option<string> {
    if Failures(o) == 0 then None
    else if Started(o) then Some("Reconnecting… (" + o[|o| - 1].why + ")")
    else Some("sync: " + o[|o| - 1].why)
  }

  /** The token of the latest successful sync whose token was written. */
  function Token(o: seq<Outcome>, before: Option<string>): Option<string> {
    if o == [] then before
    else
      var last := o[|o| - 1];
      if last.Synced? && last.written then Some(last.nextBatch) else Token(o[..|o| - 1], before)
  }

  class Status {
    var syncing: bool
    var error: Option<string>
    var token: Option<string>
    var slept: seq<nat>

    constructor (saved: Option<string>)
      ensures !syncing && error == None && token == saved && slept == []
    {
      syncing, error, token, slept := false, None, saved, [];
    }

    method SetSyncing(on: bool)
      modifies this`syncing, this`error
      ensures syncing == on && error == if on then None else old(error)
    {
      syncing := on;
      if on { error := None; }
    }

    /** Runs through the outcomes of the requests the loop makes. At every callback boundary
        the status says whether we are connected: `syncing` holds exactly when a sync has
        succeeded and none has failed since, and an error is shown exactly while failing. */
    method Run(outcomes: seq<Outcome>)
      requires !syncing && error == None && slept == []
      modifies this
      ensures syncing <==> Started(outcomes) && Failures(outcomes) == 0
      ensures error == ErrorShown(outcomes)
      ensures token == Token(outcomes, old(token))
      ensures slept == Waits(outcomes)
    {
      ghost var before := token;
      var i := FirstSync(outcomes);
      if i == |outcomes| && !syncing {
        assert outcomes[..i] == outcomes;
        return;
      }
      var failures: nat := 0;
      while i < |outcomes|
        invariant 0 < i <= |outcomes| && Started(outcomes[..i])
        invariant failures == Failures(outcomes[..i])
        invariant syncing <==> failures == 0
        invariant error == ErrorShown(outcomes[..i])
        invariant token == Token(outcomes[..i], before)
        invariant slept == Waits(outcomes[..i])
      {
        OneMore(outcomes, i);
        match outcomes[i] {
          case Synced(next, written) =>
            if failures > 0 {
              SetSyncing(true);
            }
            failures := 0;
            if written { token := Some(next); }
          case Lost(why) =>
            failures := failures + 1;
            var wait := Shifted(failures);
            ShiftIsPower(failures);
            if failures == 1 {
              SetSyncing(false);
            }
            error := Some("Reconnecting… (" + why + ")");
            slept := slept + [wait];
        }
        i := i + 1;
      }
      assert outcomes[..i] == outcomes;
    }

    /** Until the first success. Returns how many outcomes it used up. */
    method FirstSync(outcomes: seq<Outcome>) returns (i: nat)
      requires !syncing && error == None && slept == []
      modifies this
      ensures i <= |outcomes| && (syncing ==> i > 0 && Failures(outcomes[..i]) == 0)
      ensures syncing <==> Started(outcomes[..i])
      ensures !syncing ==> i == |outcomes|
      ensures error == ErrorShown(outcomes[..i])
      ensures token == Token(outcomes[..i], old(token))
      ensures slept == Waits(outcomes[..i])
    {
      ghost var before := token;
      var backoff := 2;
      i := 0;
      while i < |outcomes|
        invariant 0 <= i <= |outcomes| && !syncing && !Started(outcomes[..i]) && Failures(outcomes[..i]) == i
        invariant backoff == Capped(Pow2(i + 1))
        invariant error == ErrorShown(outcomes[..i])
        invariant token == Token(outcomes[..i], before)
        invariant slept == Waits(outcomes[..i])
      {
        OneMore(outcomes, i);
        match outcomes[i] {
          case Synced(next, written) =>
            if written { token := Some(next); }
            SetSyncing(true);
            i := i + 1;
            return;
          case Lost(why) =>
            error := Some("sync: " + why);
            slept := slept + [backoff];
            backoff := Capped(backoff * 2);
            i := i + 1;
        }
      }
    }
  }

  /** The shift the code computes: no further than five places. */
  function Shifted(n: nat): nat {
    Capped(2 * Pow2(if n <= 5 then n else 5))
  }

  lemma {:induction false} OneMore(o: seq<Outcome>, i: nat)
    requires i < |o|
    ensures o[..i + 1][..i] == o[..i] && o[..i + 1][i] == o[i]
    ensures Started(o[..i + 1]) <==> Started(o[..i]) || o[i].Synced?
  {
    var p, q := o[..i], o[..i + 1];
    if Started(p) {
      var k :| 0 <= k < |p| && p[k].Synced?;
      assert q[k].Synced?;
    }
    if o[i].Synced? { assert q[i].Synced?; }
    if Started(q) {
      var k :| 0 <= k < |q| && q[k].Synced?;
      assert k < i ==> p[k].Synced?;
    }
  }

  lemma {:induction false} Pow2Grows(n: nat, m: nat)
    requires n <= m
    ensures Pow2(n) <= Pow2(m)
  {
    if n < m { Pow2Grows(n, m - 1); }
  }

  lemma {:induction false} ShiftIsPower(n: nat)
    ensures Shifted(n) == WaitAfter(true, n)
  {
    if n > 5 {
      assert Pow2(6) == 64 by { assert Pow2(2) == 4 && Pow2(4) == 16; }
      assert 2 * Pow2(5) == Pow2(6);
      Pow2Grows(6, n + 1);
    }
  }

  // ---------- how long it waits ----------

  /** Waits are between two and sixty seconds, never shrink while an outage lasts, and after
      the first success an outage starts at four. */
  lemma {:induction false} WaitBounds(started: bool, n: nat)
    requires n >= 1
    ensures (if started then 4 else 2) <= WaitAfter(started, n) <= 60
    ensures WaitAfter(started, n) <= WaitAfter(started, n + 1)
    ensures WaitAfter(started, n + 1) == Capped(2 * WaitAfter(started, n))
    ensures n >= 6 ==> WaitAfter(started, n) == 60
  {
    Pow2Grows(1, n);
    Pow2Grows(2, n + 1);
    if n >= 6 {
      Pow2Grows(6, n);
      Pow2Grows(6, n + 1);
      assert Pow2(6) == 64 by { assert Pow2(2) == 4 && Pow2(4) == 16; }
    }
  }

  /** The first wait of an outage is two seconds if and only if no sync has succeeded yet, and
      else four. */
  lemma {:induction false} FirstWaitIff(started: bool)
    ensures WaitAfter(started, 1) == 2 <==> !started
    ensures WaitAfter(started, 1) == 4 <==> started
  {
    assert Pow2(2) == 2 * Pow2(1) && Pow2(1) == 2 * Pow2(0);
  }

  lemma {:induction false} AllWaits(o: seq<Outcome>)
    ensures forall k :: 0 <= k < |Waits(o)| ==> 2 <= Waits(o)[k] <= 60
    ensures |Waits(o)| == |Failed(o)|
  {
    if o != [] {
      AllWaits(o[..|o| - 1]);
      if o[|o| - 1].Lost? { WaitBounds(Started(o), Failures(o)); }
    }
  }

  function Failed(o: seq<Outcome>): seq<Outcome> {
    if o == [] then [] else Failed(o[..|o| - 1]) + (if o[|o| - 1].Lost? then [o[|o| - 1]] else [])
  }

  // ---------- what status shows ----------

  /** The failures counted are those at the end, back to the last success. */
  lemma {:induction false} FailuresMeaning(o: seq<Outcome>)
    ensures Failures(o) <= |o| && forall k :: |o| - Failures(o) <= k < |o| ==> o[k].Lost?
    ensures Failures(o) < |o| ==> o[|o| - Failures(o) - 1].Synced?
  {
    if o != [] && o[|o| - 1].Lost? { FailuresMeaning(o[..|o| - 1]); }
  }

  /** An error is shown exactly when the last request failed; it gives that request's reason,
      and says whether a sync has ever succeeded. */
  lemma {:induction false} ErrorMeaning(o: seq<Outcome>)
    ensures ErrorShown(o).Some? <==> o != [] && o[|o| - 1].Lost?
    ensures ErrorShown(o).Some? ==>
              ErrorShown(o).value ==
              if exists k :: 0 <= k < |o| && o[k].Synced? then "Reconnecting… (" + o[|o| - 1].why + ")"
              else "sync: " + o[|o| - 1].why
  {
    FailuresMeaning(o);
  }

  /** Success `k` wrote its token and none after it did. */
  ghost predicate IsLastWritten(o: seq<Outcome>, k: int) {
    0 <= k < |o| && o[k].Synced? && o[k].written &&
    forall j :: k < j < |o| && o[j].Synced? ==> !o[j].written
  }

  lemma {:induction false} TokenMeaning(o: seq<Outcome>, before: Option<string>)
    ensures (exists k :: IsLastWritten(o, k) && Token(o, before) == Some(o[k].nextBatch)) ||
            (Token(o, before) == before && forall j :: 0 <= j < |o| && o[j].Synced? ==> !o[j].written)
  {
    if o != [] {
      var n := |o| - 1;
      if o[n].Synced? && o[n].written {
        assert IsLastWritten(o, n);
      } else {
        TokenMeaning(o[..n], before);
        if k :| IsLastWritten(o[..n], k) && Token(o[..n], before) == Some(o[..n][k].nextBatch) {
          assert IsLastWritten(o, k);
        } else {
          assert forall j :: 0 <= j < n ==> o[..n][j] == o[j];
        }
      }
    }
  }

  // ---------- one wait after another ----------

  /** The wait a failed request is followed by comes behind those of the failures before it. */
  lemma {:induction false} WaitOf(o: seq<Outcome>, i: nat)
    requires i < |o| && o[i].Lost?
    ensures |Failed(o[..i])| < |Waits(o)|
    ensures Waits(o)[|Failed(o[..i])|] == WaitAfter(Started(o[..i + 1]), Failures(o[..i + 1]))
    decreases |o|
  {
    var n := |o| - 1;
    AllWaits(o[..n]);
    if i == n {
      assert o[..i + 1] == o;
    } else {
      assert o[..n][..i] == o[..i] && o[..n][..i + 1] == o[..i + 1];
      WaitOf(o[..n], i);
    }
  }

  /** The first wait of an outage is two seconds before any success and four after it. */
  lemma {:induction false} OutageStarts(o: seq<Outcome>, i: nat)
    requires i < |o| && o[i].Lost? && (i > 0 ==> o[i - 1].Synced?)
    ensures |Failed(o[..i])| < |Waits(o)| && Waits(o)[|Failed(o[..i])|] == if i > 0 then 4 else 2
  {
    WaitOf(o, i);
    OneMore(o, i);
    assert Failures(o[..i + 1]) == 1;
    if i > 0 { assert o[..i][i - 1].Synced?; }
    FirstWaitIff(Started(o[..i + 1]));
  }

  /** Within an outage each wait is twice the one before it, but no more than a minute. */
  lemma {:induction false} OutageDoubles(o: seq<Outcome>, i: nat)
    requires i + 1 < |o| && o[i].Lost? && o[i + 1].Lost?
    ensures var n := |Failed(o[..i])|;
            n + 1 < |Waits(o)| &&
            Waits(o)[n + 1] == if 2 * Waits(o)[n] <= 60 then 2 * Waits(o)[n] else 60
  {
    WaitOf(o, i);
    WaitOf(o, i + 1);
    OneMore(o, i);
    OneMore(o, i + 1);
    var started, failures := Started(o[..i + 1]), Failures(o[..i + 1]);
    assert Failures(o[..i + 2]) == failures + 1 && failures >= 1;
    WaitBounds(started, failures);
  }

  /** One success ends an outage of any length: status, error and counter are as if nothing
      had failed. */
  lemma {:induction false} RecoversAtOnce(o: seq<Outcome>, next: string, why: string)
    ensures var r := o + [Synced(next, true)];
            Started(r) && Failures(r) == 0 && ErrorShown(r) == None &&
            (forall before :: Token(r, before) == Some(next)) &&
            Waits(r) == Waits(o) && Waits(r + [Lost(why)]) == Waits(o) + [4]
  {
    var r := o + [Synced(next, true)];
    assert r[|r| - 1].Synced? && r[..|r| - 1] == o;
    var f := r + [Lost(why)];
    assert f[..|f| - 1] == r && f[|r| - 1].Synced?;
    assert Failures(f) == 1 && Pow2(2) == 4;
  }
}
