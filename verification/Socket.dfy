/** A connection from the bytes a client sends to the responses it gets. */
module Socket {
  import opened Bytes
  import opened Connection
  import opened Framing

  /** What the steps of a run read, in order. */
  function ReadIn(steps: seq<Step>): seq<Request> {
    if steps == [] then [] else (if steps[0].Read? then [steps[0].request] else []) + ReadIn(steps[1..])
  }

  lemma {:induction false} ReadsAre(s: State, steps: seq<Step>)
    requires CanRun(s, steps)
    ensures After(s, steps).read == s.read + ReadIn(steps)
    decreases |steps|
  {
    if steps == [] {
      assert s.read + [] == s.read;
    } else {
      ReadsAre(Next(s, steps[0]), steps[1..]);
      var rest := ReadIn(steps[1..]);
      if steps[0].Read? {
        assert s.read + [steps[0].request] + rest == s.read + ([steps[0].request] + rest);
      } else {
        assert [] + rest == rest;
      }
    }
  }

  /** The answers among some lines, as requests answered. */
  function Answered(lines: seq<Line>): seq<Request> {
    if lines == [] then []
    else
      var last := lines[|lines| - 1];
      Answered(lines[..|lines| - 1]) + if last.Answer? then [last.request] else []
  }

  /** The lines number `i` and above among the answers of `written`. */
  function CountFrom(written: seq<Line>, i: nat, n: nat): nat
    requires i <= n
    decreases n - i
  {
    if i == n then 0 else CountAnswer(written, i) + CountFrom(written, i + 1, n)
  }

  lemma {:induction false} CountFromSnoc(written: seq<Line>, l: Line, i: nat, n: nat)
    requires i <= n
    ensures CountFrom(written + [l], i, n) ==
            CountFrom(written, i, n) + if l.Answer? && i <= l.index < n then 1 else 0
    decreases n - i
  {
    if i < n {
      assert (written + [l])[..|written|] == written;
      CountFromSnoc(written, l, i + 1, n);
    }
  }

  /** Counted one by one, the answers are all there are. */
  lemma {:induction false} AnsweredCount(written: seq<Line>, n: nat)
    requires forall l :: l in written && l.Answer? ==> l.index < n
    ensures |Answered(written)| == CountFrom(written, 0, n)
  {
    if written == [] {
      NoneCounted(0, n);
    } else {
      var before, last := written[..|written| - 1], written[|written| - 1];
      assert written == before + [last];
      AnsweredCount(before, n);
      CountFromSnoc(before, last, 0, n);
    }
  }

  lemma {:induction false} NoneCounted(i: nat, n: nat)
    requires i <= n
    ensures CountFrom([], i, n) == 0
    decreases n - i
  {
    if i < n { NoneCounted(i + 1, n); }
  }

  lemma {:induction false} EachCountedOnce(written: seq<Line>, i: nat, n: nat)
    requires i <= n && forall k :: i <= k < n ==> CountAnswer(written, k) == 1
    ensures CountFrom(written, i, n) == n - i
    decreases n - i
  {
    if i < n { EachCountedOnce(written, i + 1, n); }
  }

  /** The i-th answer written is made for the line at `at[i]`, and nothing else is answered. */
  ghost predicate AnswersLines(written: seq<Line>, at: seq<nat>, lines: seq<seq<Byte>>) {
    |Answered(written)| == |at| &&
    (forall i: nat :: CountAnswer(written, i) == if i < |at| then 1 else 0) &&
    (forall l :: l in written && l.Answer? ==>
      l.index < |at| && at[l.index] < |lines| && l.request == lines[at[l.index]])
  }

  /** From bytes to responses: when the connection has returned after reading the whole input,
      without write and serialisation failures, the lines of the input that are not blank, in
      order, each have exactly one response written, which is made for that line, and nothing
      else is answered. */
  lemma {:induction false} EveryLineAnswered(input: seq<Byte>, blank: seq<Byte> -> bool, steps: seq<Step>)
    returns (at: seq<nat>)
    requires CanRun(START, steps) && After(START, steps).phase == Returned
    requires forall k :: 0 <= k < |steps| ==> !steps[k].Fail? && !steps[k].Break?
    requires AreNonBlank(ReadIn(steps), Lines(input), blank)
    ensures PicksNonBlank(at, ReadIn(steps), Lines(input), blank)
    ensures AnswersLines(After(START, steps).written, at, Lines(input))
  {
    var s, requests := After(START, steps), ReadIn(steps);
    at :| PicksNonBlank(at, requests, Lines(input), blank);
    EveryReadAnswered(steps);
    forall l | l in s.written && l.Answer? ensures l.request == Lines(input)[at[l.index]] {
      assert requests[l.index] == Lines(input)[at[l.index]];
    }
  }

  /** The same in terms of what was read. */
  lemma {:induction false} EveryReadAnswered(steps: seq<Step>)
    requires CanRun(START, steps) && After(START, steps).phase == Returned
    requires forall k :: 0 <= k < |steps| ==> !steps[k].Fail? && !steps[k].Break?
    ensures var s, requests := After(START, steps), ReadIn(steps);
            |Answered(s.written)| == |requests| &&
            (forall i: nat :: CountAnswer(s.written, i) == if i < |requests| then 1 else 0) &&
            (forall l :: l in s.written && l.Answer? ==> l.index < |requests| && l.request == requests[l.index])
  {
    var s, requests := After(START, steps), ReadIn(steps);
    ReadsAre(START, steps);
    assert START.read + ReadIn(steps) == requests;
    CleanRun(START, steps);
    AllAnswered(steps);
    EveryRequestAnswered(steps);
    ReachableInv(steps);
    assert Out(s) == s.written;
    forall i: nat ensures CountAnswer(s.written, i) == if i < |requests| then 1 else 0 {
      if i < |requests| {
        assert AnsweredOnce(s, i);
      } else {
        assert Places(s, i) == 0;
      }
    }
    AnsweredCount(s.written, |requests|);
    EachCountedOnce(s.written, 0, |requests|);
  }
}
