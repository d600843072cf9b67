/** How a connection's bytes become requests: one per line, blank lines skipped, ended by
    the end of the stream or by a line over the limit. */
module Framing {
  import opened Bytes
  import opened Sequences

  const NEWLINE: Byte := 10
  const MAX_REQUEST_BYTES := 1024 * 1024

  function Concat(pieces: seq<seq<Byte>>): seq<Byte> {
    if pieces == [] then [] else pieces[0] + Concat(pieces[1..])
  }

  /** The number of bytes up to and including the first newline, or all of them. */
  function LineEnd(input: seq<Byte>): (n: nat)
    ensures n <= |input| && (input != [] ==> n > 0)
    ensures forall i :: 0 <= i < n - 1 ==> input[i] != NEWLINE
    ensures n < |input| ==> n > 0 && input[n - 1] == NEWLINE
  {
    if input == [] then 0 else if input[0] == NEWLINE then 1 else 1 + LineEnd(input[1..])
  }

  /** What a read up to a newline delivers when at most `cap` bytes may be taken. */
  function ReadUntilNewline(input: seq<Byte>, cap: nat): seq<Byte> {
    input[..if LineEnd(input) < cap then LineEnd(input) else cap]
  }

  /** The newline-split pieces of a stream, each with its newline; the last may lack one. */
  function Pieces(input: seq<Byte>): seq<seq<Byte>>
    decreases |input|
  {
    if input == [] then [] else [input[..LineEnd(input)]] + Pieces(input[LineEnd(input)..])
  }

  /** A piece is not empty and has no newline but as its last byte. */
  ghost predicate IsPiece(p: seq<Byte>) {
    p != [] && forall i :: 0 <= i < |p| - 1 ==> p[i] != 10
  }

  /** The newline-split pieces, said without computing them. */
  ghost predicate SplitsAtNewlines(pieces: seq<seq<Byte>>, input: seq<Byte>) {
    Concat(pieces) == input &&
    (forall k :: 0 <= k < |pieces| ==> IsPiece(pieces[k])) &&
    forall k :: 0 <= k < |pieces| - 1 ==> pieces[k] != [] && pieces[k][|pieces[k]| - 1] == 10
  }

  lemma {:induction false} PiecesSplit(input: seq<Byte>)
    ensures SplitsAtNewlines(Pieces(input), input)
    decreases |input|
  {
    if input != [] {
      var n := LineEnd(input);
      PiecesSplit(input[n..]);
      var ps, rest := Pieces(input), Pieces(input[n..]);
      assert ps[1..] == rest;
      assert input == input[..n] + input[n..];
      forall k | 0 <= k < |ps| ensures IsPiece(ps[k]) {
        if k > 0 { assert ps[k] == rest[k - 1]; }
      }
      forall k | 0 <= k < |ps| - 1 ensures ps[k] != [] && ps[k][|ps[k]| - 1] == NEWLINE {
        if k > 0 { assert ps[k] == rest[k - 1]; }
        else { assert input[n..] != []; }
      }
    }
  }

  /** There is only one way to split. */
  lemma {:induction false} SplitUnique(pieces: seq<seq<Byte>>, input: seq<Byte>)
    requires SplitsAtNewlines(pieces, input)
    ensures pieces == Pieces(input)
  {
    if pieces != [] {
      var p, rest := pieces[0], pieces[1..];
      assert IsPiece(p);
      var after := Concat(rest);
      assert input == p + after && after == input[|p|..];
      forall k | 0 <= k < |rest| ensures IsPiece(rest[k]) { assert IsPiece(pieces[k + 1]); }
      forall k | 0 <= k < |rest| - 1 ensures rest[k] != [] && rest[k][|rest[k]| - 1] == NEWLINE {
        assert rest[k] == pieces[k + 1];
      }
      SplitUnique(rest, after);
      if |rest| == 0 {
        assert after == [];
      } else {
        assert pieces[0][|pieces[0]| - 1] == NEWLINE;
      }
      assert LineEnd(input) == |p| by { EndOfPiece(p, after); }
    }
  }

  lemma {:induction false} EndOfPiece(p: seq<Byte>, after: seq<Byte>)
    requires IsPiece(p) && (after == [] || p[|p| - 1] == NEWLINE)
    ensures LineEnd(p + after) == |p|
  {
    var input := p + after;
    assert forall i :: 0 <= i < |p| ==> input[i] == p[i];
  }

  /** The index of the first piece over the limit, or the number of pieces. */
  function FirstTooLong(pieces: seq<seq<Byte>>): (k: nat)
    ensures k <= |pieces|
    ensures forall i :: 0 <= i < k ==> |pieces[i]| <= 1_048_576
    ensures k < |pieces| ==> |pieces[k]| > 1_048_576
  {
    if pieces == [] || |pieces[0]| > MAX_REQUEST_BYTES then 0 else 1 + FirstTooLong(pieces[1..])
  }

  /** The lines of a client's input: its pieces before the first that is too long. */
  function Lines(input: seq<Byte>): seq<seq<Byte>> {
    Pieces(input)[..FirstTooLong(Pieces(input))]
  }

  /** The lines are the newline-split pieces of the input, up to its end or to a piece of more
      than a mebibyte. */
  lemma {:induction false} LinesMeaning(input: seq<Byte>)
    ensures var lines := Lines(input);
            && SplitsAtNewlines(lines, Concat(lines)) && Concat(lines) <= input
            && (forall l :: l in lines ==> |l| <= 1_048_576)
            && (Concat(lines) != input ==> LineEnd(input[|Concat(lines)|..]) > 1_048_576)
  {
    var ps := Pieces(input);
    var k := FirstTooLong(ps);
    PiecesSplit(input);
    SplitPrefix(ps, k, input);
    if k < |ps| {
      SplitRest(ps, k, input);
    } else {
      assert ps[..k] == ps;
    }
  }

  lemma {:induction false} SplitPrefix(ps: seq<seq<Byte>>, k: nat, input: seq<Byte>)
    requires SplitsAtNewlines(ps, input) && k <= |ps|
    ensures SplitsAtNewlines(ps[..k], Concat(ps[..k])) && Concat(ps[..k]) + Concat(ps[k..]) == input
  {
    assert ps == ps[..k] + ps[k..];
    ConcatJoin(ps[..k], ps[k..]);
    forall i | 0 <= i < k ensures IsPiece(ps[..k][i]) { assert IsPiece(ps[i]); }
  }

  lemma {:induction false} SplitRest(ps: seq<seq<Byte>>, k: nat, input: seq<Byte>)
    requires SplitsAtNewlines(ps, input) && k < |ps| && Concat(ps[..k]) + Concat(ps[k..]) == input
    ensures LineEnd(input[|Concat(ps[..k])|..]) == |ps[k]|
  {
    var rest, after := ps[k..], ps[k + 1..];
    assert rest[0] == ps[k] && rest[1..] == after && IsPiece(ps[k]);
    assert input[|Concat(ps[..k])|..] == ps[k] + Concat(after);
    if k == |ps| - 1 { assert after == []; }
    EndOfPiece(ps[k], Concat(after));
  }

  lemma {:induction false} ConcatJoin(a: seq<seq<Byte>>, b: seq<seq<Byte>>)
    ensures Concat(a + b) == Concat(a) + Concat(b)
  {
    if a == [] {
      assert a + b == b;
    } else {
      assert (a + b)[1..] == a[1..] + b;
      ConcatJoin(a[1..], b);
      Regroup(a[0], Concat(a[1..]), Concat(b));
    }
  }

  function Requests(pieces: seq<seq<Byte>>, blank: seq<Byte> -> bool): seq<seq<Byte>> {
    if pieces == [] then []
    else Requests(pieces[..|pieces| - 1], blank) +
         (if blank(pieces[|pieces| - 1]) then [] else [pieces[|pieces| - 1]])
  }

  /** The lines at `at`, in order, are exactly those that are not blank. */
  ghost predicate PicksNonBlank(at: seq<nat>, requests: seq<seq<Byte>>, lines: seq<seq<Byte>>, blank: seq<Byte> -> bool)
  {
    |at| == |requests| &&
    (forall i :: 0 <= i < |at| ==> at[i] < |lines| && requests[i] == lines[at[i]] && !blank(lines[at[i]])) &&
    (forall i, j :: 0 <= i < j < |at| ==> at[i] < at[j]) &&
    (forall k :: 0 <= k < |lines| && !blank(lines[k]) ==> k in at)
  }

  /** The requests are the lines that are not blank, each once and in order. */
  ghost predicate AreNonBlank(requests: seq<seq<Byte>>, lines: seq<seq<Byte>>, blank: seq<Byte> -> bool) {
    exists at: seq<nat> :: PicksNonBlank(at, requests, lines, blank)
  }

  lemma {:induction false} RequestsAreNonBlank(lines: seq<seq<Byte>>, blank: seq<Byte> -> bool) returns (at: seq<nat>)
    ensures PicksNonBlank(at, Requests(lines, blank), lines, blank)
  {
    if lines == [] {
      at := [];
    } else {
      var init, line := lines[..|lines| - 1], lines[|lines| - 1];
      var before := RequestsAreNonBlank(init, blank);
      PickGrows(before, Requests(init, blank), init, line, blank);
      assert init + [line] == lines && Requests(init, blank) + [] == Requests(init, blank);
      at := if blank(line) then before else before + [|init|];
    }
  }

  lemma {:induction false} PickGrows(at: seq<nat>, requests: seq<seq<Byte>>, lines: seq<seq<Byte>>, line: seq<Byte>,
                                     blank: seq<Byte> -> bool)
    requires PicksNonBlank(at, requests, lines, blank)
    ensures if blank(line) then PicksNonBlank(at, requests, lines + [line], blank)
            else PicksNonBlank(at + [|lines|], requests + [line], lines + [line], blank)
  {
    var all := lines + [line];
    forall k | 0 <= k < |all| && !blank(all[k]) ensures k in at || k == |lines| {
      if k < |lines| { assert all[k] == lines[k]; }
    }
    if !blank(line) { assert (at + [|lines|])[|at|] == |lines|; }
  }

  lemma {:induction false} ConcatSnoc(pieces: seq<seq<Byte>>, p: seq<Byte>)
    ensures Concat(pieces + [p]) == Concat(pieces) + p
  {
    if pieces == [] {
      assert [p][1..] == [];
    } else {
      assert (pieces + [p])[1..] == pieces[1..] + [p];
      ConcatSnoc(pieces[1..], p);
    }
  }

  /** The reading loop over everything a client sends. `blank` says which lines are blank
      once decoded and trimmed. */
  method ReadRequests(input: seq<Byte>, blank: seq<Byte> -> bool)
    returns (requests: seq<seq<Byte>>, unread: seq<Byte>, tooLong: bool)
    ensures var ps := Pieces(input);
            var k := FirstTooLong(ps);
            && requests == Requests(ps[..k], blank)
            && (tooLong <==> k < |ps|)
            && (!tooLong ==> unread == [])
            && (tooLong ==> Concat(ps[..k]) + ps[k][..MAX_REQUEST_BYTES + 1] + unread == input)
    ensures AreRequests(requests, input, blank)
  {
    requests, unread, tooLong := [], input, false;
    ghost var read := [];
    assert Pieces(input) == read + Pieces(input);
    while true
      invariant InProgress(input, read, unread)
      invariant requests == Requests(read, blank) && !tooLong
      decreases |unread|
    {
      var line := ReadUntilNewline(unread, MAX_REQUEST_BYTES + 1);
      ghost var before := unread;
      unread := unread[|line|..];
      if |line| == 0 {
        break;
      }
      if |line| > MAX_REQUEST_BYTES {
        LongRead(input, read, before);
        tooLong := true;
        break;
      }
      PieceRead(input, read, before);
      assert (read + [line])[..|read|] == read;
      read := read + [line];
      if blank(line) { continue; }
      requests := requests + [line];
    }
    RequestsMeaning(input, blank, requests);
  }

  /** The requests are the non-blank lines before the first that is over a mebibyte. */
  ghost predicate AreRequests(requests: seq<seq<Byte>>, input: seq<Byte>, blank: seq<Byte> -> bool) {
    AreNonBlank(requests, Lines(input), blank) &&
    forall r :: r in requests ==> 0 < |r| <= 1_048_576
  }

  lemma {:induction false} RequestsMeaning(input: seq<Byte>, blank: seq<Byte> -> bool, requests: seq<seq<Byte>>)
    requires requests == Requests(Pieces(input)[..FirstTooLong(Pieces(input))], blank)
    ensures AreRequests(requests, input, blank)
  {
    var ps := Pieces(input);
    var k := FirstTooLong(ps);
    var at := RequestsAreNonBlank(ps[..k], blank);
    PiecesSplit(input);
    forall r | r in requests ensures 0 < |r| <= 1_048_576 {
      var i :| 0 <= i < |requests| && requests[i] == r;
      assert ps[at[i]] == r && IsPiece(ps[at[i]]);
    }
  }

  /** The lines in `read` are the stream's first pieces, none too long, and `unread` is
      what follows them. */
  ghost predicate InProgress(input: seq<Byte>, read: seq<seq<Byte>>, unread: seq<Byte>) {
    Pieces(input) == read + Pieces(unread) && Concat(read) + unread == input &&
    forall i :: 0 <= i < |read| ==> |read[i]| <= MAX_REQUEST_BYTES
  }

  /** A read over the limit has met the first piece that is too long. */
  lemma {:induction false} LongRead(input: seq<Byte>, read: seq<seq<Byte>>, before: seq<Byte>)
    requires InProgress(input, read, before) && LineEnd(before) > MAX_REQUEST_BYTES
    ensures var ps := Pieces(input);
            var cap := MAX_REQUEST_BYTES + 1;
            |read| < |ps| && FirstTooLong(ps) == |read| && ps[..|read|] == read &&
            Concat(read) + ps[|read|][..cap] + before[cap..] == input
  {
    var ps, cap := Pieces(input), MAX_REQUEST_BYTES + 1;
    var piece, head, unread := before[..LineEnd(before)], before[..cap], before[cap..];
    assert ps[|read|] == piece;
    assert piece[..cap] == head;
    assert head + unread == before;
    Regroup(Concat(read), head, unread);
  }

  /** Any other read delivers the next piece. */
  lemma {:induction false} PieceRead(input: seq<Byte>, read: seq<seq<Byte>>, before: seq<Byte>)
    requires InProgress(input, read, before) && 0 < LineEnd(before) <= MAX_REQUEST_BYTES
    ensures InProgress(input, read + [before[..LineEnd(before)]], before[LineEnd(before)..])
  {
    var n := LineEnd(before);
    var piece, unread := before[..n], before[n..];
    assert before == piece + unread;
    ConcatSnoc(read, piece);
    Regroup(Concat(read), piece, unread);
    Regroup(read, [piece], Pieces(unread));
  }
}
