/** Stripping the quoted fallback off a reply's body. */
module ReplyText {

  // ---------- lines of text ----------

  function FirstNewline(s: string): (n: nat)
    ensures n <= |s| && (n < |s| ==> s[n] == '\n')
    ensures forall k :: 0 <= k < n ==> s[k] != '\n'
  {
    if s == "" || s[0] == '\n' then 0 else 1 + FirstNewline(s[1..])
  }

  /** A carriage return before the newline belongs to the line ending. */
  function Chomp(line: string): string {
    if line != "" && line[|line| - 1] == '\r' then line[..|line| - 1] else line
  }

  /** The lines of a text: no empty last line after a final newline, and a carriage return
      that no newline follows stays. */
  function Lines(s: string): seq<string>
    decreases |s|
  {
    var n := FirstNewline(s);
    if s == "" then [] else if n == |s| then [s] else [Chomp(s[..n])] + Lines(s[n + 1..])
  }

  function Join(lines: seq<string>): string {
    if lines == [] then "" else if |lines| == 1 then lines[0] else lines[0] + "\n" + Join(lines[1..])
  }

  // ---------- stripping ----------

  const QUOTE := "> "

  function AfterBlank(lines: seq<string>): seq<string> {
    if lines == [] then [] else if lines[0] == "" then lines[1..] else AfterBlank(lines[1..])
  }

  function Strip(body: string): string {
    if !(QUOTE <= body) then body
    else
      var rest := AfterBlank(Lines(body));
      if rest == [] then body else Join(rest)
  }

  method StripReplyFallback(body: string) returns (text: string)
    ensures text == Strip(body)
  {
    if !(QUOTE <= body) { return body; }
    var lines := Lines(body);
    var next := 0;
    var blank := false;
    while next < |lines| && !blank
      invariant 0 <= next <= |lines|
      invariant AfterBlank(lines) == if blank then lines[next..] else AfterBlank(lines[next..])
      decreases |lines| - next
    {
      blank := lines[next] == "";
      next := next + 1;
    }
    var rest := lines[next..];
    if rest == [] { return body; }
    text := Join(rest);
  }

  /** A body that does not start as a quote stays as it is. */
  lemma {:induction false} UnquotedStays(body: string)
    requires !("> " <= body)
    ensures Strip(body) == body
  {
  }

  /** What is kept begins behind the first empty line. */
  lemma {:induction false} AfterBlankMeaning(lines: seq<string>, k: nat)
    requires k <= |lines| && forall i :: 0 <= i < k ==> lines[i] != ""
    ensures k < |lines| && lines[k] == "" ==> AfterBlank(lines) == lines[k + 1..]
    ensures k == |lines| ==> AfterBlank(lines) == []
  {
    if k > 0 { AfterBlankMeaning(lines[1..], k - 1); }
  }

  /** A quote that nothing follows stays whole. */
  lemma {:induction false} QuoteAloneStays(body: string)
    requires "" in Lines(body) ==> "" !in Lines(body)[..|Lines(body)| - 1]
    ensures Strip(body) == body
  {
    var lines := Lines(body);
    if "" !in lines {
      AfterBlankMeaning(lines, |lines|);
    } else {
      var n := |lines| - 1;
      assert forall i :: 0 <= i < n ==> lines[i] in lines[..n];
      AfterBlankMeaning(lines, n);
    }
  }

  /** One carriage return goes with the line ending, and no more than one. */
  lemma {:induction false} ChompsOne(line: string)
    ensures Chomp(line + "\r") == line
    ensures line != "" && line[|line| - 1] != '\r' ==> Chomp(line) == line
  {
    assert (line + "\r")[..|line|] == line;
  }

  // ---------- stripping undoes rendering ----------

  function Quoted(quotes: seq<string>): string {
    if quotes == [] then "" else QUOTE + quotes[0] + "\n" + Quoted(quotes[1..])
  }

  /** The fallback as clients write it: quote lines, a blank line, the reply. */
  function Render(quotes: seq<string>, reply: string): string {
    Quoted(quotes) + "\n" + reply
  }

  ghost predicate OneLine(s: string) { '\n' !in s }

  /** No newline at the end and none after a carriage return. */
  ghost predicate Plain(s: string) {
    (s != "" ==> s[|s| - 1] != '\n') && forall k :: 0 <= k < |s| - 1 ==> !(s[k] == '\r' && s[k + 1] == '\n')
  }

  lemma {:induction false} LinesCons(line: string, rest: string)
    requires OneLine(line)
    ensures Lines(line + "\n" + rest) == [Chomp(line)] + Lines(rest)
  {
    var s := line + "\n" + rest;
    assert s[|line|] == '\n' && forall k :: 0 <= k < |line| ==> s[k] == line[k];
    assert FirstNewline(s) == |line|;
    assert s[..|line|] == line && s[|line| + 1..] == rest;
  }

  /** Joining the lines of a text gives it back exactly when it is plain, and is shorter
      otherwise. */
  lemma {:induction false} JoinLinesIff(s: string)
    ensures Plain(s) ==> Join(Lines(s)) == s
    ensures !Plain(s) ==> |Join(Lines(s))| < |s|
    decreases |s|
  {
    var n := FirstNewline(s);
    if n < |s| {
      var line, rest := s[..n], s[n + 1..];
      assert s == line + "\n" + rest;
      JoinLinesIff(rest);
      PlainCons(line, rest);
      if rest != "" {
        assert Lines(rest) != [];
        assert Join(Lines(s)) == Chomp(line) + "\n" + Join(Lines(rest));
      }
    } else if s != "" {
      assert Lines(s) == [s];
    }
  }

  lemma {:induction false} PlainCons(line: string, rest: string)
    requires OneLine(line)
    ensures Plain(line + "\n" + rest) <==> rest != "" && Chomp(line) == line && Plain(rest)
  {
    if Plain(line + "\n" + rest) { PlainParts(line, rest); }
  }

  lemma {:induction false} PlainParts(line: string, rest: string)
    requires Plain(line + "\n" + rest)
    ensures rest != "" && Chomp(line) == line && Plain(rest)
  {
    var s, n := line + "\n" + rest, |line|;
    assert forall k :: 0 <= k < |rest| ==> s[n + 1 + k] == rest[k];
    assert rest != "";
    if n > 0 {
      var k: nat := n - 1;
      assert s[k + 1] == '\n' && s[k] == line[k];
    }
    forall k | 0 <= k < |rest| - 1 ensures !(rest[k] == '\r' && rest[k + 1] == '\n') {
      assert !(s[n + 1 + k] == '\r' && s[n + 1 + k + 1] == '\n');
    }
  }

  lemma {:induction false} AfterQuotes(quotes: seq<string>, reply: string)
    requires forall k :: 0 <= k < |quotes| ==> OneLine(quotes[k])
    ensures AfterBlank(Lines(Render(quotes, reply))) == Lines(reply)
  {
    if quotes == [] {
      assert Render(quotes, reply) == "" + "\n" + reply;
      LinesCons("", reply);
    } else {
      var line, rest := QUOTE + quotes[0], Render(quotes[1..], reply);
      assert Render(quotes, reply) == line + "\n" + rest;
      LinesCons(line, rest);
      assert Chomp(line)[0] == '>';
      AfterQuotes(quotes[1..], reply);
    }
  }

  function Block(lines: seq<string>): string {
    if lines == [] then "" else lines[0] + "\n" + Block(lines[1..])
  }

  lemma {:induction false} AfterLines(lines: seq<string>, reply: string)
    requires forall k :: 0 <= k < |lines| ==> OneLine(lines[k]) && Chomp(lines[k]) != ""
    ensures AfterBlank(Lines(Block(lines) + "\n" + reply)) == Lines(reply)
  {
    if lines == [] {
      assert Block(lines) + "\n" + reply == "" + "\n" + reply;
      LinesCons("", reply);
    } else {
      var rest := Block(lines[1..]) + "\n" + reply;
      assert Block(lines) + "\n" + reply == lines[0] + "\n" + rest;
      LinesCons(lines[0], rest);
      AfterLines(lines[1..], reply);
    }
  }

  /** Only the first line need be a quote: whatever lines follow it up to the first empty one
      are dropped. */
  lemma {:induction false} BlockIsDropped(lines: seq<string>, reply: string)
    requires lines != [] && "> " <= lines[0]
    requires forall k :: 0 <= k < |lines| ==> OneLine(lines[k]) && Chomp(lines[k]) != ""
    ensures Strip(Block(lines) + "\n" + reply) ==
            if reply == "" then Block(lines) + "\n" else Join(Lines(reply))
  {
    assert "> " <= Block(lines) + "\n" + reply;
    AfterLines(lines, reply);
  }

  /** Stripping a rendered fallback gives the reply back exactly when the reply is not empty
      and plain. */
  lemma {:induction false} StripUndoesRenderIff(quotes: seq<string>, reply: string)
    requires quotes != [] && forall k :: 0 <= k < |quotes| ==> OneLine(quotes[k])
    ensures Strip(Render(quotes, reply)) == reply <==> reply != "" && Plain(reply)
  {
    var body := Render(quotes, reply);
    assert QUOTE <= body;
    AfterQuotes(quotes, reply);
    JoinLinesIff(reply);
  }

  lemma {:induction false} StripRendered(quotes: seq<string>, reply: string)
    requires quotes != [] && forall k :: 0 <= k < |quotes| ==> OneLine(quotes[k])
    ensures Strip(Render(quotes, reply)) == if reply == "" then Render(quotes, reply) else Join(Lines(reply))
  {
    assert QUOTE <= Render(quotes, reply);
    AfterQuotes(quotes, reply);
  }

  /** Three replies that do not come back: one that ends with a newline, one with a carriage
      return before a newline, and an empty one, for which the whole body stays. */
  lemma {:induction false} RepliesLost(quotes: seq<string>)
    requires quotes != [] && forall k :: 0 <= k < |quotes| ==> OneLine(quotes[k])
    ensures Strip(Render(quotes, "a\n")) == "a"
    ensures Strip(Render(quotes, "a\r\nb")) == "a\nb"
    ensures Strip(Render(quotes, "")) == Render(quotes, "")
  {
    StripRendered(quotes, "a\n");
    StripRendered(quotes, "a\r\nb");
    StripRendered(quotes, "");
  }
}
