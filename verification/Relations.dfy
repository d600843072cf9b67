/** Reactions and edits relating to a message: how the daemon reads them from the
    cache's relation index, and how it groups the reactions it shows. */
module Relations {
  import opened Options
  import opened Events

  const MAX_REACTION_KEY := 64

  datatype RawReaction = RawReaction(key: string, sender: string, id: EventId)

  datatype Edit = Edit(ts: nat, body: string, html: Option<string>)

  /** An event from the relation index: a reaction, a replacement, or anything else. */
  datatype Related =
    | Annotates(reaction: RawReaction)
    | Replaces(sender: string, edit: Edit)
    | Unrelated

  datatype Sender = Sender(id: string, name: string, reactionId: EventId)

  datatype Reaction = Reaction(key: string, count: nat, senders: seq<Sender>, mine: Option<EventId>)

  // ---------- reading the relation index ----------

  function Shortened(r: RawReaction): (short: RawReaction)
    ensures short.sender == r.sender && short.id == r.id
    ensures short.key <= r.key && |short.key| == if |r.key| <= 64 then |r.key| else 64
  {
    r.(key := if |r.key| <= MAX_REACTION_KEY then r.key else r.key[..MAX_REACTION_KEY])
  }

  predicate IsBy(r: Related, author: Option<string>) {
    r.Replaces? && author == Some(r.sender)
  }

  /** Related event `i` is an edit by whoever wrote the original. */
  ghost predicate IsOwnEdit(related: seq<Related>, author: Option<string>, i: int) {
    0 <= i < |related| && IsBy(related[i], author)
  }

  /** The last of the author's edits that carry the greatest timestamp. */
  ghost predicate IsNewestAt(related: seq<Related>, author: Option<string>, i: int) {
    IsOwnEdit(related, author, i) &&
    forall j :: IsOwnEdit(related, author, j) ==>
      related[j].edit.ts < related[i].edit.ts || (related[j].edit.ts == related[i].edit.ts && j <= i)
  }

  ghost predicate IsNewestEdit(related: seq<Related>, author: Option<string>, edit: Option<Edit>) {
    match edit
    case None => forall i :: !IsOwnEdit(related, author, i)
    case Some(e) => exists i :: IsNewestAt(related, author, i) && related[i].edit == e
  }

  function ReactionsIn(related: seq<Related>): seq<RawReaction> {
    if related == [] then []
    else
      var last := related[|related| - 1];
      ReactionsIn(related[..|related| - 1]) + (if last.Annotates? then [Shortened(last.reaction)] else [])
  }

  /** A reaction gives itself, anything else nothing, and lists are read one after the other. */
  lemma {:induction false} ReactionsConcat(a: seq<Related>, b: seq<Related>)
    ensures ReactionsIn(a + b) == ReactionsIn(a) + ReactionsIn(b)
    ensures forall r :: ReactionsIn([Annotates(r)]) == [Shortened(r)]
    ensures forall x: Related :: !x.Annotates? ==> ReactionsIn([x]) == []
  {
    forall x: Related ensures [x][..0] == [] {}
    if b == [] {
      assert a + b == a;
    } else {
      var n := |b| - 1;
      assert (a + b)[..|a| + n] == a + b[..n];
      ReactionsConcat(a, b[..n]);
    }
  }

  method CachedRelations(related: seq<Related>, author: Option<string>)
    returns (reactions: seq<RawReaction>, edit: Option<Edit>)
    ensures reactions == ReactionsIn(related)
    ensures IsNewestEdit(related, author, edit) && edit == NewestEdit(related, author)
  {
    reactions, edit := [], None;
    ghost var at := 0;
    for k := 0 to |related|
      invariant reactions == ReactionsIn(related[..k])
      invariant edit.None? ==> forall i :: i < k ==> !IsOwnEdit(related, author, i)
      invariant edit.Some? ==> at < k && IsOwnEdit(related, author, at) && related[at].edit == edit.value
      invariant edit.Some? ==> forall j :: j < k && IsOwnEdit(related, author, j) ==>
        related[j].edit.ts < edit.value.ts || (related[j].edit.ts == edit.value.ts && j <= at)
    {
      assert related[..k + 1][..k] == related[..k];
      match related[k] {
        case Annotates(r) => reactions := reactions + [Shortened(r)];
        case Replaces(sender, e) =>
          if author != Some(sender) { continue; }
          if edit.None? || e.ts >= edit.value.ts {
            edit, at := Some(e), k;
          }
        case Unrelated =>
      }
    }
    assert related[..|related|] == related;
    if edit.Some? { assert IsNewestAt(related, author, at); }
    NewestEditMeaning(related, author);
    NewestEditUnique(related, author, edit, NewestEdit(related, author));
  }

  /** The specification leaves no choice. */
  lemma {:induction false} NewestEditUnique(related: seq<Related>, author: Option<string>, a: Option<Edit>,
                                            b: Option<Edit>)
    requires IsNewestEdit(related, author, a) && IsNewestEdit(related, author, b)
    ensures a == b
  {
    if a.Some? && b.Some? {
      var i :| IsNewestAt(related, author, i) && related[i].edit == a.value;
      var j :| IsNewestAt(related, author, j) && related[j].edit == b.value;
      assert i == j;
    }
  }

  /** The edit the daemon shows, as a function of the index's listing. */
  function NewestEdit(related: seq<Related>, author: Option<string>): Option<Edit> {
    if related == [] then None
    else
      var before, last := NewestEdit(related[..|related| - 1], author), related[|related| - 1];
      if last.Replaces? && author == Some(last.sender) && (before.None? || last.edit.ts >= before.value.ts)
      then Some(last.edit) else before
  }

  lemma {:induction false} NewestEditMeaning(related: seq<Related>, author: Option<string>)
    ensures IsNewestEdit(related, author, NewestEdit(related, author))
  {
    if related != [] {
      var before, last := related[..|related| - 1], related[|related| - 1];
      assert related == before + [last];
      NewestEditMeaning(before, author);
      NewestSnoc(before, last, author, NewestEdit(before, author));
    }
  }

  /** The list without the edits of anyone but `author`. */
  function WithoutForeign(related: seq<Related>, author: Option<string>): (own: seq<Related>)
    ensures forall r :: r in own ==> r in related && !(r.Replaces? && author != Some(r.sender))
  {
    if related == [] then []
    else
      var last, before := related[|related| - 1], WithoutForeign(related[..|related| - 1], author);
      if last.Replaces? && author != Some(last.sender) then before else before + [last]
  }

  /** Where one more related event leaves the newest edit. */
  lemma {:induction false} NewestSnoc(related: seq<Related>, last: Related, author: Option<string>,
                                      before: Option<Edit>)
    requires IsNewestEdit(related, author, before)
    ensures IsNewestEdit(related + [last], author,
              if last.Replaces? && author == Some(last.sender) && (before.None? || last.edit.ts >= before.value.ts)
              then Some(last.edit) else before)
  {
    var all := related + [last];
    assert forall j :: j < |related| ==> (IsOwnEdit(all, author, j) <==> IsOwnEdit(related, author, j));
    if last.Replaces? && author == Some(last.sender) && (before.None? || last.edit.ts >= before.value.ts) {
      assert IsNewestAt(all, author, |related|);
    } else if before.Some? {
      var i :| IsNewestAt(related, author, i) && related[i].edit == before.value;
      assert IsNewestAt(all, author, i);
    }
  }

  /** Edits by others never decide which edit is shown. */
  lemma {:induction false} ForeignEditsIgnored(related: seq<Related>, author: Option<string>)
    ensures NewestEdit(WithoutForeign(related, author), author) == NewestEdit(related, author)
  {
    if related != [] {
      var before, last := related[..|related| - 1], related[|related| - 1];
      ForeignEditsIgnored(before, author);
      var own := WithoutForeign(before, author);
      assert (own + [last])[..|own|] == own;
    }
  }

  /** When the author's edits have distinct timestamps, the order in which the index
      lists them does not matter. */
  lemma {:induction false} NewestEditOrderFree(a: seq<Related>, b: seq<Related>, author: Option<string>)
    requires multiset(a) == multiset(b)
    requires forall r, s :: r in a && s in a && IsBy(r, author) && IsBy(s, author) && r.edit.ts == s.edit.ts ==> r == s
    ensures NewestEdit(a, author) == NewestEdit(b, author)
  {
    var edit := NewestEdit(a, author);
    NewestEditMeaning(a, author);
    NewestEditMeaning(b, author);
    forall r ensures r in a <==> r in b {
      assert r in a <==> r in multiset(a);
      assert r in b <==> r in multiset(b);
    }
    if edit.None? {
      forall i ensures !IsOwnEdit(b, author, i) {
        if 0 <= i < |b| {
          assert b[i] in a;
          var k :| 0 <= k < |a| && a[k] == b[i];
          assert !IsOwnEdit(a, author, k);
        }
      }
    } else {
      var i :| IsNewestAt(a, author, i) && a[i].edit == edit.value;
      var at := LastOf(b, a[i]);
      forall j | IsOwnEdit(b, author, j)
        ensures b[j].edit.ts < b[at].edit.ts || (b[j].edit.ts == b[at].edit.ts && j <= at)
      {
        assert b[j] in a;
        var k :| 0 <= k < |a| && a[k] == b[j];
        assert IsOwnEdit(a, author, k);
      }
      assert IsNewestAt(b, author, at);
    }
    NewestEditUnique(b, author, edit, NewestEdit(b, author));
  }

  lemma {:induction false} LastOf(s: seq<Related>, r: Related) returns (at: nat)
    requires r in s
    ensures at < |s| && s[at] == r && forall j :: at < j < |s| ==> s[j] != r
  {
    at := |s| - 1;
    while s[at] != r
      invariant at < |s| && forall j :: at < j < |s| ==> s[j] != r
      invariant exists j :: 0 <= j <= at && s[j] == r
      decreases at
    {
      at := at - 1;
    }
  }

  // ---------- grouping reactions ----------

  function Live(list: seq<RawReaction>, redacted: set<EventId>): (live: seq<RawReaction>)
    ensures |live| <= |list|
  {
    if list == [] then []
    else
      var last := list[|list| - 1];
      var before := Live(list[..|list| - 1], redacted);
      if last.id in redacted then before else before + [last]
  }

  lemma {:induction false} LiveMembers(list: seq<RawReaction>, redacted: set<EventId>)
    ensures forall r :: r in Live(list, redacted) <==> r in list && r.id !in redacted
  {
    if list != [] {
      LiveMembers(list[..|list| - 1], redacted);
      assert list == list[..|list| - 1] + [list[|list| - 1]];
    }
  }

  lemma {:induction false} LiveSnoc(list: seq<RawReaction>, r: RawReaction, redacted: set<EventId>)
    ensures Live(list + [r], redacted) == if r.id in redacted then Live(list, redacted) else Live(list, redacted) + [r]
  {
    assert (list + [r])[..|list|] == list;
  }

  /** A reaction stays exactly if its own id is not redacted, whatever is listed around it. */
  lemma {:induction false} LiveConcat(a: seq<RawReaction>, b: seq<RawReaction>, redacted: set<EventId>)
    ensures Live(a + b, redacted) == Live(a, redacted) + Live(b, redacted)
    ensures forall r :: Live([r], redacted) == if r.id in redacted then [] else [r]
  {
    forall r: RawReaction ensures [r][..0] == [] {}
    if b == [] {
      assert a + b == a;
    } else {
      var n, last := |b| - 1, b[|b| - 1];
      assert a + b == (a + b[..n]) + [last];
      LiveConcat(a, b[..n], redacted);
      LiveSnoc(a + b[..n], last, redacted);
    }
  }

  /** Keys in order of first appearance. */
  function Keys(live: seq<RawReaction>): seq<string> {
    if live == [] then []
    else
      var before, k := Keys(live[..|live| - 1]), live[|live| - 1].key;
      if k in before then before else before + [k]
  }

  predicate HasSender(senders: seq<Sender>, id: string) { exists i :: 0 <= i < |senders| && senders[i].id == id }

  /** Who reacted with `key`, each once, by their first reaction. */
  function SendersOf(live: seq<RawReaction>, key: string, nameOf: string -> string): seq<Sender> {
    if live == [] then []
    else
      var before, r := SendersOf(live[..|live| - 1], key, nameOf), live[|live| - 1];
      if r.key != key || HasSender(before, r.sender) then before
      else before + [Sender(r.sender, nameOf(r.sender), r.id)]
  }

  /** Our own reaction with `key`, if we are among those who reacted. */
  function MineIn(senders: seq<Sender>, me: Option<string>): Option<EventId> {
    if senders == [] then None
    else if me == Some(senders[0].id) then Some(senders[0].reactionId)
    else MineIn(senders[1..], me)
  }

  function Entry(live: seq<RawReaction>, key: string, me: Option<string>, nameOf: string -> string): Reaction {
    var senders := SendersOf(live, key, nameOf);
    Reaction(key, |senders|, senders, MineIn(senders, me))
  }

  function Entries(keys: seq<string>, live: seq<RawReaction>, me: Option<string>, nameOf: string -> string)
    : (out: seq<Reaction>)
    ensures |out| == |keys|
    ensures forall i :: 0 <= i < |keys| ==> out[i] == Entry(live, keys[i], me, nameOf)
  {
    if keys == [] then [] else [Entry(live, keys[0], me, nameOf)] + Entries(keys[1..], live, me, nameOf)
  }

  function Summary(list: seq<RawReaction>, me: Option<string>, redacted: set<EventId>, nameOf: string -> string)
    : seq<Reaction>
  {
    var live := Live(list, redacted);
    Entries(Keys(live), live, me, nameOf)
  }

  lemma {:induction false} MineSnoc(senders: seq<Sender>, s: Sender, me: Option<string>)
    ensures MineIn(senders + [s], me) ==
            if MineIn(senders, me).Some? then MineIn(senders, me)
            else if me == Some(s.id) then Some(s.reactionId) else None
    ensures MineIn(senders, me).Some? <==> me.Some? && HasSender(senders, me.value)
  {
    if senders != [] {
      assert (senders + [s])[1..] == senders[1..] + [s];
      MineSnoc(senders[1..], s, me);
      assert senders == [senders[0]] + senders[1..];
    }
  }

  lemma {:induction false} KeysDistinct(live: seq<RawReaction>)
    ensures forall i, j :: 0 <= i < j < |Keys(live)| ==> Keys(live)[i] != Keys(live)[j]
    ensures forall r :: r in live ==> r.key in Keys(live)
    ensures forall k :: k in Keys(live) ==> exists r :: r in live && r.key == k
  {
    if live != [] {
      var before, last := live[..|live| - 1], live[|live| - 1];
      KeysDistinct(before);
      assert live == before + [last];
    }
  }

  /** An entry after one more reaction with its key. */
  function Joined(entry: Reaction, r: RawReaction, me: Option<string>, nameOf: string -> string): Reaction {
    if HasSender(entry.senders, r.sender) then entry
    else Reaction(entry.key, entry.count + 1, entry.senders + [Sender(r.sender, nameOf(r.sender), r.id)],
                  if me == Some(r.sender) then Some(r.id) else entry.mine)
  }

  /** What one more live reaction does to the entry of `key`. */
  lemma {:induction false} EntrySnoc(live: seq<RawReaction>, r: RawReaction, key: string, me: Option<string>,
                                     nameOf: string -> string)
    ensures var before := Entry(live, key, me, nameOf);
            Entry(live + [r], key, me, nameOf) == if r.key != key then before else Joined(before, r, me, nameOf)
  {
    assert (live + [r])[..|live|] == live;
    MineSnoc(SendersOf(live, key, nameOf), Sender(r.sender, nameOf(r.sender), r.id), me);
  }

  /** The loop's two locals hold exactly the entries of the reactions seen so far. */
  ghost predicate Agrees(order: seq<string>, byKey: map<string, Reaction>, live: seq<RawReaction>,
                         me: Option<string>, nameOf: string -> string)
  {
    order == Keys(live) &&
    (forall k :: k in byKey <==> k in order) &&
    (forall k :: k in byKey ==> byKey[k] == Entry(live, k, me, nameOf))
  }

  lemma {:induction false} AgreesSnoc(order: seq<string>, byKey: map<string, Reaction>, live: seq<RawReaction>,
                                      r: RawReaction, me: Option<string>, nameOf: string -> string)
    requires Agrees(order, byKey, live, me, nameOf)
    ensures var order' := if r.key in byKey then order else order + [r.key];
            var entry := if r.key in byKey then byKey[r.key] else Reaction(r.key, 0, [], None);
            Agrees(order', byKey[r.key := Joined(entry, r, me, nameOf)], live + [r], me, nameOf)
  {
    assert (live + [r])[..|live|] == live;
    OwnEntrySnoc(order, byKey, live, r, me, nameOf);
    forall k | k in order && k != r.key ensures Entry(live + [r], k, me, nameOf) == byKey[k] {
      EntrySnoc(live, r, k, me, nameOf);
    }
  }

  /** The entry of the reaction's own key, which may be new. */
  lemma {:induction false} OwnEntrySnoc(order: seq<string>, byKey: map<string, Reaction>, live: seq<RawReaction>,
                                        r: RawReaction, me: Option<string>, nameOf: string -> string)
    requires Agrees(order, byKey, live, me, nameOf)
    ensures var entry := if r.key in byKey then byKey[r.key] else Reaction(r.key, 0, [], None);
            Entry(live + [r], r.key, me, nameOf) == Joined(entry, r, me, nameOf)
  {
    EntrySnoc(live, r, r.key, me, nameOf);
    if r.key !in order {
      KeysDistinct(live);
      NoSenders(live, r.key, nameOf);
    }
  }

  /** The body of the grouping loop for one reaction that is not redacted. */
  method AddReaction(order: seq<string>, byKey: map<string, Reaction>, r: RawReaction, me: Option<string>,
                     nameOf: string -> string)
    returns (order': seq<string>, byKey': map<string, Reaction>)
    ensures order' == if r.key in byKey then order else order + [r.key]
    ensures byKey' == byKey[r.key := Joined(if r.key in byKey then byKey[r.key] else Reaction(r.key, 0, [], None),
                                            r, me, nameOf)]
  {
    order', byKey' := order, byKey;
    if r.key !in byKey' {
      order' := order' + [r.key];
      byKey' := byKey'[r.key := Reaction(r.key, 0, [], None)];
    }
    var entry := byKey'[r.key];
    // A sender already listed counts once.
    if HasSender(entry.senders, r.sender) { return; }
    entry := entry.(count := entry.count + 1);
    if me == Some(r.sender) {
      entry := entry.(mine := Some(r.id));
    }
    entry := entry.(senders := entry.senders + [Sender(r.sender, nameOf(r.sender), r.id)]);
    byKey' := byKey'[r.key := entry];
  }

  /** The grouping loop over all reactions. */
  method GroupReactions(list: seq<RawReaction>, me: Option<string>, redacted: set<EventId>, nameOf: string -> string)
    returns (order: seq<string>, byKey: map<string, Reaction>)
    ensures Agrees(order, byKey, Live(list, redacted), me, nameOf)
  {
    order, byKey := [], map[];
    ghost var live := [];
    for n := 0 to |list|
      invariant live == Live(list[..n], redacted)
      invariant Agrees(order, byKey, live, me, nameOf)
    {
      LiveSnoc(list[..n], list[n], redacted);
      assert list[..n + 1] == list[..n] + [list[n]];
      if list[n].id !in redacted {
        AgreesSnoc(order, byKey, live, list[n], me, nameOf);
        order, byKey := AddReaction(order, byKey, list[n], me, nameOf);
        live := live + [list[n]];
      }
    }
    assert list[..|list|] == list;
  }

  method Aggregate(list: seq<RawReaction>, me: Option<string>, redacted: set<EventId>, nameOf: string -> string)
    returns (out: seq<Reaction>)
    ensures out == Summary(list, me, redacted, nameOf)
  {
    var order, byKey := GroupReactions(list, me, redacted, nameOf);
    out := [];
    for n := 0 to |order|
      invariant |out| == n && forall i :: 0 <= i < n ==> out[i] == byKey[order[i]]
    {
      out := out + [byKey[order[n]]];
    }
  }

  lemma {:induction false} NoSenders(live: seq<RawReaction>, key: string, nameOf: string -> string)
    requires forall r :: r in live ==> r.key != key
    ensures SendersOf(live, key, nameOf) == []
  {
    if live != [] { NoSenders(live[..|live| - 1], key, nameOf); }
  }

  /** Reaction `i` is the first live one by its sender with its key. */
  ghost predicate IsFirst(live: seq<RawReaction>, i: int) {
    0 <= i < |live| && forall j :: 0 <= j < i ==> live[j].key != live[i].key || live[j].sender != live[i].sender
  }

  lemma {:induction false} SendersComplete(live: seq<RawReaction>, key: string, nameOf: string -> string)
    ensures forall r :: r in live && r.key == key ==> HasSender(SendersOf(live, key, nameOf), r.sender)
  {
    if live != [] {
      var before, last := live[..|live| - 1], live[|live| - 1];
      assert live == before + [last];
      SendersComplete(before, key, nameOf);
      var s, all := SendersOf(before, key, nameOf), SendersOf(live, key, nameOf);
      assert s <= all;
      forall r | r in live && r.key == key ensures HasSender(all, r.sender) {
        if r in before {
        } else if all != s {
          assert all[|s|].id == r.sender;
        }
      }
    }
  }

  /** `x` is the author of a first reaction with `key`, with that reaction's id. */
  ghost predicate FromFirst(live: seq<RawReaction>, key: string, x: Sender, nameOf: string -> string) {
    exists i :: IsFirst(live, i) && live[i].key == key &&
                x == Sender(live[i].sender, nameOf(live[i].sender), live[i].id)
  }

  lemma {:induction false} FromFirstSnoc(live: seq<RawReaction>, r: RawReaction, key: string, x: Sender,
                                         nameOf: string -> string)
    requires FromFirst(live, key, x, nameOf)
    ensures FromFirst(live + [r], key, x, nameOf)
  {
    var i :| IsFirst(live, i) && live[i].key == key && x == Sender(live[i].sender, nameOf(live[i].sender), live[i].id);
    assert IsFirst(live + [r], i);
  }

  lemma {:induction false} SendersSound(live: seq<RawReaction>, key: string, nameOf: string -> string)
    ensures forall x :: x in SendersOf(live, key, nameOf) ==> FromFirst(live, key, x, nameOf)
  {
    if live != [] {
      var before, r := live[..|live| - 1], live[|live| - 1];
      assert live == before + [r];
      SendersSound(before, key, nameOf);
      SendersComplete(before, key, nameOf);
      var s := SendersOf(before, key, nameOf);
      forall x | x in s ensures FromFirst(live, key, x, nameOf) { FromFirstSnoc(before, r, key, x, nameOf); }
      if r.key == key && !HasSender(s, r.sender) {
        assert forall j :: 0 <= j < |before| ==> before[j] in before && live[j] == before[j];
        assert IsFirst(live, |before|);
      }
    }
  }

  /** The senders of a key are exactly the authors of its first reactions, each once,
      carrying the id of that first reaction. */
  lemma {:induction false} SendersMeaning(live: seq<RawReaction>, key: string, nameOf: string -> string)
    ensures var s := SendersOf(live, key, nameOf);
            && DistinctSenders(s)
            && (forall x :: x in s ==> FromFirst(live, key, x, nameOf))
            && (forall r :: r in live && r.key == key ==> HasSender(s, r.sender))
  {
    SendersSound(live, key, nameOf);
    SendersComplete(live, key, nameOf);
    SendersDistinct(live, key, nameOf);
  }

  ghost predicate DistinctSenders(s: seq<Sender>) {
    forall i, j :: 0 <= i < j < |s| ==> s[i].id != s[j].id
  }

  lemma {:induction false} SendersDistinct(live: seq<RawReaction>, key: string, nameOf: string -> string)
    ensures DistinctSenders(SendersOf(live, key, nameOf))
  {
    if live != [] {
      SendersDistinct(live[..|live| - 1], key, nameOf);
    }
  }

  /** `mine` is set exactly when we are among the senders, and is that sender's entry. */
  lemma {:induction false} MineMeaning(senders: seq<Sender>, me: Option<string>)
    ensures MineIn(senders, me).Some? <==> exists s :: s in senders && me == Some(s.id)
    ensures MineIn(senders, me).Some? ==>
              exists s :: s in senders && me == Some(s.id) && MineIn(senders, me) == Some(s.reactionId)
  {
    if senders != [] {
      MineMeaning(senders[1..], me);
      assert senders == [senders[0]] + senders[1..];
    }
  }

  function TotalOver(keys: seq<string>, live: seq<RawReaction>, nameOf: string -> string): nat {
    if keys == [] then 0 else |SendersOf(live, keys[0], nameOf)| + TotalOver(keys[1..], live, nameOf)
  }

  ghost function Pairs(live: seq<RawReaction>): set<(string, string)> {
    set r | r in live :: (r.key, r.sender)
  }

  /** One more reaction raises the total by one exactly when its pair is new. */
  lemma {:induction false} TotalSnoc(keys: seq<string>, live: seq<RawReaction>, r: RawReaction,
                                     nameOf: string -> string)
    requires forall i, j :: 0 <= i < j < |keys| ==> keys[i] != keys[j]
    ensures TotalOver(keys, live + [r], nameOf) == TotalOver(keys, live, nameOf) +
              if r.key in keys && !HasSender(SendersOf(live, r.key, nameOf), r.sender) then 1 else 0
  {
    if keys != [] {
      assert (live + [r])[..|live|] == live;
      TotalSnoc(keys[1..], live, r, nameOf);
      assert keys == [keys[0]] + keys[1..];
    }
  }

  lemma {:induction false} TotalKeySnoc(keys: seq<string>, k: string, live: seq<RawReaction>, nameOf: string -> string)
    ensures TotalOver(keys + [k], live, nameOf) == TotalOver(keys, live, nameOf) + |SendersOf(live, k, nameOf)|
  {
    if keys == [] {
      assert [k][1..] == [];
    } else {
      assert (keys + [k])[1..] == keys[1..] + [k];
      TotalKeySnoc(keys[1..], k, live, nameOf);
    }
  }

  lemma {:induction false} PairKnown(live: seq<RawReaction>, key: string, sender: string, nameOf: string -> string)
    ensures HasSender(SendersOf(live, key, nameOf), sender) <==> (key, sender) in Pairs(live)
  {
    SendersMeaning(live, key, nameOf);
    var s := SendersOf(live, key, nameOf);
    if HasSender(s, sender) {
      var i :| 0 <= i < |s| && s[i].id == sender;
      assert s[i] in s;
    }
  }

  /** The counts add up to the number of distinct live (key, sender) pairs. */
  lemma {:induction false} CountsArePairs(live: seq<RawReaction>, nameOf: string -> string)
    ensures TotalOver(Keys(live), live, nameOf) == |Pairs(live)|
  {
    if live == [] {
      assert Pairs(live) == {};
    } else {
      var before, r := live[..|live| - 1], live[|live| - 1];
      assert live == before + [r];
      CountsArePairs(before, nameOf);
      KeysDistinct(before);
      PairKnown(before, r.key, r.sender, nameOf);
      assert Pairs(live) == Pairs(before) + {(r.key, r.sender)};
      TotalSnoc(Keys(before), before, r, nameOf);
      if r.key !in Keys(before) {
        NoSenders(before, r.key, nameOf);
        TotalKeySnoc(Keys(before), r.key, live, nameOf);
      }
    }
  }

  function CountSum(out: seq<Reaction>): nat { if out == [] then 0 else out[0].count + CountSum(out[1..]) }

  lemma {:induction false} EntriesTotal(keys: seq<string>, live: seq<RawReaction>, me: Option<string>,
                                        nameOf: string -> string)
    ensures CountSum(Entries(keys, live, me, nameOf)) == TotalOver(keys, live, nameOf)
  {
    if keys != [] {
      EntriesTotal(keys[1..], live, me, nameOf);
      assert Entries(keys, live, me, nameOf)[1..] == Entries(keys[1..], live, me, nameOf);
    }
  }

  /** The counts shown under a message add up to the distinct live (key, sender) pairs. */
  lemma {:induction false} SummaryCounts(list: seq<RawReaction>, me: Option<string>, redacted: set<EventId>,
                                         nameOf: string -> string)
    ensures CountSum(Summary(list, me, redacted, nameOf)) == |Pairs(Live(list, redacted))|
  {
    var live := Live(list, redacted);
    EntriesTotal(Keys(live), live, me, nameOf);
    CountsArePairs(live, nameOf);
  }

  /** The position of a key's first live reaction. */
  function FirstOf(live: seq<RawReaction>, key: string): (i: nat)
    ensures i <= |live|
    ensures i < |live| ==> live[i].key == key
    ensures forall j :: 0 <= j < i ==> live[j].key != key
  {
    if live == [] || live[0].key == key then 0 else 1 + FirstOf(live[1..], key)
  }

  lemma {:induction false} FirstOfSnoc(live: seq<RawReaction>, r: RawReaction, key: string)
    ensures FirstOf(live + [r], key) ==
            FirstOf(live, key) + (if FirstOf(live, key) == |live| && r.key != key then 1 else 0)
  {
    if live == [] {
      assert [r][1..] == [];
    } else {
      assert (live + [r])[1..] == live[1..] + [r];
      FirstOfSnoc(live[1..], r, key);
    }
  }

  /** These keys all occur, and in the order of their first appearance. */
  ghost predicate InOrder(keys: seq<string>, live: seq<RawReaction>) {
    (forall i :: 0 <= i < |keys| ==> FirstOf(live, keys[i]) < |live|) &&
    forall i, j :: 0 <= i < j < |keys| ==> FirstOf(live, keys[i]) < FirstOf(live, keys[j])
  }

  lemma {:induction false} InOrderSnoc(keys: seq<string>, live: seq<RawReaction>, r: RawReaction)
    requires InOrder(keys, live)
    ensures InOrder(keys, live + [r])
    ensures forall i :: 0 <= i < |keys| ==> FirstOf(live + [r], keys[i]) < |live|
  {
    forall i | 0 <= i < |keys| ensures FirstOf(live + [r], keys[i]) == FirstOf(live, keys[i]) {
      FirstOfSnoc(live, r, keys[i]);
    }
  }

  lemma {:induction false} InOrderNew(keys: seq<string>, live: seq<RawReaction>, r: RawReaction)
    requires InOrder(keys, live) && forall x :: x in live ==> x.key != r.key
    ensures InOrder(keys + [r.key], live + [r])
  {
    InOrderSnoc(keys, live, r);
    FirstOfSnoc(live, r, r.key);
    assert FirstOf(live, r.key) == |live| by { assert forall j :: 0 <= j < |live| ==> live[j] in live; }
  }

  /** Keys are listed in the order in which they first appear. */
  lemma {:induction false} KeysInOrder(live: seq<RawReaction>)
    ensures InOrder(Keys(live), live)
  {
    if live != [] {
      var before, r := live[..|live| - 1], live[|live| - 1];
      assert live == before + [r];
      KeysInOrder(before);
      KeysDistinct(before);
      if r.key in Keys(before) {
        InOrderSnoc(Keys(before), before, r);
      } else {
        InOrderNew(Keys(before), before, r);
      }
    }
  }

  /** `x` reacted before `y`, each taken at their first reaction with the key. */
  ghost predicate ReactedBefore(live: seq<RawReaction>, key: string, x: Sender, y: Sender) {
    exists p, q :: p < q && IsFirst(live, p) && IsFirst(live, q) && live[p].key == key == live[q].key &&
      live[p].sender == x.id && live[q].sender == y.id
  }

  lemma {:induction false} ReactedBeforeSnoc(live: seq<RawReaction>, r: RawReaction, key: string, x: Sender, y: Sender)
    requires ReactedBefore(live, key, x, y)
    ensures ReactedBefore(live + [r], key, x, y)
  {
    var p, q :| p < q && IsFirst(live, p) && IsFirst(live, q) && live[p].key == key == live[q].key &&
      live[p].sender == x.id && live[q].sender == y.id;
    assert IsFirst(live + [r], p) && IsFirst(live + [r], q);
  }

  /** Senders are listed in the order in which they first reacted. */
  lemma {:induction false} SendersInOrder(live: seq<RawReaction>, key: string, nameOf: string -> string)
    ensures var s := SendersOf(live, key, nameOf);
            forall i, j :: 0 <= i < j < |s| ==> ReactedBefore(live, key, s[i], s[j])
  {
    if live != [] {
      var n, r := |live| - 1, live[|live| - 1];
      var before, s := live[..n], SendersOf(live[..n], key, nameOf);
      assert live == before + [r];
      SendersInOrder(before, key, nameOf);
      SendersMeaning(before, key, nameOf);
      forall i, j | 0 <= i < j < |s| ensures ReactedBefore(live, key, s[i], s[j]) {
        ReactedBeforeSnoc(before, r, key, s[i], s[j]);
      }
      if r.key == key && !HasSender(s, r.sender) {
        assert forall k :: 0 <= k < n ==> live[k] in before;
        assert IsFirst(live, n);
        var last := Sender(r.sender, nameOf(r.sender), r.id);
        forall i | 0 <= i < |s| ensures ReactedBefore(live, key, s[i], last) {
          FirstBefore(before, r, key, s[i], last, nameOf);
        }
      }
    }
  }

  lemma {:induction false} FirstBefore(live: seq<RawReaction>, r: RawReaction, key: string, x: Sender, y: Sender,
                                       nameOf: string -> string)
    requires FromFirst(live, key, x, nameOf) && IsFirst(live + [r], |live|) && r.key == key && r.sender == y.id
    ensures ReactedBefore(live + [r], key, x, y)
  {
    var i :| IsFirst(live, i) && live[i].key == key && x == Sender(live[i].sender, nameOf(live[i].sender), live[i].id);
    assert IsFirst(live + [r], i);
  }

  /** What a line of the summary says: who reacted with its key, each once, in order and by
      their first reaction; how many they are; and our own reaction, if we are one of them. */
  ghost predicate IsLine(line: Reaction, live: seq<RawReaction>, me: Option<string>, nameOf: string -> string) {
    line.count == |line.senders| && DistinctSenders(line.senders) &&
    (forall x :: x in line.senders ==> FromFirst(live, line.key, x, nameOf)) &&
    (forall r :: r in live && r.key == line.key ==> HasSender(line.senders, r.sender)) &&
    (forall i, j :: 0 <= i < j < |line.senders| ==> ReactedBefore(live, line.key, line.senders[i], line.senders[j])) &&
    match line.mine
    case None => forall x :: x in line.senders ==> me != Some(x.id)
    case Some(id) => exists x :: x in line.senders && me == Some(x.id) && x.reactionId == id
  }

  lemma {:induction false} EntryIsLine(live: seq<RawReaction>, key: string, me: Option<string>,
                                       nameOf: string -> string)
    ensures IsLine(Entry(live, key, me, nameOf), live, me, nameOf)
  {
    SendersMeaning(live, key, nameOf);
    SendersInOrder(live, key, nameOf);
    MineMeaning(SendersOf(live, key, nameOf), me);
  }

  /** The summary has one line for each key among the reactions that are not redacted, in the
      order in which the keys first appear. */
  lemma {:induction false} SummaryMeaning(list: seq<RawReaction>, me: Option<string>, redacted: set<EventId>,
                                          nameOf: string -> string)
    ensures var live, out := Live(list, redacted), Summary(list, me, redacted, nameOf);
            && (forall i :: 0 <= i < |out| ==> IsLine(out[i], live, me, nameOf))
            && (forall i :: 0 <= i < |out| ==> FirstOf(live, out[i].key) < |live|)
            && (forall i, j :: 0 <= i < j < |out| ==> FirstOf(live, out[i].key) < FirstOf(live, out[j].key))
            && (forall r :: r in live ==> exists i :: 0 <= i < |out| && out[i].key == r.key)
  {
    var live, out := Live(list, redacted), Summary(list, me, redacted, nameOf);
    var keys := Keys(live);
    KeysInOrder(live);
    KeysDistinct(live);
    forall i | 0 <= i < |out| ensures IsLine(out[i], live, me, nameOf) && out[i].key == keys[i] {
      EntryIsLine(live, keys[i], me, nameOf);
    }
    forall r | r in live ensures exists i :: 0 <= i < |out| && out[i].key == r.key {
      var i :| 0 <= i < |keys| && keys[i] == r.key;
      assert out[i].key == r.key;
    }
  }

  lemma {:induction false} LiveTwice(list: seq<RawReaction>, redacted: set<EventId>)
    ensures Live(Live(list, redacted), {}) == Live(list, redacted)
  {
    if list != [] {
      var before, r := list[..|list| - 1], list[|list| - 1];
      LiveTwice(before, redacted);
      LiveSnoc(Live(before, redacted), r, {});
      LiveSnoc(before, r, redacted);
      assert list == before + [r];
    }
  }

  /** Redacting reactions is the same as never having listed them. */
  lemma {:induction false} RedactionIsFiltering(list: seq<RawReaction>, me: Option<string>, redacted: set<EventId>,
                                                nameOf: string -> string)
    ensures Summary(Live(list, redacted), me, {}, nameOf) == Summary(list, me, redacted, nameOf)
  {
    LiveTwice(list, redacted);
  }
}
