# Proofs about the Yapper Matrix daemon

A Dafny model of the algorithms and state machines that the daemon implements itself, with
proofs of what they promise. `dafny verify dfyconfig.toml` checks everything.

| Files | What they model |
|---|---|
| `Events`, `ChunkListing`, `EventCache` | a room's history as the SDK's event cache holds it: chunks of events and gaps, the chunk listing as text, back-pagination |
| `Paging`, `Timeline`, `TimelineRuns`, `TimelineClient` | `timeline`: the fetch loop, the newest-first walk, the messages of a page, whole paging runs, and a client that makes one |
| `Threads`, `ThreadRuns`, `ThreadClient` | `thread`: the same for a thread, with its own list of replies and its root |
| `Relations` | the newest edit and the reactions of a message |
| `Framing`, `Connection`, `Socket` | one socket connection: lines out of bytes, the interleaving of reader, handlers, queue, writer and event pusher, and both together |
| `Session`, `SessionRuns`, `SessionLedger` | `session.json` and the keyring item, over whole runs of logins, refreshes, syncs, loads and logouts |
| `Wav`, `WavWriting`, `Waveform`, `CurveLaws` | the WAV analyser: chunk walk, samples, loudness curve |
| `SyncLoop` | retries, status and saved token of the sync loop |
| `SpaceListing`, `Joiner` | the cached space listing and the background joiner of the community |
| `ReplyText`, `ReplyPreviews` | stripping the reply fallback; the cache of reply previews |

`Options`, `Bytes` and `Sequences` hold what the others share. Code that works by updating
state is modelled by methods and classes that update the same state, each proved equal to a
function of its inputs or its old state; the theorems are about those functions, about every
reachable state, or about every run. What the surroundings answer (server, SDK, keyring,
disk, clock) is a parameter and quantified over.

## Main results

- **A paging run is complete.** Following `next` from no cursor until it is absent, while
  sync appends to the history and back-pagination extends the cache, the pages joined
  oldest first are exactly the messages of the history as of the first request, in order,
  each once, in at most one page more than that history has events: if and only if the last
  request did not end early with a message before what it walked
  (`TimelineRuns.TimelineIsComplete`, `TimelineShowsOnce` and `TimelineIsBounded`). A client
  that makes the real requests, with any sync in between and during them, obtains exactly
  that (`TimelineClient.FollowTimeline`).
- **A thread run is complete** in the same sense, with the root in front
  (`ThreadRuns.ThreadIsComplete`, `ThreadShows`, `ThreadClient.FollowThread`).
- **Every message shown is its own**: over whole runs each has the text of its author's
  newest edit and the reactions, readers and summary of its own event
  (`TimelineRuns.RunDecorated`, `ThreadRuns.RunDecorated`, `Relations.SummaryMeaning`).
- **No slice spans a gap**: the count read from the textual chunk listing is the number of
  events after the last gap (`ChunkListing.ListingExact`), which are a suffix of the history
  (`Events.TailIsSuffix`).
- **No request is lost on a connection**: in every reachable state each accepted request is
  in exactly one place; when the connection returns each request line of the input has
  exactly one response written, its own; no event is lost but by the named steps; the
  connection cannot deadlock, and once the input
  has ended and the pusher is stopped it returns within 163 of its own steps, whatever is
  broadcast meanwhile (`Connection.ReachableInv`, `NoEventLost`, `SomeStep`, `DrainEnds`,
  `Socket.EveryLineAnswered`).
- **Secrets never go stale** over any run under any behaviour of keyring and disk
  (`SessionRuns.NeverStale`, `AccountSurvives`), and when the disk takes every write a load
  answers exactly what a ledger kept from the operations alone says
  (`SessionLedger.LoadTellsLedger`).
- **The WAV reader inverts a WAV writer** for any extra chunks in any order, and the
  loudness curve means what it should (`WavWriting.RecordingRoundTrip`,
  `CurveLaws.CurveMeaning`, `ReachesOneIff`, `BucketsTile`, `ScaleInvariant`).

## What is not so

Properties that look true of the code but are not. Each comes with an input at which it
fails and with the exact condition under which it holds.

- A page that spends its twelve rounds without listing an event before its anchor has
  neither messages nor a cursor, although older messages exist. It happens when a sync gap
  newer than the cursor outlasts the rounds (`TimelineRuns.GapHidesAnchor`: a whole run that
  never shows its oldest message).
- A limited sync that leaves a gap after a back-pagination has reported the start, and before
  the cache is read, makes the request take what is behind the gap for everything: the page
  has no cursor although older messages exist, and with an anchor before the gap the request
  fails (`TimelineRuns.StaleStartEndsShort`). A request fails exactly when the start was
  reported and its anchor is not behind the newest gap (`Timeline.Timeline`).
- So a run that has ended shows every message exactly when its last request ended neither
  way with one before what it walked (`TimelineRuns.TimelineIsComplete`; for threads, which
  have no gaps, `ThreadRuns.ThreadIsComplete`).
- A `#` inside an event id is counted as an event, so the slice can reach across a gap
  (`ChunkListing.HashInIdSpansGap`); the count is right exactly when the ids of the tail
  have none (`ChunkListing.ListingExact`). A `#` in the ids of current room versions does
  not occur; the proofs about pages assume this.
- A thread's root is shown twice, for example when the thread's one reply is a sticker and
  a page holds one message (`ThreadRuns.RootShownTwice`). It is shown once exactly when it
  leads the page that reaches the start or fills in on a first page that converts no reply,
  but not both (`ThreadRuns.RootShownOnce`). The comment in `src/core.rs:1925` says that the root
  leads the first page; the code, like the repository's README, puts it on the last page,
  and on a first page without messages.
- The repository's README says that a logout deletes the keyring item. An item left over
  from before the secrets moved into the file stays (`SessionRuns.ForgetLeavesItem`,
  `ForgetDeletesIff`); it is never read again (`ForgottenStaysForgotten`).
- A login whose secrets reach the keyring while the session file cannot be opened pairs an
  earlier account's server and store with the new account's secrets
  (`SessionRuns.FailedLoginMixesAccounts`, `LoginCoherentIff`).
- The repository's README says that a failed sync backs off from 2 s. That holds before the
  first success and only then; after it, an outage starts at 4 s (`SyncLoop.FirstWaitIff`,
  `RecoversAtOnce`).
- Stripping the fallback gives a reply back exactly when the reply is not empty, does not
  end with a newline and has no carriage return before a newline
  (`ReplyText.StripUndoesRenderIff`, with replies that are lost in `RepliesLost`).
- A reply preview whose build is overtaken by an edit stays in the cache as it was before
  the edit (`ReplyPreviews.OvertakenBuildIsStale`). Once an edit is handled the cache is
  fresh whichever build ends next exactly when no build of the edited message with another
  preview was under way (`EditSafeIff`); while it is being handled, exactly when the message
  was not cached with another preview (`BetweenFreshIff`). A run in which every edit is so
  timed, and no change escapes the edit handler, is fresh whenever no edit is being handled
  (`StaysFresh`). An edit that the event cache learns only after the handler has forgotten
  the preview escapes it (`ForgottenTooEarlyIsStale`).
- The space listing is cached by alias: when the alias moves to another space the old
  space's rooms are handed out until the entry expires (`SpaceListing.MovedAliasIsStale`).
  A cached listing is the reply to the last request under the alias that reached the server
  (`CachedIsLastSent`), and is that reply read for the space asked for exactly when that
  request was for this space (`ListingTellsIff`).

## Hypotheses

- Every event in a room's history has an id, not an empty one, and ids are unique
  (`EventCache.Sound`, `ThreadCache.Valid`), and no event is redacted or decrypted in place
  during a run: either would change what an event of the history is.
- The chunk listing and the event list of one round are read at one instant.
- A back-pagination resolves the newest gap or brings in older events. It reports that the
  start is reached only when at that moment no gap and nothing older is left
  (`EventCache.Paginated`); sync may go on before the cache is read (`BackPaginated`).
- Within a run the same events convert to messages each time, and a message keeps the id of
  its event (`Timeline.Faithful`).
- Session operations and the steps of a connection are atomic; logins are not interleaved.
- Arithmetic of the loudness curve is exact; a square root is any function that is one.

## Model

| member | source | states |
|---|---|---|
| Events.TailIsSuffix | src/core.rs:2257-2261 | the events after the last gap end both what is loaded and the history itself: nothing is missing up to the live end |
| Events.TailIsBehindGap | src/core.rs:2257-2261 | the tail is everything listed behind the newest gap, or everything if there is none |
| Events.KindsShown | src/core.rs:2338-2412 | a room shows what a thread shows but for thread messages, and membership changes besides; edits are shown nowhere |
| ChunkListing.ContiguousTail | src/core.rs:2262-2275 | the loop over the listing's lines computes the count that reading the listing from its end defines |
| ChunkListing.ListingCountsTail | src/core.rs:2257-2275 | for every chunk list and every listing of it, the count is the number of events after the last gap plus the `#`s in their ids |
| ChunkListing.ListingExact | src/core.rs:2257-2275 | the count is exact if and only if the ids of the tail have no `#`; it never undercounts |
| ChunkListing.HashInIdSpansGap | src/core.rs:2271 | one `#` in an id makes the count reach across a gap |
| ChunkListing.LinesLook | src/core.rs:2257-2261 | the documented text of a line, for a gap and for two events |
| EventCache.RoomCache.Events | src/core.rs:1612 | lists the fetched events, gaps left out |
| EventCache.RoomCache.DebugString | src/core.rs:2257-2261 | gives one documented line per chunk |
| EventCache.Resolve | src/core.rs:1642-1655 | resolving the newest gap, or bringing in older events, leaves the full history unchanged |
| EventCache.ResolveLoads | src/core.rs:1642-1655 | it lists as many more events as were asked for and are there |
| EventCache.RoomCache.RunBackwardsOnce | src/core.rs:1642-1655 | a back-pagination keeps the history and reports the start only when at some moment the contiguous tail was the whole history |
| Paging.WalkNewestFirst | src/core.rs:1658-1683 | the walk takes the shortest newest stretch with `limit` shown events, or everything; it keeps exactly the shown ones, newest first, and the ids the stretch redacts |
| Paging.AnchorStable | src/core.rs:1617-1622 | a cursor names the same place after the live end has grown |
| Paging.PagesMeet | src/core.rs:1684-1691 | a page ends exactly where the page that handed out its cursor began, and each takes at least one event |
| Paging.RunSoFar | src/core.rs:1592-1691 | after any number of pages, what was walked is the history of the first request from the last cursor on |
| Paging.RunIsComplete | src/core.rs:1592-1691 | over a whole run the slices joined oldest first are the history as of the first request and the pages are its shown events |
| Paging.RunCompleteIff | src/core.rs:1638-1641 | in terms of what was walked: an ended run covers that history if and only if its last stretch begins at the start |
| Paging.RunIsBounded | src/core.rs:1684-1691 | a run has at most history length + 1 pages, and each page lies wholly before all earlier ones |
| Paging.EachShownOnce | src/core.rs:1592-1691 | over a complete run the pages have exactly the shown events of the first history, no id twice |
| Timeline.ReadTail | src/core.rs:1612-1616 | what is paged from is exactly the events after the last gap, a suffix of the history |
| Timeline.LoadSlice | src/core.rs:1607-1656 | the fetch loop makes at most 12 back-paginations and none when a page's worth is there; its slice is what precedes the anchor in the gap-free tail, with `limit` messages unless the start is reported or the rounds are spent; it fails exactly when the start is reported without the anchor |
| Timeline.Convert | src/core.rs:1693-1708 | dropping unconvertible events keeps messages and events aligned: message `i` is what event `i` converts to |
| Timeline.Decorate | src/core.rs:1716-1743 | every message gets the reactions, readers and newest edit of its own id |
| Timeline.AddThreads | src/core.rs:1744-1751 | every message gets the thread summary of its own event |
| Timeline.BuildMessages | src/core.rs:1693-1757 | the final list is the finished messages of the convertible events, oldest first |
| Timeline.EachItsOwn | src/core.rs:1716-1751 | each message of a page carries exactly the relations of its own event; its text is that of the newest edit by its author, unless it is deleted, when its body stays |
| Timeline.PageDecorated | src/core.rs:1709-1751 | every message of a page belongs to an event of the stretch walked that the room shows, and has the reactions, readers, summary and newest edit of that event |
| Timeline.MessagesKeepIds | src/core.rs:1693-1708 | the ids on a page are those of its convertible events, in order |
| Timeline.ShowNewest | src/core.rs:1658-1757 | walking and building shows the messages of the walked stretch and nothing else |
| Timeline.Timeline | src/core.rs:1592-1762 | a request that did not give up serves the messages of history[lo..hi] where hi is the anchor and the cursor names lo, without a cursor only at the very start; a page with a cursor from fewer than 12 rounds has exactly as many message-like events as were asked for, 1 for 0 and 200 above 200; the server is asked if and only if fewer than that are listed before the anchor; a request that gave up is empty without a cursor; one whose start went stale serves some stretch before its anchor; it errs if and only if the start was reported and the anchor is not behind the newest gap |
| Timeline.PageInHistory | src/core.rs:1684-1691 | a page cut from the contiguous tail is a page of the full history |
| TimelineRuns.PagesShowEvents | src/core.rs:1658-1757 | joined page by page, the ids a client sees are those of the convertible events walked |
| TimelineRuns.RunShows | src/core.rs:1592-1762 | what any run shows is the convertible message-like events of its first history from its last page on |
| TimelineRuns.RunDecorated | src/core.rs:1658-1757 | every message of a run belongs to a message-like event its request walked and has the reactions, readers, summary and newest edit of that event |
| TimelineRuns.TimelineIsComplete | src/core.rs:1592-1762 | paging completeness for the client: an ended run shows exactly the convertible message-like events of the history as of its first request, in order, if and only if its last request did not end early with one before what it walked |
| TimelineRuns.TimelineShowsOnce | src/core.rs:1592-1762 | no message is shown twice over a run, ended or not |
| TimelineRuns.TimelineIsBounded | src/core.rs:1684-1691 | a run, ended or not, has at most history length + 1 pages |
| TimelineRuns.GaveUpEndsRun | src/core.rs:1685-1687 | a page that gave up is the empty end of a run, wherever its anchor is |
| TimelineRuns.GapOutlastsRounds | src/core.rs:1634-1641 | a gap newer than the cursor of which nothing is resolved in twelve rounds makes the request give up |
| TimelineRuns.GapHidesAnchor | src/core.rs:1634-1641 | a whole run of two requests ends that way: its oldest message is in the first history and is never shown |
| TimelineRuns.StaleStartEndsShort | src/core.rs:1634-1687 | a gap that comes after the start was reported ends a run at once with three messages unseen, and makes a request with an older anchor fail |
| TimelineClient.AnchorHeld | src/core.rs:1617-1622 | a cursor is still in the history when it is passed, so that its request does not fail |
| TimelineClient.RequestPage | src/core.rs:1592-1762 | a request at an anchor of the history is a valid call of a run or fails, and fails only on a stale start; it gave up if and only if its fetch did |
| TimelineClient.FollowTimeline | src/core.rs:1592-1762 | following `next` over the real requests, with any sync in between and during them, ends; it yields exactly the messages of the first history if and only if the last request did not end early with one before what it walked; it is broken off only by a stale start |
| Threads.ThreadCache.RunBackwardsOnce | src/core.rs:1828-1833 | a batch is newest first, contiguous with what was delivered and may overlap it |
| Threads.RoundExtends | src/core.rs:1834-1845 | filtering a batch, reversing it and putting it in front lists exactly the replies now loaded, however much the batch overlaps |
| Threads.ListedIsSuffix | src/core.rs:1788-1792 | the local list is a duplicate-free suffix of the replies, which are all events of the thread but the root |
| Threads.LoadReplies | src/core.rs:1788-1846 | through every round the local list is the replies loaded so far; the slice is what precedes the anchor in it |
| Threads.LeadWithRoot | src/core.rs:1925-1945 | the finished root goes in front, if it is to lead and can be shown |
| Threads.ThreadPageDecorated | src/core.rs:1882-1945 | every message of a page is that of a convertible reply of the stretch walked, with the reactions, readers and newest own edit of its id and the thread it converted with, or is the root in front with all that is its own |
| Threads.GivenUpDecorated | src/core.rs:1925-1945 | a request that gave up shows exactly the root, with all that is its own, if it is a first page and the root can be shown, and else nothing |
| Threads.Thread | src/core.rs:1766-1950 | a request that did not give up serves replies[lo..hi], led by the root where it belongs; a page with a cursor from fewer than 12 rounds has exactly as many replies as were asked for, 1 for 0 and 200 above 200; the server is asked if and only if fewer than that are listed before the anchor; one that gave up has no cursor and at most the root; it errs only when the anchor is not a reply of the thread |
| ThreadRuns.PageIds | src/core.rs:1925-1945 | a page shows its replies, led by the root, if it can be loaded and shown, on the page that reaches the start and on a first page that converts nothing |
| ThreadRuns.ThreadCovered | src/core.rs:1789-1880 | the replies a run shows are those of the thread as of the first request from its last page on, in at most one page more than it has replies |
| ThreadRuns.ThreadShows | src/core.rs:1848-1945 | a run shows those replies, led by the root where it leads the last page, and followed by the root where it filled in on the first |
| ThreadRuns.RunDecorated | src/core.rs:1848-1945 | every message of a run is a reply its request walked or the root, with all that is its own |
| ThreadRuns.ThreadIsComplete | src/core.rs:1766-1950 | an ended run shows every convertible reply once and in order if and only if its last request did not give up with one before its anchor |
| ThreadRuns.RootShownOnce | src/core.rs:1925-1926 | the root comes first when it leads, and appears exactly once if and only if it leads the last page or fills in on the first, but not both |
| ThreadRuns.RootShownTwice | src/core.rs:1925-1926 | a thread whose one reply is a sticker, read one message a page, shows the root twice |
| ThreadClient.RequestPage | src/core.rs:1766-1950 | a request at an anchor among the replies succeeds and is a valid call of a run |
| ThreadClient.FollowThread | src/core.rs:1766-1950 | following `next` over the real requests, with any sync in between, ends and yields every convertible reply with the root where the pages put it, if and only if the last request did not give up with a reply before its anchor |
| Relations.CachedRelations | src/core.rs:2280-2335 | the loop finds the last of the greatest-timestamp edits by the original sender, none if there is none, and the reactions in order with keys cut to 64 characters |
| Relations.ReactionsConcat | src/core.rs:2306-2333 | each related reaction gives exactly itself with its key cut, and anything else nothing, in the order listed |
| Relations.LiveConcat | src/core.rs:2611-2613 | a reaction counts exactly if its own id is not redacted, whatever is listed around it |
| Relations.NewestEditMeaning | src/core.rs:2317-2329 | the edit shown is by the author and no edit by the author is newer, or later with the same timestamp |
| Relations.NewestEditUnique | src/core.rs:2317-2329 | that description fits at most one edit |
| Relations.ForeignEditsIgnored | src/core.rs:2294-2320 | deleting everybody else's edits from the input never changes the edit shown |
| Relations.NewestEditOrderFree | src/core.rs:2321-2329 | when the author's edits have distinct timestamps any permutation of the relations shows the same edit |
| Relations.GroupReactions | src/core.rs:2608-2637 | the loop's order list and table hold the entries of the live reactions seen so far |
| Relations.Aggregate | src/core.rs:2602-2642 | the result is the summary of the live reactions |
| Relations.SummaryMeaning | src/core.rs:2602-2642 | one line for each key of a live reaction, in the order in which keys first appear; it lists who reacted with the key, each once, in order, by name and first reaction, counts them, and gives our own reaction if we are among them |
| Relations.KeysDistinct | src/core.rs:2614-2616 | one entry for each distinct live key |
| Relations.KeysInOrder | src/core.rs:2614-2641 | entries come in the order in which their keys first appear among the live reactions |
| Relations.SendersMeaning | src/core.rs:2623-2636 | the senders of a key are everyone who reacted with it, each once, with the id of their first live reaction |
| Relations.SendersInOrder | src/core.rs:2623-2636 | they are listed in the order in which they first reacted |
| Relations.MineMeaning | src/core.rs:2628-2630 | `mine` is set if and only if we are among the senders, and is that entry's reaction |
| Relations.SummaryCounts | src/core.rs:2627 | the counts add up to the number of distinct live (key, sender) pairs |
| Relations.RedactionIsFiltering | src/core.rs:2611-2613 | passing a redacted set is the same as filtering the input first |
| Framing.PiecesSplit | src/main.rs:182-187 | the pieces are the newline-split pieces of the input, each newline ending its piece |
| Framing.SplitUnique | src/main.rs:182-187 | there is only one such way to split |
| Framing.LinesMeaning | src/main.rs:180-194 | the lines are the newline-split pieces of the input up to its end or to the first of more than 1,048,576 bytes |
| Framing.RequestsAreNonBlank | src/main.rs:195-198 | the requests are exactly the lines that are not blank, each once and in order |
| Framing.ReadRequests | src/main.rs:180-198 | the requests are the lines that are not blank, picked at strictly ascending positions that hit every one of them, before the first line over 1 MiB including its newline; with the unread bytes the lines make up the input |
| Connection.InvNext | src/main.rs:128-217 | every step keeps conservation, faithful answers, the bounds, request order and event order |
| Connection.ReachableInv | src/main.rs:136-211 | in every reachable state each accepted request is in exactly one place, at most 8 run, at most 64 lines are queued, responses belong to their requests, and events go out as an in-order subsequence of the broadcasts |
| Connection.AllAnswered | src/main.rs:202-216 | on return without a broken writer, each request read has exactly one response written unless it would not serialise |
| Connection.EveryRequestAnswered | src/main.rs:202-216 | without write and serialisation failures every request read is answered exactly once, by its own response |
| Connection.NoEventLost | src/main.rs:147-167 | unless events come faster than the pusher takes them, one does not serialise, or pusher or writer stop, every event broadcast is written or on its way, in order |
| Connection.CleanRun | src/main.rs:139-145 | nothing is given up unless a response does not serialise or a write fails |
| Connection.WorkLowers | src/main.rs:199-216 | every step the daemon takes by itself lowers a measure |
| Connection.SomeStep | src/main.rs:136-216 | no deadlock, also not on a full queue: until return a step is possible unless the connection is idle and waits for the client |
| Connection.DrainWorkLowers | src/main.rs:213-216 | with the input ended and the pusher stopped, every step of the daemon lowers the work left and a broadcast leaves it unchanged |
| Connection.DrainEnds | src/main.rs:213-216 | once the input has ended the pusher can be stopped; from then on every run, broadcasts included, has at most 163 steps of the daemon, and when none is left the connection has returned |
| Socket.EveryLineAnswered | src/main.rs:128-217 | without write and serialisation failures a returned connection that has read its input has exactly one response written for each line of that input that is not blank, made for that line, and no other |
| Socket.EveryReadAnswered | src/main.rs:128-217 | the same in terms of what was read: each request read is answered once, in whatever order, and nothing else is |
| Session.SessionStore.Store | src/secrets.rs:45-55 | the keyring item is replaced, left alone, or replaced although the call reports failure |
| Session.SessionStore.WritePrivate | src/core.rs:3415-3425 | the file holds what was given, is as before, or is cut short |
| Session.SessionStore.SaveSession | src/core.rs:335-362 | a keyring that takes the secrets is named by the file, otherwise the file carries them; fails exactly when the file is not written |
| Session.SessionStore.LogIn | src/core.rs:896-937 | saves the new session and then keeps its store passphrase in memory; fails exactly when the file is not written |
| Session.SessionStore.FetchItem | src/secrets.rs:61-94 | the item, or an error when the keyring does not answer or stays locked |
| Session.SessionStore.LoadSession | src/core.rs:306-331 | every outcome of reading the session, and the migration of inline secrets |
| Session.SessionStore.Restore | src/core.rs:262-331 | loads the session and, once a client is built, keeps the store passphrase in memory and reports where the secrets are |
| Session.SessionStore.PersistTokens | src/core.rs:1188-1217 | saves the new tokens beside the passphrase in memory; succeeds exactly when the file can be read, there is a passphrase and the file is written, and else says which was missing |
| Session.SessionStore.PersistSyncToken | src/core.rs:1291-1297 | only the sync token in the file changes; succeeds exactly when the file can be read and written |
| Session.SessionStore.ForgetSession | src/core.rs:797-818 | the file goes; the item goes when the file did not say that it holds the secrets |
| SessionRuns.CurrentAfter | src/core.rs:306-362 | over every run, file and item hold only secrets saved last or whose saving failed since, and a file is never without secrets |
| SessionRuns.NeverStale | src/core.rs:306-331 | a load answers with such secrets or an error, never with older ones; the error for a file without secrets does not occur |
| SessionRuns.OpenHasPassphrase | src/core.rs:1188-1217 | a store passphrase is in memory exactly after a written login or a load from which a client was built, until a restart or a logout |
| SessionRuns.OpenPassphrase | src/core.rs:1188-1217 | it is then the passphrase of the account last logged in |
| SessionRuns.RefreshIsKept | src/core.rs:1188-1217 | a refresh that is written while it is there is what the next load answers with |
| SessionRuns.KeyringWhenItTakes | src/core.rs:335-362 | secrets go to the keyring whenever it takes them, and into the file only otherwise |
| SessionRuns.BackendIsReported | src/core.rs:292-362 | the backend reported is the one that holds the secrets |
| SessionLedger.BookAgrees | src/core.rs:262-362 | when no write fails, file, item and memory are at every moment as a ledger kept from the operations alone says |
| SessionLedger.LoadTellsLedger | src/core.rs:306-331 | when no write fails a load answers, from the operations alone, with exactly the account and tokens last saved if it gets at them, and else says why not |
| SessionLedger.ExactlyLastSaved | src/core.rs:306-362 | when no write fails, a load answers with exactly the secrets saved last |
| SessionLedger.OnlyLastSaved | src/core.rs:306-362 | and those are all that it may answer with |
| SessionLedger.RefreshAfterRestart | src/core.rs:292-1217 | tokens refreshed after a restart and a restore are the ones saved last |
| SessionRuns.ItemStands | src/core.rs:335-362 | a file that points to the keyring finds its item there, unless somebody deleted it |
| SessionRuns.LoadAnswers | src/core.rs:306-331 | an intact session loads as soon as the keyring is open and the disk writable, whatever failed before |
| SessionRuns.LoginCoherentIff | src/core.rs:896-937 | a login keeps server, store, passphrase and item of one account if and only if it does not store its secrets beside an unopened file that points to the keyring |
| SessionRuns.AccountSurvives | src/core.rs:896-937 | over runs without such a login, a load answers with the server, store path, passphrase and sync token of the last account logged in |
| SessionRuns.FailedLoginMixesAccounts | src/core.rs:932 | such a login makes the next load pair one account's store with another's secrets |
| SessionRuns.ForgetDeletesIff | src/core.rs:797-810 | a logout with a working keyring leaves no item if and only if there was none or the readable file did not carry the secrets |
| SessionRuns.ForgetLeavesItem | src/core.rs:804-810 | login to the keyring, refresh into the file, logout: the item stays |
| SessionRuns.ForgottenStaysForgotten | src/core.rs:797-810 | after a logout that removes the file, with the keyring up or down, no load answers until a login is written |
| Wav.ReadChunks | src/media.rs:604-626 | the walk stays in range, ends, and equals the recursive reading: the last well-formed `fmt ` and the last `data` chunk win |
| Wav.FormatSound | src/media.rs:618-619 | channels and rate are at least one for any input |
| Wav.FrameInside | src/media.rs:649-658 | every sample read lies inside the data |
| WavWriting.ChunksRoundTrip | src/media.rs:606-626 | reading a written chunk list gives it back, whatever its ids, order and odd or even lengths (RIFF) |
| WavWriting.ChunksThen | src/media.rs:606-626 | written chunks are read in front of whatever follows them |
| WavWriting.CutChunkIsKept | src/media.rs:614 | a last chunk that is cut short is read as far as it goes |
| WavWriting.DefaultsWithoutFormat | src/media.rs:604 | without a format chunk the recording is one channel of 16 bits at 48000 Hz |
| WavWriting.RefusedIff | src/media.rs:601-632 | each of the three errors comes exactly when the header, the samples or a known sample size is missing, in this order |
| WavWriting.FramesFit | src/media.rs:633-634 | as many frames are counted as fit in the data; a part of one at the end does not count |
| WavWriting.FormatRoundTrip | src/media.rs:617-621 | a written format chunk is read back, whatever surrounds its fields |
| WavWriting.ParseWritten | src/media.rs:601-632 | format and data of a written file are found in either order among other chunks |
| WavWriting.RecordingRoundTrip | src/media.rs:600-659 | a written 16- or 32-bit recording is read back: format, frame count and every sample of the first channel, sign included |
| Waveform.FillLevels | src/media.rs:640-662 | the nested loops fill in the root mean square of each bucket |
| Waveform.LoudnessCurve | src/media.rs:636-669 | the array computed in place is the specified curve |
| Waveform.AnalyseWav | src/media.rs:600-673 | the three errors in the code's order, else duration in frames over rate and the curve |
| CurveLaws.CurveMeaning | src/media.rs:636-670 | a hundred points in [0,1]; each squared is its bucket's mean square over the greatest one, all zero in silence |
| CurveLaws.CurveUnique | src/media.rs:636-670 | only one curve has that meaning |
| CurveLaws.EnergyConcat | src/media.rs:658 | the squares of two stretches add up |
| CurveLaws.EnergyOrderFree | src/media.rs:658 | the order of the samples does not matter |
| CurveLaws.ConstantPower | src/media.rs:658-661 | a bucket of samples that are all plus or minus x has mean square x * x |
| CurveLaws.BucketOrderFree | src/media.rs:640-662 | permuting the samples within buckets leaves the curve unchanged |
| CurveLaws.BucketSize | src/media.rs:639-646 | with at least a hundred frames each bucket has a hundredth of them, and with fewer the first buckets have one each |
| CurveLaws.ReachesOneIff | src/media.rs:663-668 | some point is 1 if and only if some covered sample is not zero; all points are 0 if and only if all are zero |
| CurveLaws.BucketsTile | src/media.rs:640-646 | the buckets are consecutive and disjoint and miss fewer than 100 trailing frames, and none when there are at most 100 |
| CurveLaws.ScaleInvariant | src/media.rs:636-670 | scaling all samples by a positive factor leaves the curve unchanged |
| CurveLaws.CurveOfRecording | src/media.rs:600-670 | the curve of a written recording depends only on the numbers in its first channel, not on sample size, other channels or chunks |
| SyncLoop.Status.FirstSync | src/core.rs:1226-1244 | until the first success: waits double from 2 s to 60 s, the error is shown, and the success clears it |
| SyncLoop.Status.Run | src/core.rs:1219-1280 | at every callback boundary `syncing` holds if and only if a sync has succeeded and none failed since, an error is shown if and only if the last one failed, the token is the latest written one, and the waits are those specified |
| SyncLoop.ShiftIsPower | src/core.rs:1267-1268 | the capped shift is the smaller of 2^(n+1) and 60 for every n |
| SyncLoop.WaitBounds | src/core.rs:1228-1274 | waits lie in 2 to 60 s, from 4 s after the first success, double, never shrink during an outage, and reach 60 |
| SyncLoop.FirstWaitIff | src/core.rs:1228-1268 | an outage starts at 2 s if and only if no sync has succeeded, and else at 4 s |
| SyncLoop.AllWaits | src/core.rs:1228-1274 | one wait for each failure, each in 2 to 60 s |
| SyncLoop.OutageStarts | src/core.rs:1228-1274 | among the waits of any run the first of an outage is 2 s before any success and 4 s after one |
| SyncLoop.OutageDoubles | src/core.rs:1228-1274 | and each next one is twice the one before it, but at most 60 s |
| SyncLoop.FailuresMeaning | src/core.rs:1254-1266 | the failures counted are those since the last success |
| SyncLoop.ErrorMeaning | src/core.rs:1236-1277 | an error is shown if and only if the last request failed, with its reason and whether a sync has ever succeeded |
| SyncLoop.TokenMeaning | src/core.rs:1231-1264 | the token is that of the last success that wrote its token, or the one from before |
| SyncLoop.RecoversAtOnce | src/core.rs:1259-1265 | one success ends an outage of any length, and the next outage starts at 4 s |
| SpaceListing.ReadListing | src/community.rs:225-248 | name, topic and count come from the space's own summary, the rooms are all others in order |
| SpaceListing.OneChild | src/community.rs:241-247 | a summary that is not the space's own gives a room with its id, name, topic and member count; without a name the id stands for it |
| SpaceListing.ChildrenConcat | src/community.rs:233-248 | the rooms come in the order of the summaries |
| SpaceListing.HeadingMeaning | src/community.rs:225-240 | name, topic and count are those of the last summary that is the space's own, or nothing |
| SpaceListing.CommunityState.Hierarchy | src/community.rs:189-260 | which requests are answered from the cache, and what each leaves in it |
| SpaceListing.EntriesHaveOrigins | src/community.rs:205-258 | every cache entry is the reply to a request under its alias that reached the server |
| SpaceListing.ListingsAreServers | src/community.rs:189-260 | every listing handed out is what the server answered just now, or less than five minutes ago under that alias |
| SpaceListing.RefusalsAreServers | src/community.rs:195-222 | every refusal handed out is what the server answered just now, or less than one minute ago under that alias |
| SpaceListing.NotAskedAgain | src/community.rs:195-203 | unless forgotten, a listing with rooms is not asked for again for five minutes and a refusal not for one |
| SpaceListing.ForgottenIsAsked | src/community.rs:75-77 | after an alias was forgotten the next request under it goes to the server |
| SpaceListing.EntryIsLastSent | src/community.rs:195-258 | an entry is the reply to the last request under its alias that reached the server, or had expired by then |
| SpaceListing.CachedIsLastSent | src/community.rs:195-197 | a listing out of the cache is the reply to that last request |
| SpaceListing.ListingTellsIff | src/community.rs:195-248 | the listing itself is the one for the space now asked for if and only if that request was for it, when the reply listed the space itself |
| SpaceListing.MovedAliasIsStale | src/community.rs:195-197 | after the alias has moved, the old space's rooms are handed out instead of the new one's |
| Joiner.RetryAfterOf | src/community.rs:334-348 | a wait for exactly the rate-limit answers: a second more than the server asks for, of which at most 300 s count; 31 s if it does not say, 2 s for a moment in the past |
| Joiner.Community.JoinPatiently | src/community.rs:351-367 | the attempt loop does what is specified, and never reaches the line that gives up after it |
| Joiner.Community.NextRoom | src/community.rs:396-407 | one round of the loop: the spacing but for the first room, the attempts, the announcement if joined, the counter one lower |
| Joiner.Community.JoinRooms | src/community.rs:372-411 | the rooms are worked through in order, the counter ends at 0, and exactly the rooms joined are announced |
| Joiner.PendingMeaning | src/community.rs:374-389 | the rooms to join are exactly those of the listing, fresh or cached, whose id parses and that we are not in |
| Joiner.PendingConcat | src/community.rs:379-389 | in the order of the listing |
| Joiner.JoinListed | src/community.rs:372-411 | the whole task: the listing from the cache or the server, those of its rooms joined and counted down, none without a listing, and the listing forgotten at the end |
| Joiner.TriesOfRoom | src/community.rs:351-367 | one to five attempts a room, in order, every one but the last rate-limited, and the last one only when it is the fifth |
| Joiner.AttemptsTakeTurns | src/community.rs:351-367 | attempts and sleeps take turns, and each sleep is as long as the answer before it says |
| Joiner.EveryRoomTried | src/community.rs:396-407 | every room is tried, one after the other, and nothing else is |
| Joiner.JoinedIff | src/community.rs:351-367 | a room is joined if and only if its last answer says so |
| Joiner.AnnouncedConcat | src/community.rs:400-407 | a room is announced exactly when its last answer says that it is joined, in the order of the rooms |
| Joiner.PacedRooms | src/community.rs:396-399 | between attempts at two rooms lie at least 5 s of sleep |
| Joiner.CountsDown | src/community.rs:395-407 | the counter starts at the number of rooms and falls by one with each room, to 0 |
| Joiner.TotalSleep | src/community.rs:351-399 | total sleep for n > 0 rooms is at most 5(n-1) + 1204n s |
| ReplyText.StripReplyFallback | src/core.rs:2416-2432 | the loop over lines computes the specified text |
| ReplyText.QuoteAloneStays | src/core.rs:2427-2428 | a body that nothing follows behind its first empty line, or that has none, is unchanged |
| ReplyText.BlockIsDropped | src/core.rs:2420-2431 | the first line is a quote: whatever lines follow it up to the first empty one are dropped |
| ReplyText.ChompsOne | src/core.rs:2420 | a line ending takes one carriage return with it and no more |
| ReplyText.JoinLinesIff | src/core.rs:2420-2431 | joining the lines of a text gives it back if and only if it is plain, and loses characters otherwise |
| ReplyText.RepliesLost | src/core.rs:2420-2431 | replies that do not come back: with a final newline, with a carriage return before a newline, and the empty one |
| ReplyText.StripUndoesRenderIff | src/core.rs:2414-2432 | stripping a rendered fallback gives the reply back if and only if the reply is not empty and plain (Matrix Client-Server API, "Fallbacks for rich replies") |
| ReplyPreviews.PreviewCache.ReplyPreview | src/core.rs:3334-3348 | a cached preview is returned, else the built one, which is stored in a table emptied when full |
| ReplyPreviews.PreviewCache.ForgetReplyPreview | src/core.rs:3328-3332 | exactly that preview is dropped |
| ReplyPreviews.Bounded | src/core.rs:3340-3346 | over every interleaving of requests the cache holds at most 4096 previews |
| ReplyPreviews.EndsFreshIff | src/core.rs:3339-3346 | a fresh cache stays fresh whichever build ends next if and only if every build under way is right |
| ReplyPreviews.BetweenFreshIff | src/core.rs:2195-2208 | between the event cache learning an edit and the handler forgetting the preview, the cache is fresh if and only if the message is not cached with another preview |
| ReplyPreviews.EditSafeIff | src/core.rs:2195-2208 | after both steps the cache is fresh, and stays so whichever build ends next if and only if no build of that message with another preview is under way |
| ReplyPreviews.AlwaysRightIff | src/core.rs:3319-3348 | over a whole run cache and builds are right at every moment, but for previews being forgotten, if and only if no edit overtakes a build and no change behind the handler's back meets a cached message or a build |
| ReplyPreviews.StaysFresh | src/core.rs:3319-3348 | in a run whose edits overtake no build and in which no change escapes the handler, only previews of messages whose edit is being handled may differ from a rebuild, however requests and edits interleave; with none being handled the cache is fresh |
| ReplyPreviews.OneAtATimeIsFresh | src/core.rs:3319-3348 | with one request or edit at a time and changes through handled edits only, the cache is fresh after each |
| ReplyPreviews.ForgottenTooEarlyIsStale | src/core.rs:2195-2208 | a handler that forgets before the event cache has learnt the edit leaves the earlier preview in the cache |
| ReplyPreviews.OvertakenBuildIsStale | src/core.rs:3339-3346 | an edit handled during a build leaves the earlier preview in the cache |

## Left out

- The Matrix SDK: HTTP, cryptography, stores, JSON, and the insides of its event cache; what the daemon relies on is `EventCache.RoomCache`, `Threads.ThreadCache` and the parameters.
- Events without an id: the code hands out no cursor for one and lists it as an empty id.
- Errors of the SDK while a page is loaded: the request fails and nothing is handed out.
- Message ids that do not parse as event ids: such a message gets no reactions, edit or receipts.
- Timeline.Lookups: read receipts of thread replies and of the root come from differently scoped lookups, which the model does not tell apart.
- Connection: read errors, a greeting that does not serialise, peer credentials, and text decoding; which lines are blank is a parameter of `Framing.ReadRequests`.
- Connection.DrainEnds: says nothing about a handler that never finishes, since request handlers are single steps.
- Interleavings of login, browser sign-in, cancel and logout across await points; the browser sign-in saves through the same operation as the password login.
- SessionRuns.AccountSurvives: does not model the store directory itself, only the path to it.
- Waveform.AnalyseWav: over the reals, not over 32- and 64-bit floating point, and without the unsupported size in the error text.
- SyncLoop.Status.Run: does not model the loop being told to stop or the SDK giving up, nor other writers of the error text.
- SpaceListing.CommunityState.Hierarchy: for requests one after another; two requests at once may both reach the server.
- Joiner.Community.JoinRooms: for runs without a leave, which aborts the joiner and clears the counter.
- ReplyPreviews.PreviewCache.ReplyPreview: keys are pairs of room and event instead of text joined with `|`, and what a build puts into a preview is not modelled.
- Capped downloads, bridge detection, direct-message policy, device verification, member and directory listings, and the request table: one-branch decisions, tables or SDK calls.
- Nothing was executed: all results are about the model.
