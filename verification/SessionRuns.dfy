/** What the stored session is worth over whole runs of logins, refreshes, syncs, loads,
    logouts and restarts, whatever the keyring and the disk answer. */
module SessionRuns {
  import opened Options
  import opened Session

  function Answer(d: Disk, op: Op): Outcome
    requires op.Load?
  {
    LoadOutcome(d, op.prompt, op.reply, op.store, op.write)
  }

  function Run(d: Disk, ops: seq<Op>): Disk {
    if ops == [] then d else Apply(Run(d, ops[..|ops| - 1]), ops[|ops| - 1])
  }

  /** A client is open after these operations: a login was written or a session restored since
      the last restart and logout. */
  function IsOpen(ops: seq<Op>): bool {
    if ops == [] then false
    else
      var before, op := ops[..|ops| - 1], ops[|ops| - 1];
      match op
      case Login(_, _, _, _, write) => write == Written || IsOpen(before)
      case Load(_, _, _, _, opens) => (opens && Answer(Run(CLEAN, before), op).Loaded?) || IsOpen(before)
      case Forget(_, _) => false
      case Restart => false
      case _ => IsOpen(before)
  }

  /** An open client has its store passphrase in memory, and only an open one. */
  lemma {:induction false} OpenHasPassphrase(ops: seq<Op>)
    ensures Run(CLEAN, ops).passphrase.Some? <==> IsOpen(ops)
  {
    if ops != [] { OpenHasPassphrase(ops[..|ops| - 1]); }
  }

  /** The save an operation attempts, if any: the secrets it hands to `save_session`. An open
      client saves every token refresh while there is a session file. */
  function Attempt(d: Disk, op: Op, open: bool): Option<(Secrets, WriteReply)>
    requires open ==> d.passphrase.Some?
  {
    match op
    case Login(_, _, secrets, _, write) => Some((secrets, write))
    case Refresh(auth, _, write) =>
      if d.file.Holds? && open then Some((Secrets(d.passphrase.value, auth), write)) else None
    case Load(_, _, _, write, _) =>
      if d.file.Holds? && Inline(d.file.saved).Some? then Some((Inline(d.file.saved).value, write)) else None
    case _ => None
  }

  /** The secrets a load may answer with: the last ones saved, and any whose saving has
      failed since. Nothing once the session is forgotten or its file is torn. */
  function Owed(ops: seq<Op>): set<Secrets> {
    if ops == [] then {}
    else
      var before := ops[..|ops| - 1];
      OpenHasPassphrase(before);
      OwedAfter(Run(CLEAN, before), Owed(before), ops[|ops| - 1], IsOpen(before))
  }

  function OwedAfter(d: Disk, owed: set<Secrets>, op: Op, open: bool): set<Secrets>
    requires open ==> d.passphrase.Some?
  {
    match Attempt(d, op, open)
    case Some((secrets, write)) =>
      (match write
       case Written => {secrets}
       case NotOpened => owed + {secrets}
       case TornWrite => {})
    case None =>
      if op.Forget? && op.removed then {}
      else if op.Sync? && d.file.Holds? && op.write == TornWrite then {}
      else owed
  }

  const CLEAN := Disk(Absent, None, None, None)

  /** The file either carries its secrets or points to the keyring. */
  ghost predicate Complete(file: SessionFile) {
    file.Holds? ==> Inline(file.saved).Some? ||
                    (file.saved.secrets == Some(Keyring) && file.saved.passphrase.None? && file.saved.auth.None?)
  }

  ghost predicate Current(d: Disk, owed: set<Secrets>) {
    Complete(d.file) &&
    (d.file.Holds? && Inline(d.file.saved).Some? ==>
      Inline(d.file.saved).value in owed && d.file.saved.secrets == Some(File)) &&
    (d.file.Holds? && Inline(d.file.saved).None? && d.item.Some? ==> d.item.value in owed)
  }

  lemma {:induction false} StepCurrent(d: Disk, owed: set<Secrets>, op: Op, open: bool)
    requires Current(d, owed) && (open <==> d.passphrase.Some?)
    ensures Current(Apply(d, op), OwedAfter(d, owed, op, open))
  {
  }

  lemma {:induction false} CurrentAfter(ops: seq<Op>)
    ensures Current(Run(CLEAN, ops), Owed(ops))
  {
    if ops != [] {
      var before := ops[..|ops| - 1];
      CurrentAfter(before);
      OpenHasPassphrase(before);
      StepCurrent(Run(CLEAN, before), Owed(before), ops[|ops| - 1], IsOpen(before));
    }
  }

  /** Secrets never go stale: after any operations, under any behaviour of the keyring and
      the disk, a load answers with secrets that were saved last, or whose saving failed
      since, or with an error; and never with the error for a file without secrets. */
  lemma {:induction false} NeverStale(ops: seq<Op>, load: Op)
    requires load.Load?
    ensures var r := Answer(Run(CLEAN, ops), load);
            (r.Loaded? ==> r.secrets in Owed(ops)) && r != Failed(NoSecrets) && r != Done
  {
    CurrentAfter(ops);
  }

  // ---------- a load does answer ----------

  /** Nobody wipes the item, and a logout that deletes it removes the file too. */
  ghost predicate KeepsItem(op: Op) {
    !op.Wiped? && (op.Forget? && op.deleted ==> op.removed)
  }

  lemma {:induction false} ItemStands(ops: seq<Op>)
    requires forall k :: 0 <= k < |ops| ==> KeepsItem(ops[k])
    ensures var d := Run(CLEAN, ops);
            d.file.Holds? && Inline(d.file.saved).None? ==> d.item.Some?
  {
    if ops != [] {
      assert KeepsItem(ops[|ops| - 1]);
      ItemStands(ops[..|ops| - 1]);
      CurrentAfter(ops[..|ops| - 1]);
    }
  }

  /** An intact session is answered as soon as the keyring is open and the disk writable,
      whatever went wrong before. */
  lemma {:induction false} LoadAnswers(ops: seq<Op>, load: Op)
    requires forall k :: 0 <= k < |ops| ==> KeepsItem(ops[k])
    requires load.Load? && load.write == Written
    requires load.reply.Open? || (load.prompt && load.reply == Locked(true))
    requires Run(CLEAN, ops).file.Holds?
    ensures Answer(Run(CLEAN, ops), load).Loaded?
  {
    ItemStands(ops);
    CurrentAfter(ops);
  }

  // ---------- one account throughout ----------

  /** Whose session it is: what the last successful login fixed, and the sync token since. */
  datatype Account = Account(homeserver: string, storePath: string, passphrase: string, syncToken: Option<string>)

  function AccountAfter(d: Disk, owner: Option<Account>, op: Op): Option<Account> {
    match op
    case Login(h, p, secrets, _, Written) => Some(Account(h, p, secrets.passphrase, None))
    case Sync(token, Written) =>
      if d.file.Holds? && owner.Some? then Some(owner.value.(syncToken := Some(token))) else owner
    case _ => owner
  }

  function Owner(ops: seq<Op>): Option<Account> {
    if ops == [] then None
    else AccountAfter(Run(CLEAN, ops[..|ops| - 1]), Owner(ops[..|ops| - 1]), ops[|ops| - 1])
  }

  /** File, item and memory all belong to that account. */
  ghost predicate Coherent(d: Disk, owner: Option<Account>) {
    d.file.Holds? ==>
      owner.Some? && d.file.saved.homeserver == owner.value.homeserver &&
      d.file.saved.storePath == owner.value.storePath && d.file.saved.syncToken == owner.value.syncToken &&
      (d.passphrase.Some? ==> d.passphrase.value == owner.value.passphrase) &&
      (match Inline(d.file.saved)
       case Some(secrets) => secrets.passphrase == owner.value.passphrase
       case None => d.item.Some? ==> d.item.value.passphrase == owner.value.passphrase)
  }

  /** A login whose secrets reach the keyring while the file, which could not be opened,
      keeps pointing there for an earlier account. */
  predicate Mixes(d: Disk, op: Op) {
    op.Login? && op.write == NotOpened && op.store != Refused && d.file.Holds? && Inline(d.file.saved).None?
  }

  /** A login keeps the saved session coherent exactly when it does not mix. The store
      passphrase of a new login is random, so it differs from the earlier one. */
  lemma {:induction false} LoginCoherentIff(d: Disk, owner: Option<Account>, op: Op)
    requires op.Login? && Coherent(d, owner) && Complete(d.file)
    requires owner.Some? ==> op.secrets.passphrase != owner.value.passphrase
    ensures Coherent(Apply(d, op), AccountAfter(d, owner, op)) <==> !Mixes(d, op)
  {
  }

  lemma {:induction false} StepCoherent(d: Disk, owner: Option<Account>, op: Op)
    requires Coherent(d, owner) && Complete(d.file) && !Mixes(d, op)
    ensures Coherent(Apply(d, op), AccountAfter(d, owner, op))
  {
  }

  lemma {:induction false} CoherentAfter(ops: seq<Op>)
    requires forall k :: 0 <= k < |ops| ==> !Mixes(Run(CLEAN, ops[..k]), ops[k])
    ensures Coherent(Run(CLEAN, ops), Owner(ops))
  {
    if ops != [] {
      var n := |ops| - 1;
      forall k | 0 <= k < n ensures !Mixes(Run(CLEAN, ops[..n][..k]), ops[..n][k]) {
        assert ops[..n][..k] == ops[..k];
      }
      CoherentAfter(ops[..n]);
      CurrentAfter(ops[..n]);
      StepCoherent(Run(CLEAN, ops[..n]), Owner(ops[..n]), ops[n]);
    }
  }

  /** Over every run in which no login mixes, a load answers with the home server, store,
      store passphrase and sync token of one account: the last that logged in. */
  lemma {:induction false} AccountSurvives(ops: seq<Op>, load: Op)
    requires load.Load? && forall k :: 0 <= k < |ops| ==> !Mixes(Run(CLEAN, ops[..k]), ops[k])
    ensures var r := Answer(Run(CLEAN, ops), load);
            r.Loaded? ==> Owner(ops) == Some(Account(r.saved.homeserver, r.saved.storePath,
                                                     r.secrets.passphrase, r.saved.syncToken))
  {
    CoherentAfter(ops);
    CurrentAfter(ops);
  }

  /** While a client is open its store passphrase in memory is the account's. */
  lemma {:induction false} OpenPassphrase(ops: seq<Op>)
    requires forall k :: 0 <= k < |ops| ==> !Mixes(Run(CLEAN, ops[..k]), ops[k])
    requires IsOpen(ops) && Run(CLEAN, ops).file.Holds?
    ensures Owner(ops).Some? && Run(CLEAN, ops).passphrase == Some(Owner(ops).value.passphrase)
  {
    OpenHasPassphrase(ops);
    CoherentAfter(ops);
  }

  /** No token refresh is lost while a client is open: once it is written, a load that answers
      gives the new tokens with the account's store passphrase, and one does answer when the
      keyring is open and the disk writable. */
  lemma {:induction false} RefreshIsKept(ops: seq<Op>, auth: Auth, store: StoreReply, load: Op)
    requires forall k :: 0 <= k < |ops| ==> !Mixes(Run(CLEAN, ops[..k]), ops[k])
    requires IsOpen(ops) && Run(CLEAN, ops).file.Holds? && load.Load?
    ensures var r := Answer(Run(CLEAN, ops + [Refresh(auth, store, Written)]), load);
            Owner(ops).Some? &&
            (r.Loaded? ==> r.secrets == Secrets(Owner(ops).value.passphrase, auth)) &&
            (load.reply.Open? && load.write == Written ==> r.Loaded?)
  {
    var all := ops + [Refresh(auth, store, Written)];
    assert all[..|ops|] == ops;
    OpenPassphrase(ops);
    CurrentAfter(ops);
  }

  // ---------- where the secrets are ----------

  /** A save that is written puts the secrets into the keyring when it takes them, and then
      none into the file; otherwise all of them into the file. */
  lemma {:induction false} KeyringWhenItTakes(d: Disk, op: Op, open: bool)
    requires (open <==> d.passphrase.Some?) && Attempt(d, op, open).Some? && Attempt(d, op, open).value.1 == Written
    ensures var d', secrets := Apply(d, op), Attempt(d, op, open).value.0;
            d'.file.Holds? &&
            if op.store == Stored then
              d'.item == Some(secrets) && d'.file.saved.secrets == Some(Keyring) &&
              d'.file.saved.passphrase == None && d'.file.saved.auth == None
            else
              d'.file.saved.secrets == Some(File) && d'.file.saved.passphrase == Some(secrets.passphrase) &&
              d'.file.saved.auth == Some(secrets.auth)
  {
  }

  /** What the daemon reports about where the secrets are is what the file says, whenever it
      reports something, and it does while a client is open. */
  lemma {:induction false} BackendIsReported(ops: seq<Op>)
    ensures var d := Run(CLEAN, ops);
            d.file.Holds? ==> (d.backend.Some? ==> d.backend == d.file.saved.secrets) &&
                              (IsOpen(ops) ==> d.backend.Some?)
  {
    if ops != [] {
      BackendIsReported(ops[..|ops| - 1]);
      OpenHasPassphrase(ops[..|ops| - 1]);
      CurrentAfter(ops[..|ops| - 1]);
    }
  }

  /** The mix is real: an earlier account is in the keyring, which is down at a restart; the
      user logs in anew and the session file cannot be opened. The next load pairs the first
      account's server and store with the second one's secrets. */
  lemma {:induction false} FailedLoginMixesAccounts(first: Secrets, second: Secrets)
    ensures var d := Run(CLEAN, [Login("a", "store-a", first, Stored, Written), Restart,
                                 Login("b", "store-b", second, Stored, NotOpened)]);
            var r := Answer(d, Load(false, Open, Stored, Written, true));
            r.Loaded? && r.saved.homeserver == "a" && r.saved.storePath == "store-a" && r.secrets == second
  {
    var ops := [Login("a", "store-a", first, Stored, Written), Restart,
                Login("b", "store-b", second, Stored, NotOpened)];
    assert ops[..2] == [Login("a", "store-a", first, Stored, Written), Restart];
    assert ops[..2][..1] == [Login("a", "store-a", first, Stored, Written)];
    assert Run(CLEAN, ops[..2]) == Apply(Run(CLEAN, [ops[0]]), Restart);
  }

  // ---------- what a logout leaves behind ----------

  /** A logout promises to delete the keyring item. With a keyring that deletes, it does so
      in every run exactly when there is no item or the file that can be read carries no
      secrets itself: an item left over from before the secrets moved to the file stays. */
  lemma {:induction false} ForgetDeletesIff(ops: seq<Op>)
    ensures var d := Run(CLEAN, ops);
            Apply(d, Forget(true, true)).item.None? <==>
            d.item.None? || (d.file.Holds? && Inline(d.file.saved).None?)
  {
    CurrentAfter(ops);
  }

  lemma {:induction false} ForgetLeavesItem(secrets: Secrets, auth: Auth)
    ensures Run(CLEAN, [Login("h", "p", secrets, Stored, Written), Refresh(auth, Refused, Written),
                        Forget(true, true)]).item == Some(secrets)
  {
    var ops := [Login("h", "p", secrets, Stored, Written), Refresh(auth, Refused, Written), Forget(true, true)];
    assert ops[..2] == [Login("h", "p", secrets, Stored, Written), Refresh(auth, Refused, Written)];
    assert ops[..2][..1] == [Login("h", "p", secrets, Stored, Written)];
    assert Run(CLEAN, ops[..2]) == Apply(Run(CLEAN, [ops[0]]), ops[1]);
  }

  /** Whatever is left, and whether or not the keyring could be reached, a logout that removes
      the file ends the session: until the next login is written no load answers. */
  lemma {:induction false} ForgottenStaysForgotten(ops: seq<Op>, deleted: bool, later: seq<Op>, load: Op)
    requires load.Load? && forall k :: 0 <= k < |later| ==> !(later[k].Login? && later[k].write == Written)
    ensures !Answer(Run(Run(CLEAN, ops + [Forget(true, deleted)]), later), load).Loaded?
  {
    assert (ops + [Forget(true, deleted)])[..|ops|] == ops;
    NoFileAfter(Run(CLEAN, ops + [Forget(true, deleted)]), later);
  }

  lemma {:induction false} NoFileAfter(d: Disk, later: seq<Op>)
    requires !d.file.Holds? && forall k :: 0 <= k < |later| ==> !(later[k].Login? && later[k].write == Written)
    ensures !Run(d, later).file.Holds?
  {
    if later != [] {
      assert !(later[|later| - 1].Login? && later[|later| - 1].write == Written);
      NoFileAfter(d, later[..|later| - 1]);
    }
  }
}
