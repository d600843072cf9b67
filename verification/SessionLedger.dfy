/** The saved session as a ledger kept from the operations alone, which file, keyring item and
    memory agree with as long as the disk takes every write. */
module SessionLedger {
  import opened Options
  import opened Session
  import opened SessionRuns

  /** A saved session: whose it is, its tokens, and whether they are in the keyring, where the
      item may be lost. */
  datatype Kept = Kept(account: Account, auth: Auth, inKeyring: bool, lost: bool)

  datatype Ledger = Ledger(kept: Option<Kept>, open: bool)

  /** A restore gets at the secrets: they are in the file, or the keyring has them and is, or
      on a prompt becomes, unlocked. */
  predicate Reachable(k: Kept, load: Op)
    requires load.Load?
  {
    !k.inKeyring || (!k.lost && (load.reply.Open? || (load.prompt && load.reply == Locked(true))))
  }

  /** Writing secrets: into the keyring if it takes them. */
  function Rewritten(k: Kept, store: StoreReply): Kept {
    k.(inKeyring := store == Stored, lost := false)
  }

  function Entered(l: Ledger, op: Op): Ledger {
    match op
    case Login(h, p, secrets, store, _) =>
      Ledger(Some(Rewritten(Kept(Account(h, p, secrets.passphrase, None), secrets.auth, false, false), store)), true)
    case Refresh(auth, store, _) =>
      if l.kept.Some? && l.open then l.(kept := Some(Rewritten(l.kept.value.(auth := auth), store))) else l
    case Sync(token, _) =>
      if l.kept.None? then l
      else l.(kept := Some(l.kept.value.(account := l.kept.value.account.(syncToken := Some(token)))))
    case Load(_, _, store, _, opens) =>
      if l.kept.None? || !Reachable(l.kept.value, op) then l
      else
        var kept := if l.kept.value.inKeyring then l.kept.value else Rewritten(l.kept.value, store);
        Ledger(Some(kept), l.open || opens)
    case Forget(removed, deleted) =>
      Ledger(if removed || l.kept.None? then None
             else Some(l.kept.value.(lost := l.kept.value.lost || (l.kept.value.inKeyring && deleted))), false)
    case Restart => l.(open := false)
    case Wiped => if l.kept.None? then l else l.(kept := Some(l.kept.value.(lost := l.kept.value.inKeyring)))
  }

  function Book(ops: seq<Op>): Ledger {
    if ops == [] then Ledger(None, false) else Entered(Book(ops[..|ops| - 1]), ops[|ops| - 1])
  }

  ghost predicate WritesWork(op: Op) {
    match op
    case Login(_, _, _, _, write) => write == Written
    case Refresh(_, _, write) => write == Written
    case Sync(_, write) => write == Written
    case Load(_, _, _, write, _) => write == Written
    case _ => true
  }

  ghost predicate AllWritten(ops: seq<Op>) {
    forall k :: 0 <= k < |ops| ==> WritesWork(ops[k])
  }

  /** File, item and memory are as the ledger says. */
  ghost predicate Agrees(d: Disk, l: Ledger) {
    (l.open <==> d.passphrase.Some?) &&
    match l.kept
    case None => d.file.Absent? && !l.open
    case Some(k) =>
      d.file.Holds? && Holds(d, k) && (l.open ==> d.passphrase == Some(k.account.passphrase))
  }

  ghost predicate Holds(d: Disk, k: Kept)
    requires d.file.Holds?
  {
    var saved, secrets := d.file.saved, Secrets(k.account.passphrase, k.auth);
    saved.homeserver == k.account.homeserver && saved.storePath == k.account.storePath &&
    saved.syncToken == k.account.syncToken &&
    if k.inKeyring then
      saved.secrets == Some(Keyring) && saved.passphrase.None? && saved.auth.None? &&
      d.item == if k.lost then None else Some(secrets)
    else
      saved.secrets == Some(File) && saved.passphrase == Some(secrets.passphrase) && saved.auth == Some(secrets.auth)
  }

  lemma {:induction false} StepAgrees(d: Disk, l: Ledger, op: Op)
    requires Agrees(d, l) && WritesWork(op)
    ensures Agrees(Apply(d, op), Entered(l, op))
  {
  }

  lemma {:induction false} BookAgrees(ops: seq<Op>)
    requires AllWritten(ops)
    ensures Agrees(Run(CLEAN, ops), Book(ops))
  {
    if ops != [] {
      BookAgrees(ops[..|ops| - 1]);
      assert WritesWork(ops[|ops| - 1]);
      StepAgrees(Run(CLEAN, ops[..|ops| - 1]), Book(ops[..|ops| - 1]), ops[|ops| - 1]);
    }
  }

  /** What a load answers, from the operations alone: everything the ledger has, if it can get
      at the secrets, and otherwise why not. */
  lemma {:induction false} LoadTellsLedger(ops: seq<Op>, load: Op)
    requires load.Load? && AllWritten(ops) && load.write == Written
    ensures var r := Answer(Run(CLEAN, ops), load);
            match Book(ops).kept
            case None => r == Failed(NoFile)
            case Some(k) =>
              if Reachable(k, load) then
                r.Loaded? && r.secrets == Secrets(k.account.passphrase, k.auth) &&
                k.account == Account(r.saved.homeserver, r.saved.storePath, r.secrets.passphrase, r.saved.syncToken)
              else
                r == Failed(if k.lost && (load.reply.Open? || (load.prompt && load.reply == Locked(true)))
                            then NoEntry else KeyringFails)
  {
    BookAgrees(ops);
  }

  /** The secrets saved last, while there is a session. */
  function LastSaved(ops: seq<Op>): Option<Secrets> {
    match Book(ops).kept
    case None => None
    case Some(k) => Some(Secrets(k.account.passphrase, k.auth))
  }

  /** With a disk that takes every write, a load answers with exactly the secrets saved last. */
  lemma {:induction false} ExactlyLastSaved(ops: seq<Op>, load: Op)
    requires load.Load? && AllWritten(ops)
    ensures var r := Answer(Run(CLEAN, ops), load);
            r.Loaded? ==> LastSaved(ops) == Some(r.secrets)
  {
    BookAgrees(ops);
  }

  /** And those are all that may be answered. */
  lemma {:induction false} OnlyLastSaved(ops: seq<Op>)
    requires AllWritten(ops)
    ensures Owed(ops) == match LastSaved(ops) case Some(s) => {s} case None => {}
  {
    if ops != [] {
      var before := ops[..|ops| - 1];
      OnlyLastSaved(before);
      BookAgrees(before);
      OpenHasPassphrase(before);
      assert WritesWork(ops[|ops| - 1]);
    }
  }

  /** A refresh after a restart is kept: log in, restart, restore, refresh the tokens, and the
      next load has the new ones. */
  lemma {:induction false} RefreshAfterRestart(p: string, first: Auth, second: Auth)
    ensures LastSaved([Login("h", "s", Secrets(p, first), Stored, Written)] + [Restart] +
                      [Load(false, Open, Stored, Written, true)] + [Refresh(second, Stored, Written)]) ==
            Some(Secrets(p, second))
  {
    var login, load := Login("h", "s", Secrets(p, first), Stored, Written), Load(false, Open, Stored, Written, true);
    assert [login][..0] == [];
    assert ([login] + [Restart])[..1] == [login];
    assert ([login] + [Restart] + [load])[..2] == [login] + [Restart];
    assert ([login] + [Restart] + [load] + [Refresh(second, Stored, Written)])[..3] == [login] + [Restart] + [load];
    assert Book([login]) == Entered(Ledger(None, false), login);
    assert Book([login] + [Restart]) == Entered(Book([login]), Restart);
    assert Book([login] + [Restart] + [load]) == Entered(Book([login] + [Restart]), load);
  }
}
