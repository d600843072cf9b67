/** What survives a restart: the session file, the keyring item, and how the two are kept
    in step while the keyring and the disk come and go. */
module Session {
  import opened Options

  datatype Auth = Password(session: string) | Oauth(clientId: string, tokens: string)

  /** What the keyring item holds. */
  datatype Secrets = Secrets(passphrase: string, auth: Auth)

  datatype Backend = Keyring | File

  datatype Saved = Saved(homeserver: string, storePath: string, syncToken: Option<string>, secrets: Option<Backend>,
                         passphrase: Option<string>, auth: Option<Auth>)

  /** `Torn` is a file that was truncated but not written out: it does not parse. */
  datatype SessionFile = Absent | Torn | Holds(saved: Saved)

  /** The file, our keyring item, and what the process keeps in memory. */
  datatype Disk = Disk(file: SessionFile, item: Option<Secrets>, passphrase: Option<string>, backend: Option<Backend>)

  // ---------- how the surroundings may answer ----------

  /** `StoredLate`: the keyring took the blob but the call timed out. */
  datatype StoreReply = Stored | Refused | StoredLate

  datatype LoadReply = Unreachable | Locked(unlocks: bool) | Open

  datatype WriteReply = Written | NotOpened | TornWrite

  datatype Failure = NoFile | Unreadable | KeyringFails | NoEntry | NoSecrets | NotWritten | NoPassphrase

  datatype Outcome = Loaded(saved: Saved, secrets: Secrets) | Done | Failed(why: Failure)

  // ---------- the operations as functions ----------

  function Inline(saved: Saved): Option<Secrets> {
    if saved.passphrase.Some? && saved.auth.Some? then Some(Secrets(saved.passphrase.value, saved.auth.value)) else None
  }

  /** The file contents for secrets that went to `where`. */
  function Sealed(saved: Saved, secrets: Secrets, where: Backend): Saved {
    match where
    case Keyring => saved.(secrets := Some(Keyring), passphrase := None, auth := None)
    case File => saved.(secrets := Some(File), passphrase := Some(secrets.passphrase), auth := Some(secrets.auth))
  }

  function WriteFile(d: Disk, saved: Saved, write: WriteReply): Disk {
    match write
    case Written => d.(file := Holds(saved))
    case NotOpened => d
    case TornWrite => d.(file := Torn)
  }

  function StoreItem(d: Disk, secrets: Secrets, store: StoreReply): Disk {
    if store == Refused then d else d.(item := Some(secrets))
  }

  function SavedAs(saved: Saved, secrets: Secrets, store: StoreReply): Saved {
    Sealed(saved, secrets, if store == Stored then Keyring else File)
  }

  function Save(d: Disk, saved: Saved, secrets: Secrets, store: StoreReply, write: WriteReply): Disk {
    var sealed := SavedAs(saved, secrets, store);
    var d' := WriteFile(StoreItem(d, secrets, store), sealed, write);
    if write == Written then d'.(backend := sealed.secrets) else d'
  }

  /** Reading the keyring; a locked one is only unlocked with a prompt. */
  function Fetch(d: Disk, prompt: bool, reply: LoadReply): Result<Option<Secrets>> {
    match reply
    case Unreachable => Err("the keyring did not answer")
    case Locked(unlocks) => if prompt && unlocks then Ok(d.item) else Err("the keyring is locked")
    case Open => Ok(d.item)
  }

  /** Fetch the saved session; inline secrets are moved to the keyring if it takes them. */
  function LoadOutcome(d: Disk, prompt: bool, reply: LoadReply, store: StoreReply, write: WriteReply): Outcome {
    match d.file
    case Absent => Failed(NoFile)
    case Torn => Failed(Unreadable)
    case Holds(saved) =>
      if Inline(saved).Some? then
        if write == Written then Loaded(SavedAs(saved, Inline(saved).value, store), Inline(saved).value)
        else Failed(NotWritten)
      else if saved.secrets == Some(Keyring) then
        match Fetch(d, prompt, reply)
        case Err(_) => Failed(KeyringFails)
        case Ok(None) => Failed(NoEntry)
        case Ok(Some(secrets)) => Loaded(saved.(passphrase := None, auth := None), secrets)
      else Failed(NoSecrets)
  }

  function LoadDisk(d: Disk, store: StoreReply, write: WriteReply): Disk {
    if d.file.Holds? && Inline(d.file.saved).Some?
    then Save(d, d.file.saved, Inline(d.file.saved).value, store, write) else d
  }

  /** How rewriting the file ends, which reads it first. */
  function WriteOutcome(file: SessionFile, write: WriteReply): Outcome {
    match file
    case Absent => Failed(NoFile)
    case Torn => Failed(Unreadable)
    case Holds(_) => if write == Written then Done else Failed(NotWritten)
  }

  // ---------- the class ----------

  class SessionStore {
    var file: SessionFile
    var item: Option<Secrets>
    var passphrase: Option<string>
    var backend: Option<Backend>

    function View(): Disk
      reads this
    {
      Disk(file, item, passphrase, backend)
    }

    /** Put the secrets in the keyring, replacing any previous item. */
    method Store(secrets: Secrets, reply: StoreReply) returns (ok: bool)
      modifies this`item
      ensures View() == StoreItem(old(View()), secrets, reply) && (ok <==> reply == Stored)
    {
      if reply != Refused {
        item := Some(secrets);
      }
      ok := reply == Stored;
    }

    /** Truncate and rewrite the session file. */
    method WritePrivate(saved: Saved, reply: WriteReply) returns (ok: bool)
      modifies this`file
      ensures View() == WriteFile(old(View()), saved, reply) && (ok <==> reply == Written)
    {
      match reply {
        case Written => file := Holds(saved);
        case NotOpened =>
        case TornWrite => file := Torn;
      }
      ok := reply == Written;
    }

    /** The keyring is tried first; the file then names it, or carries the secrets itself. */
    method SaveSession(given: Saved, secrets: Secrets, store: StoreReply, write: WriteReply) returns (r: Option<Saved>)
      modifies this
      ensures View() == Save(old(View()), given, secrets, store, write)
      ensures r == if write == Written then Some(SavedAs(given, secrets, store)) else None
    {
      var saved := given;
      var ok := Store(secrets, store);
      if ok {
        saved := saved.(secrets := Some(Keyring), passphrase := None, auth := None);
      } else {
        saved := saved.(secrets := Some(File), passphrase := Some(secrets.passphrase), auth := Some(secrets.auth));
      }
      ok := WritePrivate(saved, write);
      if !ok { return None; }
      backend := saved.secrets;
      r := Some(saved);
    }

    method FetchItem(prompt: bool, reply: LoadReply) returns (r: Result<Option<Secrets>>)
      ensures r == Fetch(View(), prompt, reply)
    {
      if reply.Unreachable? { return Err("the keyring did not answer"); }
      if reply.Locked? {
        if !prompt || !reply.unlocks { return Err("the keyring is locked"); }
      }
      r := Ok(item);
    }

    method LoadSession(prompt: bool, reply: LoadReply, store: StoreReply, write: WriteReply) returns (r: Outcome)
      modifies this
      ensures View() == LoadDisk(old(View()), store, write)
      ensures r == LoadOutcome(old(View()), prompt, reply, store, write)
    {
      if file.Absent? { return Failed(NoFile); }
      if file.Torn? { return Failed(Unreadable); }
      var saved := file.saved;
      var pass, auth := saved.passphrase, saved.auth;
      saved := saved.(passphrase := None, auth := None);
      if pass.Some? && auth.Some? {
        var secrets := Secrets(pass.value, auth.value);
        var again := SaveSession(saved, secrets, store, write);
        if again.None? { return Failed(NotWritten); }
        return Loaded(again.value, secrets);
      }
      if saved.secrets != Some(Keyring) { return Failed(NoSecrets); }
      var fetched := FetchItem(prompt, reply);
      match fetched {
        case Err(_) => return Failed(KeyringFails);
        case Ok(None) => return Failed(NoEntry);
        case Ok(Some(secrets)) => return Loaded(saved, secrets);
      }
    }

    /** Save refreshed tokens beside the passphrase kept in memory. */
    method PersistTokens(auth: Auth, store: StoreReply, write: WriteReply) returns (r: Outcome)
      modifies this
      ensures View() == Apply(old(View()), Refresh(auth, store, write))
      ensures r == if old(file.Holds? && passphrase.None?) then Failed(NoPassphrase) else WriteOutcome(old(file), write)
    {
      if file.Absent? { return Failed(NoFile); }
      if file.Torn? { return Failed(Unreadable); }
      if passphrase.None? { return Failed(NoPassphrase); }
      var saved := SaveSession(file.saved, Secrets(passphrase.value, auth), store, write);
      r := if saved.Some? then Done else Failed(NotWritten);
    }

    /** A new sync token goes into the file; nothing else changes. */
    method PersistSyncToken(token: string, write: WriteReply) returns (r: Outcome)
      modifies this
      ensures View() == Apply(old(View()), Sync(token, write))
      ensures r == WriteOutcome(old(file), write)
    {
      if file.Absent? { return Failed(NoFile); }
      if file.Torn? { return Failed(Unreadable); }
      var saved := file.saved.(syncToken := Some(token));
      var ok := WritePrivate(saved, write);
      r := if ok then Done else Failed(NotWritten);
    }

    /** A login: save the new session, and keep its store passphrase in memory. */
    method LogIn(homeserver: string, storePath: string, secrets: Secrets, store: StoreReply, write: WriteReply)
      returns (r: Outcome)
      modifies this
      ensures View() == Apply(old(View()), Login(homeserver, storePath, secrets, store, write))
      ensures r == if write == Written then Done else Failed(NotWritten)
    {
      var saved := SaveSession(Saved(homeserver, storePath, None, None, None, None), secrets, store, write);
      if saved.None? { return Failed(NotWritten); }
      passphrase := Some(secrets.passphrase);
      r := Done;
    }

    /** Restore the saved session. `opens`: a client could be built from what was loaded. */
    method Restore(prompt: bool, reply: LoadReply, store: StoreReply, write: WriteReply, opens: bool)
      returns (r: Outcome)
      modifies this
      ensures View() == Apply(old(View()), Load(prompt, reply, store, write, opens))
      ensures r == LoadOutcome(old(View()), prompt, reply, store, write)
    {
      r := LoadSession(prompt, reply, store, write);
      if r.Loaded? && opens {
        backend := r.saved.secrets;
        passphrase := Some(r.secrets.passphrase);
      }
    }

    /** Drop the saved session. `removed` and `deleted` say whether the file could be
        removed and the keyring item deleted. */
    method ForgetSession(removed: bool, deleted: bool)
      modifies this
      ensures View() == Apply(old(View()), Forget(removed, deleted))
    {
      var inKeyring := false;
      if file.Holds? {
        inKeyring := file.saved.secrets != Some(File);
      }
      if removed { file := Absent; }
      if inKeyring && deleted { item := None; }
      passphrase, backend := None, None;
    }
  }

  // ---------- operations as steps of a run ----------

  /** `opens`: the client could be built from what was loaded. `Wiped`: somebody else
      deletes our keyring item. */
  datatype Op =
    | Login(homeserver: string, storePath: string, secrets: Secrets, store: StoreReply, write: WriteReply)
    | Refresh(auth: Auth, store: StoreReply, write: WriteReply)
    | Sync(token: string, write: WriteReply)
    | Load(prompt: bool, reply: LoadReply, store: StoreReply, write: WriteReply, opens: bool)
    | Forget(removed: bool, deleted: bool)
    | Restart
    | Wiped

  function NewSession(homeserver: string, storePath: string): Saved {
    Saved(homeserver, storePath, None, None, None, None)
  }

  function Apply(d: Disk, op: Op): Disk {
    match op
    case Login(h, p, secrets, store, write) =>
      var d' := Save(d, NewSession(h, p), secrets, store, write);
      if write == Written then d'.(passphrase := Some(secrets.passphrase)) else d'
    case Refresh(auth, store, write) =>
      if d.file.Holds? && d.passphrase.Some?
      then Save(d, d.file.saved, Secrets(d.passphrase.value, auth), store, write) else d
    case Sync(token, write) =>
      if d.file.Holds? then WriteFile(d, d.file.saved.(syncToken := Some(token)), write) else d
    case Load(prompt, reply, store, write, opens) =>
      var r := LoadOutcome(d, prompt, reply, store, write);
      var d' := LoadDisk(d, store, write);
      if r.Loaded? && opens then d'.(passphrase := Some(r.secrets.passphrase), backend := r.saved.secrets) else d'
    case Forget(removed, deleted) =>
      var inKeyring := d.file.Holds? && d.file.saved.secrets != Some(File);
      Disk(if removed then Absent else d.file, if inKeyring && deleted then None else d.item, None, None)
    case Restart => d.(passphrase := None, backend := None)
    case Wiped => d.(item := None)
  }
}
