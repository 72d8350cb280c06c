/** Creating and restoring backups, as loops over the tables. */
module BackupService {
  import opened Common
  import opened KeyEncryption
  import opened BackupFormat
  import opened BackupTables
  import opened Rows
  import opened Upsert

  /** The libraries and the at-rest key the service works with. */
  datatype Env = Env(cipher: Cipher, utf8: Utf8, json: Json<Body>, atRest: Option<Fernet>)

  ghost predicate EnvOk(env: Env) {
    IsSound(env.cipher) && IsUtf8(env.utf8) && ReadsBack(env.json) && Usable(env.atRest)
  }

  /** The random bytes of one backup. */
  datatype Entropy = Entropy(salt: Bytes, nonce: Bytes, caKeys: Randomness, certKeys: Randomness)

  predicate EntropyOk(e: Entropy) { |e.salt| == SALT_SIZE && |e.nonce| == NONCE_SIZE }

  predicate StrongPassword(password: string) {
    |password| >= 12 && |set c | c in password| >= 8
  }

  /** create_backup */
  function Create(env: Env, t: Tables, password: string, e: Entropy): Result<Bytes, BackupError> {
    if !StrongPassword(password) then Err(WeakPassword)
    else
      var master := env.cipher.master(password, e.salt);
      match ExportBody(env.cipher, env.utf8, env.atRest, t, master, e.caKeys, e.certKeys)
      case None => Err(BadCertificate)
      case Some(body) => Ok(Pack(env.cipher, env.utf8, env.json, body, master, e.salt, e.nonce))
  }

  /** restore_backup: an error leaves the tables as they were. */
  function Restore(env: Env, t: Tables, file: Bytes, password: string, draws: Draws): Result<Tables, BackupError> {
    match Unpack(env.cipher, env.utf8, env.json, file, password)
    case Err(error) => Err(error)
    case Ok((body, master)) =>
      match RestoreBody(env.cipher, env.utf8, env.atRest, t, body, master, draws)
      case None => Err(KeyUnreadable)
      case Some(next) => Ok(next)
  }

  /** A backup restored into an empty store with its password gives back what it exported; with any password that derives
      another key, and into any store, it is refused. */
  lemma {:induction false} BackupRestores(env: Env, t: Tables, password: string, e: Entropy, draws: Draws, other: string, target: Tables)
    requires EnvOk(env) && EntropyOk(e) && TablesOk(t) && Create(env, t, password, e).Ok?
    requires var c, master := env.cipher, env.cipher.master(password, e.salt);
      TellsApart(c, master, c.master(other, e.salt), e.nonce,
                 Plaintext(env.utf8, env.json, ExportBody(c, env.utf8, env.atRest, t, master, e.caKeys, e.certKeys).value))
    ensures var file := Create(env, t, password, e).value;
            && Restore(env, EMPTY, file, password, draws).Ok?
            && Survives(env.utf8, env.atRest, t, Restore(env, EMPTY, file, password, draws).value)
            && (env.cipher.master(other, e.salt) != env.cipher.master(password, e.salt) ==>
                  Restore(env, target, file, other, draws) == Err(CannotDecrypt))
  {
    var master := env.cipher.master(password, e.salt);
    var body := ExportBody(env.cipher, env.utf8, env.atRest, t, master, e.caKeys, e.certKeys).value;
    UnpackPack(env.cipher, env.utf8, env.json, body, password, e.salt, e.nonce, password);
    UnpackPack(env.cipher, env.utf8, env.json, body, password, e.salt, e.nonce, other);
    BodyIntoEmpty(env.cipher, env.utf8, env.atRest, t, master, e.caKeys, e.certKeys, draws);
  }

  /** Any file that restores can be restored again with no further effect, on any store. */
  lemma {:induction false} RestoringAgainChangesNothing(env: Env, t: Tables, file: Bytes, password: string, draws: Draws, again: Draws)
    requires EnvOk(env) && Restore(env, t, file, password, draws).Ok?
    ensures var once := Restore(env, t, file, password, draws).value;
            && Restore(env, once, file, password, again).Ok?
            && SameContents(env.atRest, Restore(env, once, file, password, again).value, once)
  {
    var (body, master) := Unpack(env.cipher, env.utf8, env.json, file, password).value;
    RestoreTwiceIsOnce(env.cipher, env.utf8, env.atRest, t, body, master, draws, again);
  }

  // ---- the loops ----

  /** One restore loop: each document updates the row with its key or is added. */
  method UpsertRows<R, D>(ops: Ops<R, D>, rows: seq<R>, docs: seq<D>) returns (next: seq<R>)
    ensures next == All(ops, rows, docs)
  {
    next := rows;
    for i := 0 to |docs|
      invariant next == All(ops, rows, docs[..i])
    {
      assert docs[..i + 1][..i] == docs[..i];
      var at := Find(ops.rowKey, next, ops.docKey(docs[i]));
      if at < |next| {
        next := next[at := ops.update(next[at], docs[i])];
      } else {
        next := next + [ops.insert(docs[i])];
      }
    }
    assert docs[..|docs|] == docs;
  }

  /** The loop over authorities or certificates, decrypting each private key as it comes; None when one fails. */
  method RestoreHolders(env: Env, rows: seq<Holder>, docs: seq<HolderDoc>, master: Bytes, r: nat -> nat)
    returns (next: Option<seq<Holder>>)
    ensures next == match OpenDocs(env.cipher, env.utf8, docs, master)
                    case None => None
                    case Some(ds) => Some(All(HolderOps(env.utf8, env.atRest), rows, Numbered(ds, r)))
  {
    var ops := HolderOps(env.utf8, env.atRest);
    var table := rows;
    ghost var done: seq<Draft> := [];
    assert docs[..0] == [];
    for i := 0 to |docs|
      invariant |done| == i && OpenDocs(env.cipher, env.utf8, docs[..i], master) == Some(done)
      invariant table == All(ops, rows, Numbered(done, r))
    {
      assert docs[..i + 1][..i] == docs[..i];
      var draft := OpenDoc(env.cipher, env.utf8, docs[i], master);
      if draft.None? {
        OneUnreadable(env.cipher, env.utf8, docs, i, master);
        return None;
      }
      var d := (draft.value, r(i));
      ghost var numbered := Numbered(done + [draft.value], r);
      assert numbered[..i] == Numbered(done, r) && numbered[i] == d;
      var at := Find(ops.rowKey, table, ops.docKey(d));
      if at < |table| {
        table := table[at := ops.update(table[at], d)];
      } else {
        table := table + [ops.insert(d)];
      }
      done := done + [draft.value];
    }
    assert docs[..|docs|] == docs;
    next := Some(table);
  }

  lemma {:induction false} OneUnreadable(c: Cipher, u: Utf8, docs: seq<HolderDoc>, i: nat, master: Bytes)
    requires i < |docs| && OpenDoc(c, u, docs[i], master).None?
    ensures OpenDocs(c, u, docs, master).None?
  {
    if i < |docs| - 1 {
      OneUnreadable(c, u, docs[..|docs| - 1], i, master);
    }
  }

  /** The export loop of a table, certificate by certificate. */
  method ExportTable(env: Env, xs: seq<Holder>) returns (drafts: Option<seq<Draft>>)
    ensures drafts == ExportHolders(env.utf8, env.atRest, xs)
  {
    var done: seq<Draft> := [];
    assert xs[..0] == [];
    for i := 0 to |xs|
      invariant ExportHolders(env.utf8, env.atRest, xs[..i]) == Some(done)
    {
      assert xs[..i + 1][..i] == xs[..i];
      var draft := ExportHolder(env.utf8, env.atRest, xs[i]);
      if draft.None? {
        OneUnexportable(env.utf8, env.atRest, xs, i);
        return None;
      }
      done := done + [draft.value];
    }
    assert xs[..|xs|] == xs;
    drafts := Some(done);
  }

  lemma {:induction false} OneUnexportable(u: Utf8, f: Option<Fernet>, xs: seq<Holder>, i: nat)
    requires i < |xs| && ExportHolder(u, f, xs[i]).None?
    ensures ExportHolders(u, f, xs).None?
  {
    if i < |xs| - 1 {
      OneUnexportable(u, f, xs[..|xs| - 1], i);
    }
  }

  /** _encrypt_private_keys for one list: the clear key leaves the document as the sealed one enters it. */
  method SealTable(env: Env, drafts: seq<Draft>, master: Bytes, random: Randomness) returns (docs: seq<HolderDoc>)
    ensures docs == SealDrafts(env.cipher, env.utf8, drafts, master, random)
  {
    docs := [];
    for i := 0 to |drafts|
      invariant |docs| == i
      invariant forall k :: 0 <= k < i ==> docs[k] == SealDraft(env.cipher, env.utf8, drafts[k], master, random(k))
    {
      var d := drafts[i];
      var key: Option<SealedKey> := None;
      if d.plain.Some? {
        key := Some(SealKey(env.cipher, env.utf8, d.plain.value, master, random(i).0, random(i).1));
      }
      docs := docs + [HolderDoc(d.refid, d.descr, d.pem, key, d.meta, d.unread)];
    }
  }

  method ExportConfiguration(settings: seq<Setting>) returns (docs: seq<SettingDoc>)
    ensures docs == ExportSettings(settings)
  {
    docs := [];
    for i := 0 to |settings|
      invariant docs == ExportSettings(settings[..i])
    {
      assert settings[..i + 1][..i] == settings[..i];
      if settings[i].encrypted { continue; }
      docs := docs + [SettingDoc(settings[i].key, settings[i].value)];
    }
    assert settings[..|settings|] == settings;
  }

  // ---- the service ----

  datatype Restored = Restored(users: nat, cas: nat, certificates: nat, settings: nat)

  class BackupService {
    const env: Env
    var users: seq<User>
    var cas: seq<Holder>
    var certs: seq<Holder>
    var settings: seq<Setting>

    function State(): Tables
      reads this
    {
      Tables(users, cas, certs, settings)
    }

    constructor (env: Env)
      ensures this.env == env && State() == EMPTY
    {
      this.env := env;
      users, cas, certs, settings := [], [], [], [];
    }

    method CreateBackup(password: string, e: Entropy) returns (file: Result<Bytes, BackupError>)
      ensures file == Create(env, State(), password, e)
      ensures file.Ok? && EntropyOk(e) ==> |file.value| >= 44 && file.value[..32] == e.salt && file.value[32..44] == e.nonce
      ensures file == Err(WeakPassword) <==> |password| < 12 || |set c | c in password| < 8
      ensures file == Err(BadCertificate) <==>
                file != Err(WeakPassword)
                && ((exists x :: x in cas && !Exportable(env.utf8, x)) || exists x :: x in certs && !Exportable(env.utf8, x))
    {
      ExportFailsIff(env.utf8, env.atRest, cas);
      ExportFailsIff(env.utf8, env.atRest, certs);
      if !StrongPassword(password) { return Err(WeakPassword); }
      var caDrafts := ExportTable(env, cas);
      var certDrafts := ExportTable(env, certs);
      if caDrafts.None? || certDrafts.None? { return Err(BadCertificate); }
      var settingDocs := ExportConfiguration(settings);
      var master := env.cipher.master(password, e.salt);
      var caDocs := SealTable(env, caDrafts.value, master, e.caKeys);
      var certDocs := SealTable(env, certDrafts.value, master, e.certKeys);
      var body := Body(Map(ExportUser, users), caDocs, certDocs, settingDocs);
      if EntropyOk(e) { FileLayout(env.cipher, env.utf8, env.json, body, master, e.salt, e.nonce); }
      file := Ok(Pack(env.cipher, env.utf8, env.json, body, master, e.salt, e.nonce));
    }

    method RestoreBackup(file: Bytes, password: string, draws: Draws) returns (result: Result<Restored, BackupError>)
      modifies this
      ensures match Restore(env, old(State()), file, password, draws)
              case Err(error) => result == Err(error) && State() == old(State())
              case Ok(next) => State() == next && result.Ok?
      ensures var contents := Unpack(env.cipher, env.utf8, env.json, file, password);
              if contents.Err? then result == Err(contents.error) else result.Err? ==> result.error == KeyUnreadable
      ensures result.Ok? && EnvOk(env) ==>
                var (body, master) := Unpack(env.cipher, env.utf8, env.json, file, password).value;
                && OpenDocs(env.cipher, env.utf8, body.cas, master).Some? && OpenDocs(env.cipher, env.utf8, body.certs, master).Some?
                && Restores(env.utf8, env.atRest, old(State()), body, OpenDocs(env.cipher, env.utf8, body.cas, master).value,
                            OpenDocs(env.cipher, env.utf8, body.certs, master).value, State())
      ensures result.Ok? ==>
                var body := Unpack(env.cipher, env.utf8, env.json, file, password).value.0;
                result.value == Restored(|body.users|, |body.cas|, |body.certs|, |body.settings|)
    {
      var contents := Unpack(env.cipher, env.utf8, env.json, file, password);
      if contents.Err? { return Err(contents.error); }
      var (body, master) := contents.value;
      var nextUsers := UpsertRows(USER_OPS, users, body.users);
      var nextCas := RestoreHolders(env, cas, body.cas, master, draws.cas);
      if nextCas.None? { return Err(KeyUnreadable); }
      var nextCerts := RestoreHolders(env, certs, body.certs, master, draws.certs);
      if nextCerts.None? { return Err(KeyUnreadable); }
      var nextSettings := UpsertRows(SETTING_OPS, settings, body.settings);
      if EnvOk(env) {
        RestoreWritesColumns(env.cipher, env.utf8, env.atRest, State(), body, master, draws);
      }
      users, cas, certs, settings := nextUsers, nextCas.value, nextCerts.value, nextSettings;
      result := Ok(Restored(|body.users|, |body.cas|, |body.certs|, |body.settings|));
    }
  }
}
