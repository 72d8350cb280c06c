/** What a backup carries of users, authorities, certificates and settings, and what restoring it gives back. */
module BackupTables {
  import opened Common
  import opened Base64
  import opened KeyEncryption
  import opened BackupFormat
  import opened Rows
  import opened Upsert

  // ---- rows ----

  datatype User = User(username: string, email: string, fullName: string, role: string, active: bool, passwordHash: string, mfaEnabled: bool)

  datatype Meta =
    | CaMeta(subject: string, issuer: string, serial: nat, caref: string)
    | CertMeta(certSubject: string, certIssuer: string, serialNumber: string, certCaref: string, certType: string)

  /** An authority or a certificate: base64 of its PEM text and of its private key, columns that restore writes only
      when it inserts, and columns it never reads. */
  datatype Holder = Holder(refid: string, descr: string, crt: Option<string>, prv: Option<string>, meta: Meta, unread: string)

  datatype Setting = Setting(key: string, value: string, encrypted: bool)

  datatype Tables = Tables(users: seq<User>, cas: seq<Holder>, certs: seq<Holder>, settings: seq<Setting>)

  // ---- documents ----

  datatype UserDoc = UserDoc(username: string, email: string, fullName: string, role: string, active: bool, passwordHash: string, mfaEnabled: bool)

  datatype HolderDoc = HolderDoc(refid: string, descr: string, pem: Option<string>, key: Option<SealedKey>, meta: Meta, unread: string)

  datatype SettingDoc = SettingDoc(key: string, value: string)

  datatype Body = Body(users: seq<UserDoc>, cas: seq<HolderDoc>, certs: seq<HolderDoc>, settings: seq<SettingDoc>)

  /** A holder's document while its private key is still, or again, in the clear. */
  datatype Draft = Draft(refid: string, descr: string, pem: Option<string>, plain: Option<string>, meta: Meta, unread: string)

  // ---- export ----

  function ExportUser(x: User): UserDoc {
    UserDoc(x.username, x.email, x.fullName, x.role, x.active, x.passwordHash, x.mfaEnabled)
  }

  /** base64.b64decode(text).decode() */
  function TextOf(u: Utf8, text: string): Option<string> {
    match Decode(text) case None => None case Some(b) => u.decode(b)
  }

  /** base64.b64encode(text.encode()).decode() */
  function Base64Of(u: Utf8, text: string): string { Encode(u.encode(text)) }

  function Present(text: Option<string>): bool { text.Some? && text.value != "" }

  /** The private key text put in the backup: decrypted and decoded, or the column as it is when that fails. */
  function PlainKey(u: Utf8, f: Option<Fernet>, prv: Option<string>): Option<string> {
    if !Present(prv) then None
    else
      match Decrypt(f, prv.value)
      case Err(_) => prv
      case Ok(text) => match TextOf(u, text) case None => prv case Some(pem) => Some(pem)
  }

  /** A certificate column that is not base64 of text raises. */
  function ExportHolder(u: Utf8, f: Option<Fernet>, x: Holder): Option<Draft> {
    if !Present(x.crt) then Some(Draft(x.refid, x.descr, None, PlainKey(u, f, x.prv), x.meta, x.unread))
    else
      match TextOf(u, x.crt.value)
      case None => None
      case Some(pem) => Some(Draft(x.refid, x.descr, Some(pem), PlainKey(u, f, x.prv), x.meta, x.unread))
  }

  function ExportHolders(u: Utf8, f: Option<Fernet>, xs: seq<Holder>): Option<seq<Draft>> {
    if xs == [] then Some([])
    else
      match (ExportHolders(u, f, xs[..|xs| - 1]), ExportHolder(u, f, xs[|xs| - 1]))
      case (Some(rest), Some(last)) => Some(rest + [last])
      case _ => None
  }

  /** The certificate column is empty or base64 of text. */
  predicate Exportable(u: Utf8, x: Holder) {
    x.crt.None? || x.crt.value == "" || (Decode(x.crt.value).Some? && u.decode(Decode(x.crt.value).value).Some?)
  }

  lemma {:induction false} ExportFailsIff(u: Utf8, f: Option<Fernet>, xs: seq<Holder>)
    ensures ExportHolders(u, f, xs).None? <==> exists x :: x in xs && !Exportable(u, x)
  {
    if xs != [] {
      var n := |xs| - 1;
      ExportFailsIff(u, f, xs[..n]);
      assert xs == xs[..n] + [xs[n]];
      assert ExportHolder(u, f, xs[n]).None? <==> !Exportable(u, xs[n]);
    }
  }

  function ExportSettings(xs: seq<Setting>): seq<SettingDoc> {
    if xs == [] then []
    else
      var rest, last := ExportSettings(xs[..|xs| - 1]), xs[|xs| - 1];
      if last.encrypted then rest else rest + [SettingDoc(last.key, last.value)]
  }

  /** Fresh salt and nonce for the i-th key of a table. */
  type Randomness = nat -> (Bytes, Bytes)

  function SealDraft(c: Cipher, u: Utf8, d: Draft, master: Bytes, random: (Bytes, Bytes)): HolderDoc {
    HolderDoc(d.refid, d.descr, d.pem,
              if d.plain.Some? then Some(SealKey(c, u, d.plain.value, master, random.0, random.1)) else None,
              d.meta, d.unread)
  }

  function SealDrafts(c: Cipher, u: Utf8, ds: seq<Draft>, master: Bytes, random: Randomness): (docs: seq<HolderDoc>)
    ensures |docs| == |ds| && forall i :: 0 <= i < |ds| ==> docs[i] == SealDraft(c, u, ds[i], master, random(i))
  {
    seq(|ds|, i requires 0 <= i < |ds| => SealDraft(c, u, ds[i], master, random(i)))
  }

  // ---- reading a document ----

  /** The key text of a document; None for the whole where decrypting it raises. */
  function OpenDoc(c: Cipher, u: Utf8, d: HolderDoc, master: Bytes): Option<Draft> {
    match d.key
    case None => Some(Draft(d.refid, d.descr, d.pem, None, d.meta, d.unread))
    case Some(k) =>
      match OpenKey(c, u, k, master)
      case None => None
      case Some(pem) => Some(Draft(d.refid, d.descr, d.pem, Some(pem), d.meta, d.unread))
  }

  function OpenDocs(c: Cipher, u: Utf8, ds: seq<HolderDoc>, master: Bytes): Option<seq<Draft>> {
    if ds == [] then Some([])
    else
      match (OpenDocs(c, u, ds[..|ds| - 1], master), OpenDoc(c, u, ds[|ds| - 1], master))
      case (Some(rest), Some(last)) => Some(rest + [last])
      case _ => None
  }

  lemma {:induction false} OpenSealed(c: Cipher, u: Utf8, ds: seq<Draft>, master: Bytes, random: Randomness)
    requires IsSound(c) && IsUtf8(u)
    ensures OpenDocs(c, u, SealDrafts(c, u, ds, master, random), master) == Some(ds)
  {
    if ds != [] {
      var n, docs := |ds| - 1, SealDrafts(c, u, ds, master, random);
      OpenSealed(c, u, ds[..n], master, random);
      assert docs[..n] == SealDrafts(c, u, ds[..n], master, random);
      assert OpenDoc(c, u, docs[n], master) == Some(ds[n]) by {
        if ds[n].plain.Some? {
          KeyOpensOnlyUnderItsMaster(c, u, ds[n].plain.value, master, random(n).0, random(n).1, master);
        }
      }
      assert docs[|docs| - 1] == docs[n] && docs[..|docs| - 1] == docs[..n];
      SplitLast(ds);
    }
  }

  // ---- writing rows ----

  const USERNAME: User -> string := (x: User) => x.username
  const DOC_USERNAME: UserDoc -> string := (d: UserDoc) => d.username
  const REFID: Holder -> string := (x: Holder) => x.refid
  const DRAFT_REFID: ((Draft, nat)) -> string := (d: (Draft, nat)) => d.0.refid
  const SETTING_KEY: Setting -> string := (x: Setting) => x.key
  const DOC_KEY: SettingDoc -> string := (d: SettingDoc) => d.key

  const USER_OPS: Ops<User, UserDoc> := Ops(
    USERNAME,
    DOC_USERNAME,
    (x: User, d: UserDoc) => x.(email := d.email, fullName := d.fullName, role := d.role, active := d.active, passwordHash := d.passwordHash),
    (d: UserDoc) => User(d.username, d.email, d.fullName, d.role, d.active, d.passwordHash, false))

  /** An existing setting keeps its `encrypted` flag. */
  const SETTING_OPS: Ops<Setting, SettingDoc> := Ops(
    SETTING_KEY,
    DOC_KEY,
    (x: Setting, d: SettingDoc) => x.(value := d.value),
    (d: SettingDoc) => Setting(d.key, d.value, false))

  function RestoredCrt(u: Utf8, pem: Option<string>): Option<string> {
    if Present(pem) then Some(Base64Of(u, pem.value)) else None
  }

  /** The private key column: base64 of the text, encrypted at rest when that is configured. */
  function RestoredPrv(u: Utf8, f: Option<Fernet>, r: nat, plain: Option<string>): Option<string> {
    if Present(plain) then Some(Encrypt(f, r, Base64Of(u, plain.value))) else None
  }

  /** Writing holders; the randomness of at-rest encryption is drawn per document. */
  function HolderOps(u: Utf8, f: Option<Fernet>): Ops<Holder, (Draft, nat)> {
    Ops(
      REFID,
      DRAFT_REFID,
      (x: Holder, d: (Draft, nat)) =>
        x.(descr := d.0.descr, crt := RestoredCrt(u, d.0.pem), prv := RestoredPrv(u, f, d.1, d.0.plain)),
      (d: (Draft, nat)) =>
        Holder(d.0.refid, d.0.descr, RestoredCrt(u, d.0.pem), RestoredPrv(u, f, d.1, d.0.plain), d.0.meta, ""))
  }

  function Numbered(ds: seq<Draft>, r: nat -> nat): (s: seq<(Draft, nat)>)
    ensures |s| == |ds| && forall i :: 0 <= i < |ds| ==> s[i] == (ds[i], r(i))
  {
    seq(|ds|, i requires 0 <= i < |ds| => (ds[i], r(i)))
  }

  /** The draws of one restore. */
  datatype Draws = Draws(cas: nat -> nat, certs: nat -> nat)

  /** restore_backup on the decrypted document; None where a private key fails to decrypt and nothing is committed. */
  function RestoreBody(c: Cipher, u: Utf8, f: Option<Fernet>, t: Tables, body: Body, master: Bytes, draws: Draws): Option<Tables> {
    match (OpenDocs(c, u, body.cas, master), OpenDocs(c, u, body.certs, master))
    case (Some(cas), Some(certs)) =>
      Some(Tables(All(USER_OPS, t.users, body.users),
                  All(HolderOps(u, f), t.cas, Numbered(cas, draws.cas)),
                  All(HolderOps(u, f), t.certs, Numbered(certs, draws.certs)),
                  All(SETTING_OPS, t.settings, body.settings)))
    case _ => None
  }

  // ---- keys seen through at-rest encryption ----

  /** The bytes of a stored private key, decrypted; None when there is no usable key. */
  function KeyBytes(f: Option<Fernet>, prv: Option<string>): Option<Bytes> {
    if !Present(prv) then None
    else
      match Decrypt(f, prv.value)
      case Err(_) => None
      case Ok(text) => Decode(text)
  }

  ghost predicate Usable(f: Option<Fernet>) { f.Some? ==> Inverts(f.value) }

  lemma {:induction false} EncodeNonempty(b: Bytes)
    ensures Encode(b) == "" <==> b == []
  {
  }

  /** How at-rest decryption reads the base64 of these bytes when nothing was encrypted: bytes that begin with the marker are
      taken for a token. */
  function Reread(f: Option<Fernet>, b: Bytes): Option<Bytes> {
    if !HasMarker(b) then Some(b)
    else if f.None? then None
    else f.value.dec(b[|MARKER|..])
  }

  /** A restored key reads as the text it was restored from, whatever was drawn; only text that begins with the
      at-rest marker is taken for what it is not. */
  lemma {:induction false} RestoredKeyReads(u: Utf8, f: Option<Fernet>, r: nat, plain: Option<string>)
    requires IsUtf8(u) && Usable(f)
    ensures KeyBytes(f, RestoredPrv(u, f, r, plain)) == if Present(plain) then Reread(f, u.encode(plain.value)) else None
  {
    if Present(plain) {
      var b := u.encode(plain.value);
      EncodeNonempty(b);
      DecodeEncode(b);
      if f.Some? && !HasMarker(b) {
        RoundTripIffCanonical(f.value, r, Encode(b));
        EncryptedForm(f.value, r, Encode(b));
      } else if f.Some? && f.value.dec(b[|MARKER|..]).Some? {
        DecodeEncode(f.value.dec(b[|MARKER|..]).value);
      }
    }
  }

  /** The stored key decrypts to text. */
  predicate IsText(u: Utf8, f: Option<Fernet>, prv: Option<string>) {
    KeyBytes(f, prv).Some? && u.decode(KeyBytes(f, prv).value).Some?
  }

  /** The stored key survives: there is none; or its bytes are nonempty text that does not begin with the marker, or
      happens to be a token for itself; or it does not decrypt to text, and its column, which the backup then carries
      in its place, is no base64 at all but begins with the marker, and happens to be a token for the key. */
  predicate Portable(u: Utf8, f: Option<Fernet>, prv: Option<string>) {
    Present(prv) ==>
      if IsText(u, f, prv) then
        var b := KeyBytes(f, prv).value;
        b != [] && (HasMarker(b) ==> Reread(f, b) == Some(b))
      else HasMarker(u.encode(prv.value)) && Reread(f, u.encode(prv.value)) == KeyBytes(f, prv)
  }

  /** A private key comes back equal, after at-rest decryption, exactly when it is portable: there was none, or it was a
      decryptable, nonempty text, but for the texts and columns that look like tokens. */
  lemma {:induction false} KeyRestoredIffPortable(u: Utf8, f: Option<Fernet>, r: nat, prv: Option<string>)
    requires IsUtf8(u) && Usable(f)
    ensures KeyBytes(f, RestoredPrv(u, f, r, PlainKey(u, f, prv))) == KeyBytes(f, prv) <==> Portable(u, f, prv)
  {
    RestoredKeyReads(u, f, r, PlainKey(u, f, prv));
  }

  // ---- into an empty store ----

  lemma {:induction false} UserOpsLawful()
    ensures Lawful(USER_OPS)
  {
  }

  lemma {:induction false} SettingOpsLawful()
    ensures Lawful(SETTING_OPS)
  {
  }

  lemma {:induction false} ExportedHolder(u: Utf8, f: Option<Fernet>, xs: seq<Holder>, i: nat)
    requires ExportHolders(u, f, xs).Some? && i < |xs|
    ensures |ExportHolders(u, f, xs).value| == |xs|
    ensures ExportHolder(u, f, xs[i]) == Some(ExportHolders(u, f, xs).value[i])
  {
    if i < |xs| - 1 {
      ExportedHolder(u, f, xs[..|xs| - 1], i);
    } else if i > 0 {
      ExportedHolder(u, f, xs[..|xs| - 1], 0);
    }
  }

  /** What a restored holder has in common with the one exported. */
  ghost predicate HolderSurvives(u: Utf8, f: Option<Fernet>, x: Holder, y: Holder) {
    && y.refid == x.refid && y.descr == x.descr && y.meta == x.meta
    && (y.crt == x.crt <==> x.crt.None? || (x.crt.value != "" && Canonical(x.crt.value)))
    && (KeyBytes(f, y.prv) == KeyBytes(f, x.prv) <==> Portable(u, f, x.prv))
  }

  lemma {:induction false} InsertedHolderSurvives(u: Utf8, f: Option<Fernet>, x: Holder, r: nat)
    requires IsUtf8(u) && Usable(f) && ExportHolder(u, f, x).Some?
    ensures HolderSurvives(u, f, x, HolderOps(u, f).insert((ExportHolder(u, f, x).value, r)))
  {
    KeyRestoredIffPortable(u, f, r, x.prv);
    if Present(x.crt) {
      CertificateReads(u, x.crt.value);
    }
  }

  lemma {:induction false} CertificateReads(u: Utf8, crt: string)
    requires IsUtf8(u) && crt != "" && TextOf(u, crt).Some?
    ensures RestoredCrt(u, TextOf(u, crt)) == Some(crt) <==> Canonical(crt)
  {
    EncodeNonempty(Decode(crt).value);
  }

  ghost predicate HoldersSurvive(u: Utf8, f: Option<Fernet>, xs: seq<Holder>, ys: seq<Holder>) {
    |ys| == |xs| && forall i :: 0 <= i < |xs| ==> HolderSurvives(u, f, xs[i], ys[i])
  }

  lemma {:induction false} HoldersIntoEmpty(u: Utf8, f: Option<Fernet>, xs: seq<Holder>, r: nat -> nat)
    requires IsUtf8(u) && Usable(f) && ExportHolders(u, f, xs).Some?
    requires DistinctKeys(REFID, xs)
    ensures HoldersSurvive(u, f, xs, All(HolderOps(u, f), [], Numbered(ExportHolders(u, f, xs).value, r)))
  {
    var ops, docs := HolderOps(u, f), Numbered(ExportHolders(u, f, xs).value, r);
    forall i | 0 <= i < |xs| ensures |docs| == |xs| && ExportHolder(u, f, xs[i]) == Some(docs[i].0) {
      ExportedHolder(u, f, xs, i);
    }
    assert |docs| == |xs|;
    forall i, j | 0 <= i < j < |docs| ensures ops.docKey(docs[i]) != ops.docKey(docs[j]) {
      assert REFID(xs[i]) != REFID(xs[j]);
    }
    IntoEmpty(ops, docs);
    forall i | 0 <= i < |xs| ensures HolderSurvives(u, f, xs[i], All(ops, [], docs)[i]) {
      InsertedHolderSurvives(u, f, xs[i], r(i));
    }
  }


  function NotEncrypted(xs: seq<Setting>): seq<Setting> {
    if xs == [] then []
    else
      var rest, last := NotEncrypted(xs[..|xs| - 1]), xs[|xs| - 1];
      if last.encrypted then rest else rest + [last]
  }

  lemma {:induction false} SettingsExported(xs: seq<Setting>)
    ensures Map(SETTING_OPS.insert, ExportSettings(xs)) == NotEncrypted(xs)
    ensures forall i :: 0 <= i < |ExportSettings(xs)| ==> exists k :: 0 <= k < |xs| && xs[k].key == ExportSettings(xs)[i].key
  {
    if xs != [] {
      var n := |xs| - 1;
      SettingsExported(xs[..n]);
      var rest := ExportSettings(xs[..n]);
      forall i | 0 <= i < |ExportSettings(xs)| ensures exists k :: 0 <= k < |xs| && xs[k].key == ExportSettings(xs)[i].key {
        if i < |rest| {
          assert rest[i] == ExportSettings(xs)[i];
          var k :| 0 <= k < n && xs[..n][k].key == rest[i].key;
          assert xs[k].key == rest[i].key;
        } else {
          assert xs[n].key == ExportSettings(xs)[i].key;
        }
      }
    }
  }

  lemma {:induction false} SettingsDistinct(xs: seq<Setting>)
    requires DistinctKeys(SETTING_KEY, xs)
    ensures DistinctKeys(SETTING_OPS.docKey, ExportSettings(xs))
  {
    var key := SETTING_KEY;
    if xs != [] {
      var n := |xs| - 1;
      var rest, docs := ExportSettings(xs[..n]), ExportSettings(xs);
      forall i, j | 0 <= i < j < |xs[..n]| ensures key(xs[..n][i]) != key(xs[..n][j]) {
        assert key(xs[i]) != key(xs[j]);
      }
      SettingsDistinct(xs[..n]);
      SettingsExported(xs[..n]);
      forall i, j | 0 <= i < j < |docs| ensures SETTING_OPS.docKey(docs[i]) != SETTING_OPS.docKey(docs[j]) {
        assert docs[i] == rest[i];
        if j < |rest| {
          assert docs[j] == rest[j];
          assert SETTING_OPS.docKey(rest[i]) != SETTING_OPS.docKey(rest[j]);
        } else {
          var k :| 0 <= k < |xs[..n]| && xs[..n][k].key == rest[i].key;
          assert key(xs[k]) != key(xs[n]);
        }
      }
    }
  }

  lemma {:induction false} SettingsIntoEmpty(xs: seq<Setting>)
    requires DistinctKeys(SETTING_KEY, xs)
    ensures All(SETTING_OPS, [], ExportSettings(xs)) == NotEncrypted(xs)
  {
    SettingsDistinct(xs);
    IntoEmpty(SETTING_OPS, ExportSettings(xs));
    SettingsExported(xs);
  }

  lemma {:induction false} UsersIntoEmpty(xs: seq<User>)
    requires DistinctKeys(USERNAME, xs)
    ensures var ys := All(USER_OPS, [], Map(ExportUser, xs));
            |ys| == |xs| && forall i :: 0 <= i < |xs| ==> ys[i] == xs[i].(mfaEnabled := false)
  {
    var docs := Map(ExportUser, xs);
    var key := USERNAME;
    forall i, j | 0 <= i < j < |docs| ensures USER_OPS.docKey(docs[i]) != USER_OPS.docKey(docs[j]) {
      assert key(xs[i]) != key(xs[j]);
    }
    IntoEmpty(USER_OPS, docs);
  }

  /** Usernames, refids and setting keys are unique columns. */
  ghost predicate TablesOk(t: Tables) {
    && DistinctKeys(USERNAME, t.users)
    && DistinctKeys(REFID, t.cas)
    && DistinctKeys(REFID, t.certs)
    && DistinctKeys(SETTING_KEY, t.settings)
  }

  /** What restoring gives back: every field of a user that restore writes; of an authority or certificate everything
      but the columns it never reads, with the private key equal after at-rest decryption; every setting that is not
      encrypted. */
  ghost predicate Survives(u: Utf8, f: Option<Fernet>, t: Tables, back: Tables) {
    && |back.users| == |t.users|
    && (forall i :: 0 <= i < |t.users| ==> back.users[i] == t.users[i].(mfaEnabled := false))
    && HoldersSurvive(u, f, t.cas, back.cas)
    && HoldersSurvive(u, f, t.certs, back.certs)
    && back.settings == NotEncrypted(t.settings)
  }

  /** The document create_backup builds, with every private key sealed under the master key; None where a stored
      certificate is not base64 of text. */
  function ExportBody(c: Cipher, u: Utf8, f: Option<Fernet>, t: Tables, master: Bytes, caKeys: Randomness, certKeys: Randomness): Option<Body> {
    match (ExportHolders(u, f, t.cas), ExportHolders(u, f, t.certs))
    case (Some(cas), Some(certs)) =>
      Some(Body(Map(ExportUser, t.users), SealDrafts(c, u, cas, master, caKeys), SealDrafts(c, u, certs, master, certKeys),
                ExportSettings(t.settings)))
    case _ => None
  }

  const EMPTY := Tables([], [], [], [])

  lemma {:induction false} BodyIntoEmpty(c: Cipher, u: Utf8, f: Option<Fernet>, t: Tables, master: Bytes,
                                         caKeys: Randomness, certKeys: Randomness, draws: Draws)
    requires IsSound(c) && IsUtf8(u) && Usable(f) && TablesOk(t)
    requires ExportBody(c, u, f, t, master, caKeys, certKeys).Some?
    ensures var back := RestoreBody(c, u, f, EMPTY, ExportBody(c, u, f, t, master, caKeys, certKeys).value, master, draws);
            back.Some? && Survives(u, f, t, back.value)
  {
    OpenSealed(c, u, ExportHolders(u, f, t.cas).value, master, caKeys);
    OpenSealed(c, u, ExportHolders(u, f, t.certs).value, master, certKeys);
    UsersIntoEmpty(t.users);
    HoldersIntoEmpty(u, f, t.cas, draws.cas);
    HoldersIntoEmpty(u, f, t.certs, draws.certs);
    SettingsIntoEmpty(t.settings);
  }

  // ---- into any store ----

  /** The columns of a user after a restore: all from the last document, but for the MFA flag. */
  predicate UserIs(row: User, before: Option<User>, d: UserDoc) {
    && row.username == d.username && row.email == d.email && row.fullName == d.fullName && row.role == d.role
    && row.active == d.active && row.passwordHash == d.passwordHash
    && row.mfaEnabled == (before.Some? && before.value.mfaEnabled)
  }

  predicate SettingIs(row: Setting, before: Option<Setting>, d: SettingDoc) {
    row.key == d.key && row.value == d.value && row.encrypted == (before.Some? && before.value.encrypted)
  }

  /** With a cipher configured a key is never stored in the clear; without one it is the base64 of the text. */
  predicate AtRest(u: Utf8, f: Option<Fernet>, prv: Option<string>, plain: Option<string>) {
    match prv
    case None => plain.None? || plain.value == ""
    case Some(text) => plain.Some? && if f.Some? then IsEncrypted(text) else Decode(text) == Some(u.encode(plain.value))
  }

  /** The columns of an authority or certificate after a restore: description, certificate and private key from its last
      document; the others as they were, or from its first document where there was no row. */
  predicate HolderIs(u: Utf8, f: Option<Fernet>, row: Holder, before: Option<Holder>, first: Draft, last: Draft) {
    && row.refid == last.refid && row.descr == last.descr
    && (row.crt.Some? <==> last.pem.Some? && last.pem.value != "")
    && (row.crt.Some? ==> Decode(row.crt.value) == Some(u.encode(last.pem.value)))
    && KeyBytes(f, row.prv) ==
       (if last.plain.None? || last.plain.value == "" then None else Reread(f, u.encode(last.plain.value)))
    && AtRest(u, f, row.prv, last.plain)
    && row.meta == (if before.Some? then before.value.meta else first.meta)
    && row.unread == (if before.Some? then before.value.unread else "")
  }

  ghost predicate UserAfter(rows: seq<User>, docs: seq<UserDoc>, next: seq<User>, name: string) {
    var before, row := Lookup(USERNAME, rows, name), Lookup(USERNAME, next, name);
    match LastDoc(DOC_USERNAME, docs, name)
    case None => row == before
    case Some(d) => row.Some? && UserIs(row.value, before, d)
  }

  ghost predicate SettingAfter(rows: seq<Setting>, docs: seq<SettingDoc>, next: seq<Setting>, key: string) {
    var before, row := Lookup(SETTING_KEY, rows, key), Lookup(SETTING_KEY, next, key);
    match LastDoc(DOC_KEY, docs, key)
    case None => row == before
    case Some(d) => row.Some? && SettingIs(row.value, before, d)
  }

  const PLAIN_REFID: Draft -> string := (d: Draft) => d.refid

  ghost predicate HolderAfter(u: Utf8, f: Option<Fernet>, rows: seq<Holder>, ds: seq<Draft>, next: seq<Holder>, refid: string) {
    var before, row := Lookup(REFID, rows, refid), Lookup(REFID, next, refid);
    match LastDoc(PLAIN_REFID, ds, refid)
    case None => row == before
    case Some(d) =>
      row.Some? && FirstDoc(PLAIN_REFID, ds, refid).Some?
      && HolderIs(u, f, row.value, before, FirstDoc(PLAIN_REFID, ds, refid).value, d)
  }

  /** What restore_backup does to each row of the store, column by column. */
  ghost predicate Restores(u: Utf8, f: Option<Fernet>, t: Tables, body: Body, cas: seq<Draft>, certs: seq<Draft>, next: Tables) {
    && (forall name :: UserAfter(t.users, body.users, next.users, name))
    && (forall refid :: HolderAfter(u, f, t.cas, cas, next.cas, refid))
    && (forall refid :: HolderAfter(u, f, t.certs, certs, next.certs, refid))
    && (forall key :: SettingAfter(t.settings, body.settings, next.settings, key))
  }

  lemma {:induction false} UsersRestored(rows: seq<User>, docs: seq<UserDoc>, name: string)
    ensures UserAfter(rows, docs, All(USER_OPS, rows, docs), name)
  {
    UserOpsLawful();
    RowAfter(USER_OPS, rows, docs, name);
    FirstIffLast(DOC_USERNAME, docs, name);
    LastDocKey(DOC_USERNAME, docs, name);
  }

  lemma {:induction false} SettingsRestored(rows: seq<Setting>, docs: seq<SettingDoc>, key: string)
    ensures SettingAfter(rows, docs, All(SETTING_OPS, rows, docs), key)
  {
    SettingOpsLawful();
    RowAfter(SETTING_OPS, rows, docs, key);
    FirstIffLast(DOC_KEY, docs, key);
    LastDocKey(DOC_KEY, docs, key);
  }

  lemma {:induction false} HolderOpsLawful(u: Utf8, f: Option<Fernet>)
    ensures Lawful(HolderOps(u, f))
  {
  }

  lemma {:induction false} DocsOfNumbered(ds: seq<Draft>, r: nat -> nat, refid: string)
    ensures match LastDoc(PLAIN_REFID, ds, refid)
            case None => LastDoc(DRAFT_REFID, Numbered(ds, r), refid).None?
            case Some(d) => LastDoc(DRAFT_REFID, Numbered(ds, r), refid).Some? && LastDoc(DRAFT_REFID, Numbered(ds, r), refid).value.0 == d
    ensures match FirstDoc(PLAIN_REFID, ds, refid)
            case None => FirstDoc(DRAFT_REFID, Numbered(ds, r), refid).None?
            case Some(d) => FirstDoc(DRAFT_REFID, Numbered(ds, r), refid).Some? && FirstDoc(DRAFT_REFID, Numbered(ds, r), refid).value.0 == d
  {
    if ds != [] {
      DocsOfNumbered(ds[..|ds| - 1], r, refid);
      assert Numbered(ds, r)[..|ds| - 1] == Numbered(ds[..|ds| - 1], r);
    }
  }

  lemma {:induction false} RestoredAtRest(u: Utf8, f: Option<Fernet>, r: nat, plain: Option<string>)
    requires IsUtf8(u)
    ensures AtRest(u, f, RestoredPrv(u, f, r, plain), plain)
  {
    if Present(plain) {
      var b := u.encode(plain.value);
      assert b != [];
      DecodeEncode(b);
      if f.Some? && !IsEncrypted(Encode(b)) {
        EncryptedForm(f.value, r, Encode(b));
      }
    }
  }

  /** The columns that one update writes. */
  lemma {:induction false} HolderWritten(u: Utf8, f: Option<Fernet>, x: Holder, d: Draft, r: nat)
    requires IsUtf8(u) && Usable(f)
    ensures var row := HolderOps(u, f).update(x, (d, r));
      && row.refid == x.refid && row.descr == d.descr && row.meta == x.meta && row.unread == x.unread
      && (row.crt.Some? <==> d.pem.Some? && d.pem.value != "")
      && (row.crt.Some? ==> Decode(row.crt.value) == Some(u.encode(d.pem.value)))
      && KeyBytes(f, row.prv) == (if d.plain.None? || d.plain.value == "" then None else Reread(f, u.encode(d.plain.value)))
      && AtRest(u, f, row.prv, d.plain)
  {
    RestoredKeyReads(u, f, r, d.plain);
    RestoredAtRest(u, f, r, d.plain);
    if Present(d.pem) {
      DecodeEncode(u.encode(d.pem.value));
    }
  }

  lemma {:induction false} HoldersRestored(u: Utf8, f: Option<Fernet>, rows: seq<Holder>, ds: seq<Draft>, r: nat -> nat, refid: string)
    requires IsUtf8(u) && Usable(f)
    ensures HolderAfter(u, f, rows, ds, All(HolderOps(u, f), rows, Numbered(ds, r)), refid)
  {
    var ops, docs := HolderOps(u, f), Numbered(ds, r);
    HolderOpsLawful(u, f);
    DocsOfNumbered(ds, r, refid);
    RowAfter(ops, rows, docs, refid);
    FirstIffLast(PLAIN_REFID, ds, refid);
    LastDocKey(PLAIN_REFID, ds, refid);
    match LastDoc(DRAFT_REFID, docs, refid) {
      case None =>
      case Some(d) =>
        var base := match Lookup(REFID, rows, refid) case Some(x) => x case None => ops.insert(FirstDoc(DRAFT_REFID, docs, refid).value);
        HolderWritten(u, f, base, d.0, d.1);
    }
  }

  /** Restoring any document into any store: every row a document names has the document's columns and keeps its others,
      and every other row is as it was. */
  lemma {:induction false} RestoreWritesColumns(c: Cipher, u: Utf8, f: Option<Fernet>, t: Tables, body: Body, master: Bytes, draws: Draws)
    requires IsUtf8(u) && Usable(f) && RestoreBody(c, u, f, t, body, master, draws).Some?
    ensures OpenDocs(c, u, body.cas, master).Some? && OpenDocs(c, u, body.certs, master).Some?
    ensures Restores(u, f, t, body, OpenDocs(c, u, body.cas, master).value, OpenDocs(c, u, body.certs, master).value,
                     RestoreBody(c, u, f, t, body, master, draws).value)
  {
    forall name ensures UserAfter(t.users, body.users, All(USER_OPS, t.users, body.users), name) {
      UsersRestored(t.users, body.users, name);
    }
    forall key ensures SettingAfter(t.settings, body.settings, All(SETTING_OPS, t.settings, body.settings), key) {
      SettingsRestored(t.settings, body.settings, key);
    }
    var cas, certs := OpenDocs(c, u, body.cas, master).value, OpenDocs(c, u, body.certs, master).value;
    forall refid
      ensures HolderAfter(u, f, t.cas, cas, All(HolderOps(u, f), t.cas, Numbered(cas, draws.cas)), refid)
      ensures HolderAfter(u, f, t.certs, certs, All(HolderOps(u, f), t.certs, Numbered(certs, draws.certs)), refid)
    {
      HoldersRestored(u, f, t.cas, cas, draws.cas, refid);
      HoldersRestored(u, f, t.certs, certs, draws.certs, refid);
    }
  }

  /** A document's key is opened and its other columns are taken over. */
  lemma {:induction false} DraftOfDoc(c: Cipher, u: Utf8, ds: seq<HolderDoc>, master: Bytes, i: nat)
    requires OpenDocs(c, u, ds, master).Some? && i < |ds|
    ensures |OpenDocs(c, u, ds, master).value| == |ds|
    ensures var d, x := ds[i], OpenDocs(c, u, ds, master).value[i];
      && x.refid == d.refid && x.descr == d.descr && x.pem == d.pem && x.meta == d.meta
      && x.plain == (if d.key.None? then None else OpenKey(c, u, d.key.value, master))
      && (d.key.Some? ==> x.plain.Some?)
  {
    if i < |ds| - 1 {
      DraftOfDoc(c, u, ds[..|ds| - 1], master, i);
    } else if i > 0 {
      DraftOfDoc(c, u, ds[..|ds| - 1], master, 0);
    }
  }

  /** Unique usernames, refids and keys stay unique. */
  lemma {:induction false} RestoreKeepsKeysUnique(c: Cipher, u: Utf8, f: Option<Fernet>, t: Tables, body: Body, master: Bytes, draws: Draws)
    requires TablesOk(t) && RestoreBody(c, u, f, t, body, master, draws).Some?
    ensures TablesOk(RestoreBody(c, u, f, t, body, master, draws).value)
  {
    UserOpsLawful();
    SettingOpsLawful();
    HolderOpsLawful(u, f);
    KeysStayDistinct(USER_OPS, t.users, body.users);
    KeysStayDistinct(SETTING_OPS, t.settings, body.settings);
    KeysStayDistinct(HolderOps(u, f), t.cas, Numbered(OpenDocs(c, u, body.cas, master).value, draws.cas));
    KeysStayDistinct(HolderOps(u, f), t.certs, Numbered(OpenDocs(c, u, body.certs, master).value, draws.certs));
  }

  // ---- twice ----

  /** A holder with its private key seen decrypted. */
  datatype HolderView = HolderView(refid: string, descr: string, crt: Option<string>, key: Option<Bytes>, meta: Meta, unread: string)

  datatype DraftView = DraftView(refid: string, descr: string, crt: Option<string>, key: Option<Bytes>, meta: Meta)

  function ViewHolder(f: Option<Fernet>): Holder -> HolderView {
    (x: Holder) => HolderView(x.refid, x.descr, x.crt, KeyBytes(f, x.prv), x.meta, x.unread)
  }

  function ViewDraft(u: Utf8, f: Option<Fernet>): ((Draft, nat)) -> DraftView {
    (d: (Draft, nat)) =>
      DraftView(d.0.refid, d.0.descr, RestoredCrt(u, d.0.pem), KeyBytes(f, RestoredPrv(u, f, d.1, d.0.plain)), d.0.meta)
  }

  const VIEW_OPS: Ops<HolderView, DraftView> := Ops(
    (x: HolderView) => x.refid,
    (d: DraftView) => d.refid,
    (x: HolderView, d: DraftView) => x.(descr := d.descr, crt := d.crt, key := d.key),
    (d: DraftView) => HolderView(d.refid, d.descr, d.crt, d.key, d.meta, ""))

  lemma {:induction false} ViewOpsLawful()
    ensures Lawful(VIEW_OPS)
  {
  }

  lemma {:induction false} ViewCommutes(u: Utf8, f: Option<Fernet>)
    ensures Commutes(HolderOps(u, f), ViewHolder(f), VIEW_OPS, ViewDraft(u, f))
  {
  }

  /** What a restored key reads as does not depend on the randomness drawn. */
  lemma {:induction false} DrawIsInvisible(u: Utf8, f: Option<Fernet>, r: nat, s: nat, plain: Option<string>)
    requires IsUtf8(u) && Usable(f)
    ensures KeyBytes(f, RestoredPrv(u, f, r, plain)) == KeyBytes(f, RestoredPrv(u, f, s, plain))
  {
    RestoredKeyReads(u, f, r, plain);
    RestoredKeyReads(u, f, s, plain);
  }

  lemma {:induction false} ViewsOfDraws(u: Utf8, f: Option<Fernet>, ds: seq<Draft>, r: nat -> nat, s: nat -> nat)
    requires IsUtf8(u) && Usable(f)
    ensures Map(ViewDraft(u, f), Numbered(ds, r)) == Map(ViewDraft(u, f), Numbered(ds, s))
  {
    var a, b := Map(ViewDraft(u, f), Numbered(ds, r)), Map(ViewDraft(u, f), Numbered(ds, s));
    forall i | 0 <= i < |ds| ensures a[i] == b[i] {
      DrawIsInvisible(u, f, r(i), s(i), ds[i].plain);
    }
  }

  lemma {:induction false} HoldersTwice(u: Utf8, f: Option<Fernet>, rows: seq<Holder>, ds: seq<Draft>, r: nat -> nat, s: nat -> nat)
    requires IsUtf8(u) && Usable(f)
    ensures var ops := HolderOps(u, f);
            var once := All(ops, rows, Numbered(ds, r));
            Map(ViewHolder(f), All(ops, once, Numbered(ds, s))) == Map(ViewHolder(f), once)
  {
    var ops, view, read := HolderOps(u, f), ViewHolder(f), ViewDraft(u, f);
    var once := All(ops, rows, Numbered(ds, r));
    ViewCommutes(u, f);
    ViewOpsLawful();
    ViewOfAll(ops, view, VIEW_OPS, read, rows, Numbered(ds, r));
    ViewOfAll(ops, view, VIEW_OPS, read, once, Numbered(ds, s));
    ViewsOfDraws(u, f, ds, r, s);
    TwiceIsOnce(VIEW_OPS, Map(view, rows), Map(read, Numbered(ds, r)));
  }

  /** Equal tables, but for the randomness inside at-rest encryption. */
  ghost predicate SameContents(f: Option<Fernet>, a: Tables, b: Tables) {
    && a.users == b.users && a.settings == b.settings
    && Map(ViewHolder(f), a.cas) == Map(ViewHolder(f), b.cas)
    && Map(ViewHolder(f), a.certs) == Map(ViewHolder(f), b.certs)
  }

  /** Restoring any document twice is restoring it once, on any tables: the second restore succeeds if the first did
      and changes nothing that can be read. */
  lemma {:induction false} RestoreTwiceIsOnce(c: Cipher, u: Utf8, f: Option<Fernet>, t: Tables, body: Body, master: Bytes, draws: Draws, again: Draws)
    requires IsUtf8(u) && Usable(f)
    requires RestoreBody(c, u, f, t, body, master, draws).Some?
    ensures var once := RestoreBody(c, u, f, t, body, master, draws).value;
            var twice := RestoreBody(c, u, f, once, body, master, again);
            twice.Some? && SameContents(f, twice.value, once)
  {
    UserOpsLawful();
    SettingOpsLawful();
    TwiceIsOnce(USER_OPS, t.users, body.users);
    TwiceIsOnce(SETTING_OPS, t.settings, body.settings);
    HoldersTwice(u, f, t.cas, OpenDocs(c, u, body.cas, master).value, draws.cas, again.cas);
    HoldersTwice(u, f, t.certs, OpenDocs(c, u, body.certs, master).value, draws.certs, again.certs);
  }
}
