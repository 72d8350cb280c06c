/** Private keys at rest: base64 text, encrypted under a marker, one by one and in bulk. */
module KeyEncryption {
  import opened Common
  import opened Base64

  /** b'ENC:' */
  const MARKER: seq<Byte> := [69, 78, 67, 58]

  /** The cipher behind a master key. `enc` is given the randomness it draws; `dec` is None for a token it rejects. */
  datatype Fernet = Fernet(enc: (nat, seq<Byte>) -> seq<Byte>, dec: seq<Byte> -> Option<seq<Byte>>)

  ghost predicate Inverts(f: Fernet) {
    forall r, x :: f.dec(f.enc(r, x)) == Some(x)
  }

  datatype Error = KeyNotConfigured | WrongKey | NotBase64

  predicate HasMarker(b: seq<Byte>) { MARKER <= b }

  /** is_encrypted */
  predicate IsEncrypted(data: string) {
    data != "" && match Decode(data) case None => false case Some(b) => HasMarker(b)
  }

  /** encrypt; None for the cipher is a service without a key. Text that does not decode comes back as it is. */
  function Encrypt(f: Option<Fernet>, r: nat, data: string): string {
    if f.None? || data == "" then data
    else
      match Decode(data)
      case None => data
      case Some(raw) => if HasMarker(raw) then data else Encode(MARKER + f.value.enc(r, raw))
  }

  /** decrypt; it raises where text does not decode, since that error is a ValueError. */
  function Decrypt(f: Option<Fernet>, data: string): Result<string, Error> {
    if data == "" then Ok(data)
    else
      match Decode(data)
      case None => Err(NotBase64)
      case Some(b) =>
        if !HasMarker(b) then Ok(data)
        else if f.None? then Err(KeyNotConfigured)
        else
          match f.value.dec(b[|MARKER|..])
          case None => Err(WrongKey)
          case Some(raw) => Ok(Encode(raw))
  }

  // ---- one key ----

  lemma {:induction false} EncryptedForm(f: Fernet, r: nat, data: string)
    requires data != "" && Decode(data).Some? && !IsEncrypted(data)
    ensures Encrypt(Some(f), r, data) != "" && IsEncrypted(Encrypt(Some(f), r, data))
    ensures Decode(Encrypt(Some(f), r, data)) == Some(MARKER + f.enc(r, Decode(data).value))
  {
    DecodeEncode(MARKER + f.enc(r, Decode(data).value));
  }

  /** What comes back: the canonical text of the same bytes, so the very text exactly when it was canonical. Text that
      does not decode is left alone by encrypting but makes decrypting raise. */
  lemma {:induction false} RoundTripIffCanonical(f: Fernet, r: nat, data: string)
    requires Inverts(f) && !IsEncrypted(data)
    ensures Decrypt(Some(f), Encrypt(Some(f), r, data)) == Ok(data) <==> data == "" || Canonical(data)
    ensures data != "" && Decode(data).Some? ==>
              Decrypt(Some(f), Encrypt(Some(f), r, data)) == Ok(Encode(Decode(data).value))
    ensures Decode(data).None? ==> Decrypt(Some(f), Encrypt(Some(f), r, data)) == Err(NotBase64)
  {
    if data != "" && Decode(data).Some? {
      EncryptedForm(f, r, data);
      var token := f.enc(r, Decode(data).value);
      assert (MARKER + token)[|MARKER|..] == token;
    }
  }

  /** A clear key, marked by nothing, comes back as it is, whatever cipher there is; the refusals tell the reasons apart. */
  lemma {:induction false} DecryptAnswers(f: Option<Fernet>, data: string)
    ensures data == "" || (Decode(data).Some? && !IsEncrypted(data)) ==> Decrypt(f, data) == Ok(data)
    ensures Decrypt(f, data) == Err(NotBase64) <==> data != "" && Decode(data).None?
    ensures Decrypt(f, data) == Err(KeyNotConfigured) <==> IsEncrypted(data) && f.None?
    ensures Decrypt(f, data) == Err(WrongKey) <==> IsEncrypted(data) && f.Some? && f.value.dec(Decode(data).value[4..]).None?
    ensures IsEncrypted(data) && Decrypt(f, data).Ok? ==> f.Some? && Decode(Decrypt(f, data).value) == f.value.dec(Decode(data).value[4..])
  {
    if IsEncrypted(data) && f.Some? && f.value.dec(Decode(data).value[4..]).Some? {
      DecodeEncode(f.value.dec(Decode(data).value[4..]).value);
    }
  }

  /** Encrypting what was encrypted changes nothing, whatever randomness the second call draws. */
  lemma {:induction false} EncryptIsIdempotent(f: Option<Fernet>, r: nat, again: nat, data: string)
    ensures Encrypt(f, again, Encrypt(f, r, data)) == Encrypt(f, r, data)
  {
    if f.Some? && data != "" && Decode(data).Some? && !IsEncrypted(data) {
      EncryptedForm(f.value, r, data);
    }
  }

  // ---- the rows ----

  /** A row of either table that may hold a key. */
  datatype Row = Row(refid: string, prv: Option<string>)

  predicate HoldsKey(row: Row) { row.prv.Some? }

  predicate Locked(row: Row) { row.prv.Some? && IsEncrypted(row.prv.value) }

  /** Counted as encrypted by a pass, but left as it is: empty or undecodable text. */
  predicate Stuck(row: Row) {
    row.prv.Some? && (row.prv.value == "" || Decode(row.prv.value).None?)
  }

  function EncryptedRow(f: Fernet, r: nat, row: Row): Row {
    if row.prv.Some? && !Locked(row) then row.(prv := Some(Encrypt(Some(f), r, row.prv.value))) else row
  }

  /** A key that fails to decrypt stays. */
  function DecryptedRow(f: Fernet, row: Row): Row {
    if Locked(row) then
      match Decrypt(Some(f), row.prv.value) case Ok(text) => row.(prv := Some(text)) case Err(_) => row
    else row
  }

  /** A clear key that decodes and is not empty becomes the marker ENC: and a token for its bytes; every other row is left
      alone. */
  lemma {:induction false} EncryptedRowIs(f: Fernet, r: nat, row: Row)
    ensures EncryptedRow(f, r, row).refid == row.refid
    ensures Locked(row) || row.prv.None? || Stuck(row) ==> EncryptedRow(f, r, row) == row
    ensures !Locked(row) && row.prv.Some? && !Stuck(row) ==>
              && EncryptedRow(f, r, row).prv.Some? && Locked(EncryptedRow(f, r, row))
              && Decode(EncryptedRow(f, r, row).prv.value) == Some([69, 78, 67, 58] + f.enc(r, Decode(row.prv.value).value))
  {
    if !Locked(row) && row.prv.Some? && !Stuck(row) {
      EncryptedForm(f, r, row.prv.value);
    }
  }

  /** The token under the marker of an encrypted key. */
  function TokenOf(row: Row): seq<Byte>
    requires Locked(row)
  {
    Decode(row.prv.value).value[4..]
  }

  /** A key whose token the cipher rejects stays as it is, one whose token opens becomes base64 of what it holds, and
      every other row is left alone. */
  lemma {:induction false} DecryptedRowIs(f: Fernet, row: Row)
    ensures DecryptedRow(f, row).refid == row.refid
    ensures !Locked(row) ==> DecryptedRow(f, row) == row
    ensures Locked(row) ==> (FailsToDecrypt(f, row) <==> f.dec(TokenOf(row)).None?)
    ensures Locked(row) && f.dec(TokenOf(row)).None? ==> DecryptedRow(f, row) == row
    ensures Locked(row) && f.dec(TokenOf(row)).Some? ==>
              DecryptedRow(f, row).prv.Some? && Decode(DecryptedRow(f, row).prv.value) == f.dec(TokenOf(row))
  {
    if Locked(row) && f.dec(TokenOf(row)).Some? {
      DecodeEncode(f.dec(TokenOf(row)).value);
    }
  }

  predicate FailsToDecrypt(f: Fernet, row: Row) {
    Locked(row) && Decrypt(Some(f), row.prv.value).Err?
  }

  /** A table after a pass; row i draws randomness r(i). */
  function EncryptedRows(f: Fernet, r: nat -> nat, rows: seq<Row>): seq<Row> {
    seq(|rows|, i requires 0 <= i < |rows| => EncryptedRow(f, r(i), rows[i]))
  }

  function DecryptedRows(f: Fernet, rows: seq<Row>): seq<Row> {
    seq(|rows|, i requires 0 <= i < |rows| => DecryptedRow(f, rows[i]))
  }

  function Count(p: Row -> bool, rows: seq<Row>): nat {
    if rows == [] then 0 else Count(p, rows[..|rows| - 1]) + if p(rows[|rows| - 1]) then 1 else 0
  }

  function Unlocked(): Row -> bool { row => HoldsKey(row) && !Locked(row) }

  function Lockeds(): Row -> bool { row => Locked(row) }

  /** What a decryption pass counts as decrypted, and what it reports as an error. A dry run does not try. */
  function Counted(f: Fernet, dryRun: bool): Row -> bool { row => Locked(row) && (dryRun || !FailsToDecrypt(f, row)) }

  function Refused(f: Fernet, dryRun: bool): Row -> bool { row => !dryRun && FailsToDecrypt(f, row) }

  lemma {:induction false} CountSnoc(p: Row -> bool, rows: seq<Row>, i: nat)
    requires i < |rows|
    ensures Count(p, rows[..i + 1]) == Count(p, rows[..i]) + if p(rows[i]) then 1 else 0
  {
    assert rows[..i + 1][..i] == rows[..i];
  }

  lemma {:induction false} CountSplits(p: Row -> bool, a: Row -> bool, b: Row -> bool, rows: seq<Row>)
    requires forall row :: p(row) <==> a(row) || b(row)
    requires forall row :: !(a(row) && b(row))
    ensures Count(p, rows) == Count(a, rows) + Count(b, rows)
  {
    if rows != [] {
      CountSplits(p, a, b, rows[..|rows| - 1]);
    }
  }

  lemma {:induction false} CountMapped(p: Row -> bool, q: Row -> bool, rows: seq<Row>, next: seq<Row>)
    requires |rows| == |next| && forall i :: 0 <= i < |rows| ==> p(rows[i]) == q(next[i])
    ensures Count(p, rows) == Count(q, next)
  {
    if rows != [] {
      CountMapped(p, q, rows[..|rows| - 1], next[..|next| - 1]);
    }
  }

  // ---- both passes over a table ----

  lemma {:induction false} SecondRowPass(f: Fernet, r: nat, again: nat, row: Row)
    ensures EncryptedRow(f, again, EncryptedRow(f, r, row)) == EncryptedRow(f, r, row)
    ensures Unlocked()(EncryptedRow(f, r, row)) <==> Stuck(row)
  {
    if row.prv.Some? {
      EncryptIsIdempotent(Some(f), r, again, row.prv.value);
      if !Locked(row) && !Stuck(row) {
        EncryptedForm(f, r, row.prv.value);
      }
    }
  }

  /** A second bulk encryption changes no row, and what it still reports as encrypted are the empty and undecodable
      keys. */
  lemma {:induction false} SecondPassChangesNothing(f: Fernet, r: nat -> nat, again: nat -> nat, rows: seq<Row>)
    ensures var once := EncryptedRows(f, r, rows);
            EncryptedRows(f, again, once) == once && Count(Unlocked(), once) == Count(row => Stuck(row), rows)
  {
    var once := EncryptedRows(f, r, rows);
    forall i | 0 <= i < |rows| ensures EncryptedRow(f, again(i), once[i]) == once[i] && Unlocked()(once[i]) == Stuck(rows[i]) {
      SecondRowPass(f, r(i), again(i), rows[i]);
    }
    CountMapped(row => Stuck(row), Unlocked(), rows, once);
  }

  /** A row comes back from encrypting and decrypting everything. */
  predicate Restorable(row: Row) {
    row.prv.None? || Stuck(row) || Canonical(row.prv.value)
  }

  lemma {:induction false} RowRestoredIff(f: Fernet, r: nat, row: Row)
    requires Inverts(f) && !Locked(row)
    ensures DecryptedRow(f, EncryptedRow(f, r, row)) == row <==> Restorable(row)
  {
    if row.prv.Some? {
      RoundTripIffCanonical(f, r, row.prv.value);
      if !Stuck(row) {
        EncryptedForm(f, r, row.prv.value);
      }
    }
  }

  /** Encrypting a table without encrypted keys and decrypting it again restores every row exactly when every key is
      canonical base64, empty, or not base64 at all. */
  lemma {:induction false} TableRestoredIff(f: Fernet, r: nat -> nat, rows: seq<Row>)
    requires Inverts(f) && forall i :: 0 <= i < |rows| ==> !Locked(rows[i])
    ensures DecryptedRows(f, EncryptedRows(f, r, rows)) == rows <==> forall i :: 0 <= i < |rows| ==> Restorable(rows[i])
  {
    var back := DecryptedRows(f, EncryptedRows(f, r, rows));
    forall i | 0 <= i < |rows| ensures back[i] == rows[i] <==> Restorable(rows[i]) {
      RowRestoredIff(f, r(i), rows[i]);
    }
  }

  lemma {:induction false} EveryKeyIsCounted(f: Fernet, dryRun: bool, rows: seq<Row>)
    ensures Count(Unlocked(), rows) + Count(Lockeds(), rows) == Count(row => HoldsKey(row), rows)
    ensures Count(Counted(f, dryRun), rows) + Count(Unlocked(), rows) + Count(Refused(f, dryRun), rows)
            == Count(row => HoldsKey(row), rows)
  {
    CountSplits(row => HoldsKey(row), Unlocked(), Lockeds(), rows);
    CountSplits(Lockeds(), Counted(f, dryRun), Refused(f, dryRun), rows);
  }

  lemma {:induction false} FailingKeysStay(f: Fernet, rows: seq<Row>)
    ensures forall i :: 0 <= i < |rows| && (!Locked(rows[i]) || f.dec(TokenOf(rows[i])).None?) ==> DecryptedRows(f, rows)[i] == rows[i]
  {
    forall i | 0 <= i < |rows| && (!Locked(rows[i]) || f.dec(TokenOf(rows[i])).None?) ensures DecryptedRows(f, rows)[i] == rows[i] {
      DecryptedRowIs(f, rows[i]);
    }
  }

  // ---- the bulk jobs ----

  datatype Report = Report(converted: nat, skipped: nat, errors: nat)

  class KeyStore {
    var cas: seq<Row>
    var certs: seq<Row>

    constructor (cas: seq<Row>, certs: seq<Row>)
      ensures this.cas == cas && this.certs == certs
    {
      this.cas, this.certs := cas, certs;
    }

    /** One of the two loops of encrypt_all_keys. */
    method EncryptTable(f: Fernet, r: nat -> nat, rows: seq<Row>, dryRun: bool) returns (next: seq<Row>, encrypted: nat, skipped: nat)
      ensures next == if dryRun then rows else EncryptedRows(f, r, rows)
      ensures encrypted == Count(Unlocked(), rows) && skipped == Count(Lockeds(), rows)
    {
      next, encrypted, skipped := [], 0, 0;
      ghost var counted, locked := Unlocked(), Lockeds();
      for i := 0 to |rows|
        invariant |next| == i
        invariant forall k :: 0 <= k < i ==> next[k] == if dryRun then rows[k] else EncryptedRow(f, r(k), rows[k])
        invariant encrypted == Count(counted, rows[..i])
        invariant skipped == Count(locked, rows[..i])
      {
        CountSnoc(counted, rows, i);
        CountSnoc(locked, rows, i);
        var row := rows[i];
        if row.prv.Some? {
          if !IsEncrypted(row.prv.value) {
            if !dryRun { row := row.(prv := Some(Encrypt(Some(f), r(i), row.prv.value))); }
            encrypted := encrypted + 1;
          } else {
            skipped := skipped + 1;
          }
        }
        next := next + [row];
      }
      assert rows[..|rows|] == rows;
    }

    /** encrypt_all_keys; nothing in it raises, so no errors are collected. */
    method EncryptAllKeys(f: Option<Fernet>, r: nat -> nat, s: nat -> nat, dryRun: bool) returns (report: Report)
      modifies this
      ensures f.None? ==> report == Report(0, 0, 1) && cas == old(cas) && certs == old(certs)
      ensures f.Some? && !dryRun ==>
                cas == EncryptedRows(f.value, r, old(cas)) && certs == EncryptedRows(f.value, s, old(certs))
      ensures dryRun ==> cas == old(cas) && certs == old(certs)
      ensures f.Some? ==> report == Report(Count(Unlocked(), old(cas)) + Count(Unlocked(), old(certs)),
                                           Count(Lockeds(), old(cas)) + Count(Lockeds(), old(certs)), 0)
      ensures f.Some? ==> report.converted + report.skipped + report.errors ==
                          Count(row => HoldsKey(row), old(cas)) + Count(row => HoldsKey(row), old(certs))
    {
      if f.None? { return Report(0, 0, 1); }
      EveryKeyIsCounted(f.value, dryRun, cas);
      EveryKeyIsCounted(f.value, dryRun, certs);
      var nextCas, encryptedCas, skippedCas := EncryptTable(f.value, r, cas, dryRun);
      var nextCerts, encryptedCerts, skippedCerts := EncryptTable(f.value, s, certs, dryRun);
      cas, certs := nextCas, nextCerts;
      report := Report(encryptedCas + encryptedCerts, skippedCas + skippedCerts, 0);
    }

    /** The try block for one key: decrypted, or left with its error; a dry run does not try. */
    method DecryptKey(f: Fernet, row: Row, dryRun: bool) returns (next: Row, ok: bool)
      requires Locked(row)
      ensures next == if dryRun then row else DecryptedRow(f, row)
      ensures ok <==> dryRun || f.dec(TokenOf(row)).Some?
      ensures dryRun || f.dec(TokenOf(row)).None? ==> next == row
      ensures !dryRun && ok ==> next.prv.Some? && Decode(next.prv.value) == f.dec(TokenOf(row)) && next.refid == row.refid
    {
      DecryptedRowIs(f, row);
      if dryRun { return row, true; }
      match Decrypt(Some(f), row.prv.value) {
        case Ok(text) => next, ok := row.(prv := Some(text)), true;
        case Err(_) => next, ok := row, false;
      }
    }

    /** One of the two loops of decrypt_all_keys: in a dry run every encrypted key is counted as one that opens. */
    method DecryptTable(f: Fernet, rows: seq<Row>, dryRun: bool) returns (next: seq<Row>, decrypted: nat, skipped: nat, errors: nat)
      ensures next == if dryRun then rows else DecryptedRows(f, rows)
      ensures decrypted == Count(Counted(f, dryRun), rows)
      ensures skipped == Count(Unlocked(), rows)
      ensures errors == Count(Refused(f, dryRun), rows)
    {
      next, decrypted, skipped, errors := [], 0, 0, 0;
      ghost var counted, refused := Counted(f, dryRun), Refused(f, dryRun);
      for i := 0 to |rows|
        invariant |next| == i
        invariant forall k :: 0 <= k < i ==> next[k] == if dryRun then rows[k] else DecryptedRow(f, rows[k])
        invariant decrypted == Count(counted, rows[..i])
        invariant skipped == Count(Unlocked(), rows[..i])
        invariant errors == Count(refused, rows[..i])
      {
        CountSnoc(counted, rows, i);
        CountSnoc(Unlocked(), rows, i);
        CountSnoc(refused, rows, i);
        var row := rows[i];
        if row.prv.Some? {
          if !IsEncrypted(row.prv.value) {
            skipped := skipped + 1;
          } else {
            var ok;
            row, ok := DecryptKey(f, row, dryRun);
            if ok { decrypted := decrypted + 1; } else { errors := errors + 1; }
          }
        }
        next := next + [row];
      }
      assert rows[..|rows|] == rows;
    }

    /** decrypt_all_keys */
    method DecryptAllKeys(f: Option<Fernet>, dryRun: bool) returns (report: Report)
      modifies this
      ensures f.None? ==> report == Report(0, 0, 1) && cas == old(cas) && certs == old(certs)
      ensures dryRun ==> cas == old(cas) && certs == old(certs)
      ensures f.Some? && !dryRun ==> cas == DecryptedRows(f.value, old(cas)) && certs == DecryptedRows(f.value, old(certs))
      ensures |cas| == |old(cas)| && |certs| == |old(certs)|
      ensures f.Some? ==> forall i :: 0 <= i < |cas| && (!Locked(old(cas)[i]) || f.value.dec(TokenOf(old(cas)[i])).None?) ==> cas[i] == old(cas)[i]
      ensures f.Some? ==> forall i :: 0 <= i < |certs| && (!Locked(old(certs)[i]) || f.value.dec(TokenOf(old(certs)[i])).None?) ==>
                certs[i] == old(certs)[i]
      ensures f.Some? ==> report.converted + report.skipped + report.errors ==
                          Count(row => HoldsKey(row), old(cas)) + Count(row => HoldsKey(row), old(certs))
      ensures f.Some? ==> report.errors == Count(Refused(f.value, dryRun), old(cas)) + Count(Refused(f.value, dryRun), old(certs))
      ensures f.Some? ==> report.skipped == Count(Unlocked(), old(cas)) + Count(Unlocked(), old(certs))
    {
      if f.None? { return Report(0, 0, 1); }
      EveryKeyIsCounted(f.value, dryRun, cas);
      EveryKeyIsCounted(f.value, dryRun, certs);
      var nextCas, decryptedCas, skippedCas, errorsCas := DecryptTable(f.value, cas, dryRun);
      var nextCerts, decryptedCerts, skippedCerts, errorsCerts := DecryptTable(f.value, certs, dryRun);
      FailingKeysStay(f.value, cas);
      FailingKeysStay(f.value, certs);
      cas, certs := nextCas, nextCerts;
      report := Report(decryptedCas + decryptedCerts, skippedCas + skippedCerts, errorsCas + errorsCerts);
    }
  }
}
