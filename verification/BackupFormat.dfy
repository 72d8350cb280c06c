/** The backup file: salt, nonce and ciphertext around a checksummed document, with each private key sealed on its own
    inside. Key derivation, AES-GCM, SHA-256, JSON and UTF-8 are functions with the laws they are relied on for. */
module BackupFormat {
  import opened Common
  import opened Base64
  import opened Text

  const SALT_SIZE: nat := 32
  const NONCE_SIZE: nat := 12

  type Bytes = seq<Byte>

  datatype Utf8 = Utf8(encode: string -> Bytes, decode: Bytes -> Option<string>)

  ghost predicate IsUtf8(u: Utf8) {
    && (forall s :: u.decode(u.encode(s)) == Some(s))
    && (forall b :: u.decode(b).Some? ==> u.encode(u.decode(b).value) == b)
    && (forall s :: u.encode(s) == [] <==> s == "")
  }

  datatype Cipher = Cipher(
    master: (string, Bytes) -> Bytes,         // from a password and a salt
    perKey: (Bytes, Bytes) -> Bytes,          // from the master key and a salt
    seal: (Bytes, Bytes, Bytes) -> Bytes,     // key, nonce, plaintext
    unseal: (Bytes, Bytes, Bytes) -> Option<Bytes>)

  /** Unsealing undoes sealing under the same key. */
  ghost predicate IsSound(c: Cipher) { forall k, n, p :: c.unseal(k, n, c.seal(k, n, p)) == Some(p) }

  /** What was sealed here under the key k does not unseal under j, unless that is the same key. */
  predicate TellsApart(c: Cipher, k: Bytes, j: Bytes, n: Bytes, p: Bytes) {
    k != j ==> c.unseal(j, n, c.seal(k, n, p)) == None
  }

  // ---- hexadecimal ----

  /** b.hex() */
  function ToHex(b: Bytes): string {
    if b == [] then "" else [HexDigit(b[0] / 16), HexDigit(b[0] % 16)] + ToHex(b[1..])
  }

  /** bytes.fromhex(s), for text without blanks; None where it raises. */
  function FromHex(s: string): Option<Bytes> {
    if s == "" then Some([])
    else if |s| == 1 then None
    else
      match (HexDigitValue(s[0]), HexDigitValue(s[1]), FromHex(s[2..]))
      case (Some(hi), Some(lo), Some(rest)) => if hi < 16 && lo < 16 then Some([hi * 16 + lo] + rest) else None
      case _ => None
  }

  lemma {:induction false} FromToHex(b: Bytes)
    ensures FromHex(ToHex(b)) == Some(b)
  {
    if b != [] {
      FromToHex(b[1..]);
      assert ToHex(b)[2..] == ToHex(b[1..]);
      assert b == [b[0]] + b[1..];
    }
  }

  /** Two digits a byte, the high one first. */
  lemma {:induction false} HexAt(b: Bytes, i: nat)
    requires i < |b|
    ensures |ToHex(b)| == 2 * |b|
    ensures ToHex(b)[2 * i] == "0123456789abcdef"[b[i] / 16] && ToHex(b)[2 * i + 1] == "0123456789abcdef"[b[i] % 16]
  {
    HexLength(b);
    if i > 0 {
      HexAt(b[1..], i - 1);
      assert ToHex(b)[2..] == ToHex(b[1..]);
      assert ToHex(b)[2 * i] == ToHex(b[1..])[2 * (i - 1)] && ToHex(b)[2 * i + 1] == ToHex(b[1..])[2 * (i - 1) + 1];
    }
  }

  lemma {:induction false} HexLength(b: Bytes)
    ensures |ToHex(b)| == 2 * |b|
  {
    if b != [] {
      HexLength(b[1..]);
    }
  }

  // ---- one private key ----

  datatype SealedKey = SealedKey(salt: string, nonce: string, ciphertext: string)

  /** _encrypt_private_key */
  function SealKey(c: Cipher, u: Utf8, pem: string, master: Bytes, salt: Bytes, nonce: Bytes): SealedKey {
    SealedKey(ToHex(salt), ToHex(nonce), ToHex(c.seal(c.perKey(master, salt), nonce, u.encode(pem))))
  }

  /** _decrypt_private_key; None where it raises. */
  function OpenKey(c: Cipher, u: Utf8, k: SealedKey, master: Bytes): Option<string> {
    match (FromHex(k.salt), FromHex(k.nonce), FromHex(k.ciphertext))
    case (Some(salt), Some(nonce), Some(ciphertext)) =>
      (match c.unseal(c.perKey(master, salt), nonce, ciphertext)
       case None => None
       case Some(plaintext) => u.decode(plaintext))
    case _ => None
  }

  /** A sealed key opens to the same text under the master key it was sealed with, and under another exactly where that
      derives the same key. */
  lemma {:induction false} KeyOpensOnlyUnderItsMaster(c: Cipher, u: Utf8, pem: string, master: Bytes, salt: Bytes, nonce: Bytes, other: Bytes)
    requires IsSound(c) && IsUtf8(u)
    requires TellsApart(c, c.perKey(master, salt), c.perKey(other, salt), nonce, u.encode(pem))
    ensures OpenKey(c, u, SealKey(c, u, pem, master, salt, nonce), other) ==
            if c.perKey(other, salt) == c.perKey(master, salt) then Some(pem) else None
  {
    FromToHex(salt);
    FromToHex(nonce);
    FromToHex(c.seal(c.perKey(master, salt), nonce, u.encode(pem)));
  }

  // ---- the file ----

  /** The JSON object: everything but the checksum entry, and that entry's value. */
  datatype Doc<B> = Doc(body: B, checksum: Option<string>)

  datatype Json<!B> = Json(dumps: Doc<B> -> string, loads: string -> Option<Doc<B>>, hash: string -> string)

  ghost predicate ReadsBack<B(!new)>(j: Json<B>) {
    forall d :: j.loads(j.dumps(d)) == Some(d)
  }

  datatype BackupError =
    | WeakPassword
    | BadCertificate        // a stored certificate is not base64 of text
    | TooSmall
    | CannotDecrypt
    | NotText
    | NotJson
    | ChecksumMismatch
    | KeyUnreadable

  function Checksum<B>(j: Json<B>, body: B): string { j.hash(j.dumps(Doc(body, None))) }

  /** Packing any document, with whatever checksum entry it carries. */
  function PackDoc<B>(c: Cipher, u: Utf8, j: Json<B>, doc: Doc<B>, master: Bytes, salt: Bytes, nonce: Bytes): Bytes {
    salt + (nonce + c.seal(master, nonce, u.encode(j.dumps(doc))))
  }

  /** What create_backup seals. */
  function Plaintext<B>(u: Utf8, j: Json<B>, body: B): Bytes { u.encode(j.dumps(Doc(body, Some(Checksum(j, body))))) }

  /** The last steps of create_backup. */
  function Pack<B>(c: Cipher, u: Utf8, j: Json<B>, body: B, master: Bytes, salt: Bytes, nonce: Bytes): Bytes {
    PackDoc(c, u, j, Doc(body, Some(Checksum(j, body))), master, salt, nonce)
  }

  /** The first steps of restore_backup: the document and the master key. */
  function Unpack<B(==)>(c: Cipher, u: Utf8, j: Json<B>, file: Bytes, password: string): Result<(B, Bytes), BackupError> {
    if |file| < SALT_SIZE + NONCE_SIZE then Err(TooSmall)
    else
      var sealed := file[SALT_SIZE..];
      var master := c.master(password, file[..SALT_SIZE]);
      match c.unseal(master, sealed[..NONCE_SIZE], sealed[NONCE_SIZE..])
      case None => Err(CannotDecrypt)
      case Some(plaintext) =>
        match u.decode(plaintext)
        case None => Err(NotText)
        case Some(text) =>
          match j.loads(text)
          case None => Err(NotJson)
          case Some(doc) =>
            if doc.checksum.Some? && doc.checksum.value != Checksum(j, doc.body) then Err(ChecksumMismatch)
            else Ok((doc.body, master))
  }

  /** The refusals before the checksum: shorter than a salt and a nonce, not to be decrypted with the key of the password
      and the salt in front, not text, not JSON. */
  lemma {:induction false} UnpackRefusals<B>(c: Cipher, u: Utf8, j: Json<B>, file: Bytes, password: string)
    ensures Unpack(c, u, j, file, password) == Err(TooSmall) <==> |file| < 44
    ensures |file| >= 44 ==>
      var plain := c.unseal(c.master(password, file[..32]), file[32..44], file[44..]);
      && (Unpack(c, u, j, file, password) == Err(CannotDecrypt) <==> plain.None?)
      && (Unpack(c, u, j, file, password) == Err(NotText) <==> plain.Some? && u.decode(plain.value).None?)
      && (Unpack(c, u, j, file, password) == Err(NotJson) <==>
            plain.Some? && u.decode(plain.value).Some? && j.loads(u.decode(plain.value).value).None?)
  {
    if |file| >= 44 {
      assert file[SALT_SIZE..][..NONCE_SIZE] == file[32..44] && file[SALT_SIZE..][NONCE_SIZE..] == file[44..];
    }
  }

  /** The file: 32 bytes of salt, 12 of nonce, and under the key from that salt the document with the hash of its dump
      without a checksum. */
  lemma {:induction false} FileLayout<B>(c: Cipher, u: Utf8, j: Json<B>, body: B, master: Bytes, salt: Bytes, nonce: Bytes)
    requires |salt| == 32 && |nonce| == 12
    ensures var file := Pack(c, u, j, body, master, salt, nonce);
      && |file| >= 44 && file[..32] == salt && file[32..44] == nonce
      && file[44..] == c.seal(master, nonce, u.encode(j.dumps(Doc(body, Some(j.hash(j.dumps(Doc(body, None))))))))
  {
    var ciphertext := c.seal(master, nonce, u.encode(j.dumps(Doc(body, Some(Checksum(j, body))))));
    var file := salt + (nonce + ciphertext);
    assert file[..32] == salt && file[32..44] == nonce && file[44..] == ciphertext;
  }

  /** The sealed key: salt and nonce in hexadecimal, and the text sealed under the key derived from that salt. */
  lemma {:induction false} SealedFields(c: Cipher, u: Utf8, pem: string, master: Bytes, salt: Bytes, nonce: Bytes)
    ensures var k := SealKey(c, u, pem, master, salt, nonce);
      && FromHex(k.salt) == Some(salt) && FromHex(k.nonce) == Some(nonce)
      && FromHex(k.ciphertext) == Some(c.seal(c.perKey(master, salt), nonce, u.encode(pem)))
  {
    FromToHex(salt);
    FromToHex(nonce);
    FromToHex(c.seal(c.perKey(master, salt), nonce, u.encode(pem)));
  }

  /** A packed document comes out whole under its password; under any other password the file does not decrypt, unless
      that derives the same key. */
  lemma {:induction false} UnpackPack<B(!new)>(c: Cipher, u: Utf8, j: Json<B>, body: B, password: string, salt: Bytes, nonce: Bytes, other: string)
    requires IsSound(c) && IsUtf8(u) && ReadsBack(j)
    requires |salt| == SALT_SIZE && |nonce| == NONCE_SIZE
    requires TellsApart(c, c.master(password, salt), c.master(other, salt), nonce, Plaintext(u, j, body))
    ensures Unpack(c, u, j, Pack(c, u, j, body, c.master(password, salt), salt, nonce), other) ==
            if c.master(other, salt) == c.master(password, salt) then Ok((body, c.master(password, salt))) else Err(CannotDecrypt)
  {
    var master := c.master(password, salt);
    var ciphertext := c.seal(master, nonce, u.encode(j.dumps(Doc(body, Some(Checksum(j, body))))));
    var file := Pack(c, u, j, body, master, salt, nonce);
    assert file[..SALT_SIZE] == salt && file[SALT_SIZE..] == nonce + ciphertext;
    assert (nonce + ciphertext)[..NONCE_SIZE] == nonce && (nonce + ciphertext)[NONCE_SIZE..] == ciphertext;
  }

  lemma {:induction false} UnpackDoc<B(!new)>(c: Cipher, u: Utf8, j: Json<B>, doc: Doc<B>, password: string, salt: Bytes, nonce: Bytes)
    requires IsSound(c) && IsUtf8(u) && ReadsBack(j)
    requires |salt| == SALT_SIZE && |nonce| == NONCE_SIZE
    ensures var master := c.master(password, salt);
            Unpack(c, u, j, PackDoc(c, u, j, doc, master, salt, nonce), password) ==
            if doc.checksum.None? || doc.checksum.value == Checksum(j, doc.body) then Ok((doc.body, master)) else Err(ChecksumMismatch)
  {
    var master := c.master(password, salt);
    var ciphertext := c.seal(master, nonce, u.encode(j.dumps(doc)));
    var file := salt + (nonce + ciphertext);
    assert file[..SALT_SIZE] == salt && file[SALT_SIZE..] == nonce + ciphertext;
    assert (nonce + ciphertext)[..NONCE_SIZE] == nonce && (nonce + ciphertext)[NONCE_SIZE..] == ciphertext;
  }

  /** A body replaced by a different one under the checksum of the first, and packed under the right password: the two
      are different texts to the hash, and the file is refused exactly when the hash tells them apart. */
  lemma {:induction false} AlteredIsRefused<B(!new)>(c: Cipher, u: Utf8, j: Json<B>, original: B, altered: B, password: string, salt: Bytes, nonce: Bytes)
    requires IsSound(c) && IsUtf8(u) && ReadsBack(j) && original != altered
    requires |salt| == SALT_SIZE && |nonce| == NONCE_SIZE
    ensures var master := c.master(password, salt);
            var file := PackDoc(c, u, j, Doc(altered, Some(Checksum(j, original))), master, salt, nonce);
            var x, y := j.dumps(Doc(original, None)), j.dumps(Doc(altered, None));
            && x != y
            && (Unpack(c, u, j, file, password) == Err(ChecksumMismatch) <==> j.hash(x) != j.hash(y))
            && (Unpack(c, u, j, file, password) == Ok((altered, master)) <==> j.hash(x) == j.hash(y))
  {
    UnpackDoc(c, u, j, Doc(altered, Some(Checksum(j, original))), password, salt, nonce);
    assert j.loads(j.dumps(Doc(original, None))) == Some(Doc(original, None));
    assert j.loads(j.dumps(Doc(altered, None))) == Some(Doc(altered, None));
  }

  /** Without a checksum entry nothing is compared: any body is taken. */
  lemma {:induction false} NoChecksumNoRefusal<B(!new)>(c: Cipher, u: Utf8, j: Json<B>, body: B, password: string, salt: Bytes, nonce: Bytes)
    requires IsSound(c) && IsUtf8(u) && ReadsBack(j)
    requires |salt| == SALT_SIZE && |nonce| == NONCE_SIZE
    ensures var master := c.master(password, salt);
            Unpack(c, u, j, PackDoc(c, u, j, Doc(body, None), master, salt, nonce), password) == Ok((body, master))
  {
    UnpackDoc(c, u, j, Doc(body, None), password, salt, nonce);
  }
}
