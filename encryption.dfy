/**
  The `EncryptionService` of the vault: PBKDF2 key derivation, the AES-CBC
  envelope `{data, iv, salt}`, random keys, and the one-way hash of a gesture
  pattern.

  The cryptographic library calls (PBKDF2, AES-CBC with PKCS7 padding,
  SHA-256) are uninterpreted: they are the fields of a `Primitives` value,
  and the one property of them the app relies on (decrypting with the key and
  IV used to encrypt gives back the plaintext) is the predicate
  `AesRoundTrip`, which lemmas take as a hypothesis. Hex encoding and
  decoding are written out, so the envelope's field sizes are proved.
  Random bytes are parameters.
*/
module Encryption {
  import opened Wrappers
  import opened Lists

  type byte = x: int | 0 <= x < 256

  /** Key size in bits, IV and salt sizes in bytes, PBKDF2 iteration count. */
  const KEY_SIZE := 256
  const IV_SIZE := 16
  const SALT_SIZE := 32
  const ITERATIONS := 100000

  /** The single message every decryption failure is reported with. */
  const DECRYPT_ERROR := "Decryption failed. Invalid password or corrupted data."

  // ---------------------------------------------------------------- hex text

  predicate IsHexDigit(c: char) {
    '0' <= c <= '9' || 'a' <= c <= 'f'
  }

  /** Lower-case hex digit for a nibble. */
  function HexDigit(n: int): (c: char)
    requires 0 <= n < 16
    ensures IsHexDigit(c)
  {
    if n < 10 then ('0' as int + n) as char else ('a' as int + n - 10) as char
  }

  /** Value of a hex digit of either case; any other character reads as 0. */
  function HexValue(c: char): (v: int)
    ensures 0 <= v < 16
  {
    if '0' <= c <= '9' then c as int - '0' as int
    else if 'a' <= c <= 'f' then c as int - 'a' as int + 10
    else if 'A' <= c <= 'F' then c as int - 'A' as int + 10
    else 0
  }

  /** `CryptoJS.enc.Hex.stringify`: two lower-case digits per byte, high nibble first. */
  function Hex(bytes: seq<byte>): (h: string)
    ensures |h| == 2 * |bytes|
    ensures forall i :: 0 <= i < |h| ==> IsHexDigit(h[i])
  {
    if bytes == [] then ""
    else [HexDigit(bytes[0] / 16), HexDigit(bytes[0] % 16)] + Hex(bytes[1..])
  }

  /** `CryptoJS.enc.Hex.parse`: one byte per pair of digits; a trailing odd digit is dropped. */
  function HexParse(h: string): (bytes: seq<byte>)
    ensures |bytes| == |h| / 2
  {
    if |h| < 2 then []
    else [HexValue(h[0]) * 16 + HexValue(h[1])] + HexParse(h[2..])
  }

  /** Hex decoding inverts hex encoding, so an envelope's IV and salt carry the exact bytes drawn. */
  lemma {:induction false} HexParseInvertsHex(bytes: seq<byte>)
    ensures HexParse(Hex(bytes)) == bytes
    decreases |bytes|
  {
    if bytes != [] {
      var h := Hex(bytes);
      assert h[2..] == Hex(bytes[1..]);
      assert HexValue(h[0]) * 16 + HexValue(h[1]) == bytes[0];
      HexParseInvertsHex(bytes[1..]);
    }
  }

  /** Different byte strings have different hex texts. */
  lemma HexInjective(a: seq<byte>, b: seq<byte>)
    requires Hex(a) == Hex(b)
    ensures a == b
  {
    HexParseInvertsHex(a);
    HexParseInvertsHex(b);
  }

  // ------------------------------------------------------ library primitives

  type Key = seq<byte>

  datatype Hasher = SHA256

  /** The options object given to `CryptoJS.PBKDF2`. */
  datatype KdfParams = KdfParams(keySizeWords: nat, iterations: nat, hasher: Hasher)

  /** `keySize: KEY_SIZE / 32` words, `ITERATIONS` rounds, SHA-256. */
  const KDF_PARAMS := KdfParams(KEY_SIZE / 32, ITERATIONS, SHA256)

  /**
    The library calls, uninterpreted: PBKDF2 over (password, salt text,
    options); AES in CBC mode with PKCS7 padding, whose encryption yields the
    ciphertext's string form and whose decryption yields `None` where the
    library throws (bad padding, bytes that are not UTF-8); SHA-256 as hex.
  */
  datatype Primitives = Primitives(
    pbkdf2: (string, string, KdfParams) -> Key,
    aesCbcEncrypt: (string, Key, seq<byte>) -> string,
    aesCbcDecrypt: (string, Key, seq<byte>) -> Option<string>,
    sha256Hex: string -> string)

  /** AES-CBC decryption under the key and IV used to encrypt returns the plaintext. */
  ghost predicate AesRoundTrip(p: Primitives) {
    forall plain, key, iv :: p.aesCbcDecrypt(p.aesCbcEncrypt(plain, key, iv), key, iv) == Some(plain)
  }

  /**
    What the gesture check relies on from SHA-256: a digest is never the
    empty string, and different inputs have different digests (collision
    resistance, taken as exact).
  */
  ghost predicate Sha256Ideal(p: Primitives) {
    && (forall s :: p.sha256Hex(s) != "")
    && (forall a, b :: p.sha256Hex(a) == p.sha256Hex(b) ==> a == b)
  }

  /** The two hypotheses can hold together, so lemmas that assume them are not vacuous. */
  lemma HypothesesAreSatisfiable()
    ensures exists p :: AesRoundTrip(p) && Sha256Ideal(p)
  {
    var p := Primitives((pw, salt, kp) => [], (plain, key, iv) => plain,
                        (data, key, iv) => Some(data), s => "x" + s);
    forall a, b | p.sha256Hex(a) == p.sha256Hex(b) ensures a == b {
      assert a == ("x" + a)[1..] && b == ("x" + b)[1..];
    }
    assert AesRoundTrip(p) && Sha256Ideal(p);
  }

  // ---------------------------------------------------------------- envelope

  /** The stored envelope: ciphertext, hex IV, hex salt. */
  datatype EncryptedData = EncryptedData(data: string, iv: string, salt: string)

  /** `deriveKey`: PBKDF2 of the password under the salt's hex text, with the fixed options. */
  function DeriveKey(p: Primitives, password: string, salt: string): Key {
    p.pbkdf2(password, salt, KDF_PARAMS)
  }

  /**
    `encrypt(data, password)` with the 32 salt bytes and 16 IV bytes that
    the library would draw at random.
  */
  function Encrypt(p: Primitives, data: string, password: string, saltBytes: seq<byte>, ivBytes: seq<byte>): (e: EncryptedData)
    requires |saltBytes| == SALT_SIZE && |ivBytes| == IV_SIZE
    ensures |e.iv| == 32 && |e.salt| == 64
    ensures forall i :: 0 <= i < |e.iv| ==> IsHexDigit(e.iv[i])
    ensures forall i :: 0 <= i < |e.salt| ==> IsHexDigit(e.salt[i])
    ensures HexParse(e.iv) == ivBytes && HexParse(e.salt) == saltBytes
  {
    HexParseInvertsHex(ivBytes);
    HexParseInvertsHex(saltBytes);
    var salt := Hex(saltBytes);
    var key := DeriveKey(p, password, salt);
    EncryptedData(p.aesCbcEncrypt(data, key, ivBytes), Hex(ivBytes), salt)
  }

  /**
    `decrypt(envelope, password)`: re-derives the key from the password and
    the envelope's salt and decrypts with the envelope's IV. Every failure is
    the same error.
  */
  function Decrypt(p: Primitives, e: EncryptedData, password: string): (r: Result<string, string>)
    ensures r.Failure? ==> r.error == DECRYPT_ERROR
  {
    var key := DeriveKey(p, password, e.salt);
    match p.aesCbcDecrypt(e.data, key, HexParse(e.iv))
    case Some(plain) => Success(plain)
    case None => Failure(DECRYPT_ERROR)
  }

  /** Decrypting with the password used to encrypt gives back the data. */
  lemma DecryptInvertsEncrypt(p: Primitives, data: string, password: string, saltBytes: seq<byte>, ivBytes: seq<byte>)
    requires AesRoundTrip(p)
    requires |saltBytes| == SALT_SIZE && |ivBytes| == IV_SIZE
    ensures Decrypt(p, Encrypt(p, data, password, saltBytes, ivBytes), password) == Success(data)
  {
    var e := Encrypt(p, data, password, saltBytes, ivBytes);
    var key := DeriveKey(p, password, Hex(saltBytes));
    assert e.data == p.aesCbcEncrypt(data, key, ivBytes);
    assert HexParse(e.iv) == ivBytes;
  }

  /** Two encryptions that drew different salt or IV bytes give different envelopes, even for the same data. */
  lemma FreshBytesGiveDistinctEnvelopes(p: Primitives, data: string, password: string,
                                        salt1: seq<byte>, iv1: seq<byte>, salt2: seq<byte>, iv2: seq<byte>)
    requires |salt1| == SALT_SIZE && |iv1| == IV_SIZE && |salt2| == SALT_SIZE && |iv2| == IV_SIZE
    requires salt1 != salt2 || iv1 != iv2
    ensures Encrypt(p, data, password, salt1, iv1) != Encrypt(p, data, password, salt2, iv2)
  {
  }

  /** `generateSecureKey`: the hex text of 32 random bytes. */
  function GenerateSecureKey(randomBytes: seq<byte>): (k: string)
    requires |randomBytes| == 32
    ensures |k| == 64
    ensures forall i :: 0 <= i < |k| ==> IsHexDigit(k[i])
    ensures HexParse(k) == randomBytes
  {
    HexParseInvertsHex(randomBytes);
    Hex(randomBytes)
  }

  // ------------------------------------------------------------ gesture hash

  /** A cell of the 3x3 unlock grid. */
  type Cell = x: int | 0 <= x < 9

  function Digit(c: Cell): char {
    ('0' as int + c) as char
  }

  /** `pattern.join(',')`: the canonical string of a gesture. */
  function Join(pattern: seq<Cell>): (s: string)
    ensures |s| == if pattern == [] then 0 else 2 * |pattern| - 1
  {
    if pattern == [] then ""
    else if |pattern| == 1 then [Digit(pattern[0])]
    else [Digit(pattern[0]), ','] + Join(pattern[1..])
  }

  /** Distinct patterns have distinct canonical strings: the join is order-sensitive and injective. */
  lemma {:induction false} JoinInjective(a: seq<Cell>, b: seq<Cell>)
    requires Join(a) == Join(b)
    ensures a == b
    decreases |a|
  {
    if a != [] {
      assert b != [];
      assert Digit(a[0]) == Join(a)[0] == Join(b)[0] == Digit(b[0]);
      if |a| == 1 {
        assert |b| == 1;
      } else {
        assert |b| > 1;
        assert Join(a)[2..] == Join(a[1..]);
        assert Join(b)[2..] == Join(b[1..]);
        JoinInjective(a[1..], b[1..]);
        assert a == [a[0]] + a[1..];
        assert b == [b[0]] + b[1..];
      }
    }
  }

  /** `hashGesturePattern`: SHA-256 (hex) of the canonical string. */
  function HashGesturePattern(p: Primitives, pattern: seq<Cell>): string {
    p.sha256Hex(Join(pattern))
  }

  /** `verifyGesturePattern`: the recomputed hash equals the stored one. */
  function VerifyGesturePattern(p: Primitives, pattern: seq<Cell>, hash: string): bool {
    HashGesturePattern(p, pattern) == hash
  }

  /** Under an ideal hash, two patterns have the same hash exactly when they are the same pattern. */
  lemma HashIdentifiesPattern(p: Primitives, a: seq<Cell>, b: seq<Cell>)
    requires Sha256Ideal(p)
    ensures HashGesturePattern(p, a) == HashGesturePattern(p, b) <==> a == b
  {
    if HashGesturePattern(p, a) == HashGesturePattern(p, b) {
      JoinInjective(a, b);
    }
  }

  /** Under an ideal hash, the hash of an enrolled pattern accepts that pattern and no other. */
  lemma VerifyAcceptsOnlyItsPattern(p: Primitives, attempt: seq<Cell>, enrolled: seq<Cell>)
    requires Sha256Ideal(p)
    ensures VerifyGesturePattern(p, attempt, HashGesturePattern(p, enrolled)) <==> attempt == enrolled
  {
    HashIdentifiesPattern(p, attempt, enrolled);
  }

  /**
    A pattern of two or more distinct cells and its reversal are different
    secrets: their joined strings differ, and under an ideal hash the
    reversal does not verify against the pattern's hash.
  */
  lemma ReversalIsADifferentPattern(p: Primitives, pattern: seq<Cell>)
    requires |pattern| >= 2 && Distinct(pattern)
    ensures Join(Reversed(pattern)) != Join(pattern)
    ensures Sha256Ideal(p) ==> !VerifyGesturePattern(p, Reversed(pattern), HashGesturePattern(p, pattern))
  {
    var r := Reversed(pattern);
    assert r[0] == pattern[|pattern| - 1] != pattern[0];
    if Join(r) == Join(pattern) {
      JoinInjective(r, pattern);
      assert false;
    }
    if Sha256Ideal(p) {
      VerifyAcceptsOnlyItsPattern(p, r, pattern);
    }
  }
}
