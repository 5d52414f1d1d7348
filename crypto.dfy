/**
 * Key derivation and the record cipher, as symbolic terms.  PBKDF2-HMAC-SHA256
 * and Fernet are not computed: a key is the term naming the derivation it came
 * from, and a token is the term naming the key and the plaintext it seals.
 * That is the idealised cipher the store relies on: a token opens only under
 * the key that sealed it, and then yields exactly what was sealed.
 */
module Crypto {
  import opened Wrappers

  /** The fixed application-wide salt, 100000 iterations, 32 bytes of key material. */
  const SALT: string := "dr_claude_salt"
  const ITERATIONS: nat := 100000
  const KEY_LENGTH: nat := 32

  /** `PBKDF2HMAC(SHA256(), length, salt, iterations).derive(password.encode())`. */
  datatype KeyMaterial = Pbkdf2HmacSha256(password: string, salt: string, iterations: nat, length: nat)

  /** `base64.urlsafe_b64encode(material)`: the key format Fernet expects. */
  datatype Key = UrlSafeBase64(material: KeyMaterial)

  /** A Fernet token, self-contained and opaque to anyone without the key. */
  datatype Token<P> = Sealed(key: Key, plaintext: P)

  /** `cryptography.fernet.InvalidToken`. */
  datatype DecryptError = InvalidToken

  /** `_derive_key`: the key depends on the password and on nothing else. */
  function DeriveKey(password: string): (k: Key)
    ensures k.material.password == password
    ensures k.material.salt == SALT && k.material.iterations == ITERATIONS
    ensures k.material.length == KEY_LENGTH
  {
    UrlSafeBase64(Pbkdf2HmacSha256(password, SALT, ITERATIONS, KEY_LENGTH))
  }

  function Encrypt<P>(k: Key, plaintext: P): Token<P> {
    Sealed(k, plaintext)
  }

  /** Opens a token; fails unless the token was sealed under this very key. */
  function Decrypt<P>(k: Key, t: Token<P>): (r: Result<P, DecryptError>)
    ensures r.Ok? <==> t.key == k
    ensures r.Ok? ==> t == Encrypt(k, r.value)
  {
    if t.key == k then Ok(t.plaintext) else Err(InvalidToken)
  }

  /** Decryption undoes encryption under the same key. */
  lemma DecryptEncrypt<P>(k: Key, p: P)
    ensures Decrypt(k, Encrypt(k, p)) == Ok(p)
  {
  }

  /** Two derivations from the same password give the same key, and only then. */
  lemma DeriveKeyDeterministic(p1: string, p2: string)
    ensures DeriveKey(p1) == DeriveKey(p2) <==> p1 == p2
  {
  }

  /** A token sealed under one password's key does not open under another's. */
  lemma WrongPasswordFails<P>(p1: string, p2: string, x: P)
    requires p1 != p2
    ensures Decrypt(DeriveKey(p2), Encrypt(DeriveKey(p1), x)) == Err(InvalidToken)
  {
  }
}
