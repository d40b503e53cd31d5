/**
  The guest program: read the encoded key, parse it (halting on failure), build
  the key from exactly the parsed (n, e) with no validity check, encrypt the
  fixed message and commit only the ciphertext. Encryption and its randomness
  are supplied from outside, since they belong to the RSA library.
 */
module Guest {
  import opened Wrappers
  import opened KeyCodec

  newtype byte = x: int | 0 <= x < 256

  type Bytes = seq<byte>

  /** The plaintext `b"hello world"`. */
  const Message: Bytes := [0x68, 0x65, 0x6c, 0x6c, 0x6f, 0x20, 0x77, 0x6f, 0x72, 0x6c, 0x64]

  /** An opaque handle standing for the ambient `OsRng`. */
  datatype Rng = Rng(seed: nat)

  /** `RsaPublicKey::encrypt(rng, Pkcs1v15Encrypt, data)`; `None` is its error. */
  type Encryptor = (PublicKey, Rng, Bytes) -> Option<Bytes>

  /** The two `expect`s that can stop the guest. */
  datatype Fault = ParseFailed | EncryptFailed

  datatype Status = Halted(fault: Fault) | Completed

  /** What one guest execution leaves behind: how it ended and what it committed. */
  datatype Run = Run(status: Status, commits: seq<Bytes>)

  /** `RsaPublicKey::new_unchecked`: any (n, e) is taken as it is, zero and even values included. */
  function NewUnchecked(n: nat, e: nat): (k: PublicKey)
    ensures k.n == n && k.e == e
  {
    PublicKey(n, e)
  }

  /** The guest `main`, with the single input and the encryption primitive as parameters. */
  function GuestMain(input: seq<char>, encrypt: Encryptor, rng: Rng): (run: Run)
    ensures run.status.Halted? <==> run.commits == []
    ensures run.status == Halted(ParseFailed) <==> ParsePublicKey(input).None?
    ensures run.status.Completed? ==>
      && ParsePublicKey(input).Some?
      && var k := ParsePublicKey(input).value;
      && encrypt(k, rng, Message).Some?
      && run.commits == [encrypt(k, rng, Message).value]
    ensures ParsePublicKey(input).Some? && encrypt(ParsePublicKey(input).value, rng, Message).Some?
      ==> run.status.Completed?
  {
    match ParsePublicKey(input)
    case None => Run(Halted(ParseFailed), [])
    case Some(parsed) =>
      var key := NewUnchecked(parsed.n, parsed.e);
      match encrypt(key, rng, Message)
      case None => Run(Halted(EncryptFailed), [])
      case Some(ciphertext) => Run(Completed, [ciphertext])
  }

  /**
    Fed the host's encoding of a key, the guest never fails to parse it and
    encrypts under exactly that key: it commits one ciphertext, or nothing when
    encryption itself fails.
   */
  lemma GuestEncryptsUnderHostKey(k: PublicKey, encrypt: Encryptor, rng: Rng)
    ensures var run := GuestMain(EncodePublicKey(k), encrypt, rng);
      match encrypt(k, rng, Message)
      case Some(ciphertext) => run == Run(Completed, [ciphertext])
      case None => run == Run(Halted(EncryptFailed), [])
  {
    RoundTrip(k);
  }
}
