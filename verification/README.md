# Verifiable RSA encryption: key codec, guest step and host pipeline

This project models the protocol core of a small zkVM program in which a host
asks a guest to encrypt a message under the host's RSA public key and to prove
that it did so. The only real logic is the transport codec for the public key:
the host renders `(n, e)` as `"<n_hex>,<e_hex>"` and the guest's
`parse_public_key` trims the input, splits it on `,`, demands exactly two parts
and parses each as a hexadecimal natural. Around it sit two linear skeletons:
the guest step (read, parse or halt, build the key unchecked, encrypt, commit
only the ciphertext) and the host pipeline (prove, decode the journal, decrypt,
encode the seal, serialise the inner proof, verify against the build-time
guest identity).

Modules, one file each:

- `Wrappers` (`wrappers.dfy`): the `Option` type, failure-compatible like Rust's.
- `Hex` (`hex.dfy`): `HexVal`, `ToHexLower` (`to_str_radix(16)`) and `ParseHex`
  (`from_str_radix(_, 16)` on its strict language).
- `Text` (`text.dfy`): Rust's `str::trim` (Unicode White_Space at both ends) and
  `str::split` on one character.
- `KeyCodec` (`key_codec.dfy`): `EncodePublicKey` and `ParsePublicKey`, with the
  acceptance, rejection, whitespace and round-trip properties.
- `Guest` (`guest.dfy`): the guest `main` as a pure function returning how the
  run ended and what it committed; encryption is a function-valued parameter.
- `Host` (`host.dfy`): the host `main` as a run that records each library call it
  makes and how it ended; every library call is a function-valued parameter.

Numbers are unbounded `nat`s (the source uses `BigUint`, which is unbounded
too), strings are `seq<char>` of Unicode scalar values, bytes are a `byte`
newtype. Both sides of the codec are Dafny functions, so the encoding is
deterministic by construction.

The model follows the code: the host's stages after decryption include seal encoding and inner-proof
serialisation, both of which end the run with an `Err` return (`?`) rather than
a panic, and verification comes last, after decryption
(`Host.DecryptPrecedesVerify`). That ordering is safe here only because the
party decrypting holds the private key; a consumer without it must verify first.

## Model

| member | source | states |
|---|---|---|
| Hex.ToHexLower | host/src/main.rs:19-20 | The rendering of a number is non-empty lower-case hex with no prefix and no leading zero ("0" for zero), and its hex value is the number itself. |
| Hex.CanonicalHexRoundTrip | host/src/main.rs:19-20 | Every canonical hex string is the rendering of its own value, so canonical strings and renderings are the same set. |
| Hex.ParseHex | methods/guest/src/main.rs:21-22 | Accepts exactly the non-empty strings of hex digits; a value read from k digits is below 16^k. Its meaning is characterised by ParseHexToHexLower, ParseHexLeadingZeros, ParseHexIgnoresCase and ParseHexCanonical. |
| Hex.ParseHexToHexLower | methods/guest/src/main.rs:21-22 | Parsing a rendering gives the rendered number back. |
| Hex.ParseHexLeadingZeros | methods/guest/src/main.rs:21-22 | Removing leading '0' digits changes neither acceptance nor the parsed value. |
| Hex.ParseHexIgnoresCase | methods/guest/src/main.rs:21-22 | Upper- and lower-case hex digits are accepted alike and give the same value. |
| Hex.ParseHexCanonical | methods/guest/src/main.rs:21-22 | On success, the parsed value renders as the input lower-cased with leading zeros removed. |
| Text.Trim | methods/guest/src/main.rs:17 | The trim is no longer than the input and has no white space at either end; TrimSpec and TrimIgnoresPadding pin it down completely. |
| Text.TrimStartSpec | methods/guest/src/main.rs:17 | Dropping leading white space leaves the suffix after a maximal run of white space. |
| Text.TrimEndSpec | methods/guest/src/main.rs:17 | Dropping trailing white space leaves the prefix before a maximal run of white space. |
| Text.TrimSpec | methods/guest/src/main.rs:17 | The trim is an infix of the input with only white space around it and no white space at its own ends. |
| Text.TrimIgnoresPadding | methods/guest/src/main.rs:17 | White space added at either end of a string does not change its trim. |
| Text.Split | methods/guest/src/main.rs:17 | Splitting always yields at least one part, so "" gives [""]; SplitSpec and SplitJoin pin the parts down completely. |
| Text.SplitSpec | methods/guest/src/main.rs:17 | Splitting yields one more part than there are separators, no part holds the separator, and joining the parts with it rebuilds the input. |
| Text.SplitJoin | methods/guest/src/main.rs:17 | Splitting a join of separator-free parts returns exactly those parts. |
| KeyCodec.ParsePublicKey | methods/guest/src/main.rs:16-24 | Trim, split on ',', demand two parts, parse each as hex. A success implies the trimmed input holds exactly one comma; ParseAccepts and ParseSound together state exactly which inputs are accepted and with what key. |
| KeyCodec.ParseAccepts | methods/guest/src/main.rs:16-24 | A trimmed input of two non-empty hex fields around one comma decodes to the pair of their values. |
| KeyCodec.ParseSound | methods/guest/src/main.rs:16-24 | Every accepted input trims to two non-empty hex fields around one comma, and the key is their values. |
| KeyCodec.ParseRejectsSeparatorCount | methods/guest/src/main.rs:17-20 | A trimmed input with no comma or with two or more commas is rejected. |
| KeyCodec.ParseRejectsBadField | methods/guest/src/main.rs:21-22 | An empty or non-hex field on either side of the comma makes decoding fail. |
| KeyCodec.ParseRejectsBlankAtSeparator | methods/guest/src/main.rs:17-22 | White space next to the comma is not trimmed, so such inputs are rejected. |
| KeyCodec.ParseRejectsSpaceAfterComma | methods/guest/src/main.rs:17-22 | The input "ab, cd" is rejected. |
| KeyCodec.ParseIgnoresSurroundingWhitespace | methods/guest/src/main.rs:17 | White space around the whole input does not change the decoding. |
| KeyCodec.ParseFieldsCanonical | methods/guest/src/main.rs:21-23 | A decoded component renders as its field lower-cased without leading zeros, so digit case and leading zeros do not matter. |
| KeyCodec.EncodePublicKey | host/src/main.rs:19-21 | The encoding holds exactly one comma; EncodeFields, EncodeShape and RoundTrip state the rest of its shape and that the guest decodes it to the key. |
| KeyCodec.EncodeFields | host/src/main.rs:19-21 | The encoding is the canonical hex of n, one comma, then the canonical hex of e, and the fields' values are n and e. |
| KeyCodec.EncodeShape | host/src/main.rs:21 | The encoding holds exactly one comma and no white space. |
| KeyCodec.EncodeSurvivesTrim | host/src/main.rs:19-21 | The guest's trim leaves the host's encoding unchanged. |
| KeyCodec.RoundTrip | host/src/main.rs:19-21 | The guest decodes the host's encoding of any key to that same key. |
| KeyCodec.EncodeInjective | host/src/main.rs:19-21 | Distinct keys have distinct encodings. |
| KeyCodec.EncodeUniqueCanonical | host/src/main.rs:19-21 | Two canonical fields around a comma are the host's encoding of the key they denote, the only canonical one. |
| Guest.NewUnchecked | methods/guest/src/main.rs:34 | Any (n, e), zero and even values included, gives a key with exactly that modulus and exponent: there is no validity check. |
| Guest.GuestMain | methods/guest/src/main.rs:28-44 | The guest halts exactly when it commits nothing, and it halts on a parse failure exactly when decoding fails. Otherwise it builds the key from exactly the parsed (n, e) with no check, and it completes exactly when encryption succeeds. It then commits one value, the ciphertext of the fixed message under that key. |
| Guest.GuestEncryptsUnderHostKey | methods/guest/src/main.rs:31-44 | Given the host's encoding of a key, the guest never fails to parse it and commits exactly the ciphertext under that key, or halts with nothing committed if encryption fails. |
| Host.HostMain | host/src/main.rs:19-35 | The first call the host makes is the prover on the guest image with the encoding of its own public key as the input. |
| Host.RunPipeline | host/src/main.rs:33-64 | The calls follow the order prove, decode journal, decrypt, encode seal, serialise proof, verify. On failure the stage reported is the one whose call failed (the first call answering None, or verification rejecting), and it is the last call made. A failed seal encoding or proof serialisation ends the run with an `Err` return, and a failure at any other stage is a panic. The journal decoded is that of the proved receipt, and the bytes decrypted, with the host's private key, are that decoded journal. A successful run carries the decryption result. Verification uses the build-time identity on the proved receipt. The run succeeds exactly when every stage succeeds, including verification. |
| Host.NoStageAfterFailure | host/src/main.rs:33-64 | The stage blamed for a failure is the one whose call failed, it is the last call made, and no stage that follows it in the pipeline order is ever called. |
| Host.ForgedIdentityRejected | host/src/main.rs:1-64 | A receipt that verifies against the identity it claims but not against the build-time guest identity never leads to success. |
| Host.DecryptPrecedesVerify | host/src/main.rs:44-64 | Whenever verification is called, a decryption call comes before it. |
| Host.PipelineDecryptsCommit | host/src/main.rs:33-45 | With a prover faithful to a guest run, the host decrypts that run's commit, or stops at proving when the run halted. |
| Host.HostDecryptsGuestCiphertext | host/src/main.rs:19-45 | With a prover faithful to the guest, the host decrypts the ciphertext of the fixed message under its own public key, using its own private key. If the guest cannot encrypt, the host stops at proving. |

## Left out

- Hex.ParseHex: models `from_str_radix` on the strict language only (non-empty, ASCII hex digits). The big-integer library's own source is not part of this model. Its extras (a single leading `+`, `_` digit separators) are therefore not accepted here, so the model rejects a few inputs the library may accept.
- KeyCodec.ParseRejectsBadField: a field outside the strict hex language is rejected here, but the code may accept one that uses the library's extras, such as `+ab` or `a_b`.
- KeyCodec.ParseSound: it inherits the strict hex language above. Inputs using the library's extras are rejected by the model and may be accepted by the code.
- RSA key generation, `new_unchecked`'s internals and PKCS#1 v1.5 encryption and decryption are foreign crypto calls. Encryption is the `Encryptor` parameter of the guest. Key generation is replaced by a given key pair. Decryption is the `decrypt` service of the host.
- The UTF-8 check on the decrypted bytes is folded into the host's `decrypt` service. It fails the same stage.
- `OsRng` is ambient randomness; it appears only as an opaque `Rng` handle passed to encryption.
- The risc0 prover, `ExecutorEnv` serialisation (its `unwrap`s fail with the proving stage), the journal encoding and the internals of `receipt.verify` are zkVM library internals. They are the `prove`, `decodeJournal` and `verify` services; the binding and tamper-detection guarantees of receipts belong to that library.
- Groth16 seal encoding and the bincode serialisation of the inner receipt are foreign formats; only their success or failure is modelled. All `hex::encode` and `println!` output is presentation.
- Decryption consistency (decrypting the guest's ciphertext recovers "hello world") depends on the RSA library and is not stated.
