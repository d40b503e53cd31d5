/**
  The host side as a linear pipeline: encode the public key, prove the guest on
  it, decode the journal, decrypt the ciphertext, encode the seal, serialise the
  inner proof and finally verify the receipt against the build-time guest
  identity. Each external step is a parameter; a failing step ends the run, by a
  panic (`unwrap`/`expect`) or by an early `Err` return (`?`).
 */
module Host {
  import opened Wrappers
  import opened KeyCodec
  import opened Guest

  /** A guest image identity (`Digest`). */
  datatype ImageId = ImageId(words: seq<nat>)

  /** A receipt: the journal, the identity it claims, and opaque proof material. */
  datatype Receipt = Receipt(journal: Bytes, claimedId: ImageId, inner: Bytes)

  /** The host's private key, never sent anywhere. */
  datatype PrivateKey = PrivateKey(handle: nat)

  datatype KeyPair = KeyPair(public: PublicKey, private: PrivateKey)

  /** `GUEST_CODE_ELF` and `GUEST_CODE_ID`, fixed when the host is built. */
  datatype GuestBuild = GuestBuild(elf: Bytes, codeId: ImageId)

  /** The library calls the host makes, each answering `None`/`false` on failure. */
  datatype Services = Services(
    prove: (Bytes, seq<char>) -> Option<Receipt>,
    decodeJournal: Bytes -> Option<Bytes>,
    decrypt: (PrivateKey, Bytes) -> Option<seq<char>>,
    encodeSeal: Receipt -> Option<Bytes>,
    serializeInner: Receipt -> Option<Bytes>,
    verify: (Receipt, ImageId) -> bool)

  datatype Stage = Prove | DecodeJournal | Decrypt | EncodeSeal | SerializeProof | Verify

  /** The order in which the host runs its stages. */
  const Pipeline: seq<Stage> := [Prove, DecodeJournal, Decrypt, EncodeSeal, SerializeProof, Verify]

  /** One call into a library, with the arguments that matter. */
  datatype Call =
    | ProveCall(elf: Bytes, input: seq<char>)
    | DecodeJournalCall(journal: Bytes)
    | DecryptCall(key: PrivateKey, ciphertext: Bytes)
    | EncodeSealCall
    | SerializeProofCall
    | VerifyCall(receipt: Receipt, id: ImageId)

  function StageOf(c: Call): Stage {
    match c
    case ProveCall(_, _) => Prove
    case DecodeJournalCall(_) => DecodeJournal
    case DecryptCall(_, _) => Decrypt
    case EncodeSealCall => EncodeSeal
    case SerializeProofCall => SerializeProof
    case VerifyCall(_, _) => Verify
  }

  datatype Outcome = Done(plaintext: seq<char>) | Panicked(at: Stage) | ErrReturned(at: Stage)

  datatype HostRun = HostRun(calls: seq<Call>, outcome: Outcome)

  /**
    The host `main` from the key encoding on (key generation aside: the key
    pair is given): the guest is proved on the encoding of the public key.
   */
  function HostMain(keys: KeyPair, build: GuestBuild, svc: Services): (run: HostRun)
    ensures 0 < |run.calls| && run.calls[0] == ProveCall(build.elf, EncodePublicKey(keys.public))
  {
    RunPipeline(EncodePublicKey(keys.public), keys.private, build, svc)
  }

  /** Every library call the pipeline would make on `input` succeeds, verification included. */
  predicate AllStagesSucceed(input: seq<char>, key: PrivateKey, build: GuestBuild, svc: Services) {
    match svc.prove(build.elf, input)
    case None => false
    case Some(receipt) =>
      match svc.decodeJournal(receipt.journal)
      case None => false
      case Some(ciphertext) =>
        && svc.decrypt(key, ciphertext).Some?
        && svc.encodeSeal(receipt).Some?
        && svc.serializeInner(receipt).Some?
        && svc.verify(receipt, build.codeId)
  }

  /**
    `stage` is the first stage whose library call fails on `input`: the call
    answers `None`, or, for `Verify`, the receipt does not verify against the
    build-time identity.
   */
  predicate StageFails(stage: Stage, input: seq<char>, key: PrivateKey, build: GuestBuild, svc: Services) {
    match svc.prove(build.elf, input)
    case None => stage == Prove
    case Some(receipt) =>
      match svc.decodeJournal(receipt.journal)
      case None => stage == DecodeJournal
      case Some(ciphertext) =>
        if svc.decrypt(key, ciphertext).None? then stage == Decrypt
        else if svc.encodeSeal(receipt).None? then stage == EncodeSeal
        else if svc.serializeInner(receipt).None? then stage == SerializeProof
        else stage == Verify && !svc.verify(receipt, build.codeId)
  }

  /** The stages after the key encoding, for the encoded key `input`. */
  function RunPipeline(input: seq<char>, key: PrivateKey, build: GuestBuild, svc: Services): (run: HostRun)
    ensures 0 < |run.calls| <= |Pipeline|
    ensures forall i :: 0 <= i < |run.calls| ==> StageOf(run.calls[i]) == Pipeline[i]
    ensures run.calls[0] == ProveCall(build.elf, input)
    ensures forall i :: 0 <= i < |run.calls| && run.calls[i].DecryptCall? ==> run.calls[i].key == key
    ensures forall i :: 0 <= i < |run.calls| && run.calls[i].VerifyCall? ==>
      && run.calls[i].id == build.codeId
      && Some(run.calls[i].receipt) == svc.prove(build.elf, input)
    ensures run.outcome.Done? <==> AllStagesSucceed(input, key, build, svc)
    ensures run.outcome.Done? ==> |run.calls| == |Pipeline|
    ensures !run.outcome.Done? ==> run.outcome.at == Pipeline[|run.calls| - 1]
    ensures !run.outcome.Done? ==> StageFails(run.outcome.at, input, key, build, svc)
    ensures !run.outcome.Done? ==> (run.outcome.ErrReturned? <==> run.outcome.at in {EncodeSeal, SerializeProof})
    ensures run.outcome.Done? ==>
      svc.prove(build.elf, input).Some? && svc.verify(svc.prove(build.elf, input).value, build.codeId)
    ensures 2 <= |run.calls| ==>
      && svc.prove(build.elf, input).Some?
      && run.calls[1] == DecodeJournalCall(svc.prove(build.elf, input).value.journal)
    ensures 3 <= |run.calls| ==>
      && svc.prove(build.elf, input).Some?
      && var journal := svc.prove(build.elf, input).value.journal;
      && svc.decodeJournal(journal).Some?
      && run.calls[2] == DecryptCall(key, svc.decodeJournal(journal).value)
      && (run.outcome.Done? ==> Some(run.outcome.plaintext) == svc.decrypt(key, svc.decodeJournal(journal).value))
  {
    var p := ProveCall(build.elf, input);
    match svc.prove(build.elf, input)
    case None => HostRun([p], Panicked(Prove))
    case Some(receipt) =>
      var j := DecodeJournalCall(receipt.journal);
      match svc.decodeJournal(receipt.journal)
      case None => HostRun([p, j], Panicked(DecodeJournal))
      case Some(ciphertext) =>
        var d := DecryptCall(key, ciphertext);
        match svc.decrypt(key, ciphertext)
        case None => HostRun([p, j, d], Panicked(Decrypt))
        case Some(plaintext) =>
          match svc.encodeSeal(receipt)
          case None => HostRun([p, j, d, EncodeSealCall], ErrReturned(EncodeSeal))
          case Some(_) =>
            match svc.serializeInner(receipt)
            case None => HostRun([p, j, d, EncodeSealCall, SerializeProofCall], ErrReturned(SerializeProof))
            case Some(_) =>
              var calls := [p, j, d, EncodeSealCall, SerializeProofCall, VerifyCall(receipt, build.codeId)];
              if svc.verify(receipt, build.codeId) then HostRun(calls, Done(plaintext))
              else HostRun(calls, Panicked(Verify))
  }

  /**
    The stage blamed for a failure is the one whose call failed, it is the
    last one run, and no stage that comes after it in `Pipeline` is called.
   */
  lemma NoStageAfterFailure(input: seq<char>, key: PrivateKey, build: GuestBuild, svc: Services)
    requires !RunPipeline(input, key, build, svc).outcome.Done?
    ensures var run := RunPipeline(input, key, build, svc);
      && StageFails(run.outcome.at, input, key, build, svc)
      && run.outcome.at == Pipeline[|run.calls| - 1]
      && forall i, j :: 0 <= i < |run.calls| && |run.calls| <= j < |Pipeline| ==>
           StageOf(run.calls[i]) != Pipeline[j]
  {
    var run := RunPipeline(input, key, build, svc);
    forall i, j | 0 <= i < |run.calls| && |run.calls| <= j < |Pipeline|
      ensures StageOf(run.calls[i]) != Pipeline[j]
    {
      assert StageOf(run.calls[i]) == Pipeline[i];
    }
  }

  /**
    The ciphertext is decrypted before the receipt is verified: whenever the
    verification call is made, a decryption call precedes it.
   */
  lemma DecryptPrecedesVerify(input: seq<char>, key: PrivateKey, build: GuestBuild, svc: Services)
    ensures var run := RunPipeline(input, key, build, svc);
      forall j :: 0 <= j < |run.calls| && run.calls[j].VerifyCall? ==>
        2 < j && run.calls[2].DecryptCall?
  {
    var run := RunPipeline(input, key, build, svc);
    forall j | 0 <= j < |run.calls| && run.calls[j].VerifyCall?
      ensures 2 < j && run.calls[2].DecryptCall?
    {
      assert StageOf(run.calls[j]) == Pipeline[j] == Verify;
      assert StageOf(run.calls[2]) == Pipeline[2];
    }
  }

  /**
    A prover that runs the guest faithfully on `input`: it yields a receipt
    exactly when the guest run `guest` completes, and that receipt's journal
    decodes to the guest's one commit.
   */
  predicate ProvesRun(svc: Services, build: GuestBuild, input: seq<char>, guest: Run) {
    && (svc.prove(build.elf, input).Some? <==> guest.status.Completed?)
    && (svc.prove(build.elf, input).Some? ==>
          |guest.commits| > 0 &&
          svc.decodeJournal(svc.prove(build.elf, input).value.journal) == Some(guest.commits[0]))
  }

  /** The host decrypts what the proved guest run committed, or stops at proving. */
  lemma PipelineDecryptsCommit(input: seq<char>, key: PrivateKey, build: GuestBuild, svc: Services, guest: Run)
    requires ProvesRun(svc, build, input, guest)
    ensures var run := RunPipeline(input, key, build, svc);
      if guest.status.Completed? then
        3 <= |run.calls| && run.calls[2] == DecryptCall(key, guest.commits[0])
      else
        run == HostRun([ProveCall(build.elf, input)], Panicked(Prove))
  {
  }

  /**
    With a prover faithful to the guest, the host decrypts, with its own
    private key, exactly the ciphertext of the fixed message under its own
    public key; when the guest cannot encrypt, the host stops at proving.
   */
  lemma HostDecryptsGuestCiphertext(keys: KeyPair, build: GuestBuild, svc: Services, encrypt: Encryptor, rng: Rng)
    requires ProvesRun(svc, build, EncodePublicKey(keys.public), GuestMain(EncodePublicKey(keys.public), encrypt, rng))
    ensures var run := HostMain(keys, build, svc);
      match encrypt(keys.public, rng, Message)
      case None => run == HostRun([ProveCall(build.elf, EncodePublicKey(keys.public))], Panicked(Prove))
      case Some(ciphertext) => 3 <= |run.calls| && run.calls[2] == DecryptCall(keys.private, ciphertext)
  {
    var input := EncodePublicKey(keys.public);
    var guest := GuestMain(input, encrypt, rng);
    GuestEncryptsUnderHostKey(keys.public, encrypt, rng);
    PipelineDecryptsCommit(input, keys.private, build, svc, guest);
  }

  /**
    A receipt that would verify against the identity it claims, but not
    against the build-time guest identity, is never accepted.
   */
  lemma ForgedIdentityRejected(input: seq<char>, key: PrivateKey, build: GuestBuild, svc: Services)
    requires svc.prove(build.elf, input).Some?
    requires var receipt := svc.prove(build.elf, input).value;
      svc.verify(receipt, receipt.claimedId) && !svc.verify(receipt, build.codeId)
    ensures !RunPipeline(input, key, build, svc).outcome.Done?
  {
  }
}
