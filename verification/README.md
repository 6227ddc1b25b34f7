# File-encryption tools: verified model

A Dafny 4.11 model of what a set of file-encryption tools does around its ciphers: use-once protocols, crash-safe
file replacement, fault-tolerant multi-file installation, and authenticated record framing. `dafny verify
dfyconfig.toml` checks all of it.

| component | files | what is proved |
|---|---|---|
| `otp`, one-time pads | `OtpFormat`, `OtpFiles`, `OtpRuns`, `OtpPrograms`, `OtpCreate`, `OtpProtocol`, `OtpUse` | formats, chunked loops, two-pass soundness, end-to-end round trip; and, as a transition system over any number of processes, crashes and copies, that a pad is used once, with the commands proved to be processes of that system |
| `cascade`, four-key installation | `UnixFs`, `KeyStore`, `KeyStoreResidue`, `KeyStoreProgram`, `KeyStoreProgress`, `Publishers` | what every result says about the directory, for every pattern of failures; racing publishers refine one atomic install |
| `ezcrypt`, in-place replacement | `EzFiles`, `EzReadback`, `EzTransaction`, `EzProgram`, `EzProgress`, `EzFormat`, `EzStream`, `EzLoops` | crash safety of every state, result-to-disk map, verified content; the stream format |
| `algos`, record streams | `AlgosSuites`, `AlgosKdf`, `AlgosCrypto`, `AlgosFormat`, `AlgosEnvelope`, `AlgosLoops`, `AlgosAttacker` | round trip, canonicity, exact length, nonce uniqueness, and what an attacker's stream can yield |
| `filecrypt`, STREAM records and staging | `Filecrypt`, `FilecryptStream`, `FilecryptLoops`, `Staging` | round trip, canonicity, 31-bit positions; publication against an adversary |
| `best`, age header scan | `AgeHeader` | the bounded scan accepts exactly a line grammar and is byte-transparent |
| `multicrypt`, containers | `Multicrypt`, `MulticryptSeal` | parse inverts build, counter capacity is exactly no-wrap, round trip |

`Bytes` and `Streams` hold integers, byte strings, readers and writers.

## How faults, crashes and other parties are modelled

* Every call asks an oracle, which is a parameter, what happens: it may fail, others may act just before it, a
  first-pass read may deliver other bytes than are stored, a write may store other bytes than were given. "For every
  fault pattern" is therefore a universally quantified statement.
* A failed call has no effect, except where the model says otherwise: a failed write may leave any part of its data,
  a failed move may have installed the file, a failed reservation or mark may have been made.
* `cascade`: others only add entries. `ezcrypt`: source and output are held open without sharing, so others only add
  names; verification passes read what is stored. `otp`: ledger entries are not deleted; other programs may write pad
  files in place, and the theorems about the marker then say nothing about those files.
* A power loss keeps what was synced and any part of the rest, entries and contents alike.
* Where a loop or a sequence of calls is proved against a specification function, the theorems are about that
  function and the methods are proved equal to it on every input.

## Idealisations

Primitives are function values. Authenticated encryption opens exactly what it sealed, and hashes and MACs have their
lengths; `LawfulPrimitives` in each of these modules shows that the assumptions can be met. No hash is assumed to be
without collisions: `otp`'s theorems end in the property or in two named, different messages with one digest
(`ChecksumFooled`), and `ezcrypt`'s are about runs that do not meet two different byte strings with one digest
(`DigestUnfooled`). The attacker theorem assumes that nothing outside the honestly sealed tuples opens. `ezcrypt`
temporaries: no drawn random name equals the output name (`NamesMissOutput`).

## Findings

* `cascade`: `KeyRollbackIncomplete` can be returned with nothing left in the directory, namely exactly when all
  unlinks succeed and the directory sync after them fails (`ResidueExactly`; a run: `RollbackMayLeaveNothing`).
  `KeyTemporaryCleanupFailed` can leave installed keys besides the temporary it names: none from staging, those whose
  unlink failed after a refused publication, all published ones after a halt (`ResidueExactly`; runs:
  `CleanupMayLeaveKeys`).
* `otp`: `PartialPadPair` does not mean that the sender copy is missing. It is missing exactly if its rename failed;
  if only its directory sync failed, both copies are in place (`CreatePadPair`; a run for each: `PartialPair`).
* `ezcrypt`: a temporary can stay behind, exactly if setting its delete disposition or closing it fails when it is
  given up (`TransformExplained`, `Stays`; a run: `TemporaryMayStay`); it then lies under its temporary name.
* `filecrypt`: `PublishedButDurabilityUncertain` does not say who installed the file (`UncertainMayBeForeign`,
  `UncertainMayBeOwn`). It was not this run exactly if the staged file was at the destination before, or was put there
  by somebody during the run (`UncertainExactly`).

A remark on a layout: `algos`'s MAC message does not contain the length of the associated data. The code always passes
one length, and with it the message is injective (`RecordMacCovers`); with unequal lengths it would not be
(`HmacMessageNeedsFixedAad`).

## Model

| member | source | states |
|---|---|---|
| `OtpFormat.PadHeaderCodec` | otp/src/lib.rs:218-277 | an 80-byte string parses to a pad header if and only if it is the encoding of that header |
| `OtpFormat.EnvelopeHeaderCodec` | otp/src/lib.rs:279-322 | a 64-byte string parses to an envelope header if and only if it is its encoding |
| `OtpFormat.ChecksumMessageCovers` | otp/src/lib.rs:489-501 | the checksummed message fixes key, pad and every header byte except the state byte, and nothing else |
| `OtpFormat.PadFileInspects` | otp/src/lib.rs:516-557 | a pad file that is written passes inspection, and its key and pad are where they are read |
| `OtpFormat.MarkingKeepsPadValid` | otp/src/lib.rs:489-493 | setting the consumed byte of a valid pad keeps it valid and changes only that field |
| `OtpFormat.XorExactInverts` | otp/src/lib.rs:931-943 | succeeds exactly on equal lengths; the same pad undoes it; no other pad gives the same result |
| `OtpFiles.Disk.BeginOutput` | otp/src/lib.rs:410-435 | refuses an existing output, and otherwise fails only if the temporary cannot be made |
| `OtpFiles.Disk.Commit` | otp/src/lib.rs:451-470 | installs the temporary exactly if nothing is there and the rename works; not-durable exactly if the directory sync then fails |
| `OtpFiles.Disk.ReserveUsage` | otp/src/lib.rs:755-780 | create-once: an existing entry always refuses; a failure after creation leaves the entry; what was made and synced is on record |
| `OtpFiles.Disk.MarkPadConsumed` | otp/src/lib.rs:823-830 | writes the byte at offset 17 and nothing else; what was written and synced is on record |
| `OtpFiles.TempFile.WriteAll` | otp/src/lib.rs:437-442 | all bytes or a part and a failure; every byte that reaches a temporary is on record, in order |
| `OtpFiles.HashRegion` | otp/src/lib.rs:1075-1089 | the 64 KiB loop hashes exactly the next bytes and fails exactly when there are too few |
| `OtpFiles.XorChunk` | otp/src/lib.rs:906-922 | one buffer, in place: output is data XOR key, the digest absorbs the key, the MAC the ciphertext |
| `OtpFiles.XorRegion` | otp/src/lib.rs:892-925 | the 64 KiB loops write the XOR of the whole regions, with MAC and digest of the whole regions |
| `OtpFiles.ValidatePad` | otp/src/lib.rs:516-557 | accepts exactly the files whose length and checksum are right, whatever reads fail in between |
| `OtpFiles.CheckTag` | otp/src/lib.rs:1090-1100 | accepts exactly the tag of what was absorbed; a missing tag is an invalid envelope |
| `OtpFiles.AuthenticateEnvelope` | otp/src/lib.rs:1062-1100 | authenticates the whole ciphertext of the view it reads, before anything is reserved |
| `OtpRuns.TwoPassSound` | otp/src/lib.rs:1156-1203 | a plaintext that comes out is ciphertext carrying a valid tag XOR the very pad bytes validated at opening, under the key validated with them, whatever the files did between passes; or two named different messages have one digest |
| `OtpRuns.EncryptUsesValidatedPad` | otp/src/lib.rs:1007-1052 | an envelope that comes out was made with exactly the pad and key validated at opening, or two named different messages have one digest |
| `OtpRuns.EncryptSteady` | otp/src/lib.rs:959-1060 | a fresh sender pad and a message of its capacity give that message's envelope |
| `OtpRuns.DecryptSteady` | otp/src/lib.rs:1115-1204 | the fresh receiver pad turns that envelope back into the message |
| `OtpPrograms.ReadPad` | otp/src/lib.rs:324-337 | the header read and the validation read may see different contents; the result is what they say together |
| `OtpPrograms.ReadAuthKey` | otp/src/lib.rs:814-821 | returns the 32 key bytes of the view it reads |
| `OtpPrograms.ReadEnvelopeHeader` | otp/src/lib.rs:339-355 | returns the parsed header when the announced length is the file length |
| `OtpPrograms.EncryptFirstPass` | otp/src/lib.rs:972-989 | succeeds exactly with the checks on the views it read; writes nothing |
| `OtpPrograms.OpenForEncryption` | otp/src/lib.rs:964-995 | everything before the barriers: checks, output, key; succeeds exactly with the checks on the views it read |
| `OtpPrograms.EncryptChunks` | otp/src/lib.rs:1007-1056 | the loop, the length probe and the pad recheck compute the ciphertext and tag of the whole message |
| `OtpPrograms.WriteParts` | otp/src/lib.rs:1000-1056 | header, ciphertext and tag are the envelope of what both files held; nothing else is written |
| `OtpPrograms.WriteEnvelope` | otp/src/lib.rs:1000-1056 | the temporary holds the complete envelope of what this pass read |
| `OtpPrograms.WriteAndCommit` | otp/src/lib.rs:1000-1059 | what is installed is the complete envelope of this pass, under the validated pad |
| `OtpPrograms.ReserveAndMark` | otp/src/lib.rs:997-998 | both barriers in their order, entry made and synced, mark made and synced; a failure stops on the way |
| `OtpPrograms.SyncAndCommit` | otp/src/lib.rs:444-470 | a sync, then an install that replaces nothing |
| `OtpPrograms.EncryptFileWithState` | otp/src/lib.rs:959-1060 | nothing is reserved or written unless every check passed; for every fault pattern no byte reaches the temporary before both barriers are made and synced; an installed output consists of bytes written after them and uses exactly the validated pad; undisturbed, the exact result, files and ledger |
| `OtpPrograms.DecryptFirstPass` | otp/src/lib.rs:1126-1165 | the first pass accepts exactly what header, pad and full authentication accept |
| `OtpPrograms.DecryptRegion` | otp/src/lib.rs:1170-1190 | XORs exactly the ciphertext region with the pad region; MAC and digest have absorbed exactly these |
| `OtpPrograms.DecryptChunks` | otp/src/lib.rs:1170-1202 | decrypts and re-authenticates ciphertext and pad of the second views |
| `OtpPrograms.DecryptSecondPass` | otp/src/lib.rs:1170-1202 | success means the temporary holds what the second views decrypt to |
| `OtpPrograms.DecryptFileWithState` | otp/src/lib.rs:1115-1204 | a failed first pass leaves ledger and files alone; no byte before both barriers; an installed plaintext is authenticated ciphertext XOR exactly the validated pad; undisturbed, the exact result |
| `OtpCreate.FillPads` | otp/src/lib.rs:636-653 | the same random bytes reach both files and both checksums, 64 KiB at a time |
| `OtpCreate.WriteTails` | otp/src/lib.rs:618-662 | after its header each file holds key, pad and checksum of its own header |
| `OtpCreate.WritePair` | otp/src/lib.rs:586-662 | both temporaries are complete pad files of one identifier, key and pad, in the two roles |
| `OtpCreate.PublishPair` | otp/src/lib.rs:663-670 | syncs and installs, the receiver first: the result and the files after it, for every set of failing calls |
| `OtpCreate.CreatePadPair` | otp/src/lib.rs:572-671 | what each result leaves: both files, the receiver only, or nothing; a partial pair lacks the sender exactly if its rename failed, and is whole exactly if only its directory sync did; in every state a new sender pad has its receiver beside it |
| `OtpCreate.PartialPair` | otp/src/lib.rs:664-670 | a run for each of the two states of a partial pair |
| `OtpCreate.MessageLife` | otp/src/lib.rs:572-671 | create, encrypt with the sender copy, decrypt with the receiver copy: the message comes back, for every message as long as the pad |
| `OtpProtocol.Reachable` | otp/src/lib.rs:959-1060 | the invariant holds in every reachable state: owners of entries, reservations, locks, marks and output agree |
| `OtpProtocol.OneUsePerDirectory` | otp/src/lib.rs:755-780 | over every run with crashes and restored copies, at most one process sharing a directory ever passes reservation for an identifier and role, and only it produces output |
| `OtpProtocol.OneUsePerPadFile` | otp/src/lib.rs:976-998 | the marker alone: a pad file nobody else writes serves at most one process, even across ledger directories |
| `OtpProtocol.BarriersBeforeOutput` | otp/src/lib.rs:997-1006 | at any output, the entry is this process's own and durable, and so is the mark |
| `OtpProtocol.PadBytesUsedOnce` | otp/src/lib.rs:945-998 | where files with the same nonempty pad bytes carry the same identifier, two sender runs sharing a directory never use the same pad bytes |
| `OtpProtocol.SoloSucceeds` | otp/src/lib.rs:972-1006 | an undisturbed process with a fresh pad and a free entry does produce output |
| `OtpProtocol.ReuseExactly` | otp/src/lib.rs:954-998 | a usage can happen twice if and only if both the ledger directory and the pad file differ |
| `OtpUse.EventSimulated` | otp/src/lib.rs:997-1045 | every event a command leaves on record is an enabled step of the protocol, and takes its process on |
| `OtpUse.TrailIsRun` | otp/src/lib.rs:959-1060 | a command, stopped anywhere and interleaved with whatever others do, is a run of the protocol |
| `OtpUse.NoPadForTwoMessages` | otp/src/lib.rs:945-1060 | two senders that share a directory never XOR two messages with the same pad bytes, unless two messages with one digest exist among those they checksum |
| `UnixFs.OpenExclusive` | cascade/src/unix_fs.rs:147-162 | creates only where nothing is, and leaves every other entry of this run and of others alone |
| `UnixFs.RenameNoReplace` | cascade/src/unix_fs.rs:259-275 | moves an own file to a free name or changes nothing |
| `UnixFs.Link` | cascade/src/unix_fs.rs:217-227 | adds a second name only where nothing is |
| `UnixFs.Unlink` | cascade/src/unix_fs.rs:241-243 | removes exactly that entry or changes nothing |
| `UnixFs.CreateEffect` | cascade/src/unix_fs.rs:141-190 | a temporary that was made is new and empty; otherwise nothing is left, unless removing it failed, and then it is named |
| `UnixFs.PublishEffect` | cascade/src/unix_fs.rs:194-239 | rename and link-then-unlink are one "install if absent": installed exactly when the call says so, never replacing |
| `Publishers.StepKeeps` | cascade/src/unix_fs.rs:194-239 | every call of every publisher refines one atomic install-if-absent step |
| `Publishers.RunKeeps` | cascade/src/unix_fs.rs:194-239 | over every interleaving an existing entry stays, and who has installed stays installed |
| `Publishers.OneWinner` | cascade/src/unix_fs.rs:194-239 | at most one publisher installs; the entry is the winner's file; a foreign entry means nobody won |
| `Publishers.AloneIsPublish` | cascade/src/unix_fs.rs:194-239 | a publisher that runs alone computes the sequential function |
| `KeyStore.UnlinkAllEffect` | cascade/src/key_store.rs:383-397 | every name is tried; the reported name is one that remains; none reported means none remains |
| `KeyStore.UnlinkAllExactly` | cascade/src/key_store.rs:383-397 | a name remains exactly if its own unlink call fails |
| `KeyStore.StageOneEffect` | cascade/src/key_store.rs:217-283 | a staged key is complete and synced; a failure leaves nothing or names a temporary that remains |
| `KeyStore.StageEffect` | cascade/src/key_store.rs:216-284 | the same for the whole staging loop |
| `KeyStore.RollbackEffect` | cascade/src/key_store.rs:350-365 | an unlink error means a key remains; no unlink error means none does |
| `KeyStore.WithdrawEffect` | cascade/src/key_store.rs:293-323 | what each error after a failed publication says about the directory; whatever remains is a temporary or a complete key |
| `KeyStore.HaltEffect` | cascade/src/key_store.rs:324-337 | after a leftover temporary the installed keys stay complete and the rest goes |
| `KeyStore.PublishAllEffect` | cascade/src/key_store.rs:286-346 | what each result of the publishing loop says about the directory |
| `KeyStore.GenerateAllExplained` | cascade/src/key_store.rs:205-347 | for every fault pattern and every arrival, no foreign entry is touched, every result says what kind of files of this run are left, and every key that is left is complete |
| `KeyStore.ResidueDecidesResult` | cascade/src/key_store.rs:205-365 | four equivalences: nothing left, the complete set, a temporary left, only some keys left, each exactly for its results |
| `KeyStoreResidue.ResidueExactly` | cascade/src/key_store.rs:205-395 | which keys and which temporaries remain, and which error is reported, exactly, as a function of the clean-up calls that fail: none of the keys before publishing, those whose unlink failed after a refused publication, the first i + 1 after a halt |
| `KeyStoreResidue.WithdrawResidue` | cascade/src/key_store.rs:293-323 | after a refused publication: a key remains exactly if its unlink fails; the rollback error is about the sync exactly if all unlinks work and that sync fails |
| `KeyStoreResidue.HaltResidue` | cascade/src/key_store.rs:324-337 | after a leftover temporary: exactly the first keys remain, and each later temporary exactly if its unlink fails |
| `KeyStoreProgress.QuietGeneration` | cascade/src/key_store.rs:205-347 | if none of the run's calls fails and its four names are fresh, generation succeeds with exactly the complete set |
| `KeyStoreProgress.QuietRunExists` | cascade/src/key_store.rs:205-347 | there is such a run |
| `KeyStoreProgress.RollbackMayLeaveNothing` | cascade/src/key_store.rs:350-365 | a run that reports an incomplete rollback and leaves nothing |
| `KeyStoreProgress.CleanupMayLeaveKeys` | cascade/src/key_store.rs:293-337 | two runs that report a failed clean-up of a temporary and leave a key: one halted, one not rolled back |
| `KeyStoreProgram.BoundDir.CreateTemp` | cascade/src/unix_fs.rs:141-190 | the attempt loop computes the specification function |
| `KeyStoreProgram.BoundDir.PublishNoclobber` | cascade/src/unix_fs.rs:194-239 | rename, fallback and cleanups compute the specification function |
| `KeyStoreProgram.RemoveAll` | cascade/src/key_store.rs:383-397 | the loop with its first error computes the specification function |
| `KeyStoreProgram.RollbackCreated` | cascade/src/key_store.rs:350-365 | unlink all, then sync only if all went |
| `KeyStoreProgram.StageKey` | cascade/src/key_store.rs:217-283 | one iteration of the staging loop computes the specification function |
| `KeyStoreProgram.StageAll` | cascade/src/key_store.rs:216-284 | the staging loop computes the specification function |
| `KeyStoreProgram.PublishKeys` | cascade/src/key_store.rs:286-346 | the publishing loop computes the specification function |
| `KeyStoreProgram.GenerateKeys` | cascade/src/key_store.rs:205-347 | the whole command: its result explains the directory, and every earlier entry is unchanged |
| `EzFiles.SetPending` | ezcrypt/src/platform.rs:625-665 | sets or clears the delete disposition of that file, or fails and changes nothing |
| `EzFiles.Close` | ezcrypt/src/platform.rs:199-214 | closing removes a delete-pending file and nothing else |
| `EzFiles.Rename` | ezcrypt/src/platform.rs:580-623 | moves to a free name, never over an existing one |
| `EzFiles.PhaseIsSafe` | ezcrypt/src/transaction.rs:125-146 | each phase of the transaction survives a kill and every outcome of a power loss with the source or the complete output |
| `EzReadback.HashingReader.Read` | ezcrypt/src/transaction.rs:281-287 | however reads are cut, the hash has absorbed exactly the input so far |
| `EzReadback.HashingWriter.Write` | ezcrypt/src/transaction.rs:307-312 | a short write hashes exactly what was taken |
| `EzReadback.HashingWriter.WriteAll` | ezcrypt/src/transaction.rs:307-312 | over arbitrary short writes, all of the bytes are written and hashed |
| `EzReadback.ReadThrough` | ezcrypt/src/transaction.rs:71-98 | reads the whole input in arbitrary pieces exactly when its length is the expected one |
| `EzReadback.VerifyReadback` | ezcrypt/src/transaction.rs:215-252 | passes exactly when length and digest of the whole stored file are the expected ones, under arbitrary short reads |
| `EzTransaction.CreatePendingEffect` | ezcrypt/src/platform.rs:297-375 | a new temporary is delete-pending before any byte is written; after a failure the source is as it was, and a temporary stays exactly if it could not be armed or closed |
| `EzTransaction.DiscardEffect` | ezcrypt/src/platform.rs:527-539 | a dropped output stays exactly if arming it again, where it was not armed, or closing it fails |
| `EzTransaction.StreamEffect` | ezcrypt/src/transaction.rs:71-108 | the figures handed on are those of one reading of the source, even if it was misread |
| `EzTransaction.ChecksMeanGood` | ezcrypt/src/transaction.rs:110-124 | the three digest checks force content equality, if the digest tells apart the byte strings it is given |
| `EzTransaction.ValidateEffect` | ezcrypt/src/transaction.rs:110-124 | what passes validation is a complete correct output on stable storage |
| `EzTransaction.PublishEffect` | ezcrypt/src/platform.rs:460-524 | success means published for good; a failed sync means both files; any other error published nothing |
| `EzTransaction.DeleteEffect` | ezcrypt/src/platform.rs:154-215 | retained means the source is intact; unconfirmed says only that the output is safe |
| `EzTransaction.TransformExplained` | ezcrypt/src/transaction.rs:48-154 | each result determines the disk state, for every fault pattern, interference and silent corruption; if nothing was published, a temporary stays exactly if one of the calls that give it up fails |
| `EzTransaction.NeverNeither` | ezcrypt/src/transaction.rs:48-154 | every state of every run is crash-safe: "neither file" is unreachable |
| `EzTransaction.PublishedExactly` | ezcrypt/src/transaction.rs:129-146 | this run's file is under the output name at the end exactly for four of the results |
| `EzProgress.QuietRunSucceeds` | ezcrypt/src/transaction.rs:48-154 | without faults the transaction succeeds and the output takes the place of the source |
| `EzProgress.QuietRunExists` | ezcrypt/src/transaction.rs:48-154 | there are such runs |
| `EzProgress.TemporaryMayStay` | ezcrypt/src/platform.rs:330-375 | a run that leaves a temporary: the new file cannot be marked for deletion |
| `EzProgress.PublishedStreamDecrypts` | ezcrypt/src/transaction.rs:110-124 | if an encryption publishes, the published stream decrypts to exactly the source bytes |
| `EzProgress.StreamIsGoodOutput` | ezcrypt/src/transaction.rs:156-173 | the stream of any admissible source is a correct output, so fault-free encryption publishes |
| `EzProgram.PendingOutput.Drop` | ezcrypt/src/platform.rs:527-539 | an unpublished output is marked for deletion if it was not, and closed |
| `EzProgram.PendingOutput.PublishAs` | ezcrypt/src/platform.rs:460-524 | the calls and drops in their order compute the specification function; `published` says whether the name moved |
| `EzProgram.CreateOutput` | ezcrypt/src/platform.rs:297-375 | the attempt loop computes the specification function |
| `EzProgram.StreamThrough` | ezcrypt/src/transaction.rs:71-108 | the hashing streams over short reads and writes compute the specification function |
| `EzProgram.VerifyStored` | ezcrypt/src/transaction.rs:175-252 | both read-back loops compute the specification function |
| `EzProgram.VerifyDecrypts` | ezcrypt/src/transaction.rs:156-173 | decryption into a hashing sink computes the specification function |
| `EzProgram.ValidateOutput` | ezcrypt/src/transaction.rs:110-124 | the checks in their order compute the specification function |
| `EzProgram.DeleteSourceFile` | ezcrypt/src/platform.rs:154-215 | the deletion steps, with cancellation, compute the specification function |
| `EzProgram.TransformPlan` | ezcrypt/src/transaction.rs:48-154 | the whole transaction computes the specification function |
| `EzProgram.TransformSafely` | ezcrypt/src/transaction.rs:48-154 | a whole run: its result explains the disk and no state on the way loses both files |
| `EzFormat.HeaderCodec` | ezcrypt/src/format.rs:96-161 | a byte string decodes to a header if and only if it is its encoding and the header is acceptable |
| `EzFormat.ChunksPartition` | ezcrypt/src/format.rs:163-188 | chunk lengths sum to the plaintext length; all but the last are full; none is empty |
| `EzFormat.EncodedLenExactly` | ezcrypt/src/format.rs:190-208 | strictly increasing, and accepted exactly up to 9223231301513871247 bytes |
| `EzFormat.NoncesDistinct` | ezcrypt/src/format.rs:210-215 | the nonces of the header, chunks and end of one file are pairwise distinct |
| `EzFormat.AadInjective` | ezcrypt/src/format.rs:218-240 | the three families of associated data are injective and disjoint |
| `EzStream.ChunksOpen` | ezcrypt/src/crypto.rs:119-147 | reading back the chunks of a plaintext yields it, and their length is exact |
| `EzStream.OpenedIsChunks` | ezcrypt/src/crypto.rs:119-155 | whatever is read to the end is the chunk stream of what it yields |
| `EzStream.DecryptOfEncrypt` | ezcrypt/src/crypto.rs:39-161 | round trip for every admissible header and plaintext; the byte count is the encoded length |
| `EzStream.AcceptedIsEncrypted` | ezcrypt/src/crypto.rs:94-161 | every accepted input is the encryption of what it yields |
| `EzLoops.EncryptStream` | ezcrypt/src/crypto.rs:39-92 | the in-place loop writes exactly the stream, or reports a changed input |
| `EzLoops.EncryptChunks` | ezcrypt/src/crypto.rs:60-90 | the chunk loop, the end probe and the final tag write the specified chunks |
| `EzLoops.DecryptChunks` | ezcrypt/src/crypto.rs:119-160 | writes only authenticated chunks: always a prefix of what the specification yields |
| `EzLoops.DecryptStream` | ezcrypt/src/crypto.rs:94-161 | the decrypting loop computes the specification, result and output |
| `AlgosSuites.IdentifierIsBijective` | algos/src/suites.rs:137-150 | identifiers and suites correspond one to one |
| `AlgosKdf.InfoInjective` | algos/src/kdf.rs:27-47 | key-derivation info strings are injective in purpose, suite and index |
| `AlgosKdf.NonceUnique` | algos/src/kdf.rs:58-76 | for every suite the record nonce exists, has the right length, and is injective over all 2^64 indices |
| `AlgosKdf.ComputeRecordNonce` | algos/src/kdf.rs:58-76 | the in-place XOR loop computes that nonce |
| `AlgosCrypto.HmacMessageInjective` | algos/src/crypto.rs:188-196 | the MAC message is injective in nonce, associated data and ciphertext for fixed-length associated data |
| `AlgosCrypto.HmacMessageNeedsFixedAad` | algos/src/crypto.rs:188-196 | a remark on the layout: with associated data of unequal lengths, which no caller passes, messages can coincide |
| `AlgosAttacker.RecordMacCovers` | algos/src/envelope.rs:270-276 | as the code calls it, the MAC message fixes file header, record header, nonce and ciphertext |
| `AlgosCrypto.OpenedOfSealed` | algos/src/crypto.rs:14-43 | opening inverts sealing for every suite |
| `AlgosCrypto.SealedOfOpened` | algos/src/crypto.rs:29-43 | what opens is what sealing produces |
| `AlgosCrypto.Seal` | algos/src/crypto.rs:14-27 | the in-place dispatch computes the sealed text |
| `AlgosCrypto.Open` | algos/src/crypto.rs:29-43 | the MAC is checked before the data is touched; the dispatch computes the opened text |
| `AlgosFormat.HeaderCodec` | algos/src/format.rs:33-79 | a header decodes if and only if it is the canonical encoding |
| `AlgosFormat.RecordCodec` | algos/src/format.rs:124-141 | the same for record headers with one of the two flags |
| `AlgosFormat.EncodeHeader` | algos/src/format.rs:33-50 | filling the array field by field gives the specified bytes |
| `AlgosFormat.EncodeRecord` | algos/src/format.rs:124-130 | filling the array field by field gives the specified bytes |
| `AlgosEnvelope.EncryptedFileLength` | algos/src/format.rs:81-97 | the bytes written are as many as the header's arithmetic says, unless that leaves 64 bits |
| `AlgosEnvelope.RecordsOpen` | algos/src/envelope.rs:179-243 | the record stream of a plaintext is read back as that plaintext |
| `AlgosEnvelope.OpenedIsRecords` | algos/src/envelope.rs:179-243 | whatever is read to the end is the record stream of what it yields |
| `AlgosEnvelope.DecryptOfEncrypt` | algos/src/envelope.rs:81-145 | round trip for every length |
| `AlgosEnvelope.AcceptedIsEncrypted` | algos/src/envelope.rs:170-243 | every accepted byte string is the encryption of its plaintext under its own suite, salt and seed |
| `AlgosLoops.EncryptStream` | algos/src/envelope.rs:81-145 | writes exactly the file, or a prefix of it; an input of another length is reported as changed |
| `AlgosLoops.EncryptData` | algos/src/envelope.rs:103-135 | the record loop writes the data records; the count mismatch branch is dead |
| `AlgosLoops.WriteSealedRecord` | algos/src/envelope.rs:147-168 | one record is sealed in place and written in three parts |
| `AlgosLoops.OpenRecord` | algos/src/envelope.rs:246-268 | opens a record in place or leaves the error |
| `AlgosLoops.DecryptRecords` | algos/src/envelope.rs:179-243 | writes only authenticated chunks and computes the specified result |
| `AlgosAttacker.RecordsYieldPrefix` | algos/src/envelope.rs:179-243 | for any input under an honest header, what is written is a chunk-aligned prefix of that file's plaintext |
| `AlgosAttacker.AttackerTheorem` | algos/src/envelope.rs:179-285 | with no forgery, any byte string either is one honest file and yields its plaintext, or fails after a chunk-aligned prefix of one |
| `Filecrypt.HeaderCodec` | filecrypt/src/format.rs:121-178 | a header parses if and only if it is the canonical encoding within the size limit |
| `Filecrypt.NewHeaderParses` | filecrypt/src/format.rs:88-119 | constructor and parser agree, with the unused AES nonce bytes cleared |
| `Filecrypt.RecordCodec` | filecrypt/src/format.rs:194-229 | a record header parses if and only if it is the encoding |
| `Filecrypt.FooterCodec` | filecrypt/src/format.rs:242-268 | the footer check accepts exactly the footer that is written |
| `Filecrypt.SizeLimitExactly` | filecrypt/src/format.rs:9-10 | the size limit is exactly at most 0x7fffffff data records, and all positions fit in 31 bits |
| `FilecryptStream.PositionsUsedOnce` | filecrypt/src/crypto.rs:224-285 | a stream of a permitted length, stopped anywhere, has no position twice, nothing after the last, and all counters below 2^31 |
| `FilecryptStream.RecordsOpen` | filecrypt/src/crypto.rs:288-354 | the records of a plaintext are read back as it, with their exact length |
| `FilecryptStream.OpenedIsRecords` | filecrypt/src/crypto.rs:288-354 | what is read to the end, footer included, is the record stream of what it yields |
| `FilecryptStream.DecryptOfEncrypt` | filecrypt/src/crypto.rs:224-354 | round trip for every plaintext up to the limit |
| `FilecryptStream.AcceptedIsEncrypted` | filecrypt/src/crypto.rs:288-354 | accepted streams are canonical |
| `FilecryptLoops.Stream.Encrypt` | filecrypt/src/crypto.rs:54-74 | seals at the current position, records it and advances |
| `FilecryptLoops.Stream.Decrypt` | filecrypt/src/crypto.rs:109-129 | opens at the current position and advances |
| `FilecryptLoops.EncryptRecord` | filecrypt/src/crypto.rs:236-262 | one iteration over the shared buffer writes the record of the next chunk |
| `FilecryptLoops.EncryptToWriter` | filecrypt/src/crypto.rs:224-286 | the loop writes exactly the file or reports a changed input; it seals at positions 0 to the record count in order, each once, only the end as last, all below 2^31 within the size limit; the remaining-bytes branch is dead |
| `FilecryptLoops.OpenNext` | filecrypt/src/crypto.rs:301-322 | a record is opened only if it is the expected one in its place |
| `FilecryptLoops.DecryptToWriter` | filecrypt/src/crypto.rs:288-354 | writes only authenticated chunks and computes the specified result; the length and remaining-bytes branches are dead |
| `Staging.Reachable` | filecrypt/src/staging.rs:74-121 | what the move installed stays at the destination, in every reachable state |
| `Staging.NeverReplaces` | filecrypt/src/staging.rs:74-121 | an existing destination is never replaced, at any time, whoever made it |
| `Staging.PublishedIsStaged` | filecrypt/src/staging.rs:92-113 | success and uncertain success mean that the destination is the staged file |
| `Staging.SwapIsReported` | filecrypt/src/staging.rs:86-104 | a swapped file is reported as replaced or as an identity mismatch |
| `Staging.UncertainMayBeForeign` | filecrypt/src/staging.rs:105-113 | the uncertain result can be reported although somebody else linked the file there |
| `Staging.UncertainMayBeOwn` | filecrypt/src/staging.rs:105-113 | it can also be this run's own late failure |
| `Staging.DestinationOrigin` | filecrypt/src/staging.rs:74-121 | in every reachable state a destination was there from the start, created by somebody, or installed by the move, and the actions say which |
| `Staging.UncertainExactly` | filecrypt/src/staging.rs:105-119 | over whole runs that end in the uncertain result: this run installed nothing if and only if the staged file was at the destination from the start or was put there by somebody |
| `Staging.StagedFile.Commit` | filecrypt/src/staging.rs:74-121 | the calls in their order, with others acting in between, keep all of this; undisturbed it succeeds |
| `AgeHeader.HeaderIsUnique` | best/src/lib.rs:146-190 | an input has at most one header |
| `AgeHeader.Source.ReadUntil` | best/src/lib.rs:157-160 | reads to the next newline, the limit or the end |
| `AgeHeader.ReadHeaderLine` | best/src/lib.rs:150-165 | the next complete line within 64 KiB, or the certainty that no header exists |
| `AgeHeader.BoundedInput` | best/src/lib.rs:146-190 | accepts exactly the inputs that have a header in the line grammar within 64 KiB; header and rest are the input byte for byte |
| `AgeHeader.Transfer` | best/src/lib.rs:77-101 | copies everything in whatever pieces, exactly up to the limit, and never writes more |
| `Multicrypt.ParseOfBuild` | multicrypt/src/container.rs:24-152 | parsing header, body and tag that were built returns the parts |
| `Multicrypt.ParsedIsBuilt` | multicrypt/src/container.rs:64-152 | whatever parses is what building makes of its parts |
| `Multicrypt.CapacityExactly` | multicrypt/src/crypto.rs:360-375 | a nonempty buffer is accepted if and only if its 128-bit block counters strictly increase |
| `Multicrypt.CountersDistinct` | multicrypt/src/crypto.rs:360-375 | accepted buffers have pairwise distinct counter blocks |
| `MulticryptSeal.KdfInfoInjective` | multicrypt/src/crypto.rs:141-159 | suites and purposes have their own key-derivation input |
| `MulticryptSeal.AuthMessageInjective` | multicrypt/src/crypto.rs:385-402 | with the suite's header length the tag covers exactly header and ciphertext |
| `MulticryptSeal.PayloadInverse` | multicrypt/src/crypto.rs:161-269 | opening a payload is exactly the inverse of sealing it |
| `MulticryptSeal.OpenOfSeal` | multicrypt/src/crypto.rs:36-128 | round trip, and exactly when sealing succeeds |
| `MulticryptSeal.OpenedIsSealed` | multicrypt/src/crypto.rs:91-128 | every container that opens is the sealing of its plaintext |
| `MulticryptSeal.ApplyStream` | multicrypt/src/crypto.rs:318-358 | in place; a counter that would wrap leaves the buffer unchanged |
| `MulticryptSeal.ComputeHmac` | multicrypt/src/crypto.rs:385-392 | the incremental MAC is that of domain, header and ciphertext |
| `MulticryptSeal.SealStream` | multicrypt/src/crypto.rs:198-207 | encrypt a copy, then authenticate it |
| `MulticryptSeal.OpenStream` | multicrypt/src/crypto.rs:256-267 | authenticate first, decrypt after |

## Left out

- Ciphers, KDFs, MACs, hashes, HKDF, Argon2, age and the STREAM library: abstract functions with the laws stated above; the STREAM library's own counter limit is not visible, only the 31-bit fit is claimed.
- OtpProtocol.Apply: an output is that a process has written, not what it has written; the bytes are in `OtpPrograms`, whose commands `OtpUse` proves to be processes of the protocol from their freshness check on.
- OtpFiles.Disk.Look: a replaced file is replaced between passes, not within one pass; `is_same_file` is modelled as equality of paths.
- OtpFiles.Disk.ReserveUsage: the 48 bytes of the ledger record are not modelled, because only the existence of the entry is ever read.
- Interrupted reads are retried forever in the source; the model has no interrupts and claims no liveness about them.
- PrivateTemp's drop (cascade): on every modelled path its removal is disarmed or done explicitly, so the silent removal on drop never acts and is not modelled.
- EzTransaction.Stream: the transforming pass reads and writes in one step of the file-system trace; its states in between differ only in the contents of the delete-pending temporary.
- EzProgram.StreamThrough: likewise computes the whole output, with the cipher as one function of the whole stream, before it stores it; the chunk-by-chunk loop is `EzLoops.EncryptStream`, which is proved to write the same stream, and no check of the transaction happens in between.
- EzTransaction.Checked: file attributes, access controls, alternate streams, link counts and timestamps are inspections that may refuse; what they look at is not modelled.
- Staging.Advance: duplicating and identifying the open handle are one step; the private staging directory and its removal are not modelled.
- AgeHeader.BoundedInput: cancellation and the deadline of an operation are not modelled; the full age syntax and its MAC are checked elsewhere.
- Multicrypt.Parse: the messages of container errors are one error; conversions to `usize` never fail on 64-bit targets.
- `wipe_pad`, `is_reserved_in`, reading keys back (`read_unix`), password prompts, command lines, path rules, `parse_size`, permission bits and zeroization.
- The tools `be`, `secure`, `otp1`, `x5x`, `e-tools`, `cascade`'s own container and the Zig and assembly tools.
- Memory exhaustion and allocation failure.
