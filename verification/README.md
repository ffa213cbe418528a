# LUKSbox: a verified model of its storage and key protocols

LUKSbox is an encrypted container with keyslots, an optional deniable header and
hybrid post-quantum unlock. This project models the parts of it whose
correctness spans many steps and proves what they promise:

- **Atomic file replacement** (`TempNames`, `AtomicReplace`, `DurableRegister`,
  `Linearizability`, `TempTargets`, `Volume`). One directory, any number of writers, creators
  and cleaners, each one system call at a time, with failures and crashes. It
  refines an atomic, durable register per path. `Volume` is the code itself,
  running among the others.
- **Deniable headers** (`Symbolic`, `SlotPayload`, `SlotTable`, `Credentials`,
  `DeniableVault`). The payload codec, the slot table and its trial decryption,
  the 12 credential variants, and two-phase unlock over every history of
  installs and clears. Cryptography is symbolic: keys and boxes are free terms,
  so a box opens only under what it was sealed with, and no law is assumed.
- **Key derivation** (`Keyslots`, `Kdf`, `KdfCost`). Transcripts that never
  collide; a passphrase cost that never silently weakens.
- **Command-line transactions** (`HybridSidecar`, `HybridEnroll`,
  `HybridSession`, `SepOpen`, `TreeCopy`, `Extract`, `Handoff`). The hybrid
  enroll transaction with its rollback (one sequence, which
  `crates/luksbox-cli/src/main.rs` has four times: 5906-5966, 6055-6110,
  6329-6383 and 6508-6580), the Secure Enclave open loop, tree copy, tolerant
  extraction and the mount hand-off.
- **Secret memory** (`SecretMemory`, `SecretBoxes`). Page locks, mappings and
  descriptors over every run of allocations, clones and drops.

`dafny verify dfyconfig.toml` checks everything.

## Where the code and its description part ways

The model follows the code.

- `crates/luksbox-core/src/kdf.rs:161-173` says a passphrase with a 0xff byte
  could collide in the FIDO2 transcript. It cannot: the delimiter has a fixed
  distance from the end (`Kdf.FidoTranscriptInjective`). The refusal of such
  passphrases is modelled as it is.
- `crates/luksbox-format/src/deniable_header.rs:674-856` settles on the lowest
  slot of the wanted kind that opens with the passphrase and does not go on to
  the next one. A second credential of the same kind under the same passphrase
  and cost therefore never unlocks (`DeniableVault.SecondKeyShadowed`);
  `GrantedUnlocksUnlessShadowed` says exactly when.
- `crates/luksbox-cli/src/main.rs:5911-5913` promises that on any failure the
  vault on disk is unchanged. A header write can be reported as failed after it
  landed (a directory sync, a re-opened or re-locked sidecar handle, an anchor
  refresh), and the rollback then cuts the persisted slot off from its sidecar
  entry or seed file, unless the write the dropped container makes
  (`crates/luksbox-format/src/container.rs:4254-4258`) lands.
  `HybridEnroll.EnrollKeepsConsistentIff` is exact about it, and
  `AnyEnrollCanBeUndermined` says that it can happen to every enroll.
- `crates/luksbox-core/src/file_util.rs:1006-1008` says the temporary file is
  cleaned up on any failure after it was written. A failing `fsync` or
  `inode_key` leaves it for the orphan scan (`Volume.FailedSyncLeavesTemp`). The
  contracts of `Volume.Directory.AtomicSecureWrite` and `AtomicSecureCreateNew`
  say, for every pattern of failures, exactly when it stays: the filling failed,
  or the unlink after a failed commit or a link did.
- `crates/luksbox-core/src/file_util.rs:1088-1090` calls every `.tmp.<16hex>` file
  next to a vault safe to delete. A file a user named so is not:
  `cleanup-orphans x --delete` removes a vault named `x.tmp.<16hex>`
  (`TempTargets.LostToCleaner`). `TempTargets.LosableIff` says that exactly such
  names are at risk.
- The strongest inherited cost can be one the floor calls weak, since the order
  is by total work first (`KdfCost.StrongestMayBeWeak`); `InheritsWeakIff` says
  exactly when.
- Comments in `crates/luksbox-core/src/deniable.rs` that speak of 512-byte slots
  describe version 1; the code's slots are 4096 bytes.

## Model

| member | source | states |
|---|---|---|
| `Linearizability.Linearizable` | crates/luksbox-core/src/file_util.rs:928-1036 | Over every interleaving of any number of writes, no-clobber creates, orphan cleaners, failing system calls and crashes: each path reads as a per-path atomic register says, namely its first content or one call's complete bytes; a call takes effect at most once, only with its own bytes, never before its rename or link; a call that returned Ok took effect and the inode key it returned names a synced file holding its bytes |
| `Linearizability.StepSimulates` | crates/luksbox-core/src/file_util.rs:928-1036 | Forward simulation: each single system call, by whomever, is an event the register allows (a create only on an absent path, a crash only to values since the last directory sync) and leads to a related state |
| `Linearizability.Refines` | crates/luksbox-core/src/file_util.rs:928-1036 | Every run of the directory is a run of the durable register |
| `Linearizability.CrashAtomic` | crates/luksbox-core/src/file_util.rs:928-983 | A crash at any point of any run leaves every path with its first content or one committed call's complete bytes, never a mixture, never older than the last directory sync |
| `Linearizability.DurableOnceOk` | crates/luksbox-core/src/file_util.rs:792-802 | Once a call has returned Ok, its path holds its bytes, or those of a commit to the path after it, through every continuation: any calls and failures, any number of crashes and restarts |
| `Linearizability.FlushedSurvives` | crates/luksbox-core/src/file_util.rs:792-802 | From a commit before the last directory sync on, every value the path may show, now or after a crash, is that commit's or a later one's to the same path |
| `DurableRegister.RunSettles` | crates/luksbox-core/src/file_util.rs:792-802 | In the register, a path that can only show given contents shows only those and later writes over every run, however many crashes it holds |
| `Linearizability.OkTookEffect` | crates/luksbox-core/src/file_util.rs:973-983 | Ok of one call stands for exactly its own commit in the history, and its key for a whole, synced file |
| `Linearizability.CommitSimulates` | crates/luksbox-core/src/file_util.rs:973-1036 | The rename or link is where a call takes effect: there it becomes the register's write, and a create is allowed only because the path is absent at that step |
| `Linearizability.InternalSimulates` | crates/luksbox-core/src/file_util.rs:928-957 | All other steps, the cleaner's deletions among them, leave what every path shows, now and after a crash, unchanged |
| `Linearizability.CrashSimulates` | crates/luksbox-core/src/file_util.rs:792-802 | What is found after a crash is a state of the register's history, path by path |
| `TempTargets.LosableIff` | crates/luksbox-core/src/file_util.rs:937-943 | The exact limit: among calls on paths proper, a target can be lost after its write returned Ok if and only if it is itself shaped like a temporary name |
| `TempTargets.LostToCleaner` | crates/luksbox-core/src/file_util.rs:1197-1243 | For every vault name and every suffix of 16 hex digits there is a run in which a write to the vault's would-be temporary name returns Ok and a cleanup for the vault then deletes it |
| `TempTargets.TempShapedTargetBreaks` | crates/luksbox-core/src/file_util.rs:937-943 | For every path and suffix, a second call on the first one's temporary name makes the first return Ok while its path reads as the second's bytes |
| `AtomicReplace.StepKeeps` | crates/luksbox-core/src/file_util.rs:928-1036 | Every step keeps the protocol's invariant: a name a reader may follow, now or after a crash, leads only to a file synced before it got that name; synced files never change again; and the step touches only its own call's unsynced file |
| `AtomicReplace.OthersUndisturbed` | crates/luksbox-core/src/file_util.rs:931-943 | A step confined to its own file and to temporary names nobody holds leaves every other call's progress intact |
| `AtomicReplace.CommitKeeps` | crates/luksbox-core/src/file_util.rs:973-1036 | rename and link put only whole, synced files under a path |
| `AtomicReplace.CleanerKeeps` | crates/luksbox-core/src/file_util.rs:1228-1243 | A cleanup that races writers removes only temporary names and keeps the invariant |
| `AtomicReplace.PowerLossKeeps` | crates/luksbox-core/src/file_util.rs:1085-1095 | Whatever subset of unsynced directory changes and bytes a crash keeps, every surviving path leads to a synced file |
| `DurableRegister.ValueFrom` | crates/luksbox-core/src/file_util.rs:960-972 | In the register, a path after one of its commits holds that commit's bytes or a later one's |
| `DurableRegister.ValueIsWhole` | crates/luksbox-core/src/file_util.rs:960-972 | In the register, every value of a path is its first content or one commit's whole bytes |
| `DurableRegister.CommitExtends` | crates/luksbox-core/src/file_util.rs:960-972 | A commit becomes the present of its path and of no other, and changes nothing of the past |
| `Volume.Directory.AtomicSecureWrite` | crates/luksbox-core/src/file_util.rs:973-983 | The code, system call by system call with any others running in between, is a run of the transition system; on Ok the key names a file with exactly these bytes and the history holds exactly this write. It takes effect if and only if none of its own system calls up to the rename fails, the draw is usable and its name free when it creates the file, and the file is still there at the rename; it returns Ok if and only if the directory sync works as well. Left to itself, under every pattern of failures: exactly when the path changes and when the temporary file is left behind |
| `Volume.Directory.AtomicSecureCreateNew` | crates/luksbox-core/src/file_util.rs:1009-1036 | The same for the no-clobber create, with link, unlink and directory sync, and with the path absent at the link as a further condition |
| `Volume.Directory.WriteSecureTmpFor` | crates/luksbox-core/src/file_util.rs:928-957 | Among any others, the call holds a synced file with all of its bytes under its own temporary name if and only if none of its system calls fails and its draw is usable and free; otherwise it has given up without touching a path |
| `Volume.Directory.CommitTemp` | crates/luksbox-core/src/file_util.rs:973-1036 | Among any others, the commit moves the name to the whole file if and only if the call works, the temporary file is there and, for a no-clobber create, the path is not |
| `Volume.FailedSyncLeavesTemp` | crates/luksbox-core/src/file_util.rs:1006-1008 | The promised cleanup does not reach a failing fsync or inode_key: the temporary file stays, whatever else happens |
| `Volume.Directory.Rename` | crates/luksbox-core/src/file_util.rs:977-982 | Which of the last calls fail decides result and directory: rename, or unlink after a failed one, then the directory sync |
| `Volume.Directory.Link` | crates/luksbox-core/src/file_util.rs:1011-1026 | The same with link, an unlink either way, and the directory sync |
| `Volume.Directory.WriteAll` | crates/luksbox-core/src/file_util.rs:946-947 | Any sequence of short writes delivers all bytes, and ends in an error only because a write fails |
| `Volume.CommittersTookEffect` | crates/luksbox-core/src/file_util.rs:973-1036 | The calls that took effect in the history are those whose rename or link succeeded |
| `Volume.Directory.SyncParentDir` | crates/luksbox-core/src/file_util.rs:792-802 | Strict on Unix: a failing directory sync is reported as an error, success returns the key of the call's own file |
| `TempNames.TempOfSidecarDeletable` | crates/luksbox-core/src/file_util.rs:1197-1219 | Completeness of the orphan scan with its exact limit: the temporary name for vault plus suffix is classified deletable if and only if the suffix neither contains `.tmp.` nor ends in `.tmp` |
| `TempNames.DeletableIsTemp` | crates/luksbox-core/src/file_util.rs:1197-1219 | Soundness: a name marked deletable ends in `.tmp.` and 16 lowercase hex digits, and is neither the vault nor a `.rotating` copy |
| `TempNames.OrphanExactly` | crates/luksbox-core/src/file_util.rs:1143-1219 | What the scan makes of a name: a rotation copy if and only if it is the vault's name and `.rotating`; deletable if and only if it is the vault's name, anything, and a first `.tmp.` with sixteen hex digits to the end |
| `TempNames.SuffixesArePrinted` | crates/luksbox-core/src/file_util.rs:931-936 | The sixteen digits the scanner asks for are exactly what eight random bytes print as |
| `TempNames.TempNameInjective` | crates/luksbox-core/src/file_util.rs:931-943 | Two calls share a temporary name only by sharing target and random suffix |
| `TempNames.TempNameIsShaped` | crates/luksbox-core/src/file_util.rs:931-943 | What the writer calls its temporary file is what the scanner looks for |
| `TempNames.FindOrphanTempfiles` | crates/luksbox-core/src/file_util.rs:1143-1192 | The scan reports exactly the directory entries that are orphans of this vault, each with its kind |
| `TempNames.ReportExact` | crates/luksbox-core/src/file_util.rs:1143-1192 | Membership in the scan's report, both ways |
| `TempNames.Directory.DeleteAtomicWriteOrphans` | crates/luksbox-core/src/file_util.rs:1228-1243 | Deletes exactly the deletable orphans the system lets it, accounts for every one as deleted or failed, and leaves rotation copies and all other names alone |
| `SlotTable.TrialFollowsHistory` | crates/luksbox-core/src/deniable.rs:339-377 | After any sequence of wraps and random fills, trial decryption yields the highest slot whose last operation was a wrap under this key, suite and salt, with that slot's master key, and nothing if there is none |
| `SlotTable.TrialDecryptWithIdx` | crates/luksbox-core/src/deniable.rs:339-377 | The branch-free loop computes the highest slot that opens, and its work before the verdict is one fixed sequence: the same for every table and key, all eight slots in order, one key built at the end at most |
| `SlotTable.SweepAt` | crates/luksbox-core/src/deniable.rs:345-376 | Each slot's share of the work lies where its turn comes, 34 steps a slot and nothing else |
| `SlotTable.PassParts` | crates/luksbox-core/src/deniable.rs:350-368 | A slot's share: one attempt, 32 byte selections in order, one index selection |
| `SlotTable.HighestOpens` | crates/luksbox-core/src/deniable.rs:339-377 | The slot found opens to the key found, and no higher one opens |
| `SlotTable.SelectBytes` | crates/luksbox-core/src/deniable.rs:357-367 | 32 conditional byte selections keep or replace the whole key, with the same steps either way |
| `SlotTable.UnwrapsOnlyInPlace` | crates/luksbox-core/src/deniable.rs:238-266 | A wrapped slot opens to its own master key under its own key, suite, salt and index, and under no other combination |
| `SlotTable.RandomNeverOpens` | crates/luksbox-core/src/deniable.rs:183-190 | A slot of random bytes opens under nothing |
| `SlotTable.SlotAadInjective` | crates/luksbox-core/src/deniable.rs:165-177 | The associated data determines salt and index |
| `SlotTable.SlotAadBytes` | crates/luksbox-core/src/deniable.rs:165-177 | The 52 bytes: prefix, salt, index |
| `SlotTable.Relocated` | crates/luksbox-core/src/deniable.rs:165-177 | A slot of any history, tried at any index under any context, opens exactly when it was not moved and the context is that of its last wrap |
| `SlotTable.SpliceOpensOnlyUnmoved` | crates/luksbox-core/src/deniable.rs:238-266 | In any permutation of a table and any splice of several vaults, the slots that open are exactly those left at their own index and wrapped under this salt, suite and key |
| `SlotTable.WrapSlot` | crates/luksbox-core/src/deniable.rs:196-227 | In place: 12 bytes of nonce, 48 of box, then the padding; a failing random draw stops the call and leaves what was written so far |
| `SlotPayload.Canonical` | crates/luksbox-core/src/deniable.rs:1043-1110 | A buffer decodes to a payload if and only if it is that accepted payload's encoding under some padding |
| `SlotPayload.RoundTrip` | crates/luksbox-core/src/deniable.rs:1000-1110 | Decoding an encoding gives the fields back, for every accepted payload and padding |
| `SlotPayload.LayoutBytes` | crates/luksbox-core/src/deniable.rs:1000-1040 | The 4068 bytes one by one: kind, lengths little end first, reserved zeros, material, nonce, wrapped key, padding, each where the one before it ends |
| `SlotPayload.TagValues` | crates/luksbox-core/src/deniable.rs:545-562 | The kind tags as the format fixes them |
| `SlotPayload.LayoutInjective` | crates/luksbox-core/src/deniable.rs:1000-1040 | Equal encodings have equal payloads and padding |
| `SlotPayload.StartsWithKind` | crates/luksbox-core/src/deniable.rs:1000-1012 | The first byte alone tells the kind |
| `SlotPayload.FromTag` | crates/luksbox-core/src/deniable.rs:545-562 | Inverts the tag table on 1 to 12 and refuses every other byte |
| `SlotPayload.NewAcceptsExactlyReadable` | crates/luksbox-core/src/deniable.rs:961-995 | The constructor and the decoder draw the same line: a payload is accepted if and only if some buffer decodes to it |
| `SlotPayload.Body` | crates/luksbox-core/src/deniable.rs:1000-1040 | No offset leaves the 4068-byte buffer |
| `SlotPayload.Encode` | crates/luksbox-core/src/deniable.rs:1000-1040 | The in-place encoder fills the buffer with the layout of its payload, then padding; it fails only with the random generator |
| `SlotPayload.Decode` | crates/luksbox-core/src/deniable.rs:1043-1110 | Accepts a buffer exactly if it carries an accepted payload, and returns that payload |
| `Credentials.CredentialsSeparate` | crates/luksbox-core/src/deniable.rs:647-831 | On every history of slots given to credentials and filled at random, trial decryption with a credential's key yields the master key of the highest slot last given to a credential of the same of the 12 variants with equal envelope key and equal secondary secrets in order, and nothing if there is none |
| `Credentials.FactorsKekInjective` | crates/luksbox-core/src/deniable.rs:647-779 | The factors key determines variant, envelope key and secondary secrets |
| `Credentials.KeksWithoutPq` | crates/luksbox-core/src/deniable.rs:647-779 | What goes into each key without ML-KEM, to the byte: salt, envelope key, TPM or enclave secret, authenticator secret in this order, and the variant's label |
| `Credentials.KeksWithPq` | crates/luksbox-core/src/deniable.rs:647-779 | The same for ML-KEM alone, with the authenticator, and with the TPM |
| `Credentials.KeksWithPqAndMore` | crates/luksbox-core/src/deniable.rs:647-779 | The same for ML-KEM with both, and with the enclave |
| `Credentials.LabelTexts` | crates/luksbox-core/src/deniable.rs:128-158 | The labels as the format fixes them |
| `Credentials.LabelsDistinct` | crates/luksbox-core/src/deniable.rs:128-158 | The 12 labels are pairwise distinct |
| `Credentials.ConcatInjective` | crates/luksbox-core/src/deniable.rs:820-831 | Concatenated 32-byte segments determine the segments and their order |
| `Credentials.HkdfCombine` | crates/luksbox-core/src/deniable.rs:820-831 | The loop feeds the segments, in order, into one derivation |
| `Credentials.SameFactors` | crates/luksbox-core/src/deniable.rs:574-647 | Kind and secondary secrets leave nothing of a credential open but passphrase and cost |
| `DeniableVault.UnlockExactly` | crates/luksbox-format/src/deniable_header.rs:674-920 | What an unlock does on every history of installs and clears: it goes by the lowest slot granted under this passphrase, cost and kind and succeeds exactly when that slot was granted to this very credential, with its master key and index |
| `DeniableVault.UnlockHeader` | crates/luksbox-format/src/deniable_header.rs:674-920 | From a file's bytes: on the header of a vault with any history of installs and clears, both phases come to the lowest slot granted under this passphrase, cost and kind, and to its master key exactly if that grant is this credential's |
| `DeniableVault.HeaderReadsBack` | crates/luksbox-format/src/deniable_header.rs:571-576 | A reader takes from a header exactly the salt and the slots that were written |
| `DeniableVault.WriteHeader` | crates/luksbox-format/src/deniable_header.rs:568-586 | The writer: salt, eight slots in order, inner region, each in its place |
| `DeniableVault.InstallSlot` | crates/luksbox-format/src/deniable_header.rs:985-998 | Installing replaces one slot in place and leaves salt and other slots alone |
| `DeniableVault.EnvelopeBytes` | crates/luksbox-format/src/deniable_header.rs:517-566 | An installed slot to the byte: outer nonce, then one box under the passphrase key with the payload whose last field is the master key boxed under the factors key |
| `DeniableVault.DiscoverExactly` | crates/luksbox-format/src/deniable_header.rs:674-856 | The slot the first phase settles on, for any wanted kind and every history: the lowest granted under this passphrase and cost to that kind, else the lowest to any kind, else none |
| `DeniableVault.TryOpenExactly` | crates/luksbox-format/src/deniable_header.rs:674-856 | It returns that slot with the payload it was granted |
| `DeniableVault.CompletesOnlyInPlace` | crates/luksbox-format/src/deniable_header.rs:425-432 | The inner box opens only in the slot and vault it was made for, with the credential it was made for: moving a payload gains nobody anything |
| `DeniableVault.InnerAadBytes` | crates/luksbox-format/src/deniable_header.rs:425-432 | The 63 bytes: prefix, salt, index |
| `DeniableVault.OnlyGrantedUnlocks` | crates/luksbox-format/src/deniable_header.rs:870-920 | An unlock that succeeds was made with exactly the credential the slot holds |
| `DeniableVault.GrantedUnlocksUnlessShadowed` | crates/luksbox-format/src/deniable_header.rs:674-856 | The converse fails, exactly when the lowest slot with the same passphrase, cost and kind holds other secondary secrets |
| `DeniableVault.SecondKeyShadowed` | crates/luksbox-format/src/deniable_header.rs:674-856 | The failing case: of two authenticators enrolled under one passphrase the second never unlocks, until the first slot is cleared |
| `DeniableVault.TryOpenEnvelope` | crates/luksbox-format/src/deniable_header.rs:700-856 | Every slot tried, two reverse sweeps: the first slot of the wanted kind, else the first that opens, decoded once |
| `DeniableVault.TryOpenHeader` | crates/luksbox-format/src/deniable_header.rs:674-856 | From a file's bytes: too short a header is refused, and no wanted kind means the credential's own |
| `DeniableVault.Sweep` | crates/luksbox-format/src/deniable_header.rs:806-830 | A reverse sweep whose hits overwrite each other ends on the lowest |
| `DeniableVault.EnvelopeOpens` | crates/luksbox-format/src/deniable_header.rs:927-998 | An installed envelope opens to its own payload under its own passphrase and cost only |
| `DeniableVault.DiscoveryFollowsGrants` | crates/luksbox-format/src/deniable_header.rs:674-856 | Discovery by kind finds the lowest slot granted to a credential with this passphrase, cost and kind |
| `DeniableVault.CompletesWithSameSecrets` | crates/luksbox-format/src/deniable_header.rs:870-920 | The second phase on a granted slot succeeds exactly with the granted secondary secrets |
| `Kdf.KeysUnambiguous` | crates/luksbox-core/src/kdf.rs:101-261 | Over UTF-8 passphrases, two requests of the plain, FIDO2, hybrid and hybrid-FIDO2 derivations give the same 32 bytes if and only if they are the same request with the same salt and cost |
| `Kdf.KeyTranscripts` | crates/luksbox-core/src/kdf.rs:101-261 | What goes into each of the four keys, to the byte |
| `Kdf.FidoTranscriptInjective` | crates/luksbox-core/src/kdf.rs:174-195 | The FIDO2 transcript is injective in both secrets for every passphrase, 0xff bytes or not |
| `Kdf.PlainMeetsFido2` | crates/luksbox-core/src/kdf.rs:158-195 | A plain passphrase yields a FIDO2 key exactly when it spells out the FIDO2 transcript |
| `Kdf.Utf8HasNoFF` | crates/luksbox-core/src/kdf.rs:161-173 | Text in the UTF-8 of section 4 of RFC 3629 has no byte 0xff |
| `Kdf.ClassicalInjective` | crates/luksbox-core/src/kdf.rs:101-195 | Stretched halves coincide only between requests with equal passphrase and authenticator response, with and without FIDO2 apart |
| `Kdf.DeriveKekWithFido2` | crates/luksbox-core/src/kdf.rs:174-195 | Refuses exactly the passphrases with a byte 0xff, and otherwise stretches the transcript |
| `KdfCost.CostNeverFalls` | crates/luksbox-cli/src/main.rs:2947-2977 | Over every run of enrolls, updates and revokes without `--kdf`, no usable passphrase slot ends up cheaper than the cheapest was, as long as no passphrase is written into a vault left without a usable one |
| `KdfCost.StepKeepsCost` | crates/luksbox-cli/src/main.rs:2947-2977 | One command keeps a lower bound on the cost if and only if it does not fall back to the preset or the preset meets the bound |
| `KdfCost.CostNeverFallsBelowPreset` | crates/luksbox-cli/src/main.rs:2947-2955 | A bound no higher than the interactive preset is kept by every run |
| `KdfCost.FloorIsKept` | crates/luksbox-cli/src/passphrase.rs:80-99 | A vault with no slot under the floor of section 4 of RFC 9106 never gains one, on any run |
| `KdfCost.InheritedIsPresent` | crates/luksbox-cli/src/main.rs:2962-2977 | Without `--kdf` a passphrase gets a cost some usable slot already has, or the interactive preset if there is none |
| `KdfCost.InheritsExactly` | crates/luksbox-cli/src/main.rs:2947-2977 | Which cost exactly: that of the usable slot being rewritten, else one no usable slot exceeds in work, then memory, else 256 MiB with three passes and four lanes |
| `KdfCost.UsableExactly` | crates/luksbox-cli/src/main.rs:2935-2937 | The slots that count are those that need a passphrase and whose parameters the disk format allows |
| `KdfCost.StepChangesOne` | crates/luksbox-cli/src/main.rs:6607-6650 | A command changes one slot at most: an enroll the lowest empty one, an update or revoke the one it names |
| `KdfCost.FloorIsRfcOption` | crates/luksbox-cli/src/passphrase.rs:67-99 | The floor is the memory and the work of the 64 MiB option of section 4 of RFC 9106 |
| `KdfCost.Strongest` | crates/luksbox-cli/src/main.rs:2971-2976 | The inherited cost is one of the usable slots' and no usable slot's is greater |
| `KdfCost.StrongestMayBeWeak` | crates/luksbox-cli/src/passphrase.rs:102-107 | The witness: a cost under the floor in memory is the strongest by total work although a slot above the floor is present |
| `KdfCost.InheritsWeakIff` | crates/luksbox-cli/src/main.rs:2947-2977 | Exactly when a passphrase without `--kdf` gets a cost under the floor: the usable slot it replaces has one, or, none being replaced, some usable slot under the floor is not exceeded by any usable slot |
| `KdfCost.WorkFits` | crates/luksbox-cli/src/passphrase.rs:102-107 | The product of two 32-bit costs fits in 64 bits |
| `SepOpen.OpenSepCommon` | crates/luksbox-cli/src/main.rs:3933-4063 | The loop that skips shapes already tried ends as the loop trying every slot does; every slot that is to be tried and gives its secrets is covered by an open call before the loop fails; plain slots cause at most one open call per passphrase shape; nothing follows a refused PIN; and without being asked for, the authenticator is used only if every slot in scope needs it |
| `SepOpen.VisitedExactly` | crates/luksbox-cli/src/main.rs:3921-3993 | Which slots are tried, by what their kinds need: enclave slots, post-quantum exactly when asked for, with the passphrase at hand, and with an authenticator only if asked for or needed by every slot in scope |
| `SepOpen.BodyExactly` | crates/luksbox-cli/src/main.rs:4003-4063 | What one slot comes to, by the answers: nothing without its secrets, the end on a refused PIN, else the lowest slot of the same needs that its factors unlock |
| `SepOpen.EverySlotMeans` | crates/luksbox-cli/src/main.rs:3986-4063 | The full loop's outcome is one tried slot's, and failure means that none had anything to offer |
| `SepOpen.EverySlotOpens` | crates/luksbox-cli/src/main.rs:3986-4063 | The full loop opens the vault exactly when some visited slot's factors open a slot before a PIN is refused |
| `SepOpen.PlainBodiesAgree` | crates/luksbox-cli/src/main.rs:3986-4063 | Two slots that bring no input of their own ask the same of the container, which is why one call per shape is enough |
| `SepOpen.ContainerOpen` | crates/luksbox-cli/src/main.rs:4040-4063 | What is relied on of the container's open: the first slot matching the factor set that unlocks, and none if no such slot does |
| `SepOpen.TrySlot` | crates/luksbox-cli/src/main.rs:4003-4063 | One pass: missing secrets skip the slot, a refused PIN ends the walk, anything else is one open call |
| `HybridEnroll.RunKeepsConsistent` | crates/luksbox-cli/src/main.rs:5906-5966 | Over every run of hybrid enrolls, other slot changes and revokes, with failures and crashes at any write including the rollback's own, none of them undermined: every persisted hybrid slot has its one sidecar entry with its own ciphertext and its seed file, and sidecar indices are distinct |
| `HybridEnroll.CallKeepsConsistentIff` | crates/luksbox-cli/src/main.rs:6599-6605 | One call of any kind, stopped anywhere, keeps consistency if and only if it is not undermined |
| `HybridEnroll.EnrollKeepsConsistentIff` | crates/luksbox-cli/src/main.rs:5906-5966 | The exact condition for the enroll transaction at every stopping point: a header write reported as failed had landed, a rollback step reached the disk after it, and the header without the slot did not |
| `HybridEnroll.AnyEnrollCanBeUndermined` | crates/luksbox-cli/src/main.rs:5956-5966 | On every consistent disk with room and a free seed path there are outcomes that leave a persisted slot nobody can open |
| `HybridEnroll.HonestHeaderWrites` | crates/luksbox-format/src/container.rs:3440-3486 | While failed header writes leave the header alone, nothing undermines any run |
| `HybridEnroll.OpenableUntilChanged` | crates/luksbox-cli/src/main.rs:5906-5966 | Whatever fails, undermined or not, a hybrid slot that could be opened still can until a command changes that very slot |
| `HybridEnroll.SeedFilesStay` | crates/luksbox-cli/src/main.rs:5940-5965 | No call on any run removes or changes a seed file that was there before it, and the sidecar stays tidy |
| `HybridEnroll.ReportIsTrue` | crates/luksbox-cli/src/main.rs:5912-5966 | Success means an openable slot in the persisted header; a reported failure leaves the header as it was exactly when no failed header write stayed |
| `HybridEnroll.SucceedsExactly` | crates/luksbox-cli/src/main.rs:5912-5966 | On a consistent disk the sidecar's limits never refuse an enroll: it succeeds exactly when there is room, the seed path is free and every write works |
| `HybridEnroll.StartsAtLowest` | crates/luksbox-core/src/header.rs:342-347 | A slot is found exactly when one is vacant, and it is the lowest |
| `HybridEnroll.RollbackRestores` | crates/luksbox-cli/src/main.rs:5943-5966 | When the writes that failed did nothing and the rollback works, a failing call leaves header and seed files as they were, and the sidecar but for a stale entry of the slot |
| `HybridEnroll.CallKeepsOthers` | crates/luksbox-cli/src/main.rs:5926-5966 | One call leaves every other slot's content, sidecar entry and seed file as they were |
| `HybridEnroll.StoresAfter` | crates/luksbox-cli/src/main.rs:5940-5966 | Header, sidecar and seed files after each further write of a call that got to its header |
| `HybridEnroll.ChangeIsAtomic` | crates/luksbox-cli/src/main.rs:6599-6605 | A revoke or plain slot change leaves the old header or the new one and touches no other file |
| `Keyslots.FirstFree` | crates/luksbox-core/src/header.rs:342-347 | The lowest empty slot, or the table's length if there is none |
| `Keyslots.KindsByNeeds` | crates/luksbox-core/src/keyslot.rs:251-430 | The predicates on slot kinds against a table of what each of the 28 kinds combines: each kind with these needs is covered, and no other |
| `HybridSidecar.TidyIsSmall` | crates/luksbox-format/src/hybrid_sidecar.rs:440-447 | Entries with distinct indices under eight are at most eight, and at most seven once a slot's own is gone |
| `HybridSidecar.WithoutKeeps` | crates/luksbox-cli/src/main.rs:5926-5928 | Dropping a stale entry keeps the list tidy, removes that index and no other |
| `HybridSidecar.PushKeeps` | crates/luksbox-cli/src/main.rs:5929-5934 | The new entry is the one readers find for its slot, and no other slot's changes |
| `HybridSidecar.Find` | crates/luksbox-format/src/hybrid_sidecar.rs:616-618 | Readers take the first entry for a slot, and get none exactly when there is none |
| `HybridSidecar.FindsFirst` | crates/luksbox-format/src/hybrid_sidecar.rs:616-618 | An entry is found exactly at its first occurrence |
| `HybridSidecar.WithoutConcat` | crates/luksbox-cli/src/main.rs:5926-5928 | Dropping a stale entry keeps the order of the others |
| `HybridSession.Session.Enroll` | crates/luksbox-cli/src/main.rs:5906-5966 | The command write by write, its rollback and the dropped container's last header write. On a consistent disk it succeeds if and only if the vault is not deniable, some slot is vacant, the seed path is free and every write works; then the lowest vacant slot holds the new one; and consistency is kept if and only if it is not undermined. The three sibling commands run the same sequence |
| `HybridSession.Session.Transact` | crates/luksbox-cli/src/main.rs:5906-5966 | Slot in memory, sidecar, seed file, header; a failure takes back what was written and revokes the slot in memory |
| `HybridSession.Session.TakeBack` | crates/luksbox-cli/src/main.rs:5946-5952 | The shared rollback: the sidecar without the new entry, removed if nothing is left in it |
| `HybridSession.Session.WriteSidecar` | crates/luksbox-format/src/hybrid_sidecar.rs:222-248 | Refuses malformed entries without touching the disk, otherwise replaces the sidecar |
| `HybridSession.Session.WriteSeed` | crates/luksbox-pq/src/seed_file.rs:81-100 | Never replaces an existing file |
| `HybridSession.Session.PersistHeader` | crates/luksbox-format/src/container.rs:3440-3486 | Writes only when a slot changed; stays dirty after a failed write, so that dropping the container writes again, but not after a failed anchor refresh |
| `HybridSession.Session.ChangeSlot` | crates/luksbox-cli/src/main.rs:6599-6605 | Revoke and plain slot changes, write by write, keep consistency unconditionally |
| `SecretMemory.LockedUntilDropped` | crates/luksbox-core/src/secret_box.rs:147-177 | Over every run of allocations, clones, writes and drops of all three backings, with any of the system calls failing, those of the drops included, a secret locked when made stays in place and locked until its own drop |
| `SecretMemory.RunKeeps` | crates/luksbox-core/src/secret_box.rs:212-302 | Over every run, mappings and descriptors are exactly those of live boxes plus what a failing unmap or close lost, locked pages exactly their pinned pages plus heap pages, lost ones aside; boxes do not overlap, and no secret byte is left outside a live box |
| `SecretMemory.AllGivenBack` | crates/luksbox-core/src/secret_box.rs:464-507 | Once nothing is live no mapping and no descriptor is left but the lost ones, no lock but on heap pages and lost ones, and memory is zero |
| `SecretMemory.LostIff` | crates/luksbox-core/src/secret_box.rs:402-507 | Something is lost over a run if and only if some unmap or some close fails in it |
| `SecretMemory.ContentStays` | crates/luksbox-core/src/secret_box.rs:509-523 | No run of operations on other boxes changes a secret's bytes |
| `SecretMemory.FreshAndCloned` | crates/luksbox-core/src/secret_box.rs:509-523 | A new box is zero and a clone holds its original's bytes |
| `SecretMemory.StepKeeps` | crates/luksbox-core/src/secret_box.rs:212-302 | Every single operation keeps the whole invariant |
| `SecretMemory.GiveBackKeepsSound` | crates/luksbox-core/src/secret_box.rs:464-507 | Whichever of its calls fail, dropping a box touches what is its own and takes no other box's lock |
| `SecretMemory.ClaimKeepsSound` | crates/luksbox-core/src/secret_box.rs:212-302 | Whichever backing an allocation ends with, it claims exactly what that backing needs |
| `SecretMemory.UnlockingHeapIsSafeIff` | crates/luksbox-core/src/secret_box.rs:497-504 | Unlocking heap boxes at their drop would keep the other secrets locked exactly when none of them shares a page |
| `SecretMemory.UnlockingHeapExposesNeighbour` | crates/luksbox-core/src/secret_box.rs:162-167 | Two secrets on one heap page: the unlock exposes the survivor |
| `SecretBoxes.Process.Zeroed` | crates/luksbox-core/src/secret_box.rs:212-246 | The backing is memfd memory if all its calls are granted, else a page of its own if one can be mapped, else the heap; the box counts as pinned exactly if its pages got locked; a refused memfd stays open only if closing it fails; and the secret starts as zeros |
| `SecretBoxes.Process.TryMemfdSecret` | crates/luksbox-core/src/secret_box.rs:402-460 | Every failing branch closes the descriptor it opened, as far as that works, and leaves kernel and memory as they were otherwise |
| `SecretBoxes.Process.TryPrivatePage` | crates/luksbox-core/src/secret_box.rs:255-302 | One private zeroed page, locked if the kernel allows; a failure leaves nothing behind |
| `SecretBoxes.Process.CloneBox` | crates/luksbox-core/src/secret_box.rs:509-523 | A clone on its own backing with the same bytes, keeping the invariant |
| `SecretBoxes.Process.DropBox` | crates/luksbox-core/src/secret_box.rs:464-507 | Wipes, then undoes exactly what the backing took, going on whichever call fails, and keeps the invariant |
| `TreeCopy.CopySubtree` | crates/luksbox-cli/src/main.rs:9563-9613 | For every finite source tree, copying into an empty directory ends; it succeeds exactly when the destination takes every name and symlink target and no operation fails, and then the destination means the same tree (names, kinds, targets, bytes, order) in inodes of its own, nothing else there having changed |
| `TreeCopy.KeptIsAcceptable` | crates/luksbox-cli/src/main.rs:9598-9609 | What a vault with the destination's rules for names and symlink targets holds, the destination takes: between such vaults a copy is never refused |
| `TreeCopy.CopyEntry` | crates/luksbox-cli/src/main.rs:9573-9610 | One entry: its node and all below it, or an error exactly when a name or target is refused or an operation fails |
| `TreeCopy.CopyFile` | crates/luksbox-cli/src/main.rs:9583-9597 | Under any schedule of short reads the new file has the source's bytes, or a start of them if a read or write fails |
| `TreeCopy.MeansOneTree` | crates/luksbox-cli/src/main.rs:9563-9613 | An inode stands for one tree only, so equal meaning is equality of trees |
| `TreeCopy.Framed` | crates/luksbox-cli/src/main.rs:9563-9613 | Changes outside a copy's own inodes leave its meaning alone |
| `TreeCopy.OneMore` | crates/luksbox-cli/src/main.rs:9573-9610 | What the next entry adds to an acceptable start, both ways |
| `TreeCopy.CopyInto` | crates/luksbox-cli/src/main.rs:4531-4543 | The file starts with the stream, however it was delivered, and continues with what it held beyond; after a failure with a start of the stream |
| `TreeCopy.CopyOut` | crates/luksbox-cli/src/main.rs:4545-4558 | The stream gets the file's bytes, however short the reads, or a start of them exactly if a read or the stream fails |
| `TreeCopy.PutThenGet` | crates/luksbox-cli/src/main.rs:4531-4558 | A stream put into a file and got out again is the same stream if and only if the file was no longer than it before |
| `Extract.CmdExtract` | crates/luksbox-cli/src/main.rs:2406-2462 | Every output byte is the plaintext byte at its logical offset, zero where its chunk failed, shifted by the 8-byte size header in hide-size mode; the count of good chunks is the number that open, and with the bad ones makes all; in normal mode the length is the smaller of stored size and chunk bytes |
| `Extract.PlainByteOf` | crates/luksbox-cli/src/main.rs:2406-2446 | Byte j of chunk i is the plaintext's byte at 4096 i + j |
| `Handoff.ReadsBack` | crates/luksbox-cli/src/main.rs:7383-7435 | The helper reads back version, key, salt, slot and inner header the parent wrote, whatever follows on the pipe |
| `Handoff.TruncatedIsRejected` | crates/luksbox-cli/src/main.rs:7383-7435 | A message cut short anywhere is rejected |
| `Handoff.InnerRoundTrip` | crates/luksbox-format/src/deniable_header.rs:315-403 | The 38-byte inner header reads back exactly when it passes the reader's checks, and is refused otherwise |
| `Handoff.CreatedIsSane` | crates/luksbox-format/src/container.rs:1464-1482 | Whatever metadata size was asked for, the inner header a vault is created with passes the reader and reads back; without the clamp it would exactly up to 64 MiB |
| `Handoff.SaneExactly` | crates/luksbox-format/src/deniable_header.rs:372-391 | What the reader lets through, in numbers |
| `Handoff.InnerBytes` | crates/luksbox-format/src/deniable_header.rs:332-346 | Where each field lies in the 38 bytes |
| `Handoff.LeRoundTrip` | crates/luksbox-format/src/deniable_header.rs:332-346 | Little-endian integers read back, for every width |
| `Handoff.Pipe.ReadExact` | crates/luksbox-cli/src/main.rs:2661-2679 | Any schedule of short and interrupted reads yields the same bytes; too few are an error |
| `Handoff.Pipe.ReadMessage` | crates/luksbox-cli/src/main.rs:7383-7435 | What is read from the pipe is what its bytes mean; on a pipe that does not break also when that is a rejection |
| `Handoff.WriteMessage` | crates/luksbox-cli/src/main.rs:7614-7639 | The parent's buffer holds the message and never exceeds the reserved capacity; a slot index over 255 is refused |

## Left out

- Linearizability.Linearizable: targets that are themselves temporary-shaped names are excluded, which `TempTargets.LosableIff` shows to be the exact limit; inode numbers are not reused and a random suffix does not collide with one an unfinished call is using.
- Windows: best-effort directory sync, `MoveFileExW`, path resolution and `VirtualLock` differences from the Unix calls; the Unix branches are modelled.
- Volume.Directory.AtomicSecureWrite: file modes, symlink flags and owner checks of `secure_create_new` are not modelled.
- TempNames.FindOrphanTempfiles: names that are not UTF-8 and paths without a file name are not modelled, nor the order, size and time of the report's entries.
- Reading or removing a file another process has replaced by a symbolic link, and hostile writers outside the protocol.
- The inside of Argon2id, HKDF, AES-GCM, AES-GCM-SIV, ChaCha20-Poly1305 and ML-KEM; that the AEADs are not key-committing, and computational or statistical claims such as indistinguishability of empty slots and wall-clock timing. Work is modelled as a trace of steps.
- DeniableVault.UnlockExactly: ends at the master key; the inner header and slot-table digest that `complete_open_v2` checks afterwards, failing random draws of an install, and the retry of both FIDO2 salt conventions are not modelled.
- Kdf.DeriveKekWithFido2: errors of the Argon2id library on bad parameters or memory, and the wiping of its blocks, are not modelled.
- KdfCost.CostNeverFalls: `rotate-mvk`, an explicit `--kdf` and the reduced-cost build for automated checks are not modelled.
- HybridEnroll.EnrollKeepsConsistentIff: shares the limit of the next line, a header write that is all or nothing.
- HybridEnroll.RunKeepsConsistent: a header write is all or nothing; torn in-place header writes and the header mirror that repairs them are not modelled, nor is a user who moves or deletes a seed file, two processes on one vault (the file lock excludes them), or a vault whose hybrid slot came from `create`, which is any consistent start.
- HybridEnroll.SucceedsExactly: sidecar entries carry index and ciphertext; public keys, parameter levels, the vault binding and the byte format of the sidecar are not modelled.
- SepOpen.OpenSepCommon: prompts and error messages, and the inside of the authenticator and enclave calls; their answers are inputs.
- SecretMemory.LockedUntilDropped: core-dump and fork advice, resource limits beyond a lock being refused, and what a forked child sees are not modelled; a memfd page counts as locked while it is mapped, as the kernel keeps it.
- TreeCopy.CopySubtree: attributes and hard links are not modelled; the file-system layer appears as the reads, writes and creations the copy relies on, any of which may fail without effect.
- Extract.CmdExtract: errors of writing the output and the failure report are not modelled.
- Handoff.Pipe.ReadMessage: what the helper does with the message afterwards is not modelled.
- MVK rotation, metadata mirrors, anchors, header parsing, the FUSE file system, the wizard and the graphical interface.
