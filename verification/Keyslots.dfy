/** Keyslot kinds and the factor each one asks for. */
module Keyslots {
  datatype SlotKind =
    | Empty
    | Passphrase
    | Fido2HmacSecret
    | Fido2DerivedMvk
    | HybridPqKemPassphrase
    | HybridPqKemFido2
    | HybridPqKem1024Passphrase
    | HybridPqKem1024Fido2
    | Tpm2Sealed
    | Tpm2Fido2
    | Tpm2SealedPin
    | HybridPqKemTpm2
    | HybridPqKemTpm2Fido2
    | HybridPqKem1024Tpm2
    | HybridPqKem1024Tpm2Fido2
    | SepSealed
    | SepSealedBiometric
    | HybridPqKemSep
    | HybridPqKem1024Sep
    | SepFido2
    | HybridPqKemSepFido2
    | HybridPqKem1024SepFido2
    | SepPassphrase
    | HybridPqKemSepPassphrase
    | HybridPqKem1024SepPassphrase
    | SepFido2Passphrase
    | HybridPqKemSepFido2Passphrase
    | HybridPqKem1024SepFido2Passphrase
  {
    predicate IsHybridPqPassphrase() {
      HybridPqKemPassphrase? || HybridPqKem1024Passphrase?
    }

    predicate IsSepPassphrase() {
      || SepPassphrase? || HybridPqKemSepPassphrase? || HybridPqKem1024SepPassphrase?
      || SepFido2Passphrase? || HybridPqKemSepFido2Passphrase? || HybridPqKem1024SepFido2Passphrase?
    }

    predicate IsSepFido2() {
      || SepFido2? || HybridPqKemSepFido2? || HybridPqKem1024SepFido2?
      || SepFido2Passphrase? || HybridPqKemSepFido2Passphrase? || HybridPqKem1024SepFido2Passphrase?
    }

    predicate IsSepHybridPq() {
      || HybridPqKemSep? || HybridPqKem1024Sep? || HybridPqKemSepFido2? || HybridPqKem1024SepFido2?
      || HybridPqKemSepPassphrase? || HybridPqKem1024SepPassphrase?
      || HybridPqKemSepFido2Passphrase? || HybridPqKem1024SepFido2Passphrase?
    }

    predicate IsHybridPq() {
      || IsHybridPqPassphrase() || IsSepHybridPq()
      || HybridPqKemFido2? || HybridPqKem1024Fido2?
      || HybridPqKemTpm2? || HybridPqKemTpm2Fido2? || HybridPqKem1024Tpm2? || HybridPqKem1024Tpm2Fido2?
    }

    predicate IsSep() {
      SepSealed? || SepSealedBiometric? || SepFido2? || SepPassphrase? || SepFido2Passphrase? || IsSepHybridPq()
    }

    /** `slot_runs_passphrase_kdf`. */
    predicate RunsPassphraseKdf() {
      Passphrase? || IsHybridPqPassphrase() || IsSepPassphrase()
    }
  }

  // ----- what each kind needs -----------------------------------------------

  /** What unlocking a slot takes; a direct slot derives the master key instead of
      wrapping it. */
  datatype Need = Pass | Fido2 | Tpm | TpmPin | Enclave | Biometry | MlKem768 | MlKem1024 | Direct

  /** The table of the slot kinds, by what each one combines. */
  function Needs(k: SlotKind): set<Need> {
    match k
    case Empty => {}
    case Passphrase => {Pass}
    case Fido2HmacSecret => {Fido2}
    case Fido2DerivedMvk => {Fido2, Direct}
    case HybridPqKemPassphrase => {Pass, MlKem768}
    case HybridPqKemFido2 => {Fido2, MlKem768}
    case HybridPqKem1024Passphrase => {Pass, MlKem1024}
    case HybridPqKem1024Fido2 => {Fido2, MlKem1024}
    case Tpm2Sealed => {Tpm}
    case Tpm2Fido2 => {Tpm, Fido2}
    case Tpm2SealedPin => {Tpm, TpmPin}
    case HybridPqKemTpm2 => {Tpm, MlKem768}
    case HybridPqKemTpm2Fido2 => {Tpm, Fido2, MlKem768}
    case HybridPqKem1024Tpm2 => {Tpm, MlKem1024}
    case HybridPqKem1024Tpm2Fido2 => {Tpm, Fido2, MlKem1024}
    case SepSealed => {Enclave}
    case SepSealedBiometric => {Enclave, Biometry}
    case HybridPqKemSep => {Enclave, MlKem768}
    case HybridPqKem1024Sep => {Enclave, MlKem1024}
    case SepFido2 => {Enclave, Fido2}
    case HybridPqKemSepFido2 => {Enclave, Fido2, MlKem768}
    case HybridPqKem1024SepFido2 => {Enclave, Fido2, MlKem1024}
    case SepPassphrase => {Enclave, Pass}
    case HybridPqKemSepPassphrase => {Enclave, Pass, MlKem768}
    case HybridPqKem1024SepPassphrase => {Enclave, Pass, MlKem1024}
    case SepFido2Passphrase => {Enclave, Fido2, Pass}
    case HybridPqKemSepFido2Passphrase => {Enclave, Fido2, Pass, MlKem768}
    case HybridPqKem1024SepFido2Passphrase => {Enclave, Fido2, Pass, MlKem1024}
  }

  /** The predicates on kinds say what their names do: each kind with these needs
      is covered, and no other. */
  lemma KindsByNeeds(k: SlotKind)
    ensures k.IsSep() <==> Enclave in Needs(k)
    ensures k.IsSepFido2() <==> {Enclave, Fido2} <= Needs(k)
    ensures k.IsSepPassphrase() <==> {Enclave, Pass} <= Needs(k)
    ensures k.IsHybridPq() <==> MlKem768 in Needs(k) || MlKem1024 in Needs(k)
    ensures k.RunsPassphraseKdf() <==> Pass in Needs(k)
    ensures k == Empty <==> Needs(k) == {}
  {}

  const MAX_KEYSLOTS: nat := 8

  /** `first_free_slot`: the lowest empty slot, or the table's length. */
  function FirstFree<S>(slots: seq<S>, empty: S -> bool): (i: nat)
    ensures i <= |slots| && (i < |slots| ==> empty(slots[i])) && forall k | 0 <= k < i :: !empty(slots[k])
  {
    if slots == [] || empty(slots[0]) then 0 else 1 + FirstFree(slots[1..], empty)
  }
}
