/** Deniable credentials: which secrets each of the twelve variants feeds into
    the key that wraps the master key, and that no two credentials share one. */
module Credentials {
  import opened Common
  import opened Symbolic
  import opened SlotPayload
  import T = SlotTable

  /** `DeniableCredential`. */
  datatype Credential =
    | OfPassphrase(passphrase: seq<Cell>, argon2: Argon2Params)
    | OfFido2(passphrase: seq<Cell>, argon2: Argon2Params, hmacSecret: Secret)
    | OfTpm(passphrase: seq<Cell>, argon2: Argon2Params, unsealed: Secret)
    | OfTpmFido2(passphrase: seq<Cell>, argon2: Argon2Params, unsealed: Secret, hmacSecret: Secret)
    | OfSep(passphrase: seq<Cell>, argon2: Argon2Params, sepShared: Secret)
    | OfSepFido2(passphrase: seq<Cell>, argon2: Argon2Params, sepShared: Secret, hmacSecret: Secret)
    | OfPqSep(passphrase: seq<Cell>, argon2: Argon2Params, mlkemShared: Secret, sepShared: Secret)
    | OfPqSepFido2(passphrase: seq<Cell>, argon2: Argon2Params, mlkemShared: Secret, sepShared: Secret, hmacSecret: Secret)
    | OfPq(passphrase: seq<Cell>, argon2: Argon2Params, mlkemShared: Secret)
    | OfPqFido2(passphrase: seq<Cell>, argon2: Argon2Params, mlkemShared: Secret, hmacSecret: Secret)
    | OfPqTpm(passphrase: seq<Cell>, argon2: Argon2Params, mlkemShared: Secret, unsealed: Secret)
    | OfPqTpmFido2(passphrase: seq<Cell>, argon2: Argon2Params, mlkemShared: Secret, unsealed: Secret, hmacSecret: Secret)

  /** `kind_tag`. */
  function KindOf(c: Credential): Kind {
    match c
    case OfPassphrase(_, _) => Passphrase
    case OfFido2(_, _, _) => Fido2Passphrase
    case OfTpm(_, _, _) => TpmPassphrase
    case OfTpmFido2(_, _, _, _) => TpmFido2Passphrase
    case OfSep(_, _, _) => SepPassphrase
    case OfSepFido2(_, _, _, _) => SepFido2Passphrase
    case OfPqSep(_, _, _, _) => HybridPqSepPassphrase
    case OfPqSepFido2(_, _, _, _, _) => HybridPqSepFido2Passphrase
    case OfPq(_, _, _) => HybridPqPassphrase
    case OfPqFido2(_, _, _, _) => HybridPqFido2Passphrase
    case OfPqTpm(_, _, _, _) => HybridPqTpmPassphrase
    case OfPqTpmFido2(_, _, _, _, _) => HybridPqTpmFido2Passphrase
  }

  /** The secrets beside the passphrase, in the order they enter the key. */
  function Secondaries(c: Credential): seq<Secret> {
    match c
    case OfPassphrase(_, _) => []
    case OfFido2(_, _, h) => [h]
    case OfTpm(_, _, u) => [u]
    case OfTpmFido2(_, _, u, h) => [u, h]
    case OfSep(_, _, s) => [s]
    case OfSepFido2(_, _, s, h) => [s, h]
    case OfPqSep(_, _, m, s) => [m, s]
    case OfPqSepFido2(_, _, m, s, h) => [m, s, h]
    case OfPq(_, _, m) => [m]
    case OfPqFido2(_, _, m, h) => [m, h]
    case OfPqTpm(_, _, m, u) => [m, u]
    case OfPqTpmFido2(_, _, m, u, h) => [m, u, h]
  }

  const KEK_PREFIX: string := "luksbox-deniable-v2/kek/"

  /** The factor part of each `hkdf_info` label. */
  function Factors(k: Kind): string {
    match k
    case Passphrase => "passphrase"
    case Fido2Passphrase => "fido2+passphrase"
    case TpmPassphrase => "tpm+passphrase"
    case TpmFido2Passphrase => "tpm+fido2+passphrase"
    case HybridPqPassphrase => "pq+passphrase"
    case HybridPqFido2Passphrase => "pq+fido2+passphrase"
    case HybridPqTpmPassphrase => "pq+tpm+passphrase"
    case HybridPqTpmFido2Passphrase => "pq+tpm+fido2+passphrase"
    case SepPassphrase => "sep+passphrase"
    case SepFido2Passphrase => "sep+fido2+passphrase"
    case HybridPqSepPassphrase => "pq+sep+passphrase"
    case HybridPqSepFido2Passphrase => "pq+sep+fido2+passphrase"
  }

  /** `hkdf_info::KEK_*`. */
  function Label(k: Kind): seq<Cell> {
    Ascii(KEK_PREFIX) + Ascii(Factors(k))
  }

  /** What tells the labels apart: length, and the first letters of the first
      and second factor. */
  function Signature(k: Kind): (nat, char, char) {
    match k
    case Passphrase => (10, 'p', 's')
    case Fido2Passphrase => (16, 'f', 'o')
    case TpmPassphrase => (14, 't', '+')
    case TpmFido2Passphrase => (20, 't', '+')
    case HybridPqPassphrase => (13, 'p', 'p')
    case HybridPqFido2Passphrase => (19, 'p', 'f')
    case HybridPqTpmPassphrase => (17, 'p', 't')
    case HybridPqTpmFido2Passphrase => (23, 'p', 't')
    case SepPassphrase => (14, 's', '+')
    case SepFido2Passphrase => (20, 's', '+')
    case HybridPqSepPassphrase => (17, 'p', 's')
    case HybridPqSepFido2Passphrase => (23, 'p', 's')
  }

  lemma FactorsSigned(k: Kind)
    ensures var s := Factors(k); |s| >= 10 && (|s|, s[0], s[3]) == Signature(k)
  {
  }

  lemma LabelsDistinct(a: Kind, b: Kind)
    ensures Label(a) == Label(b) <==> a == b
  {
    var n, s, t := |KEK_PREFIX|, Factors(a), Factors(b);
    FactorsSigned(a);
    FactorsSigned(b);
    if Label(a) == Label(b) {
      SameEnds(Ascii(KEK_PREFIX), Ascii(s), Ascii(t));
      assert Ascii(s)[0] == Ascii(t)[0] && Ascii(s)[3] == Ascii(t)[3];
      assert Signature(a) == Signature(b);
    }
  }

  lemma SameEnds(p: seq<Cell>, s: seq<Cell>, t: seq<Cell>)
    requires p + s == p + t
    ensures s == t
  {
    assert (p + s)[|p|..] == s && (p + t)[|p|..] == t;
  }

  function Concat(segments: seq<Secret>): (c: seq<Cell>)
    ensures |c| == 32 * |segments|
  {
    if segments == [] then [] else Concat(segments[..|segments| - 1]) + segments[|segments| - 1]
  }

  lemma {:induction false} ConcatInjective(a: seq<Secret>, b: seq<Secret>)
    ensures Concat(a) == Concat(b) <==> a == b
  {
    if Concat(a) == Concat(b) && a != [] {
      var x, y := a[..|a| - 1], b[..|b| - 1];
      assert |a| == |b|;
      assert Concat(a)[32 * |x|..] == a[|a| - 1] && Concat(b)[32 * |y|..] == b[|b| - 1];
      assert Concat(a)[..32 * |x|] == Concat(x) && Concat(b)[..32 * |y|] == Concat(y);
      ConcatInjective(x, y);
      assert a == x + [a[|a| - 1]] && b == y + [b[|b| - 1]];
    }
  }

  /** `hkdf_combine`. */
  method HkdfCombine(salt: seq<Cell>, segments: seq<Secret>, info: seq<Cell>) returns (d: Derivation)
    ensures d == Hkdf(salt, Concat(segments), info)
  {
    var ikm := [];
    for i := 0 to |segments|
      invariant ikm == Concat(segments[..i])
    {
      ikm := ikm + segments[i];
      assert segments[..i + 1][..i] == segments[..i];
    }
    assert segments[..|segments|] == segments;
    d := Hkdf(salt, ikm, info);
  }

  /** `derive_envelope_kek`. */
  function EnvelopeKek(c: Credential, salt: seq<Cell>): (k: Secret) {
    KeyBytes(Argon2id(c.passphrase, salt, c.argon2))
  }

  /** `derive_factors_kek`. */
  function FactorsKek(c: Credential, salt: seq<Cell>, env: Secret): (k: Secret) {
    KeyBytes(Hkdf(salt, Concat([env] + Secondaries(c)), Label(KindOf(c))))
  }

  lemma ConcatAll(a: Secret, b: Secret, c: Secret, d: Secret)
    ensures Concat([a]) == a && Concat([a, b]) == a + b && Concat([a, b, c]) == a + b + c && Concat([a, b, c, d]) == a + b + c + d
  {
    assert [a][..0] == [] && [a, b][..1] == [a] && [a, b, c][..2] == [a, b] && [a, b, c, d][..3] == [a, b, c];
  }

  /** The key of a credential, from its secondary secrets. */
  lemma KekOf(c: Credential, salt: seq<Cell>, env: Secret, secrets: seq<Secret>)
    requires Secondaries(c) == secrets && |secrets| <= 3
    ensures secrets == [] ==> FactorsKek(c, salt, env) == KeyBytes(Hkdf(salt, env, Label(KindOf(c))))
    ensures |secrets| == 1 ==> FactorsKek(c, salt, env) == KeyBytes(Hkdf(salt, env + secrets[0], Label(KindOf(c))))
    ensures |secrets| == 2 ==> FactorsKek(c, salt, env) == KeyBytes(Hkdf(salt, env + secrets[0] + secrets[1], Label(KindOf(c))))
    ensures |secrets| == 3 ==> FactorsKek(c, salt, env) == KeyBytes(Hkdf(salt, env + secrets[0] + secrets[1] + secrets[2], Label(KindOf(c))))
  {
    var x := if |secrets| > 0 then secrets[0] else env;
    var y := if |secrets| > 1 then secrets[1] else env;
    var z := if |secrets| > 2 then secrets[2] else env;
    ConcatAll(env, x, y, z);
    assert [env] + secrets == if secrets == [] then [env] else if |secrets| == 1 then [env, x] else if |secrets| == 2 then [env, x, y] else [env, x, y, z];
  }

  /** The derivation of each variant, to the byte: the vault's salt; envelope key,
      then ML-KEM, TPM or enclave, and authenticator secrets, in this order; and
      the variant's own label. */
  lemma KeksWithoutPq(p: seq<Cell>, a: Argon2Params, salt: seq<Cell>, env: Secret, u: Secret, h: Secret)
    ensures FactorsKek(OfPassphrase(p, a), salt, env) == KeyBytes(Hkdf(salt, env, Label(Passphrase)))
    ensures FactorsKek(OfFido2(p, a, h), salt, env) == KeyBytes(Hkdf(salt, env + h, Label(Fido2Passphrase)))
    ensures FactorsKek(OfTpm(p, a, u), salt, env) == KeyBytes(Hkdf(salt, env + u, Label(TpmPassphrase)))
    ensures FactorsKek(OfTpmFido2(p, a, u, h), salt, env) == KeyBytes(Hkdf(salt, env + u + h, Label(TpmFido2Passphrase)))
    ensures FactorsKek(OfSep(p, a, u), salt, env) == KeyBytes(Hkdf(salt, env + u, Label(SepPassphrase)))
    ensures FactorsKek(OfSepFido2(p, a, u, h), salt, env) == KeyBytes(Hkdf(salt, env + u + h, Label(SepFido2Passphrase)))
  {
    KekOf(OfPassphrase(p, a), salt, env, []);
    KekOf(OfFido2(p, a, h), salt, env, [h]);
    KekOf(OfTpm(p, a, u), salt, env, [u]);
    KekOf(OfTpmFido2(p, a, u, h), salt, env, [u, h]);
    KekOf(OfSep(p, a, u), salt, env, [u]);
    KekOf(OfSepFido2(p, a, u, h), salt, env, [u, h]);
  }

  lemma KeksWithPq(p: seq<Cell>, a: Argon2Params, salt: seq<Cell>, env: Secret, m: Secret, u: Secret, h: Secret)
    ensures FactorsKek(OfPq(p, a, m), salt, env) == KeyBytes(Hkdf(salt, env + m, Label(HybridPqPassphrase)))
    ensures FactorsKek(OfPqFido2(p, a, m, h), salt, env) == KeyBytes(Hkdf(salt, env + m + h, Label(HybridPqFido2Passphrase)))
    ensures FactorsKek(OfPqTpm(p, a, m, u), salt, env) == KeyBytes(Hkdf(salt, env + m + u, Label(HybridPqTpmPassphrase)))
  {
    KekOf(OfPq(p, a, m), salt, env, [m]);
    KekOf(OfPqFido2(p, a, m, h), salt, env, [m, h]);
    KekOf(OfPqTpm(p, a, m, u), salt, env, [m, u]);
  }

  lemma KeksWithPqAndMore(p: seq<Cell>, a: Argon2Params, salt: seq<Cell>, env: Secret, m: Secret, u: Secret, h: Secret)
    ensures FactorsKek(OfPqTpmFido2(p, a, m, u, h), salt, env) == KeyBytes(Hkdf(salt, env + m + u + h, Label(HybridPqTpmFido2Passphrase)))
    ensures FactorsKek(OfPqSep(p, a, m, u), salt, env) == KeyBytes(Hkdf(salt, env + m + u, Label(HybridPqSepPassphrase)))
    ensures FactorsKek(OfPqSepFido2(p, a, m, u, h), salt, env) == KeyBytes(Hkdf(salt, env + m + u + h, Label(HybridPqSepFido2Passphrase)))
  {
    KekOf(OfPqTpmFido2(p, a, m, u, h), salt, env, [m, u, h]);
    KekOf(OfPqSep(p, a, m, u), salt, env, [m, u]);
    KekOf(OfPqSepFido2(p, a, m, u, h), salt, env, [m, u, h]);
  }

  /** The labels as the format fixes them, behind a common prefix. */
  lemma LabelTexts()
    ensures KEK_PREFIX == "luksbox-deniable-v2/kek/"
    ensures Factors(Passphrase) == "passphrase"
    ensures Factors(Fido2Passphrase) == "fido2+passphrase"
    ensures Factors(TpmPassphrase) == "tpm+passphrase"
    ensures Factors(TpmFido2Passphrase) == "tpm+fido2+passphrase"
    ensures Factors(SepPassphrase) == "sep+passphrase"
    ensures Factors(SepFido2Passphrase) == "sep+fido2+passphrase"
    ensures Factors(HybridPqPassphrase) == "pq+passphrase"
    ensures Factors(HybridPqFido2Passphrase) == "pq+fido2+passphrase"
    ensures Factors(HybridPqTpmPassphrase) == "pq+tpm+passphrase"
    ensures Factors(HybridPqTpmFido2Passphrase) == "pq+tpm+fido2+passphrase"
    ensures Factors(HybridPqSepPassphrase) == "pq+sep+passphrase"
    ensures Factors(HybridPqSepFido2Passphrase) == "pq+sep+fido2+passphrase"
  {}

  lemma LabelText(k: Kind)
    ensures Label(k) == Ascii(KEK_PREFIX + Factors(k))
  {
    AsciiConcat(KEK_PREFIX, Factors(k));
  }

  /** The wrapping key determines variant, envelope key and secondary secrets. */
  lemma FactorsKekInjective(a: Credential, ea: Secret, b: Credential, eb: Secret, salt: seq<Cell>)
    ensures FactorsKek(a, salt, ea) == FactorsKek(b, salt, eb)
       <==> KindOf(a) == KindOf(b) && ea == eb && Secondaries(a) == Secondaries(b)
  {
    var sa, sb := [ea] + Secondaries(a), [eb] + Secondaries(b);
    KeyBytesInjective(Hkdf(salt, Concat(sa), Label(KindOf(a))), Hkdf(salt, Concat(sb), Label(KindOf(b))));
    LabelsDistinct(KindOf(a), KindOf(b));
    ConcatInjective(sa, sb);
    if sa == sb {
      assert sa[0] == ea && sa[1..] == Secondaries(a) && sb[1..] == Secondaries(b);
    }
  }

  /** Kind and secondary secrets leave nothing of a credential open but its
      passphrase and cost. */
  lemma SameFactors(a: Credential, b: Credential)
    requires KindOf(a) == KindOf(b) && Secondaries(a) == Secondaries(b)
    requires a.passphrase == b.passphrase && a.argon2 == b.argon2
    ensures a == b
  {
    var x, y := Secondaries(a), Secondaries(b);
    assert |x| > 0 ==> x[0] == y[0];
    assert |x| > 1 ==> x[1] == y[1];
    assert |x| > 2 ==> x[2] == y[2];
  }

  // ----- tables written by credentials --------------------------------------

  /** A slot of the vault given to a credential, or filled at random. */
  datatype SlotWrite =
    | Give(idx: nat, cred: Credential, env: Secret, mvk: Secret, pad: seq<Cell>, nonce: seq<Cell>)
    | Noise(idx: nat, pad: seq<Cell>)

  predicate ValidWrite(c: SlotWrite) {
    c.idx < T.SLOT_COUNT && T.IsSlot(c.pad) && AllLiteral(c.pad) && (c.Give? ==> |c.nonce| == NONCE_LEN)
  }

  predicate ValidWrites(h: seq<SlotWrite>) {
    forall c | c in h :: ValidWrite(c)
  }

  function ContextOf(c: Credential, env: Secret, suite: Suite, salt: seq<Cell>): T.Context {
    T.Context(FactorsKek(c, salt, env), suite, salt)
  }

  function AsOp(c: SlotWrite, suite: Suite, salt: seq<Cell>): T.Op {
    match c
    case Give(idx, cred, env, mvk, pad, nonce) => T.Wrap(idx, ContextOf(cred, env, suite, salt), mvk, pad, nonce)
    case Noise(idx, pad) => T.Fill(idx, pad)
  }

  function AsOps(h: seq<SlotWrite>, suite: Suite, salt: seq<Cell>): (ops: seq<T.Op>)
    ensures |ops| == |h| && forall k | 0 <= k < |h| :: ops[k] == AsOp(h[k], suite, salt)
  {
    if h == [] then [] else AsOps(h[..|h| - 1], suite, salt) + [AsOp(h[|h| - 1], suite, salt)]
  }

  /** Same variant, same envelope key, same secondary secrets in the same order. */
  predicate SameSecrets(a: Credential, ea: Secret, b: Credential, eb: Secret) {
    KindOf(a) == KindOf(b) && ea == eb && Secondaries(a) == Secondaries(b)
  }

  /** The master key slot `idx` holds for credential `b`. */
  function HeldFor(h: seq<SlotWrite>, idx: nat, b: Credential, eb: Secret): Option<seq<Cell>> {
    if h == [] then None
    else
      var last := h[|h| - 1];
      if last.idx != idx then HeldFor(h[..|h| - 1], idx, b, eb)
      else if last.Give? && SameSecrets(last.cred, last.env, b, eb) then Some(last.mvk)
      else None
  }

  lemma {:induction false} HeldAlike(h: seq<SlotWrite>, idx: nat, b: Credential, eb: Secret, suite: Suite, salt: seq<Cell>)
    ensures T.Held(AsOps(h, suite, salt), idx, ContextOf(b, eb, suite, salt)) == HeldFor(h, idx, b, eb)
  {
    if h != [] {
      var front, last := h[..|h| - 1], h[|h| - 1];
      HeldAlike(front, idx, b, eb, suite, salt);
      T.HeldAfter(AsOps(front, suite, salt), AsOp(last, suite, salt), idx, ContextOf(b, eb, suite, salt));
      if last.Give? {
        FactorsKekInjective(last.cred, last.env, b, eb, salt);
      }
    }
  }

  /** Credential separation, end to end and on every history of a vault: trial
      decryption with the key of credential `b` yields the master key of the
      highest slot last given to a credential of the same variant with equal
      envelope key and equal secondary secrets, and nothing if there is none. */
  lemma CredentialsSeparate(slots: seq<seq<Cell>>, h: seq<SlotWrite>, b: Credential, eb: Secret, suite: Suite, salt: seq<Cell>)
    requires T.Blank(slots) && ValidWrites(h) && |salt| == T.SALT_SIZE
    ensures T.ValidOps(AsOps(h, suite, salt))
    ensures var r := T.Highest(T.Run(slots, AsOps(h, suite, salt)), ContextOf(b, eb, suite, salt), T.SLOT_COUNT);
      && (r.Some? ==> r.value.0 < T.SLOT_COUNT && HeldFor(h, r.value.0, b, eb) == Some(r.value.1))
      && (forall j :: 0 <= j < T.SLOT_COUNT && (r.Some? ==> r.value.0 < j) ==> HeldFor(h, j, b, eb) == None)
  {
    var ops, c := AsOps(h, suite, salt), ContextOf(b, eb, suite, salt);
    forall op | op in ops ensures T.ValidOp(op) {
      var k :| 0 <= k < |ops| && ops[k] == op;
      assert ValidWrite(h[k]);
    }
    T.TrialFollowsHistory(slots, ops, c);
    forall j | 0 <= j < T.SLOT_COUNT ensures T.Held(ops, j, c) == HeldFor(h, j, b, eb) {
      HeldAlike(h, j, b, eb, suite, salt);
    }
  }
}
