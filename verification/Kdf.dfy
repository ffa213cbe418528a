/** The four key derivations of standard keyslots, and that their inputs never
    collide. */
module Kdf {
  import opened Common
  import opened Symbolic

  const FIDO_PREFIX: string := "lbx:fido"
  const HYBRID_INFO: string := "lbx:hybrid-kek/v1"
  const HYBRID_FIDO_INFO: string := "lbx:hybrid-fido-kek/v1"

  /** The Argon2id input `derive_kek_with_fido2` builds. */
  function FidoTranscript(passphrase: seq<Cell>, hmac: Secret): seq<Cell> {
    Ascii(FIDO_PREFIX) + passphrase + [Lit(0xff)] + hmac
  }

  /** The transcript is injective in both secrets, for every passphrase: its
      delimiter sits at a fixed distance from the end, so a passphrase that
      contains 0xff could not be confused with another. */
  lemma FidoTranscriptInjective(p: seq<Cell>, h: Secret, q: seq<Cell>, g: Secret)
    ensures FidoTranscript(p, h) == FidoTranscript(q, g) <==> p == q && h == g
  {
    var a, b := FidoTranscript(p, h), FidoTranscript(q, g);
    if a == b {
      assert a[|a| - 32..] == h && b[|b| - 32..] == g;
      assert a[8..|a| - 33] == p && b[8..|b| - 33] == q;
    }
  }

  // ----- UTF-8, section 4 of RFC 3629 ---------------------------------------

  predicate Tail(b: byte) {
    0x80 <= b <= 0xbf
  }

  /** Length of the character `b` starts with, or 0 if it starts none. */
  function CharLen(b: seq<byte>): (n: nat)
    requires b != []
    ensures n <= 4
    ensures n > 0 ==> n <= |b| && forall i :: 0 <= i < n ==> b[i] != 0xff
  {
    if b[0] <= 0x7f then 1
    else if 0xc2 <= b[0] <= 0xdf && |b| >= 2 && Tail(b[1]) then 2
    else if |b| >= 3 && Tail(b[2])
         && ((b[0] == 0xe0 && 0xa0 <= b[1] <= 0xbf) || (0xe1 <= b[0] <= 0xec && Tail(b[1]))
             || (b[0] == 0xed && 0x80 <= b[1] <= 0x9f) || (0xee <= b[0] <= 0xef && Tail(b[1]))) then 3
    else if |b| >= 4 && Tail(b[2]) && Tail(b[3])
         && ((b[0] == 0xf0 && 0x90 <= b[1] <= 0xbf) || (0xf1 <= b[0] <= 0xf3 && Tail(b[1]))
             || (b[0] == 0xf4 && 0x80 <= b[1] <= 0x8f)) then 4
    else 0
  }

  predicate ValidUtf8(b: seq<byte>) {
    b == [] || (CharLen(b) > 0 && ValidUtf8(b[CharLen(b)..]))
  }

  lemma {:induction false} Utf8HasNoFF(b: seq<byte>)
    requires ValidUtf8(b)
    ensures 0xff !in b
  {
    if b != [] {
      var n := CharLen(b);
      Utf8HasNoFF(b[n..]);
      assert b == b[..n] + b[n..];
    }
  }

  function Bytes(b: seq<byte>): (c: seq<Cell>)
    ensures |c| == |b| && forall i :: 0 <= i < |b| ==> c[i] == Lit(b[i])
  {
    seq(|b|, i requires 0 <= i < |b| => Lit(b[i]))
  }

  lemma BytesInjective(a: seq<byte>, b: seq<byte>)
    ensures Bytes(a) == Bytes(b) <==> a == b
  {
    if Bytes(a) == Bytes(b) {
      assert forall i | 0 <= i < |a| :: Bytes(a)[i] == Lit(a[i]) && Bytes(b)[i] == Lit(b[i]);
    }
  }

  // ----- derivations --------------------------------------------------------

  /** `derive_kek`. */
  function DeriveKek(passphrase: seq<Cell>, salt: seq<Cell>, params: Argon2Params): Derivation {
    Argon2id(passphrase, salt, params)
  }

  /** `derive_kek_with_fido2`, appending to its input buffer. A passphrase with a
      byte 0xff is refused. */
  method DeriveKekWithFido2(passphrase: seq<Cell>, hmac: Secret, salt: seq<Cell>, params: Argon2Params)
    returns (r: Result<Derivation>)
    ensures r.Err? <==> Lit(0xff) in passphrase
    ensures r.Ok? ==> r.value == DeriveKek(FidoTranscript(passphrase, hmac), salt, params)
    ensures r.Ok? ==> r.value == Argon2id(Ascii("lbx:fido") + passphrase + [Lit(0xff)] + hmac, salt, params)
  {
    if Lit(0xff) in passphrase {
      return Err;
    }
    var input := Ascii(FIDO_PREFIX);
    input := input + passphrase;
    input := input + [Lit(0xff)];
    input := input + hmac;
    return Ok(DeriveKek(input, salt, params));
  }

  /** What one unlock presents, with a passphrase as the prompts deliver it. */
  datatype Request =
    | Plain(passphrase: seq<byte>)
    | Fido2(passphrase: seq<byte>, hmac: Secret)
    | Hybrid(passphrase: seq<byte>, pq: Secret)
    | HybridFido2(passphrase: seq<byte>, hmac: Secret, pq: Secret)

  /** The stretched half common to a request and its hybrid. */
  function Classical(r: Request, salt: seq<Cell>, params: Argon2Params): Derivation {
    match r
    case Plain(p) => DeriveKek(Bytes(p), salt, params)
    case Hybrid(p, _) => DeriveKek(Bytes(p), salt, params)
    case Fido2(p, h) => DeriveKek(FidoTranscript(Bytes(p), h), salt, params)
    case HybridFido2(p, h, _) => DeriveKek(FidoTranscript(Bytes(p), h), salt, params)
  }

  /** The key of a request: `derive_kek`, `derive_kek_with_fido2`,
      `derive_hybrid_kek` or `derive_hybrid_fido2_kek`. */
  function Key(r: Request, salt: seq<Cell>, params: Argon2Params): Derivation {
    match r
    case Plain(_) => Classical(r, salt, params)
    case Fido2(_, _) => Classical(r, salt, params)
    case Hybrid(_, pq) => Hkdf(salt, KeyBytes(Classical(r, salt, params)) + pq, Ascii(HYBRID_INFO))
    case HybridFido2(_, _, pq) => Hkdf(salt, KeyBytes(Classical(r, salt, params)) + pq, Ascii(HYBRID_FIDO_INFO))
  }

  /** The four derivations, to the byte. */
  lemma KeyTranscripts(p: seq<byte>, h: Secret, pq: Secret, salt: seq<Cell>, m: Argon2Params)
    ensures Key(Plain(p), salt, m) == Argon2id(Bytes(p), salt, m)
    ensures var fido := Ascii("lbx:fido") + Bytes(p) + [Lit(0xff)] + h;
      && Key(Fido2(p, h), salt, m) == Argon2id(fido, salt, m)
      && Key(HybridFido2(p, h, pq), salt, m) == Hkdf(salt, KeyBytes(Argon2id(fido, salt, m)) + pq, Ascii("lbx:hybrid-fido-kek/v1"))
    ensures Key(Hybrid(p, pq), salt, m) == Hkdf(salt, KeyBytes(Argon2id(Bytes(p), salt, m)) + pq, Ascii("lbx:hybrid-kek/v1"))
  {}

  /** A plain passphrase yields a FIDO2 key exactly when it spells out the FIDO2
      transcript. */
  lemma PlainMeetsFido2(q: seq<Cell>, p: seq<Cell>, h: Secret, salt: seq<Cell>, params: Argon2Params)
    ensures KeyBytes(DeriveKek(q, salt, params)) == KeyBytes(DeriveKek(FidoTranscript(p, h), salt, params))
       <==> q == FidoTranscript(p, h)
  {
    KeyBytesInjective(DeriveKek(q, salt, params), DeriveKek(FidoTranscript(p, h), salt, params));
  }

  lemma Utf8IsNoTranscript(q: seq<byte>, p: seq<Cell>, h: Secret)
    requires ValidUtf8(q)
    ensures Bytes(q) != FidoTranscript(p, h)
  {
    Utf8HasNoFF(q);
    var t := FidoTranscript(p, h);
    assert t[8 + |p|] == Lit(0xff);
    assert forall i | 0 <= i < |q| :: q[i] in q && Bytes(q)[i] != Lit(0xff);
  }

  /** Stretched halves coincide only between requests with the same passphrase
      and authenticator response. */
  lemma ClassicalInjective(r: Request, s: seq<Cell>, m: Argon2Params, r': Request, s': seq<Cell>, m': Argon2Params)
    requires ValidUtf8(r.passphrase) && ValidUtf8(r'.passphrase)
    requires Classical(r, s, m) == Classical(r', s', m')
    ensures s == s' && m == m' && r.passphrase == r'.passphrase
    ensures (r.Plain? || r.Hybrid?) <==> (r'.Plain? || r'.Hybrid?)
    ensures (r.Fido2? || r.HybridFido2?) ==> r.hmac == r'.hmac
  {
    BytesInjective(r.passphrase, r'.passphrase);
    if r.Plain? || r.Hybrid? {
      if r'.Fido2? || r'.HybridFido2? {
        Utf8IsNoTranscript(r.passphrase, Bytes(r'.passphrase), r'.hmac);
      }
    } else if r'.Plain? || r'.Hybrid? {
      Utf8IsNoTranscript(r'.passphrase, Bytes(r.passphrase), r.hmac);
    } else {
      FidoTranscriptInjective(Bytes(r.passphrase), r.hmac, Bytes(r'.passphrase), r'.hmac);
    }
  }

  lemma InfosDistinct()
    ensures Ascii(HYBRID_INFO) != Ascii(HYBRID_FIDO_INFO)
  {
    assert |Ascii(HYBRID_INFO)| != |Ascii(HYBRID_FIDO_INFO)|;
  }

  /** The four derivations share one key space without a collision: over UTF-8
      passphrases, two requests yield the same 32 bytes if and only if they are
      the same request with the same salt and cost. */
  lemma KeysUnambiguous(r: Request, s: seq<Cell>, m: Argon2Params, r': Request, s': seq<Cell>, m': Argon2Params)
    requires ValidUtf8(r.passphrase) && ValidUtf8(r'.passphrase)
    ensures KeyBytes(Key(r, s, m)) == KeyBytes(Key(r', s', m')) <==> r == r' && s == s' && m == m'
  {
    KeyBytesInjective(Key(r, s, m), Key(r', s', m'));
    if Key(r, s, m) == Key(r', s', m') {
      InfosDistinct();
      if r.Hybrid? || r.HybridFido2? {
        var a, b := KeyBytes(Classical(r, s, m)), KeyBytes(Classical(r', s', m'));
        assert (a + r.pq)[..32] == a && (b + r'.pq)[..32] == b;
        assert (a + r.pq)[32..] == r.pq && (b + r'.pq)[32..] == r'.pq;
        KeyBytesInjective(Classical(r, s, m), Classical(r', s', m'));
      }
      ClassicalInjective(r, s, m, r', s', m');
    }
  }
}
