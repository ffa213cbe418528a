/** The plaintext inside a deniable slot's envelope: its byte layout, and the
    encoder and decoder that walk it with a running offset. */
module SlotPayload {
  import opened Common
  import opened Symbolic

  /** `DeniableKindTag`. */
  datatype Kind =
    | Passphrase | Fido2Passphrase | TpmPassphrase | TpmFido2Passphrase
    | HybridPqPassphrase | HybridPqFido2Passphrase | HybridPqTpmPassphrase | HybridPqTpmFido2Passphrase
    | SepPassphrase | SepFido2Passphrase | HybridPqSepPassphrase | HybridPqSepFido2Passphrase

  function Tag(k: Kind): (b: byte)
    ensures 1 <= b <= 12
  {
    match k
    case Passphrase => 1
    case Fido2Passphrase => 2
    case TpmPassphrase => 3
    case TpmFido2Passphrase => 4
    case HybridPqPassphrase => 5
    case HybridPqFido2Passphrase => 6
    case HybridPqTpmPassphrase => 7
    case HybridPqTpmFido2Passphrase => 8
    case SepPassphrase => 9
    case SepFido2Passphrase => 10
    case HybridPqSepPassphrase => 11
    case HybridPqSepFido2Passphrase => 12
  }

  /** `DeniableKindTag::from_u8`: the inverse of `Tag`, defined on 1 to 12 only. */
  function FromTag(b: byte): (r: Option<Kind>)
    ensures r.Some? ==> Tag(r.value) == b
    ensures r.None? ==> forall k: Kind :: Tag(k) != b
  {
    match b
    case 1 => Some(Passphrase)
    case 2 => Some(Fido2Passphrase)
    case 3 => Some(TpmPassphrase)
    case 4 => Some(TpmFido2Passphrase)
    case 5 => Some(HybridPqPassphrase)
    case 6 => Some(HybridPqFido2Passphrase)
    case 7 => Some(HybridPqTpmPassphrase)
    case 8 => Some(HybridPqTpmFido2Passphrase)
    case 9 => Some(SepPassphrase)
    case 10 => Some(SepFido2Passphrase)
    case 11 => Some(HybridPqSepPassphrase)
    case 12 => Some(HybridPqSepFido2Passphrase)
    case _ => None
  }

  const HEADER_LEN: nat := 8
  const WRAPPED_MVK_LEN: nat := NONCE_LEN + KEY_LEN + TAG_LEN
  const CRED_ID_MAX_LEN: nat := 1024
  const HMAC_SALT_LEN: nat := 32
  const TPM_BLOB_MAX_LEN: nat := 3500
  const SLOT_SIZE: nat := 4096
  const PAYLOAD_LEN: nat := SLOT_SIZE - NONCE_LEN - TAG_LEN
  const MATERIAL_BUDGET: nat := PAYLOAD_LEN - HEADER_LEN - WRAPPED_MVK_LEN

  datatype Payload = Payload(
    kind: Kind,
    credId: seq<Cell>,
    hmacSalt: Option<seq<Cell>>,
    tpmBlob: seq<Cell>,
    nonce: seq<Cell>,
    wrapped: seq<Cell>)

  function SaltLen(p: Payload): nat {
    if p.hmacSalt.Some? then HMAC_SALT_LEN else 0
  }

  function SaltBytes(p: Payload): seq<Cell> {
    if p.hmacSalt.Some? then p.hmacSalt.value else []
  }

  /** Field widths the types fix in the source. */
  predicate Typed(p: Payload) {
    && (p.hmacSalt.Some? ==> |p.hmacSalt.value| == HMAC_SALT_LEN)
    && |p.nonce| == NONCE_LEN
    && |p.wrapped| == KEY_LEN + TAG_LEN
  }

  /** What `SlotPayload::new` accepts. */
  predicate Accepted(p: Payload) {
    && Typed(p)
    && |p.credId| <= CRED_ID_MAX_LEN
    && |p.tpmBlob| <= TPM_BLOB_MAX_LEN
    && |p.credId| + SaltLen(p) + |p.tpmBlob| <= MATERIAL_BUDGET
  }

  function New(p: Payload): (r: Result<Payload>)
    requires Typed(p)
    ensures r == Ok(p) <==> Accepted(p)
    ensures r.Err? <==> !Accepted(p)
  {
    if |p.credId| > CRED_ID_MAX_LEN then Err
    else if |p.tpmBlob| > TPM_BLOB_MAX_LEN then Err
    else if |p.credId| + SaltLen(p) + |p.tpmBlob| > MATERIAL_BUDGET then Err
    else Ok(p)
  }

  // ----- layout -------------------------------------------------------------

  /** `u16::to_le_bytes`. */
  function Le16(n: nat): (c: seq<Cell>)
    requires n < 0x10000
    ensures |c| == 2
  {
    [Lit(n % 256), Lit(n / 256)]
  }

  function Header(p: Payload): (h: seq<Cell>)
    requires Accepted(p)
    ensures |h| == HEADER_LEN
  {
    [Lit(Tag(p.kind))] + Le16(|p.credId|) + [Lit(SaltLen(p))] + Le16(|p.tpmBlob|) + [Lit(0), Lit(0)]
  }

  /** Everything but the padding. */
  function Body(p: Payload): (b: seq<Cell>)
    requires Accepted(p)
    ensures |b| == HEADER_LEN + |p.credId| + SaltLen(p) + |p.tpmBlob| + WRAPPED_MVK_LEN <= PAYLOAD_LEN
  {
    Header(p) + p.credId + SaltBytes(p) + p.tpmBlob + p.nonce + p.wrapped
  }

  function Layout(p: Payload, pad: seq<Cell>): (b: seq<Cell>)
    requires Accepted(p) && |pad| == PAYLOAD_LEN - |Body(p)|
    ensures |b| == PAYLOAD_LEN
  {
    Body(p) + pad
  }

  /** The tags as the format fixes them. */
  lemma TagValues()
    ensures [Tag(Passphrase), Tag(Fido2Passphrase), Tag(TpmPassphrase), Tag(TpmFido2Passphrase)] == [1, 2, 3, 4]
    ensures [Tag(HybridPqPassphrase), Tag(HybridPqFido2Passphrase), Tag(HybridPqTpmPassphrase), Tag(HybridPqTpmFido2Passphrase)] == [5, 6, 7, 8]
    ensures [Tag(SepPassphrase), Tag(SepFido2Passphrase), Tag(HybridPqSepPassphrase), Tag(HybridPqSepFido2Passphrase)] == [9, 10, 11, 12]
  {}

  /** The layout byte by byte: kind; the three lengths, the wider ones little end
      first; two zero bytes; then the material, the wrapped key's nonce and the
      wrapped key, each where the one before it ends, in 4068 bytes. */
  lemma LayoutBytes(p: Payload, pad: seq<Cell>)
    requires Accepted(p) && |pad| == PAYLOAD_LEN - |Body(p)|
    ensures var b, c, t := Layout(p, pad), |p.credId|, |p.tpmBlob|;
      var s := if p.hmacSalt.Some? then 32 else 0;
      && |b| == 4068
      && b[0] == Lit(Tag(p.kind)) && b[1] == Lit(c % 256) && b[2] == Lit(c / 256)
      && b[3] == Lit(s) && b[4] == Lit(t % 256) && b[5] == Lit(t / 256) && b[6] == b[7] == Lit(0)
      && b[8..8 + c] == p.credId
      && (p.hmacSalt.Some? ==> b[8 + c..8 + c + 32] == p.hmacSalt.value)
      && b[8 + c + s..8 + c + s + t] == p.tpmBlob
      && b[8 + c + s + t..8 + c + s + t + 12] == p.nonce
      && b[8 + c + s + t + 12..8 + c + s + t + 60] == p.wrapped
      && b[8 + c + s + t + 60..] == pad
  {
    var b := Layout(p, pad);
    assert Body(p) <= b;
    FieldsInPlace(b, p);
    SliceOfPrefix(b, Body(p), 0, HEADER_LEN);
    BodyFields(p);
    assert b[..8] == Header(p);
    assert forall i | 0 <= i < 8 :: b[i] == b[..8][i];
  }

  /** Buffer `buf` starts with the layout of `p`. */
  predicate Carries(buf: seq<Cell>, p: Payload) {
    Accepted(p) && Body(p) <= buf
  }

  /** The fields of `p`, read back at the offsets the decoder computes. */
  lemma BodyFields(p: Payload)
    requires Accepted(p)
    ensures var b, o1 := Body(p), HEADER_LEN + |p.credId|;
      var o2 := o1 + SaltLen(p);
      var o3 := o2 + |p.tpmBlob|;
      && b[..HEADER_LEN] == Header(p)
      && b[HEADER_LEN..o1] == p.credId
      && b[o1..o2] == SaltBytes(p)
      && b[o2..o3] == p.tpmBlob
      && b[o3..o3 + NONCE_LEN] == p.nonce
      && b[o3 + NONCE_LEN..o3 + WRAPPED_MVK_LEN] == p.wrapped
  {
    var b := Body(p);
    var o1 := HEADER_LEN + |p.credId|;
    var o2 := o1 + SaltLen(p);
    var o3 := o2 + |p.tpmBlob|;
    var p2 := Header(p) + p.credId;
    var p3 := p2 + SaltBytes(p);
    var p4 := p3 + p.tpmBlob;
    var p5 := p4 + p.nonce;
    Cut(p5, p.wrapped, b);
    Cut(p4, p.nonce, b);
    Cut(p3, p.tpmBlob, b);
    Cut(p2, SaltBytes(p), b);
    Cut(Header(p), p.credId, b);
  }

  /** The last part of a prefix is where its length says, and what precedes it is
      a prefix too. */
  lemma Cut(a: seq<Cell>, x: seq<Cell>, whole: seq<Cell>)
    requires a + x <= whole
    ensures a <= whole && whole[|a|..|a| + |x|] == x && whole[..|a|] == a
  {
    assert whole[..|a| + |x|] == a + x;
    assert whole[..|a|] == (a + x)[..|a|];
    assert whole[|a|..|a| + |x|] == (a + x)[|a|..];
  }

  // ----- decoding -----------------------------------------------------------

  /** The lengths a buffer's header claims, if the header is well formed. */
  datatype Claim = Claim(kind: Kind, credIdLen: nat, saltLen: nat, tpmBlobLen: nat)

  function ReadHeader(buf: seq<Cell>): (r: Result<Claim>)
    requires |buf| == PAYLOAD_LEN
  {
    if exists i | 0 <= i < HEADER_LEN :: !buf[i].Lit? then Err
    else
      var kind := FromTag(buf[0].b);
      var credIdLen, saltLen, tpmBlobLen := buf[1].b + 256 * buf[2].b, buf[3].b, buf[4].b + 256 * buf[5].b;
      if kind.None? then Err
      else if buf[6].b != 0 || buf[7].b != 0 then Err
      else if credIdLen > CRED_ID_MAX_LEN then Err
      else if !(saltLen == 0 || saltLen == HMAC_SALT_LEN) then Err
      else if tpmBlobLen > TPM_BLOB_MAX_LEN then Err
      else if credIdLen + saltLen + tpmBlobLen > MATERIAL_BUDGET then Err
      else Ok(Claim(kind.value, credIdLen, saltLen, tpmBlobLen))
  }

  /** The payload a buffer with a well-formed header carries. */
  function Slices(buf: seq<Cell>, c: Claim): (p: Payload)
    requires |buf| == PAYLOAD_LEN && ReadHeader(buf) == Ok(c)
  {
    var o1 := HEADER_LEN + c.credIdLen;
    var o2 := o1 + c.saltLen;
    var o3 := o2 + c.tpmBlobLen;
    Payload(c.kind, buf[HEADER_LEN..o1], if c.saltLen == HMAC_SALT_LEN then Some(buf[o1..o2]) else None,
            buf[o2..o3], buf[o3..o3 + NONCE_LEN], buf[o3 + NONCE_LEN..o3 + WRAPPED_MVK_LEN])
  }

  function Parse(buf: seq<Cell>): Result<Payload>
    requires |buf| == PAYLOAD_LEN
  {
    match ReadHeader(buf)
    case Err => Err
    case Ok(c) => Ok(Slices(buf, c))
  }

  /** A header is read back as the lengths it was made from. */
  lemma HeaderReads(buf: seq<Cell>, p: Payload)
    requires |buf| == PAYLOAD_LEN && Accepted(p) && buf[..HEADER_LEN] == Header(p)
    ensures ReadHeader(buf) == Ok(Claim(p.kind, |p.credId|, SaltLen(p), |p.tpmBlob|))
  {
    var h := Header(p);
    assert forall i | 0 <= i < HEADER_LEN :: buf[i] == h[i];
    assert FromTag(Tag(p.kind)) == Some(p.kind);
  }

  /** A well-formed header is the header of the payload that follows it. */
  lemma HeaderWrites(buf: seq<Cell>, c: Claim)
    requires |buf| == PAYLOAD_LEN && ReadHeader(buf) == Ok(c)
    ensures Accepted(Slices(buf, c)) && Header(Slices(buf, c)) == buf[..HEADER_LEN]
  {
    var p := Slices(buf, c);
    assert |p.credId| == c.credIdLen && |p.tpmBlob| == c.tpmBlobLen && SaltLen(p) == c.saltLen;
    Le16Exact(buf[1].b, buf[2].b);
    Le16Exact(buf[4].b, buf[5].b);
  }

  lemma Le16Exact(lo: byte, hi: byte)
    ensures Le16(lo + 256 * hi) == [Lit(lo), Lit(hi)]
  {
  }

  lemma ParsedIsCarried(buf: seq<Cell>)
    requires |buf| == PAYLOAD_LEN && Parse(buf).Ok?
    ensures Carries(buf, Parse(buf).value)
  {
    var c := ReadHeader(buf).value;
    var o1 := HEADER_LEN + c.credIdLen;
    var o2 := o1 + c.saltLen;
    HeaderWrites(buf, c);
    assert c.saltLen == 0 ==> buf[o1..o2] == [];
    SlicesAreBody(buf, Slices(buf, c), o1, o2, o2 + c.tpmBlobLen);
  }

  lemma SlicesAreBody(buf: seq<Cell>, p: Payload, o1: nat, o2: nat, o3: nat)
    requires Accepted(p) && HEADER_LEN <= o1 <= o2 <= o3 && o3 + WRAPPED_MVK_LEN <= |buf| && buf[..HEADER_LEN] == Header(p)
    requires p.credId == buf[HEADER_LEN..o1] && SaltBytes(p) == buf[o1..o2] && p.tpmBlob == buf[o2..o3]
    requires p.nonce == buf[o3..o3 + NONCE_LEN] && p.wrapped == buf[o3 + NONCE_LEN..o3 + WRAPPED_MVK_LEN]
    ensures Body(p) <= buf
  {
    SlicesConcatenate(buf, HEADER_LEN, o1, o2, o3);
    assert Body(p) == buf[..o3 + WRAPPED_MVK_LEN];
  }

  lemma SlicesConcatenate(buf: seq<Cell>, o0: nat, o1: nat, o2: nat, o3: nat)
    requires o0 <= o1 <= o2 <= o3 && o3 + WRAPPED_MVK_LEN <= |buf|
    ensures buf[..o0] + buf[o0..o1] + buf[o1..o2] + buf[o2..o3] + buf[o3..o3 + NONCE_LEN]
            + buf[o3 + NONCE_LEN..o3 + WRAPPED_MVK_LEN] == buf[..o3 + WRAPPED_MVK_LEN]
  {
  }

  /** Nothing an accepted payload's encoding can be followed by stops the parser. */
  lemma CarriedIsParsed(buf: seq<Cell>, p: Payload)
    requires |buf| == PAYLOAD_LEN && Carries(buf, p)
    ensures Parse(buf) == Ok(p)
  {
    SliceOfPrefix(buf, Body(p), 0, HEADER_LEN);
    BodyFields(p);
    HeaderReads(buf, p);
    FieldsInPlace(buf, p);
  }

  lemma FieldsInPlace(buf: seq<Cell>, p: Payload)
    requires Carries(buf, p)
    ensures var o1 := HEADER_LEN + |p.credId|;
      var o2 := o1 + SaltLen(p);
      var o3 := o2 + |p.tpmBlob|;
      && o3 + WRAPPED_MVK_LEN <= |buf|
      && buf[HEADER_LEN..o1] == p.credId
      && buf[o1..o2] == SaltBytes(p)
      && buf[o2..o3] == p.tpmBlob
      && buf[o3..o3 + NONCE_LEN] == p.nonce
      && buf[o3 + NONCE_LEN..o3 + WRAPPED_MVK_LEN] == p.wrapped
  {
    var b, o1 := Body(p), HEADER_LEN + |p.credId|;
    var o2 := o1 + SaltLen(p);
    var o3 := o2 + |p.tpmBlob|;
    BodyFields(p);
    SliceOfPrefix(buf, b, HEADER_LEN, o1);
    SliceOfPrefix(buf, b, o1, o2);
    SliceOfPrefix(buf, b, o2, o3);
    SliceOfPrefix(buf, b, o3, o3 + NONCE_LEN);
    SliceOfPrefix(buf, b, o3 + NONCE_LEN, o3 + WRAPPED_MVK_LEN);
  }

  lemma SliceOfPrefix(buf: seq<Cell>, b: seq<Cell>, i: nat, j: nat)
    requires b <= buf && i <= j <= |b|
    ensures buf[i..j] == b[i..j]
  {
  }

  /** The codec is canonical: a buffer decodes to `p` exactly when it is the
      encoding of the accepted payload `p` under some padding. */
  lemma Canonical(buf: seq<Cell>, p: Payload)
    requires |buf| == PAYLOAD_LEN
    ensures Parse(buf) == Ok(p) <==> Accepted(p) && exists pad :: |pad| == PAYLOAD_LEN - |Body(p)| && buf == Layout(p, pad)
  {
    if Parse(buf) == Ok(p) {
      ParsedIsCarried(buf);
      assert buf == Layout(p, buf[|Body(p)|..]);
    }
    if Accepted(p) && exists pad :: |pad| == PAYLOAD_LEN - |Body(p)| && buf == Layout(p, pad) {
      CarriedIsParsed(buf, p);
    }
  }

  /** Round trip, for every accepted payload and every padding. */
  lemma RoundTrip(p: Payload, pad: seq<Cell>)
    requires Accepted(p) && |pad| == PAYLOAD_LEN - |Body(p)|
    ensures Parse(Layout(p, pad)) == Ok(p)
  {
    CarriedIsParsed(Layout(p, pad), p);
  }

  /** What `new` accepts is exactly what the format can carry: the constructor and
      the decoder draw the same line, so no accepted payload is unreadable and no
      readable one was refused. */
  lemma NewAcceptsExactlyReadable(p: Payload)
    requires Typed(p)
    ensures New(p).Ok? <==> exists buf :: |buf| == PAYLOAD_LEN && Parse(buf) == Ok(p)
    ensures New(p).Ok? <==> |p.credId| <= 1024 && |p.tpmBlob| <= 3500 && |p.credId| + |p.tpmBlob| + (if p.hmacSalt.Some? then 32 else 0) <= 4000
  {
    if New(p).Ok? {
      RoundTrip(p, Repeat(Lit(0), PAYLOAD_LEN - |Body(p)|));
    }
    if buf :| |buf| == PAYLOAD_LEN && Parse(buf) == Ok(p) {
      Canonical(buf, p);
    }
  }

  /** The first byte tells the kinds apart. */
  lemma StartsWithKind(p: Payload, pad: seq<Cell>, k: Kind)
    requires Accepted(p) && |pad| == PAYLOAD_LEN - |Body(p)|
    ensures Layout(p, pad)[0] == Lit(Tag(k)) <==> p.kind == k
  {
    assert Layout(p, pad)[0] == Body(p)[0] == Header(p)[0] == Lit(Tag(p.kind));
    assert FromTag(Tag(k)) == Some(k) && FromTag(Tag(p.kind)) == Some(p.kind);
  }

  /** Two encodings that share a buffer are encodings of one payload. */
  lemma LayoutInjective(p: Payload, pad: seq<Cell>, q: Payload, qad: seq<Cell>)
    requires Accepted(p) && |pad| == PAYLOAD_LEN - |Body(p)|
    requires Accepted(q) && |qad| == PAYLOAD_LEN - |Body(q)|
    ensures Layout(p, pad) == Layout(q, qad) <==> p == q && pad == qad
  {
    RoundTrip(p, pad);
    RoundTrip(q, qad);
    if Layout(p, pad) == Layout(q, qad) {
      assert p == q;
      assert pad == Layout(p, pad)[|Body(p)|..] == Layout(q, qad)[|Body(q)|..] == qad;
    }
  }

  // ----- the code -----------------------------------------------------------

  /** `buf[off..off + src.len()].copy_from_slice(src)`. */
  method CopyIn(buf: array<Cell>, off: nat, src: seq<Cell>)
    requires off + |src| <= buf.Length
    modifies buf
    ensures buf[..off + |src|] == old(buf[..off]) + src
    ensures forall j :: off + |src| <= j < buf.Length ==> buf[j] == old(buf[j])
  {
    for i := 0 to |src|
      invariant buf[..off + i] == old(buf[..off]) + src[..i]
      invariant forall j :: off + i <= j < buf.Length ==> buf[j] == old(buf[j])
    {
      buf[off + i] := src[i];
      assert buf[..off + i + 1] == buf[..off + i] + [src[i]];
      assert src[..i + 1] == src[..i] + [src[i]];
    }
    assert src[..|src|] == src;
  }

  /** The fixed header; the two reserved bytes stay as the buffer has them. */
  method EncodeHeader(buf: array<Cell>, p: Payload)
    requires Accepted(p) && buf.Length == PAYLOAD_LEN && buf[6] == Lit(0) && buf[7] == Lit(0)
    modifies buf
    ensures buf[..HEADER_LEN] == Header(p)
  {
    CopyIn(buf, 0, [Lit(Tag(p.kind))]);
    CopyIn(buf, 1, Le16(|p.credId|));
    CopyIn(buf, 3, [Lit(SaltLen(p))]);
    CopyIn(buf, 4, Le16(|p.tpmBlob|));
    assert buf[..HEADER_LEN] == buf[..6] + [buf[6], buf[7]];
  }

  /** Header and material. */
  function Front(p: Payload): (f: seq<Cell>)
    requires Accepted(p)
    ensures |f| == HEADER_LEN + |p.credId| + SaltLen(p) + |p.tpmBlob|
  {
    Header(p) + p.credId + SaltBytes(p) + p.tpmBlob
  }

  /** The material, from the end of the header on. */
  method EncodeMaterial(buf: array<Cell>, p: Payload) returns (off: nat)
    requires Accepted(p) && buf.Length == PAYLOAD_LEN && buf[..HEADER_LEN] == Header(p)
    modifies buf
    ensures off == |Front(p)| && buf[..off] == Front(p)
  {
    off := HEADER_LEN;
    CopyIn(buf, off, p.credId);
    off := off + |p.credId|;
    if p.hmacSalt.Some? {
      CopyIn(buf, off, p.hmacSalt.value);
      off := off + HMAC_SALT_LEN;
    }
    assert buf[..off] == Header(p) + p.credId + SaltBytes(p);
    CopyIn(buf, off, p.tpmBlob);
    off := off + |p.tpmBlob|;
  }

  /** Material and wrapped key. */
  method EncodeFields(buf: array<Cell>, p: Payload) returns (off: nat)
    requires Accepted(p) && buf.Length == PAYLOAD_LEN && buf[..HEADER_LEN] == Header(p)
    modifies buf
    ensures off == |Body(p)| && buf[..off] == Body(p)
  {
    off := EncodeMaterial(buf, p);
    CopyIn(buf, off, p.nonce);
    off := off + NONCE_LEN;
    CopyIn(buf, off, p.wrapped);
    off := off + KEY_LEN + TAG_LEN;
    assert Front(p) + p.nonce + p.wrapped == Body(p);
  }

  /** `SlotPayload::encode`; `random` supplies the padding, None being a failure
      of the generator. */
  method Encode(p: Payload, random: Option<seq<Cell>>) returns (r: Option<array<Cell>>)
    requires Accepted(p)
    requires random.Some? ==> |random.value| == PAYLOAD_LEN
    ensures r.Some? <==> random.Some?
    ensures r.Some? ==> r.value.Length == PAYLOAD_LEN && r.value[..] == Layout(p, random.value[|Body(p)|..])
  {
    var buf := new Cell[PAYLOAD_LEN](i => Lit(0));
    EncodeHeader(buf, p);
    var off := EncodeFields(buf, p);
    if random.None? {
      return None;
    }
    CopyIn(buf, off, random.value[off..]);
    assert buf[..] == buf[..PAYLOAD_LEN];
    return Some(buf);
  }

  /** `SlotPayload::decode`: accepts exactly the encodings of accepted payloads. */
  method Decode(buf: seq<Cell>) returns (r: Result<Payload>)
    requires |buf| == PAYLOAD_LEN
    ensures r == Parse(buf)
    ensures r.Ok? ==> Carries(buf, r.value)
    ensures r.Err? ==> forall p :: !Carries(buf, p)
  {
    var claim := ReadHeader(buf);
    if claim.Err? {
      forall p ensures !Carries(buf, p) {
        if Carries(buf, p) { CarriedIsParsed(buf, p); }
      }
      return Err;
    }
    var c := claim.value;
    var off := HEADER_LEN;
    var credId := buf[off..off + c.credIdLen];
    off := off + c.credIdLen;
    var hmacSalt := None;
    if c.saltLen == HMAC_SALT_LEN {
      hmacSalt := Some(buf[off..off + HMAC_SALT_LEN]);
      off := off + HMAC_SALT_LEN;
    }
    var tpmBlob := buf[off..off + c.tpmBlobLen];
    off := off + c.tpmBlobLen;
    var nonce := buf[off..off + NONCE_LEN];
    off := off + NONCE_LEN;
    var wrapped := buf[off..off + KEY_LEN + TAG_LEN];
    r := Ok(Payload(c.kind, credId, hmacSalt, tpmBlob, nonce, wrapped));
    ParsedIsCarried(buf);
  }
}
