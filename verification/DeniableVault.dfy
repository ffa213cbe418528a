/** A deniable vault end to end: credentials are installed in slots and cleared,
    and an unlock discovers an envelope by passphrase and kind, then opens the
    master key inside it with the remaining secrets. */
module DeniableVault {
  import opened Common
  import opened Symbolic
  import opened SlotPayload
  import opened Credentials
  import T = SlotTable

  const INNER_AAD_PREFIX: string := "luksbox-deniable-v2/inner-slot"

  /** `inner_slot_aad`. */
  function InnerAad(salt: seq<Cell>, idx: nat): seq<Cell> {
    Ascii(INNER_AAD_PREFIX) + salt + [Lit(idx % 256)]
  }

  /** The vault-wide parameters of every slot. */
  datatype Vault = Vault(salt: seq<Cell>, suite: Suite)

  predicate IsVault(v: Vault) {
    |v.salt| == T.SALT_SIZE
  }

  /** The public bytes a credential stores with its slot. */
  datatype Material = Material(credId: seq<Cell>, hmacSalt: Option<Secret>, tpmBlob: seq<Cell>)

  /** One installed credential with the random draws of its installation. */
  datatype Grant = Grant(cred: Credential, mat: Material, mvk: Secret, innerNonce: seq<Cell>, pad: seq<Cell>, nonce: seq<Cell>)

  function WrappedMvk(v: Vault, g: Grant, idx: nat): seq<Cell> {
    Seal(v.suite, FactorsKek(g.cred, v.salt, EnvelopeKek(g.cred, v.salt)), g.innerNonce, InnerAad(v.salt, idx), g.mvk)
  }

  function PayloadOf(v: Vault, g: Grant, idx: nat): Payload {
    Payload(KindOf(g.cred), g.mat.credId, g.mat.hmacSalt, g.mat.tpmBlob, g.innerNonce, WrappedMvk(v, g, idx))
  }

  predicate ValidGrant(v: Vault, g: Grant, idx: nat) {
    && idx < T.SLOT_COUNT && |g.innerNonce| == NONCE_LEN && |g.nonce| == NONCE_LEN
    && Accepted(PayloadOf(v, g, idx))
    && |g.pad| == PAYLOAD_LEN - |Body(PayloadOf(v, g, idx))|
  }

  /** The slot `install_slot_v2` writes: envelope nonce and sealed payload, which
      fill it exactly. */
  function Envelope(v: Vault, g: Grant, idx: nat): (s: seq<Cell>)
    requires ValidGrant(v, g, idx)
    ensures |s| == SLOT_SIZE
  {
    g.nonce + Seal(v.suite, EnvelopeKek(g.cred, v.salt), g.nonce, T.SlotAad(v.salt, idx), Layout(PayloadOf(v, g, idx), g.pad))
  }

  /** An installed slot byte by byte: the outer nonce, then one box under the
      passphrase key that holds the payload, whose last field is the master key
      boxed under the factors key. */
  lemma EnvelopeBytes(v: Vault, g: Grant, idx: nat)
    requires ValidGrant(v, g, idx)
    ensures var env := KeyBytes(Argon2id(g.cred.passphrase, v.salt, g.cred.argon2));
      var boxed := Seal(v.suite, FactorsKek(g.cred, v.salt, env), g.innerNonce, InnerAad(v.salt, idx), g.mvk);
      var p := Payload(KindOf(g.cred), g.mat.credId, g.mat.hmacSalt, g.mat.tpmBlob, g.innerNonce, boxed);
      && Accepted(p) && |g.pad| == PAYLOAD_LEN - |Body(p)|
      && Envelope(v, g, idx)[..12] == g.nonce
      && Envelope(v, g, idx)[12..] == Seal(v.suite, env, g.nonce, T.SlotAad(v.salt, idx), Layout(p, g.pad))
  {}

  // ----- unlocking ----------------------------------------------------------

  /** The envelope plaintext of slot `i` under key `env`. */
  function OpenEnvelope(v: Vault, slots: seq<seq<Cell>>, env: Secret, i: nat): (r: Option<seq<Cell>>)
    requires T.IsTable(slots) && i < T.SLOT_COUNT
    ensures r.Some? ==> |r.value| == PAYLOAD_LEN
  {
    match Open(v.suite, env, slots[i][..NONCE_LEN], T.SlotAad(v.salt, i), slots[i][NONCE_LEN..])
    case None => None
    case Some(pt) => if |pt| == PAYLOAD_LEN then Some(pt) else None
  }

  predicate HasKind(pt: Option<seq<Cell>>, want: Kind) {
    pt.Some? && |pt.value| > 0 && pt.value[0] == Lit(Tag(want))
  }

  /** The first slot from `i` on whose envelope opens, and has the wanted kind if
      `strict`. */
  function FirstFrom(v: Vault, slots: seq<seq<Cell>>, env: Secret, want: Kind, strict: bool, i: nat): (r: Option<nat>)
    requires T.IsTable(slots) && i <= T.SLOT_COUNT
    ensures r.Some? ==> i <= r.value < T.SLOT_COUNT && OpenEnvelope(v, slots, env, r.value).Some?
    ensures r.Some? && strict ==> HasKind(OpenEnvelope(v, slots, env, r.value), want)
    ensures forall j :: i <= j < T.SLOT_COUNT && (r.Some? ==> j < r.value) ==>
      if strict then !HasKind(OpenEnvelope(v, slots, env, j), want) else OpenEnvelope(v, slots, env, j).None?
    decreases T.SLOT_COUNT - i
  {
    if i == T.SLOT_COUNT then None
    else
      var pt := OpenEnvelope(v, slots, env, i);
      if (if strict then HasKind(pt, want) else pt.Some?) then Some(i)
      else FirstFrom(v, slots, env, want, strict, i + 1)
  }

  /** The slot an unlock settles on: the first of the wanted kind, else the first
      that opens at all. */
  function Discover(v: Vault, slots: seq<seq<Cell>>, env: Secret, want: Kind): (r: Option<nat>)
    requires T.IsTable(slots)
    ensures r.Some? ==> r.value < T.SLOT_COUNT && OpenEnvelope(v, slots, env, r.value).Some?
  {
    match FirstFrom(v, slots, env, want, true, 0)
    case Some(i) => Some(i)
    case None => FirstFrom(v, slots, env, want, false, 0)
  }

  /** What the first phase of an unlock finds. */
  datatype Opened = Opened(idx: nat, payload: Payload)

  function TryOpen(v: Vault, slots: seq<seq<Cell>>, env: Secret, want: Kind): Result<Opened>
    requires T.IsTable(slots)
  {
    match Discover(v, slots, env, want)
    case None => Err
    case Some(i) =>
      match Parse(OpenEnvelope(v, slots, env, i).value)
      case Err => Err
      case Ok(p) => Ok(Opened(i, p))
  }

  /** The loop of `try_open_envelope_v2` that tries every slot. */
  method TryEverySlot(v: Vault, slots: seq<seq<Cell>>, env: Secret) returns (all: seq<Option<seq<Cell>>>)
    requires T.IsTable(slots)
    ensures |all| == T.SLOT_COUNT && forall k :: 0 <= k < T.SLOT_COUNT ==> all[k] == OpenEnvelope(v, slots, env, k)
  {
    all := [];
    for i := 0 to T.SLOT_COUNT
      invariant |all| == i && forall k :: 0 <= k < i ==> all[k] == OpenEnvelope(v, slots, env, k)
    {
      all := all + [OpenEnvelope(v, slots, env, i)];
    }
  }

  /** One of its two reverse sweeps: the lowest hit overwrites the others. */
  method Sweep(v: Vault, slots: seq<seq<Cell>>, env: Secret, want: Kind, strict: bool, all: seq<Option<seq<Cell>>>)
    returns (matched: nat, found: bool)
    requires T.IsTable(slots)
    requires |all| == T.SLOT_COUNT && forall k :: 0 <= k < T.SLOT_COUNT ==> all[k] == OpenEnvelope(v, slots, env, k)
    ensures FirstFrom(v, slots, env, want, strict, 0) == if found then Some(matched) else None
  {
    matched, found := 0, false;
    for i := T.SLOT_COUNT downto 0
      invariant FirstFrom(v, slots, env, want, strict, i) == if found then Some(matched) else None
    {
      var pick := if strict then HasKind(all[i], want) else all[i].Some?;
      matched := if pick then i else matched;
      found := found || pick;
    }
  }

  /** `try_open_envelope_v2`: every slot is tried, then two reverse sweeps pick
      the winner, and only its payload is decoded. */
  method TryOpenEnvelope(v: Vault, slots: seq<seq<Cell>>, env: Secret, want: Kind) returns (r: Result<Opened>)
    requires T.IsTable(slots)
    ensures r == TryOpen(v, slots, env, want)
  {
    var all := TryEverySlot(v, slots, env);
    var matched, foundKind := Sweep(v, slots, env, want, true, all);
    var matchedAny, foundAny := Sweep(v, slots, env, want, false, all);
    matched := if foundKind then matched else matchedAny;
    if !foundAny {
      assert Discover(v, slots, env, want) == None;
      return Err;
    }
    assert Discover(v, slots, env, want) == Some(matched);
    var payload := Decode(all[matched].value);
    r := match payload case Ok(p) => Ok(Opened(matched, p)) case Err => Err;
  }

  /** `complete_open_v2`, up to the master key. */
  function Complete(v: Vault, o: Opened, c: Credential, env: Secret): (r: Result<(nat, seq<Cell>)>) {
    if KindOf(c) != o.payload.kind then Err
    else
      match Open(v.suite, FactorsKek(c, v.salt, env), o.payload.nonce, InnerAad(v.salt, o.idx), o.payload.wrapped)
      case None => Err
      case Some(mvk) => if |mvk| == KEY_LEN then Ok((o.idx, mvk)) else Err
  }

  /** Both phases, asking for the credential's own kind as the front ends do. */
  function Unlock(v: Vault, slots: seq<seq<Cell>>, c: Credential): Result<(nat, seq<Cell>)>
    requires T.IsTable(slots)
  {
    var env := EnvelopeKek(c, v.salt);
    match TryOpen(v, slots, env, KindOf(c))
    case Err => Err
    case Ok(o) => Complete(v, o, c, env)
  }

  // ----- histories ----------------------------------------------------------

  datatype Change = Install(idx: nat, grant: Grant) | Clear(idx: nat, noise: seq<Cell>)

  predicate ValidChange(v: Vault, ch: Change) {
    match ch
    case Install(idx, g) => ValidGrant(v, g, idx)
    case Clear(idx, noise) => idx < T.SLOT_COUNT && T.IsSlot(noise) && AllLiteral(noise)
  }

  predicate ValidHistory(v: Vault, h: seq<Change>) {
    forall ch | ch in h :: ValidChange(v, ch)
  }

  function After(v: Vault, slots: seq<seq<Cell>>, h: seq<Change>): (t: seq<seq<Cell>>)
    requires T.IsTable(slots) && ValidHistory(v, h)
    ensures T.IsTable(t)
  {
    if h == [] then slots
    else
      var ch := h[|h| - 1];
      assert ValidChange(v, ch);
      After(v, slots, h[..|h| - 1])[ch.idx := match ch case Install(i, g) => Envelope(v, g, i) case Clear(_, n) => n]
  }

  /** The credential slot `idx` was last given, unless it was cleared since. */
  function GrantAt(h: seq<Change>, idx: nat): (r: Option<Grant>)
    ensures r.Some? ==> Install(idx, r.value) in h
  {
    if h == [] then None
    else if h[|h| - 1].idx == idx then
      match h[|h| - 1]
      case Install(_, g) => Some(g)
      case Clear(_, _) => None
    else GrantAt(h[..|h| - 1], idx)
  }

  /** Two credentials an unlock cannot tell apart before the second factor. */
  predicate SameDiscovery(a: Credential, b: Credential) {
    a.passphrase == b.passphrase && a.argon2 == b.argon2 && KindOf(a) == KindOf(b)
  }

  /** Slot `k` is granted to a credential an unlock with `c` takes for its own. */
  predicate Lookalike(h: seq<Change>, c: Credential, k: nat) {
    GrantAt(h, k).Some? && SameDiscovery(GrantAt(h, k).value.cred, c)
  }

  /** The lowest such slot from `i` on. */
  function FirstGrant(h: seq<Change>, c: Credential, i: nat): (r: Option<nat>)
    requires i <= T.SLOT_COUNT
    ensures r.Some? ==> i <= r.value < T.SLOT_COUNT && Lookalike(h, c, r.value)
    ensures forall j :: i <= j < T.SLOT_COUNT && (r.Some? ==> j < r.value) ==> !Lookalike(h, c, j)
    decreases T.SLOT_COUNT - i
  {
    if i == T.SLOT_COUNT then None
    else if Lookalike(h, c, i) then Some(i)
    else FirstGrant(h, c, i + 1)
  }

  // ----- what an unlock sees of a history -----------------------------------

  /** Each envelope opens to its own payload under its own passphrase key only. */
  lemma EnvelopeOpens(v: Vault, g: Grant, idx: nat, slots: seq<seq<Cell>>, c: Credential)
    requires IsVault(v) && ValidGrant(v, g, idx) && T.IsTable(slots) && slots[idx] == Envelope(v, g, idx)
    ensures OpenEnvelope(v, slots, EnvelopeKek(c, v.salt), idx)
         == if c.passphrase == g.cred.passphrase && c.argon2 == g.cred.argon2
            then Some(Layout(PayloadOf(v, g, idx), g.pad)) else None
  {
    var slot := slots[idx];
    var plain := Layout(PayloadOf(v, g, idx), g.pad);
    var env := EnvelopeKek(g.cred, v.salt);
    var aad := T.SlotAad(v.salt, idx);
    var box := Box(v.suite, env, g.nonce, aad, plain);
    assert slot[..NONCE_LEN] == g.nonce && slot[NONCE_LEN..] == BoxBytes(box);
    OpensAsSealed(box, v.suite, EnvelopeKek(c, v.salt), g.nonce, aad);
    KeyBytesInjective(Argon2id(c.passphrase, v.salt, c.argon2), Argon2id(g.cred.passphrase, v.salt, g.cred.argon2));
  }

  lemma {:induction false} SlotAfter(v: Vault, slots: seq<seq<Cell>>, h: seq<Change>, idx: nat)
    requires T.Blank(slots) && ValidHistory(v, h) && idx < T.SLOT_COUNT
    ensures match GrantAt(h, idx)
      case Some(g) => ValidGrant(v, g, idx) && After(v, slots, h)[idx] == Envelope(v, g, idx)
      case None => AllLiteral(After(v, slots, h)[idx])
  {
    if h != [] {
      var ch := h[|h| - 1];
      assert ValidChange(v, ch);
      if ch.idx != idx {
        SlotAfter(v, slots, h[..|h| - 1], idx);
      }
    }
  }

  /** What an unlock with `c` makes of the slot granted to `g`, or of none. */
  predicate Seen(v: Vault, g: Option<Grant>, idx: nat, c: Credential, pt: Option<seq<Cell>>) {
    match g
    case None => pt == None
    case Some(g) =>
      && ValidGrant(v, g, idx)
      && pt == (if c.passphrase == g.cred.passphrase && c.argon2 == g.cred.argon2
                then Some(Layout(PayloadOf(v, g, idx), g.pad)) else None)
      && (HasKind(pt, KindOf(c)) <==> SameDiscovery(g.cred, c))
  }

  lemma KindShows(v: Vault, g: Grant, idx: nat, c: Credential)
    requires ValidGrant(v, g, idx)
    ensures HasKind(Some(Layout(PayloadOf(v, g, idx), g.pad)), KindOf(c)) <==> KindOf(g.cred) == KindOf(c)
  {
    StartsWithKind(PayloadOf(v, g, idx), g.pad, KindOf(c));
  }

  lemma SlotSeen(v: Vault, slots: seq<seq<Cell>>, h: seq<Change>, c: Credential, idx: nat)
    requires IsVault(v) && T.Blank(slots) && ValidHistory(v, h) && idx < T.SLOT_COUNT
    ensures Seen(v, GrantAt(h, idx), idx, c, OpenEnvelope(v, After(v, slots, h), EnvelopeKek(c, v.salt), idx))
  {
    var t := After(v, slots, h);
    SlotAfter(v, slots, h, idx);
    match GrantAt(h, idx)
    case None => assert t[idx][NONCE_LEN..][0] == t[idx][NONCE_LEN];
    case Some(g) =>
      EnvelopeOpens(v, g, idx, t, c);
      KindShows(v, g, idx, c);
  }

  lemma {:induction false} DiscoveryFollowsGrants(v: Vault, slots: seq<seq<Cell>>, h: seq<Change>, c: Credential, i: nat)
    requires IsVault(v) && T.Blank(slots) && ValidHistory(v, h) && i <= T.SLOT_COUNT
    ensures FirstFrom(v, After(v, slots, h), EnvelopeKek(c, v.salt), KindOf(c), true, i) == FirstGrant(h, c, i)
    decreases T.SLOT_COUNT - i
  {
    if i < T.SLOT_COUNT {
      SlotSeen(v, slots, h, c, i);
      DiscoveryFollowsGrants(v, slots, h, c, i + 1);
    }
  }

  /** The grant of each slot, if any. */
  function Grants(h: seq<Change>): (gs: seq<Option<Grant>>)
    ensures |gs| == 8 && forall i | 0 <= i < 8 :: gs[i] == GrantAt(h, i)
  {
    seq(8, i requires 0 <= i < 8 => GrantAt(h, i))
  }

  /** A grant under this passphrase and cost, and to this kind if `strict`. */
  predicate Fits(g: Option<Grant>, c: Credential, want: Kind, strict: bool) {
    g.Some? && g.value.cred.passphrase == c.passphrase && g.value.cred.argon2 == c.argon2 && (strict ==> KindOf(g.value.cred) == want)
  }

  /** A slot opens, and shows the wanted kind, as its grant says. */
  predicate Agrees(pt: Option<seq<Cell>>, g: Option<Grant>, c: Credential, want: Kind) {
    (pt.Some? <==> Fits(g, c, want, false)) && (HasKind(pt, want) <==> Fits(g, c, want, true))
  }

  predicate AllAgree(v: Vault, t: seq<seq<Cell>>, env: Secret, gs: seq<Option<Grant>>, c: Credential, want: Kind) {
    T.IsTable(t) && |gs| == 8 && forall i | 0 <= i < 8 :: Agrees(OpenEnvelope(v, t, env, i), gs[i], c, want)
  }

  lemma GrantShows(v: Vault, g: Grant, i: nat, want: Kind)
    requires ValidGrant(v, g, i)
    ensures var plain := Layout(PayloadOf(v, g, i), g.pad);
      (HasKind(Some(plain), want) <==> KindOf(g.cred) == want) && Parse(plain) == Ok(PayloadOf(v, g, i))
  {
    StartsWithKind(PayloadOf(v, g, i), g.pad, want);
    RoundTrip(PayloadOf(v, g, i), g.pad);
  }

  lemma SeenAgrees(v: Vault, g: Option<Grant>, i: nat, c: Credential, want: Kind, pt: Option<seq<Cell>>)
    requires Seen(v, g, i, c, pt)
    ensures Agrees(pt, g, c, want)
    ensures pt.Some? ==> ValidGrant(v, g.value, i) && Parse(pt.value) == Ok(PayloadOf(v, g.value, i))
  {
    if g.Some? {
      GrantShows(v, g.value, i, want);
    }
  }

  lemma HistoryAgrees(v: Vault, slots: seq<seq<Cell>>, h: seq<Change>, c: Credential, want: Kind)
    requires IsVault(v) && T.Blank(slots) && ValidHistory(v, h)
    ensures AllAgree(v, After(v, slots, h), EnvelopeKek(c, v.salt), Grants(h), c, want)
  {
    var t, env := After(v, slots, h), EnvelopeKek(c, v.salt);
    forall i | 0 <= i < 8 ensures Agrees(OpenEnvelope(v, t, env, i), Grants(h)[i], c, want) {
      SlotSeen(v, slots, h, c, i);
      SeenAgrees(v, GrantAt(h, i), i, c, want, OpenEnvelope(v, t, env, i));
    }
  }

  predicate LowestFit(gs: seq<Option<Grant>>, c: Credential, want: Kind, strict: bool, r: Option<nat>)
    requires |gs| == 8
  {
    && (r.Some? ==> r.value < 8 && Fits(gs[r.value], c, want, strict))
    && forall j | 0 <= j < 8 && (r.Some? ==> j < r.value) :: !Fits(gs[j], c, want, strict)
  }

  /** The slot shows what is asked for: the wanted kind, or just that it opens. */
  predicate Picks(pt: Option<seq<Cell>>, want: Kind, strict: bool) { if strict then HasKind(pt, want) else pt.Some? }

  lemma LowestPicked(v: Vault, t: seq<seq<Cell>>, env: Secret, gs: seq<Option<Grant>>, c: Credential, want: Kind, strict: bool, r: Option<nat>)
    requires AllAgree(v, t, env, gs, c, want)
    requires r.Some? ==> r.value < 8 && Picks(OpenEnvelope(v, t, env, r.value), want, strict)
    requires forall j | 0 <= j < 8 && (r.Some? ==> j < r.value) :: !Picks(OpenEnvelope(v, t, env, j), want, strict)
    ensures LowestFit(gs, c, want, strict, r)
  {
    forall j | 0 <= j < 8 ensures Picks(OpenEnvelope(v, t, env, j), want, strict) <==> Fits(gs[j], c, want, strict) {
      assert Agrees(OpenEnvelope(v, t, env, j), gs[j], c, want);
    }
  }

  lemma FirstIsLowest(v: Vault, t: seq<seq<Cell>>, env: Secret, gs: seq<Option<Grant>>, c: Credential, want: Kind, strict: bool, i: nat)
    requires AllAgree(v, t, env, gs, c, want) && i == 0
    ensures LowestFit(gs, c, want, strict, FirstFrom(v, t, env, want, strict, i))
  {
    LowestPicked(v, t, env, gs, c, want, strict, FirstFrom(v, t, env, want, strict, i));
  }

  lemma DiscoverFits(v: Vault, t: seq<seq<Cell>>, env: Secret, gs: seq<Option<Grant>>, c: Credential, want: Kind)
    requires AllAgree(v, t, env, gs, c, want)
    ensures LowestFit(gs, c, want, exists j :: 0 <= j < 8 && Fits(gs[j], c, want, true), Discover(v, t, env, want))
  {
    FirstIsLowest(v, t, env, gs, c, want, true, 0);
    FirstIsLowest(v, t, env, gs, c, want, false, 0);
  }

  /** The slot the first phase settles on, on every history and for any wanted kind:
      the lowest granted under this passphrase and cost to that kind; if there is
      none, the lowest to any kind; and none if there is no such grant. */
  lemma DiscoverExactly(v: Vault, slots: seq<seq<Cell>>, h: seq<Change>, c: Credential, want: Kind)
    requires IsVault(v) && T.Blank(slots) && ValidHistory(v, h)
    ensures LowestFit(Grants(h), c, want, exists j :: 0 <= j < 8 && Fits(Grants(h)[j], c, want, true),
                      Discover(v, After(v, slots, h), EnvelopeKek(c, v.salt), want))
  {
    HistoryAgrees(v, slots, h, c, want);
    DiscoverFits(v, After(v, slots, h), EnvelopeKek(c, v.salt), Grants(h), c, want);
  }

  /** And what it returns: that slot with the payload it was granted, or nothing. */
  lemma TryOpenExactly(v: Vault, slots: seq<seq<Cell>>, h: seq<Change>, c: Credential, want: Kind)
    requires IsVault(v) && T.Blank(slots) && ValidHistory(v, h)
    ensures var t, env := After(v, slots, h), EnvelopeKek(c, v.salt);
      match Discover(v, t, env, want)
      case None => TryOpen(v, t, env, want) == Err
      case Some(i) =>
        && GrantAt(h, i).Some? && ValidGrant(v, GrantAt(h, i).value, i)
        && TryOpen(v, t, env, want) == Ok(Opened(i, PayloadOf(v, GrantAt(h, i).value, i)))
  {
    var t, env := After(v, slots, h), EnvelopeKek(c, v.salt);
    var found := Discover(v, t, env, want);
    if found.Some? {
      SlotSeen(v, slots, h, c, found.value);
      SeenAgrees(v, GrantAt(h, found.value), found.value, c, want, OpenEnvelope(v, t, env, found.value));
    }
  }

  /** The second phase on a granted slot asks for exactly the granted secrets. */
  lemma CompletesWithSameSecrets(v: Vault, g: Grant, idx: nat, c: Credential)
    requires ValidGrant(v, g, idx) && SameDiscovery(g.cred, c)
    ensures Complete(v, Opened(idx, PayloadOf(v, g, idx)), c, EnvelopeKek(c, v.salt))
         == if Secondaries(c) == Secondaries(g.cred) then Ok((idx, g.mvk)) else Err
  {
    var env := EnvelopeKek(c, v.salt);
    FactorsKekInjective(g.cred, env, c, env, v.salt);
    var box := Box(v.suite, FactorsKek(g.cred, v.salt, env), g.innerNonce, InnerAad(v.salt, idx), g.mvk);
    OpensAsSealed(box, v.suite, FactorsKek(c, v.salt, env), g.innerNonce, InnerAad(v.salt, idx));
  }

  /** Its 63 bytes: 30 of prefix, 32 of salt, one of index. */
  lemma InnerAadBytes(salt: seq<Cell>, idx: nat)
    requires |salt| == T.SALT_SIZE && idx < T.SLOT_COUNT
    ensures var a := InnerAad(salt, idx);
      |a| == 63 && a[..30] == Ascii("luksbox-deniable-v2/inner-slot") && a[30..62] == salt && a[62] == Lit(idx)
  {}

  lemma InnerAadInjective(s1: seq<Cell>, i1: nat, s2: seq<Cell>, i2: nat)
    requires |s1| == |s2| == T.SALT_SIZE && i1 < T.SLOT_COUNT && i2 < T.SLOT_COUNT
    ensures InnerAad(s1, i1) == InnerAad(s2, i2) <==> s1 == s2 && i1 == i2
  {
    var a, b, n := InnerAad(s1, i1), InnerAad(s2, i2), |INNER_AAD_PREFIX|;
    assert a[n..n + T.SALT_SIZE] == s1 && b[n..n + T.SALT_SIZE] == s2;
    assert a[n + T.SALT_SIZE] == Lit(i1) && b[n + T.SALT_SIZE] == Lit(i2);
  }

  /** The inner box is bound to its place on its own: even someone who could put
      its payload into another slot, or another vault, opens it there with no
      credential, not its own either. */
  lemma CompletesOnlyInPlace(v: Vault, g: Grant, idx: nat, v': Vault, idx': nat, c: Credential)
    requires IsVault(v) && IsVault(v') && ValidGrant(v, g, idx) && idx' < T.SLOT_COUNT
    ensures Complete(v', Opened(idx', PayloadOf(v, g, idx)), c, EnvelopeKek(c, v'.salt)).Ok?
       <==> v' == v && idx' == idx && c == g.cred
  {
    var env, env' := EnvelopeKek(g.cred, v.salt), EnvelopeKek(c, v'.salt);
    var box := Box(v.suite, FactorsKek(g.cred, v.salt, env), g.innerNonce, InnerAad(v.salt, idx), g.mvk);
    OpensAsSealed(box, v'.suite, FactorsKek(c, v'.salt, env'), g.innerNonce, InnerAad(v'.salt, idx'));
    InnerAadInjective(v.salt, idx, v'.salt, idx');
    if v.salt == v'.salt {
      FactorsKekInjective(g.cred, env, c, env', v.salt);
      KeyBytesInjective(Argon2id(c.passphrase, v.salt, c.argon2), Argon2id(g.cred.passphrase, v.salt, g.cred.argon2));
      if KindOf(c) == KindOf(g.cred) && Secondaries(c) == Secondaries(g.cred) && env == env' {
        SameFactors(g.cred, c);
      }
    }
  }

  /** What an unlock does, on every history: it goes by the lowest slot granted
      to a credential with this passphrase, cost and kind, and succeeds exactly
      when that one has these secondary secrets too. */
  lemma UnlockExactly(v: Vault, slots: seq<seq<Cell>>, h: seq<Change>, c: Credential)
    requires IsVault(v) && T.Blank(slots) && ValidHistory(v, h)
    ensures Unlock(v, After(v, slots, h), c) == match FirstGrant(h, c, 0)
      case None => Err
      case Some(i) => if GrantAt(h, i).value.cred == c then Ok((i, GrantAt(h, i).value.mvk)) else Err
  {
    var t, env := After(v, slots, h), EnvelopeKek(c, v.salt);
    DiscoveryFollowsGrants(v, slots, h, c, 0);
    match FirstGrant(h, c, 0)
    case Some(i) =>
      var g := GrantAt(h, i).value;
      SlotSeen(v, slots, h, c, i);
      RoundTrip(PayloadOf(v, g, i), g.pad);
      assert TryOpen(v, t, env, KindOf(c)) == Ok(Opened(i, PayloadOf(v, g, i)));
      CompletesWithSameSecrets(v, g, i, c);
      if Secondaries(c) == Secondaries(g.cred) {
        SameFactors(g.cred, c);
      }
    case None => UndiscoveredFails(v, slots, h, c);
  }

  lemma OtherKindFails(v: Vault, o: Opened, c: Credential, env: Secret)
    requires o.payload.kind != KindOf(c)
    ensures Complete(v, o, c, env) == Err
  {
  }

  /** An envelope picked for want of the right kind has another kind, and the
      second phase refuses it. */
  lemma UndiscoveredFails(v: Vault, slots: seq<seq<Cell>>, h: seq<Change>, c: Credential)
    requires IsVault(v) && T.Blank(slots) && ValidHistory(v, h) && FirstGrant(h, c, 0) == None
    ensures Unlock(v, After(v, slots, h), c) == Err
  {
    var t, env := After(v, slots, h), EnvelopeKek(c, v.salt);
    DiscoveryFollowsGrants(v, slots, h, c, 0);
    var found := Discover(v, t, env, KindOf(c));
    if found.Some? {
      var i := found.value;
      SlotSeen(v, slots, h, c, i);
      var g := GrantAt(h, i).value;
      RoundTrip(PayloadOf(v, g, i), g.pad);
      assert TryOpen(v, t, env, KindOf(c)) == Ok(Opened(i, PayloadOf(v, g, i)));
      assert !Lookalike(h, c, i);
      OtherKindFails(v, Opened(i, PayloadOf(v, g, i)), c, env);
    }
  }

  /** Nobody gets in who was not granted a slot: an unlock that succeeds was made
      with exactly the credential its slot holds. */
  lemma OnlyGrantedUnlocks(v: Vault, slots: seq<seq<Cell>>, h: seq<Change>, c: Credential)
    requires IsVault(v) && T.Blank(slots) && ValidHistory(v, h)
    requires Unlock(v, After(v, slots, h), c).Ok?
    ensures var (i, mvk) := Unlock(v, After(v, slots, h), c).value;
      i < T.SLOT_COUNT && GrantAt(h, i).Some? && GrantAt(h, i).value.cred == c && GrantAt(h, i).value.mvk == mvk
  {
    UnlockExactly(v, slots, h, c);
  }

  /** The converse fails, exactly when the lowest slot granted under this
      passphrase, cost and kind holds other secrets: that slot shadows the one the
      credential was granted. */
  lemma GrantedUnlocksUnlessShadowed(v: Vault, slots: seq<seq<Cell>>, h: seq<Change>, idx: nat)
    requires IsVault(v) && T.Blank(slots) && ValidHistory(v, h) && idx < T.SLOT_COUNT && GrantAt(h, idx).Some?
    ensures var c := GrantAt(h, idx).value.cred;
      Unlock(v, After(v, slots, h), c).Ok? <==>
        exists j :: 0 <= j <= idx && Lookalike(h, c, j) && GrantAt(h, j).value.cred == c
                    && forall k :: 0 <= k < j ==> !Lookalike(h, c, k)
  {
    var c := GrantAt(h, idx).value.cred;
    UnlockExactly(v, slots, h, c);
    var first := FirstGrant(h, c, 0);
    assert Lookalike(h, c, idx);
    assert first.Some? && first.value <= idx;
    if j :| 0 <= j <= idx && Lookalike(h, c, j) && GrantAt(h, j).value.cred == c
            && forall k :: 0 <= k < j ==> !Lookalike(h, c, k) {
      assert first.value == j;
    }
  }

  /** The shadowing happens: two authenticators enrolled under one passphrase, and
      the second never unlocks although its slot is intact. Clearing the first
      slot brings it back. */
  lemma SecondKeyShadowed(v: Vault, slots: seq<seq<Cell>>, g0: Grant, g1: Grant)
    requires IsVault(v) && T.Blank(slots) && ValidGrant(v, g0, 0) && ValidGrant(v, g1, 1)
    requires SameDiscovery(g0.cred, g1.cred) && g0.cred != g1.cred
    ensures ValidHistory(v, [Install(0, g0), Install(1, g1)])
    ensures Unlock(v, After(v, slots, [Install(0, g0), Install(1, g1)]), g1.cred) == Err
    ensures Unlock(v, After(v, slots, [Install(0, g0), Clear(0, slots[0]), Install(1, g1)]), g1.cred) == Ok((1, g1.mvk))
  {
    var h := [Install(0, g0), Install(1, g1)];
    assert h[..1] == [Install(0, g0)];
    assert GrantAt(h, 0) == GrantAt(h[..1], 0) == Some(g0) && GrantAt(h, 1) == Some(g1);
    UnlockExactly(v, slots, h, g1.cred);
    assert FirstGrant(h, g1.cred, 0) == Some(0);
    var h' := [Install(0, g0), Clear(0, slots[0]), Install(1, g1)];
    assert h'[..2] == [Install(0, g0), Clear(0, slots[0])];
    assert GrantAt(h', 0) == GrantAt(h'[..2], 0) == None && GrantAt(h', 1) == Some(g1);
    UnlockExactly(v, slots, h', g1.cred);
    assert FirstGrant(h', g1.cred, 0) == FirstGrant(h', g1.cred, 1) == Some(1);
  }

  // ----- the header as bytes ------------------------------------------------

  const HEADER_SIZE: nat := 36864

  /** Where slot `i` lies in a header: behind the salt, in order. */
  function SlotAt(i: nat): nat { T.SALT_SIZE + i * SLOT_SIZE }

  /** Header `header` holds this vault's salt and these slots. */
  ghost predicate Written(header: seq<Cell>, v: Vault, slots: seq<seq<Cell>>) {
    && |header| == HEADER_SIZE && header[..32] == v.salt && |slots| == 8
    && forall i | 0 <= i < 8 :: header[32 + 4096 * i..32 + 4096 * (i + 1)] == slots[i]
  }

  /** The end of `create_with_credential_v2`: salt, slots in order, inner region. */
  method WriteHeader(v: Vault, slots: seq<seq<Cell>>, inner: seq<Cell>) returns (header: array<Cell>)
    requires IsVault(v) && T.IsTable(slots) && |inner| == HEADER_SIZE - SlotAt(T.SLOT_COUNT)
    ensures header.Length == HEADER_SIZE && Written(header[..], v, slots) && header[HEADER_SIZE - 4064..] == inner
  {
    header := new Cell[HEADER_SIZE](_ => Lit(0));
    CopyIn(header, 0, v.salt);
    for i := 0 to T.SLOT_COUNT
      invariant WrittenTo(header[..], v, slots, i)
    {
      SlotAdded(header[..], v, slots, i);
      T.Lay(header, SlotAt(i), slots[i]);
    }
    InnerAdded(header[..], v, slots, inner);
    T.Lay(header, SlotAt(T.SLOT_COUNT), inner);
  }

  /** The first `n` slots are in place. */
  ghost predicate WrittenTo(header: seq<Cell>, v: Vault, slots: seq<seq<Cell>>, n: nat)
    requires n <= |slots| == 8
  {
    && |header| == HEADER_SIZE && header[..32] == v.salt
    && forall k | 0 <= k < n :: header[SlotAt(k)..SlotAt(k) + SLOT_SIZE] == slots[k]
  }

  lemma SlotAdded(was: seq<Cell>, v: Vault, slots: seq<seq<Cell>>, n: nat)
    requires T.IsTable(slots) && n < 8 && WrittenTo(was, v, slots, n)
    ensures SlotAt(n) + SLOT_SIZE <= HEADER_SIZE && WrittenTo(T.Overlay(was, SlotAt(n), slots[n]), v, slots, n + 1)
  {
    var header := T.Overlay(was, SlotAt(n), slots[n]);
    T.LaidApart(was, SlotAt(n), slots[n], 0, 32);
    T.LaidThere(was, SlotAt(n), slots[n]);
    forall k | 0 <= k < n ensures header[SlotAt(k)..SlotAt(k) + SLOT_SIZE] == slots[k] {
      T.LaidApart(was, SlotAt(n), slots[n], SlotAt(k), SlotAt(k) + SLOT_SIZE);
    }
  }

  lemma InnerAdded(was: seq<Cell>, v: Vault, slots: seq<seq<Cell>>, inner: seq<Cell>)
    requires T.IsTable(slots) && WrittenTo(was, v, slots, 8) && |inner| == HEADER_SIZE - SlotAt(8)
    ensures var header := T.Overlay(was, SlotAt(8), inner);
      Written(header, v, slots) && header[HEADER_SIZE - 4064..] == inner
  {
    var header := T.Overlay(was, SlotAt(8), inner);
    T.LaidApart(was, SlotAt(8), inner, 0, 32);
    T.LaidThere(was, SlotAt(8), inner);
    forall k | 0 <= k < 8 ensures header[32 + 4096 * k..32 + 4096 * (k + 1)] == slots[k] {
      T.LaidApart(was, SlotAt(8), inner, SlotAt(k), SlotAt(k) + SLOT_SIZE);
    }
  }

  /** The end of `install_slot_v2`: random fill, nonce and box in one slot's place. */
  method InstallSlot(header: array<Cell>, v: Vault, g: Grant, idx: nat, noise: seq<Cell>, ghost slots: seq<seq<Cell>>)
    requires ValidGrant(v, g, idx) && T.IsSlot(noise) && header.Length == HEADER_SIZE && Written(header[..], v, slots)
    modifies header
    ensures Written(header[..], v, slots[idx := Envelope(v, g, idx)])
  {
    var ct := Seal(v.suite, EnvelopeKek(g.cred, v.salt), g.nonce, T.SlotAad(v.salt, idx), Layout(PayloadOf(v, g, idx), g.pad));
    ghost var was := header[..];
    T.Lay(header, SlotAt(idx), noise);
    T.Lay(header, SlotAt(idx), g.nonce + ct);
    T.LaidTwice(was, SlotAt(idx), noise, g.nonce + ct);
    SlotReplaced(was, v, slots, idx, g.nonce + ct);
  }

  lemma SlotReplaced(was: seq<Cell>, v: Vault, slots: seq<seq<Cell>>, idx: nat, slot: seq<Cell>)
    requires Written(was, v, slots) && idx < 8 && |slot| == SLOT_SIZE
    ensures SlotAt(idx) + SLOT_SIZE <= HEADER_SIZE && Written(T.Overlay(was, SlotAt(idx), slot), v, slots[idx := slot])
  {
    T.LaidApart(was, SlotAt(idx), slot, 0, 32);
    T.LaidThere(was, SlotAt(idx), slot);
    var header := T.Overlay(was, SlotAt(idx), slot);
    forall k | 0 <= k < 8 ensures header[32 + 4096 * k..32 + 4096 * (k + 1)] == slots[idx := slot][k] {
      if k != idx {
        T.LaidApart(was, SlotAt(idx), slot, SlotAt(k), SlotAt(k) + SLOT_SIZE);
      }
    }
  }

  /** The slot table a reader takes from a header. */
  function SlotsOf(header: seq<Cell>): (slots: seq<seq<Cell>>)
    requires |header| >= HEADER_SIZE
    ensures T.IsTable(slots)
  {
    seq(T.SLOT_COUNT, i requires 0 <= i < T.SLOT_COUNT => header[SlotAt(i)..SlotAt(i) + SLOT_SIZE])
  }

  /** What is written is read back. */
  lemma HeaderReadsBack(header: seq<Cell>, v: Vault, slots: seq<seq<Cell>>)
    requires Written(header, v, slots)
    ensures header[..T.SALT_SIZE] == v.salt && SlotsOf(header) == slots
  {
    forall i | 0 <= i < 8 ensures SlotsOf(header)[i] == slots[i] {}
  }

  function WantedKind(c: Credential, want: Option<Kind>): Kind { if want.Some? then want.value else KindOf(c) }

  /** `try_open_envelope_v2` on the bytes of a file: too few are no header; no
      wanted kind means the credential's own. */
  method TryOpenHeader(header: seq<Cell>, c: Credential, suite: Suite, want: Option<Kind>) returns (r: Result<Opened>)
    ensures |header| < HEADER_SIZE ==> r == Err
    ensures |header| >= HEADER_SIZE ==>
      var salt := header[..T.SALT_SIZE];
      r == TryOpen(Vault(salt, suite), SlotsOf(header), EnvelopeKek(c, salt), if want.Some? then want.value else KindOf(c))
  {
    if |header| < HEADER_SIZE {
      return Err;
    }
    var salt := header[..T.SALT_SIZE];
    r := TryOpenEnvelope(Vault(salt, suite), SlotsOf(header), EnvelopeKek(c, salt), WantedKind(c, want));
  }

  /** Both phases on a file. On the header of a vault with any history of installs
      and clears, they come to the lowest slot granted under this passphrase, cost
      and kind, and to its master key exactly if that grant is this credential's. */
  method UnlockHeader(header: seq<Cell>, c: Credential, v: Vault, ghost slots: seq<seq<Cell>>, ghost h: seq<Change>)
    returns (r: Result<(nat, seq<Cell>)>)
    requires IsVault(v) && T.Blank(slots) && ValidHistory(v, h) && Written(header, v, After(v, slots, h))
    ensures match FirstGrant(h, c, 0)
      case None => r == Err
      case Some(i) => r == if GrantAt(h, i).value.cred == c then Ok((i, GrantAt(h, i).value.mvk)) else Err
  {
    HeaderReadsBack(header, v, After(v, slots, h));
    UnlockExactly(v, slots, h, c);
    var first := TryOpenHeader(header, c, v.suite, None);
    match first
    case Err => r := Err;
    case Ok(o) => r := Complete(v, o, c, EnvelopeKek(c, header[..T.SALT_SIZE]));
  }
}
