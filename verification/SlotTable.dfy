/** The deniable slot table: wrapping a master key into a slot, and the trial
    decryption that tries every slot and does the same work whichever matches. */
module SlotTable {
  import opened Common
  import opened Symbolic
  import P = SlotPayload

  const SLOT_COUNT: nat := 8
  const SALT_SIZE: nat := 32
  const BOX_LEN: nat := KEY_LEN + TAG_LEN
  const AAD_PREFIX: string := "luksbox-deniable-v2"

  /** What binds a sealed key to its vault and its place. */
  function SlotAad(salt: seq<Cell>, idx: nat): seq<Cell>
    requires idx < SLOT_COUNT
  {
    Ascii(AAD_PREFIX) + salt + [Lit(idx)]
  }

  /** Its 52 bytes: 19 of prefix, 32 of salt, one of index. */
  lemma SlotAadBytes(salt: seq<Cell>, idx: nat)
    requires |salt| == SALT_SIZE && idx < SLOT_COUNT
    ensures var a := SlotAad(salt, idx);
      |a| == 52 && a[..19] == Ascii("luksbox-deniable-v2") && a[19..51] == salt && a[51] == Lit(idx)
  {}

  lemma SlotAadInjective(s1: seq<Cell>, i1: nat, s2: seq<Cell>, i2: nat)
    requires |s1| == |s2| == SALT_SIZE && i1 < SLOT_COUNT && i2 < SLOT_COUNT
    ensures SlotAad(s1, i1) == SlotAad(s2, i2) <==> s1 == s2 && i1 == i2
  {
    var a, b := SlotAad(s1, i1), SlotAad(s2, i2);
    var n := |AAD_PREFIX|;
    assert a[n..n + SALT_SIZE] == s1 && b[n..n + SALT_SIZE] == s2;
    assert a[n + SALT_SIZE] == Lit(i1) && b[n + SALT_SIZE] == Lit(i2);
  }

  /** Everything one wrap depends on. */
  datatype Context = Context(kek: seq<Cell>, suite: Suite, salt: seq<Cell>)

  predicate Sized(c: Context) {
    |c.kek| == KEY_LEN && |c.salt| == SALT_SIZE
  }

  predicate IsSlot(s: seq<Cell>) {
    |s| == P.SLOT_SIZE
  }

  /** A slot as `wrap_slot` leaves it. */
  function Wrapped(c: Context, mvk: seq<Cell>, idx: nat, pad: seq<Cell>, nonce: seq<Cell>): seq<Cell>
    requires idx < SLOT_COUNT && |mvk| == KEY_LEN && IsSlot(pad) && |nonce| == NONCE_LEN
  {
    nonce + Seal(c.suite, c.kek, nonce, SlotAad(c.salt, idx), mvk) + pad[NONCE_LEN + BOX_LEN..]
  }

  /** `try_unwrap_slot`. */
  function Unwrap(slot: seq<Cell>, c: Context, idx: nat): (r: Option<seq<Cell>>)
    requires IsSlot(slot) && idx < SLOT_COUNT
    ensures r.Some? ==> |r.value| == KEY_LEN
  {
    match Open(c.suite, c.kek, slot[..NONCE_LEN], SlotAad(c.salt, idx), slot[NONCE_LEN..NONCE_LEN + BOX_LEN])
    case None => None
    case Some(pt) => if |pt| == KEY_LEN then Some(pt) else None
  }

  /** A wrapped slot opens under its own key, suite, salt and place, to its own
      master key, and under nothing else. */
  lemma UnwrapsOnlyInPlace(c: Context, mvk: seq<Cell>, idx: nat, pad: seq<Cell>, nonce: seq<Cell>, d: Context, j: nat)
    requires Sized(c) && Sized(d) && idx < SLOT_COUNT && j < SLOT_COUNT
    requires |mvk| == KEY_LEN && IsSlot(pad) && |nonce| == NONCE_LEN
    ensures Unwrap(Wrapped(c, mvk, idx, pad, nonce), d, j) == if c == d && idx == j then Some(mvk) else None
  {
    var slot := Wrapped(c, mvk, idx, pad, nonce);
    var aad := SlotAad(c.salt, idx);
    var box := Box(c.suite, c.kek, nonce, aad, mvk);
    assert slot[..NONCE_LEN] == nonce;
    assert slot[NONCE_LEN..NONCE_LEN + BOX_LEN] == BoxBytes(box);
    OpensAsSealed(box, d.suite, d.kek, nonce, SlotAad(d.salt, j));
    SlotAadInjective(c.salt, idx, d.salt, j);
  }

  lemma RandomNeverOpens(slot: seq<Cell>, d: Context, j: nat)
    requires IsSlot(slot) && AllLiteral(slot) && j < SLOT_COUNT
    ensures Unwrap(slot, d, j) == None
  {
    assert slot[NONCE_LEN..NONCE_LEN + BOX_LEN][0] == slot[NONCE_LEN];
  }

  function Overlay(buf: seq<Cell>, off: nat, src: seq<Cell>): (r: seq<Cell>)
    requires off + |src| <= |buf|
    ensures |r| == |buf|
  {
    buf[..off] + src + buf[off + |src|..]
  }

  /** `copy_from_slice` into part of a buffer. */
  method Lay(buf: array<Cell>, off: nat, src: seq<Cell>)
    requires off + |src| <= buf.Length
    modifies buf
    ensures buf[..] == Overlay(old(buf[..]), off, src)
  {
    ghost var was := buf[..];
    P.CopyIn(buf, off, src);
    assert buf[..off + |src|] == was[..off] + src;
    assert buf[off + |src|..] == was[off + |src|..];
    assert buf[..] == buf[..off + |src|] + buf[off + |src|..];
  }

  lemma LaidThere(buf: seq<Cell>, off: nat, src: seq<Cell>)
    requires off + |src| <= |buf|
    ensures Overlay(buf, off, src)[off..off + |src|] == src
  {}

  /** What is laid in one place leaves the others alone. */
  lemma LaidApart(buf: seq<Cell>, off: nat, src: seq<Cell>, lo: nat, hi: nat)
    requires off + |src| <= |buf| && lo <= hi <= |buf| && (hi <= off || off + |src| <= lo)
    ensures Overlay(buf, off, src)[lo..hi] == buf[lo..hi]
  {}

  lemma LaidTwice(buf: seq<Cell>, off: nat, a: seq<Cell>, b: seq<Cell>)
    requires off + |a| <= |buf| && |a| == |b|
    ensures Overlay(Overlay(buf, off, a), off, b) == Overlay(buf, off, b)
  {}

  lemma WrappedIsLaid(was: seq<Cell>, c: Context, mvk: seq<Cell>, idx: nat, pad: seq<Cell>, nonce: seq<Cell>, ct: seq<Cell>)
    requires IsSlot(was) && idx < SLOT_COUNT && |mvk| == KEY_LEN && IsSlot(pad) && |nonce| == NONCE_LEN
    requires ct == Seal(c.suite, c.kek, nonce, SlotAad(c.salt, idx), mvk)
    ensures Overlay(was, 0, pad) == pad
    ensures Overlay(Overlay(pad, 0, nonce), NONCE_LEN, ct) == Wrapped(c, mvk, idx, pad, nonce)
  {
    LaidOver(pad, nonce, ct);
  }

  lemma LaidOver(pad: seq<Cell>, a: seq<Cell>, b: seq<Cell>)
    requires |a| + |b| <= |pad|
    ensures Overlay(Overlay(pad, 0, a), |a|, b) == a + b + pad[|a| + |b|..]
  {
    var one := Overlay(pad, 0, a);
    assert one[..|a|] == a && one[|a| + |b|..] == pad[|a| + |b|..];
  }

  lemma WrappedParts(c: Context, mvk: seq<Cell>, idx: nat, pad: seq<Cell>, nonce: seq<Cell>)
    requires idx < SLOT_COUNT && |mvk| == KEY_LEN && IsSlot(pad) && |nonce| == NONCE_LEN
    ensures var slot := Wrapped(c, mvk, idx, pad, nonce);
      slot[..12] == nonce && slot[12..60] == Seal(c.suite, c.kek, nonce, SlotAad(c.salt, idx), mvk) && slot[60..] == pad[60..]
  {}

  /** `wrap_slot`: random fill first, then nonce and box over it. `pad` and
      `nonce` are the two draws; the first failure stops the call. */
  method WrapSlot(slot: array<Cell>, c: Context, mvk: seq<Cell>, idx: nat, pad: Option<seq<Cell>>, nonce: Option<seq<Cell>>)
    returns (ok: bool)
    requires slot.Length == P.SLOT_SIZE && idx < SLOT_COUNT && |mvk| == KEY_LEN
    requires pad.Some? ==> IsSlot(pad.value)
    requires nonce.Some? ==> |nonce.value| == NONCE_LEN
    modifies slot
    ensures ok <==> pad.Some? && nonce.Some?
    ensures ok ==> slot[..] == Wrapped(c, mvk, idx, pad.value, nonce.value)
    ensures ok ==> slot[..12] == nonce.value && slot[12..60] == Seal(c.suite, c.kek, nonce.value, SlotAad(c.salt, idx), mvk) && slot[60..] == pad.value[60..]
    ensures !ok ==> slot[..] == if pad.Some? then pad.value else old(slot[..])
  {
    if pad.None? {
      return false;
    }
    Lay(slot, 0, pad.value);
    if nonce.None? {
      assert Overlay(old(slot[..]), 0, pad.value) == pad.value;
      return false;
    }
    var ct := Seal(c.suite, c.kek, nonce.value, SlotAad(c.salt, idx), mvk);
    WrappedIsLaid(old(slot[..]), c, mvk, idx, pad.value, nonce.value, ct);
    WrappedParts(c, mvk, idx, pad.value, nonce.value);
    Lay(slot, 0, nonce.value);
    Lay(slot, NONCE_LEN, ct);
    ok := true;
  }

  // ----- trial decryption ---------------------------------------------------

  /** One unit of work whose presence and order an observer may time. */
  datatype Work = Attempt(slot: nat) | SelectByte(slot: nat, at: nat) | SelectIndex(slot: nat) | BuildKey

  function SelectWork(slot: nat, n: nat): seq<Work> {
    if n == 0 then [] else SelectWork(slot, n - 1) + [SelectByte(slot, n - 1)]
  }

  function SweepWork(n: nat): seq<Work> {
    if n == 0 then []
    else SweepWork(n - 1) + [Attempt(n - 1)] + SelectWork(n - 1, KEY_LEN) + [SelectIndex(n - 1)]
  }

  predicate IsTable(slots: seq<seq<Cell>>) {
    |slots| == SLOT_COUNT && forall i :: 0 <= i < |slots| ==> IsSlot(slots[i])
  }

  /** The highest of the first `n` slots that opens. */
  function Highest(slots: seq<seq<Cell>>, c: Context, n: nat): Option<(nat, seq<Cell>)>
    requires IsTable(slots) && n <= SLOT_COUNT
  {
    if n == 0 then None
    else
      match Unwrap(slots[n - 1], c, n - 1)
      case Some(mvk) => Some((n - 1, mvk))
      case None => Highest(slots, c, n - 1)
  }

  /** The slot found opens to the key found, and no higher one opens. */
  lemma {:induction false} HighestOpens(slots: seq<seq<Cell>>, c: Context, n: nat)
    requires IsTable(slots) && n <= SLOT_COUNT
    ensures var r := Highest(slots, c, n);
      && (r.Some? ==> r.value.0 < n && Unwrap(slots[r.value.0], c, r.value.0) == Some(r.value.1))
      && (forall j :: 0 <= j < n && (r.Some? ==> r.value.0 < j) ==> Unwrap(slots[j], c, j) == None)
  {
    if n > 0 {
      HighestOpens(slots, c, n - 1);
    }
  }

  /** `try_unwrap_slot_bytes`: a verdict and 32 bytes, zero on failure. */
  function UnwrapBytes(slot: seq<Cell>, c: Context, idx: nat): (r: (bool, seq<Cell>))
    requires IsSlot(slot) && idx < SLOT_COUNT
    ensures |r.1| == KEY_LEN
  {
    match Unwrap(slot, c, idx)
    case Some(mvk) => (true, mvk)
    case None => (false, Repeat(Lit(0), KEY_LEN))
  }

  /** The 32 conditional selects of one iteration. */
  method SelectBytes(mvk: seq<Cell>, cand: seq<Cell>, valid: bool, slot: nat)
    returns (r: seq<Cell>, work: seq<Work>)
    requires |mvk| == KEY_LEN && |cand| == KEY_LEN
    ensures r == if valid then cand else mvk
    ensures work == SelectWork(slot, KEY_LEN)
  {
    r, work := mvk, [];
    for i := 0 to KEY_LEN
      invariant |r| == KEY_LEN
      invariant forall k :: 0 <= k < KEY_LEN ==> r[k] == if k < i && valid then cand[k] else mvk[k]
      invariant work == SelectWork(slot, i)
    {
      r := r[i := if valid then cand[i] else r[i]];
      work := work + [SelectByte(slot, i)];
    }
  }

  /** `trial_decrypt_with_idx`: the highest matching slot wins, and the work done
      before the verdict depends on neither the table nor the key. */
  method TrialDecryptWithIdx(slots: seq<seq<Cell>>, c: Context)
    returns (r: Option<(nat, seq<Cell>)>, work: seq<Work>)
    requires IsTable(slots)
    ensures r == Highest(slots, c, SLOT_COUNT)
    ensures work == SweepWork(SLOT_COUNT) + if r.Some? then [BuildKey] else []
  {
    r, work := TryFirst(slots, c, SLOT_COUNT);
  }

  lemma SameSlice(a: seq<Work>, b: seq<Work>, i: nat, j: nat)
    requires a <= b && i <= j <= |a|
    ensures b[i..j] == a[i..j]
  {}

  lemma {:induction false} SelectAt(slot: nat, n: nat, j: nat)
    requires j < n
    ensures |SelectWork(slot, n)| == n && SelectWork(slot, n)[j] == SelectByte(slot, j)
  {
    if n > 1 {
      SelectAt(slot, n - 1, if j < n - 1 then j else 0);
    }
  }

  lemma {:induction false} SweepLength(n: nat)
    ensures |SweepWork(n)| == 34 * n
  {
    if n > 0 {
      SelectAt(n - 1, KEY_LEN, 0);
      SweepLength(n - 1);
    }
  }

  /** A slot's share of the work: one attempt, 32 byte selections in order, one
      index selection. */
  lemma PassParts(slot: nat, j: nat)
    requires j < 32
    ensures |PassWork(slot)| == 34
    ensures PassWork(slot)[0] == Attempt(slot) && PassWork(slot)[1 + j] == SelectByte(slot, j) && PassWork(slot)[33] == SelectIndex(slot)
  {
    SelectAt(slot, KEY_LEN, j);
  }

  /** It lies where the slot's turn comes, and there is nothing else. */
  lemma {:induction false} SweepAt(n: nat, s: nat)
    requires s < n
    ensures |SweepWork(n)| == 34 * n && SweepWork(n)[34 * s..34 * s + 34] == PassWork(s)
  {
    var before := SweepWork(n - 1);
    SweepLength(n);
    SweepLength(n - 1);
    SelectAt(n - 1, KEY_LEN, 0);
    SweepGrows(n - 1);
    if s < n - 1 {
      SweepAt(n - 1, s);
      SameSlice(before, SweepWork(n), 34 * s, 34 * s + 34);
    }
  }

  /** The same over the first `count` slots. */
  method TryFirst(slots: seq<seq<Cell>>, c: Context, count: nat)
    returns (r: Option<(nat, seq<Cell>)>, work: seq<Work>)
    requires IsTable(slots) && count <= SLOT_COUNT
    ensures r == Highest(slots, c, count)
    ensures work == SweepWork(count) + if r.Some? then [BuildKey] else []
  {
    var found, foundIdx, mvkBytes := false, 0, Repeat(Lit(0), KEY_LEN);
    work := [];
    for slotIdx := 0 to count
      invariant |mvkBytes| == KEY_LEN
      invariant work == SweepWork(slotIdx)
      invariant Highest(slots, c, slotIdx) == if found then Some((foundIdx, mvkBytes)) else None
    {
      var valid, pass;
      valid, mvkBytes, pass := TryOne(slots[slotIdx], c, slotIdx, mvkBytes);
      foundIdx := if valid then slotIdx else foundIdx;
      found := found || valid;
      work := work + pass;
      SweepGrows(slotIdx);
    }
    if found {
      work := work + [BuildKey];
      r := Some((foundIdx, mvkBytes));
    } else {
      r := None;
    }
  }

  function PassWork(slot: nat): seq<Work> {
    [Attempt(slot)] + SelectWork(slot, KEY_LEN) + [SelectIndex(slot)]
  }

  lemma SweepGrows(n: nat)
    ensures SweepWork(n + 1) == SweepWork(n) + PassWork(n)
  {}

  /** One iteration's attempt and selections. */
  method TryOne(slot: seq<Cell>, c: Context, idx: nat, mvk: seq<Cell>) returns (valid: bool, r: seq<Cell>, work: seq<Work>)
    requires IsSlot(slot) && idx < SLOT_COUNT && |mvk| == KEY_LEN
    ensures valid <==> Unwrap(slot, c, idx).Some?
    ensures r == (if valid then Unwrap(slot, c, idx).value else mvk) && |r| == KEY_LEN
    ensures work == PassWork(idx)
  {
    var attempt := UnwrapBytes(slot, c, idx);
    valid := attempt.0;
    var selected;
    r, selected := SelectBytes(mvk, attempt.1, valid, idx);
    work := [Attempt(idx)] + selected + [SelectIndex(idx)];
  }

  // ----- histories of a table -----------------------------------------------

  datatype Op =
    | Wrap(idx: nat, ctx: Context, mvk: seq<Cell>, pad: seq<Cell>, nonce: seq<Cell>)
    | Fill(idx: nat, pad: seq<Cell>)

  predicate ValidOp(op: Op) {
    && op.idx < SLOT_COUNT && IsSlot(op.pad) && AllLiteral(op.pad)
    && (op.Wrap? ==> Sized(op.ctx) && |op.mvk| == KEY_LEN && |op.nonce| == NONCE_LEN)
  }

  predicate ValidOps(ops: seq<Op>) {
    forall op | op in ops :: ValidOp(op)
  }

  function Result(op: Op): seq<Cell>
    requires ValidOp(op)
  {
    match op
    case Wrap(idx, c, mvk, pad, nonce) => Wrapped(c, mvk, idx, pad, nonce)
    case Fill(_, pad) => pad
  }

  function Run(slots: seq<seq<Cell>>, ops: seq<Op>): (t: seq<seq<Cell>>)
    requires IsTable(slots) && ValidOps(ops)
    ensures IsTable(t)
  {
    if ops == [] then slots
    else
      var op := ops[|ops| - 1];
      assert ValidOp(op);
      Run(slots, ops[..|ops| - 1])[op.idx := Result(op)]
  }

  /** The last operation on slot `idx`. */
  function Last(ops: seq<Op>, idx: nat): (r: Option<Op>)
    ensures r.Some? ==> r.value in ops && r.value.idx == idx
  {
    if ops == [] then None
    else if ops[|ops| - 1].idx == idx then Some(ops[|ops| - 1])
    else Last(ops[..|ops| - 1], idx)
  }

  /** What slot `idx` of a vault with this history holds for key context `c`. */
  function Held(ops: seq<Op>, idx: nat, c: Context): Option<seq<Cell>> {
    match Last(ops, idx)
    case Some(Wrap(_, d, mvk, _, _)) => if d == c then Some(mvk) else None
    case _ => None
  }

  /** Only the last operation on a slot counts. */
  lemma HeldAfter(ops: seq<Op>, op: Op, idx: nat, c: Context)
    ensures Held(ops + [op], idx, c) ==
      if op.idx != idx then Held(ops, idx, c) else if op.Wrap? && op.ctx == c then Some(op.mvk) else None
  {
    assert (ops + [op])[..|ops|] == ops;
  }

  /** A new table is random in every slot. */
  predicate Blank(slots: seq<seq<Cell>>) {
    IsTable(slots) && forall i :: 0 <= i < SLOT_COUNT ==> AllLiteral(slots[i])
  }

  /** Slot `j` of any history, moved to place `i` and tried under any context:
      it opens only if nothing was moved and the context is its own. */
  lemma {:induction false} Relocated(slots: seq<seq<Cell>>, ops: seq<Op>, j: nat, c: Context, i: nat)
    requires Blank(slots) && ValidOps(ops) && Sized(c) && i < SLOT_COUNT && j < SLOT_COUNT
    ensures Unwrap(Run(slots, ops)[j], c, i) == if i == j then Held(ops, j, c) else None
  {
    if ops == [] {
      RandomNeverOpens(slots[j], c, i);
    } else {
      var op := ops[|ops| - 1];
      assert ValidOp(op);
      if op.idx == j {
        match op
        case Wrap(idx, d, mvk, pad, nonce) => UnwrapsOnlyInPlace(d, mvk, idx, pad, nonce, c, i);
        case Fill(_, pad) => RandomNeverOpens(pad, c, i);
      } else {
        Relocated(slots, ops[..|ops| - 1], j, c, i);
      }
    }
  }

  /** Refinement of the table by its history: trial decryption yields the master
      key of the highest slot whose last operation was a wrap under this key,
      suite and salt, and nothing if there is none. */
  lemma TrialFollowsHistory(slots: seq<seq<Cell>>, ops: seq<Op>, c: Context)
    requires Blank(slots) && ValidOps(ops) && Sized(c)
    ensures var r := Highest(Run(slots, ops), c, SLOT_COUNT);
      && (r.Some? ==> r.value.0 < SLOT_COUNT && Held(ops, r.value.0, c) == Some(r.value.1))
      && (forall j :: 0 <= j < SLOT_COUNT && (r.Some? ==> r.value.0 < j) ==> Held(ops, j, c) == None)
  {
    forall j | 0 <= j < SLOT_COUNT ensures Unwrap(Run(slots, ops)[j], c, j) == Held(ops, j, c) {
      Relocated(slots, ops, j, c, j);
    }
    HighestOpens(Run(slots, ops), c, SLOT_COUNT);
  }

  /** One place of a table assembled from the slots of other vaults. */
  datatype Pick = Pick(slots: seq<seq<Cell>>, ops: seq<Op>, from: nat)

  predicate ValidPick(p: Pick) {
    Blank(p.slots) && ValidOps(p.ops) && p.from < SLOT_COUNT
  }

  function Splice(picks: seq<Pick>): (t: seq<seq<Cell>>)
    requires |picks| == SLOT_COUNT && forall k :: 0 <= k < SLOT_COUNT ==> ValidPick(picks[k])
    ensures IsTable(t)
  {
    seq(SLOT_COUNT, i requires 0 <= i < SLOT_COUNT && ValidPick(picks[i]) => Run(picks[i].slots, picks[i].ops)[picks[i].from])
  }

  /** Slots cannot be relocated: of any table made by permuting one vault's slots
      or splicing several vaults', those that open are exactly the ones left at
      their own index and holding a wrap under this salt. */
  lemma SpliceOpensOnlyUnmoved(picks: seq<Pick>, c: Context, i: nat)
    requires |picks| == SLOT_COUNT && forall k :: 0 <= k < SLOT_COUNT ==> ValidPick(picks[k])
    requires Sized(c) && i < SLOT_COUNT
    ensures Unwrap(Splice(picks)[i], c, i) == if picks[i].from == i then Held(picks[i].ops, i, c) else None
  {
    assert ValidPick(picks[i]);
    Relocated(picks[i].slots, picks[i].ops, picks[i].from, c, i);
  }
}
