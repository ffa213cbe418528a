/** The bytes a mount passes to its helper process: the writer in the parent, the
    reader in the helper, and the pipe between them. */
module Handoff {
  import opened Common

  const SALT_LEN: nat := 32
  const INNER_LEN: nat := 38
  const HANDOFF_MAX: nat := 1 + KEY_LEN + SALT_LEN + 1 + INNER_LEN
  const HEADER_SIZE: nat := 36864
  const MAX_METADATA_SIZE: nat := 64 * 1024 * 1024

  // ----- integers in little-endian order ------------------------------------

  function Pow256(n: nat): (p: nat)
    ensures p > 0
  {
    if n == 0 then 1 else 256 * Pow256(n - 1)
  }

  function ToLe(v: nat, n: nat): (b: seq<byte>)
    ensures |b| == n
  {
    if n == 0 then [] else [v % 256] + ToLe(v / 256, n - 1)
  }

  function FromLe(b: seq<byte>): nat {
    if b == [] then 0 else b[0] + 256 * FromLe(b[1..])
  }

  lemma {:induction false} LeRoundTrip(v: nat, n: nat)
    requires v < Pow256(n)
    ensures FromLe(ToLe(v, n)) == v
  {
    if n > 0 {
      LeRoundTrip(v / 256, n - 1);
      assert ToLe(v, n)[1..] == ToLe(v / 256, n - 1);
    }
  }

  // ----- the inner header ---------------------------------------------------

  /** `DeniableInnerHeader`; `suite` and `kdf` are the on-disk identifiers. */
  datatype Inner = Inner(
    minor: nat, suite: nat, kdf: nat, flags: nat,
    metadataOffset: nat, metadataSize: nat, dataOffset: nat, chunkSize: nat)

  predicate Widths(h: Inner) {
    && h.minor < Pow256(2) && h.suite < Pow256(2) && h.kdf < Pow256(2) && h.flags < Pow256(4)
    && h.metadataOffset < Pow256(8) && h.metadataSize < Pow256(8) && h.dataOffset < Pow256(8) && h.chunkSize < Pow256(4)
  }

  function Saturated(n: nat): nat {
    if n < Pow256(8) then n else Pow256(8) - 1
  }

  /** What `parse` lets through. */
  predicate Sane(h: Inner) {
    && h.suite in {1, 2, 3} && h.kdf == 1
    && h.metadataSize <= MAX_METADATA_SIZE
    && h.chunkSize in {512, 1024, 2048, 4096, 8192, 16384, 32768, 65536}
    && h.dataOffset >= Saturated(h.metadataOffset + h.metadataSize)
    && h.metadataOffset >= HEADER_SIZE
  }

  /** `serialise_for_handoff`. */
  function Serialise(h: Inner): (b: seq<byte>)
    ensures |b| == INNER_LEN
  {
    ToLe(h.minor, 2) + ToLe(h.suite, 2) + ToLe(h.kdf, 2) + ToLe(h.flags, 4)
    + ToLe(h.metadataOffset, 8) + ToLe(h.metadataSize, 8) + ToLe(h.dataOffset, 8) + ToLe(h.chunkSize, 4)
  }

  /** `parse_from_handoff`. */
  function ParseInner(b: seq<byte>): Option<Inner>
    requires |b| == INNER_LEN
  {
    var h := Inner(FromLe(b[0..2]), FromLe(b[2..4]), FromLe(b[4..6]), FromLe(b[6..10]),
                   FromLe(b[10..18]), FromLe(b[18..26]), FromLe(b[26..34]), FromLe(b[34..38]));
    if Sane(h) then Some(h) else None
  }

  /** The low byte comes first. */
  lemma LowByteFirst(v: nat, n: nat)
    requires n > 0
    ensures ToLe(v, n)[0] == v % 256 && ToLe(v, n)[1..] == ToLe(v / 256, n - 1)
  {}

  /** Where each field lies in the 38 bytes. */
  lemma InnerBytes(h: Inner)
    ensures var b := Serialise(h);
      && b[0..2] == ToLe(h.minor, 2) && b[2..4] == ToLe(h.suite, 2) && b[4..6] == ToLe(h.kdf, 2) && b[6..10] == ToLe(h.flags, 4)
      && b[10..18] == ToLe(h.metadataOffset, 8) && b[18..26] == ToLe(h.metadataSize, 8)
      && b[26..34] == ToLe(h.dataOffset, 8) && b[34..38] == ToLe(h.chunkSize, 4)
  {
    var b := Serialise(h);
    assert b[0..2] == ToLe(h.minor, 2);
    assert b[2..4] == ToLe(h.suite, 2);
    assert b[4..6] == ToLe(h.kdf, 2);
    assert b[6..10] == ToLe(h.flags, 4);
    assert b[10..18] == ToLe(h.metadataOffset, 8);
    assert b[18..26] == ToLe(h.metadataSize, 8);
    assert b[26..34] == ToLe(h.dataOffset, 8);
    assert b[34..38] == ToLe(h.chunkSize, 4);
  }

  /** The inner header a vault is created with, from the size asked for its
      metadata region, which is clamped to the limit. */
  function Created(suite: nat, flags: nat, requested: nat): Inner {
    var size := if requested < MAX_METADATA_SIZE then requested else MAX_METADATA_SIZE;
    Inner(0, suite, 1, flags, HEADER_SIZE, size, HEADER_SIZE + size, 4096)
  }

  /** Whatever size was asked for, a created vault can be handed over: its inner
      header passes the reader. Unclamped it would not. */
  lemma CreatedIsSane(suite: nat, flags: nat, requested: nat)
    requires suite in {1, 2, 3} && flags < 0x1_0000_0000
    ensures Widths(Created(suite, flags, requested)) && Sane(Created(suite, flags, requested))
    ensures ParseInner(Serialise(Created(suite, flags, requested))) == Some(Created(suite, flags, requested))
    ensures Sane(Created(suite, flags, 0).(metadataSize := requested, dataOffset := 36864 + requested)) <==> requested <= 64 * 1024 * 1024
  {
    PowersOf256();
    InnerRoundTrip(Created(suite, flags, requested));
  }

  lemma PowersOf256()
    ensures Pow256(2) == 0x1_0000 && Pow256(4) == 0x1_0000_0000 && Pow256(8) == 0x1_0000_0000_0000_0000
  {
    assert Pow256(1) == 256 * Pow256(0) == 256;
    assert Pow256(2) == 256 * Pow256(1) && Pow256(3) == 256 * Pow256(2) && Pow256(4) == 256 * Pow256(3);
    assert Pow256(5) == 256 * Pow256(4) && Pow256(6) == 256 * Pow256(5) && Pow256(7) == 256 * Pow256(6) && Pow256(8) == 256 * Pow256(7);
  }

  /** What the reader lets through, in numbers. */
  lemma SaneExactly(h: Inner)
    requires Widths(h)
    ensures Sane(h) <==>
      && 1 <= h.suite <= 3 && h.kdf == 1 && 36864 <= h.metadataOffset && h.metadataSize <= 67108864
      && h.chunkSize in {512, 1024, 2048, 4096, 8192, 16384, 32768, 65536}
      && (h.metadataOffset + h.metadataSize <= h.dataOffset || h.dataOffset == 0xffff_ffff_ffff_ffff)
  {
    PowersOf256();
  }

  lemma InnerRoundTrip(h: Inner)
    requires Widths(h)
    ensures ParseInner(Serialise(h)) == if Sane(h) then Some(h) else None
  {
    InnerBytes(h);
    LeRoundTrip(h.minor, 2);
    LeRoundTrip(h.suite, 2);
    LeRoundTrip(h.kdf, 2);
    LeRoundTrip(h.flags, 4);
    LeRoundTrip(h.metadataOffset, 8);
    LeRoundTrip(h.metadataSize, 8);
    LeRoundTrip(h.dataOffset, 8);
    LeRoundTrip(h.chunkSize, 4);
  }

  // ----- the message --------------------------------------------------------

  type Key = k: seq<byte> | |k| == 32 witness seq(32, i => 0)

  datatype Message = Standard(mvk: Key) | Deniable(mvk: Key, salt: Key, slot: byte, inner: Inner)

  predicate WellFormed(m: Message) {
    m.Deniable? ==> Widths(m.inner) && Sane(m.inner)
  }

  function Wire(m: Message): (b: seq<byte>)
    ensures |b| == if m.Standard? then 33 else 104
    ensures |b| <= HANDOFF_MAX
  {
    match m
    case Standard(mvk) => [1] + mvk
    case Deniable(mvk, salt, slot, inner) => [2] + mvk + salt + [slot] + Serialise(inner)
  }

  /** Salt, slot and inner header, at the head of what follows the key. */
  function ReadTail(t: seq<byte>): Option<(Key, byte, Inner)> {
    if |t| < 71 then None
    else
      match ParseInner(t[33..71])
      case None => None
      case Some(h) => Some((t[..32], t[32], h))
  }

  /** What the bytes on the pipe mean, whatever follows them. */
  function Read(b: seq<byte>): Option<Message> {
    if |b| < 33 then None
    else if b[0] == 1 then Some(Standard(b[1..33]))
    else if b[0] != 2 then None
    else
      match ReadTail(b[33..])
      case None => None
      case Some((salt, slot, inner)) => Some(Deniable(b[1..33], salt, slot, inner))
  }

  /** The helper reads back what the parent wrote, whatever follows. */
  lemma ReadsBack(m: Message, rest: seq<byte>)
    requires WellFormed(m)
    ensures Read(Wire(m) + rest) == Some(m)
  {
    match m
    case Standard(mvk) =>
      Parts(1, mvk, rest);
    case Deniable(mvk, salt, slot, inner) =>
      var tail := Serialise(inner);
      Regroup(mvk, salt, slot, tail, rest);
      Parts(2, mvk, salt + [slot] + tail + rest);
      TailReadsBack(salt, slot, inner, rest);
  }

  lemma Parts(version: byte, mvk: Key, t: seq<byte>)
    ensures var b := [version] + mvk + t; b[0] == version && b[1..33] == mvk && b[33..] == t
  {
  }

  lemma Regroup(mvk: Key, salt: Key, slot: byte, tail: seq<byte>, rest: seq<byte>)
    ensures [2] + mvk + salt + [slot] + tail + rest == [2] + mvk + (salt + [slot] + tail + rest)
  {
  }

  lemma TailReadsBack(salt: Key, slot: byte, inner: Inner, rest: seq<byte>)
    requires Widths(inner) && Sane(inner)
    ensures ReadTail(salt + [slot] + Serialise(inner) + rest) == Some((salt, slot, inner))
  {
    var t := salt + [slot] + Serialise(inner) + rest;
    assert t[..32] == salt && t[32] == slot && t[33..71] == Serialise(inner);
    InnerRoundTrip(inner);
  }

  /** A stream cut short anywhere is no message. */
  lemma TruncatedIsRejected(m: Message, k: nat)
    requires WellFormed(m) && k < |Wire(m)|
    ensures Read(Wire(m)[..k]) == None
  {
    var b := Wire(m)[..k];
    if k >= 33 {
      assert b[0] == 2 && |b[33..]| < 71;
    }
  }

  // ----- the pipe -----------------------------------------------------------

  /** What one `read` on the pipe may do when bytes are left. */
  datatype ReadEvent = Interrupted | Broken | UpTo(n: nat)

  class Pipe {
    var data: seq<byte>
    var script: seq<ReadEvent>

    constructor (data: seq<byte>, script: seq<ReadEvent>)
      ensures this.data == data && this.script == script
    {
      this.data, this.script := data, script;
    }

    predicate Unbroken()
      reads this
    {
      Broken !in script
    }

    /** `read`: end of file, an error, or at least one byte. */
    method ReadRaw(want: nat) returns (ev: ReadEvent, got: seq<byte>)
      requires want > 0
      modifies this
      ensures ev.UpTo? ==> |got| <= want && got + data == old(data) && (got == [] <==> old(data) == [])
      ensures !ev.UpTo? ==> got == [] && data == old(data) && |script| < |old(script)|
      ensures |script| <= |old(script)|
      ensures old(Unbroken()) ==> Unbroken() && !ev.Broken?
    {
      ev := if script == [] then UpTo(want) else script[0];
      script := if script == [] then [] else script[1..];
      if !ev.UpTo? {
        return ev, [];
      }
      var limit := if want < |data| then want else |data|;
      var n := if 0 < ev.n < limit then ev.n else limit;
      got := data[..n];
      data := data[n..];
    }

    /** `stdin_read_exact_raw`: any schedule of short and interrupted reads yields
        the same `n` bytes; too few bytes are an error. */
    method ReadExact(n: nat) returns (r: Option<seq<byte>>)
      modifies this
      ensures r.Some? ==> |r.value| == n && r.value + data == old(data)
      ensures |old(data)| < n ==> r.None?
      ensures old(Unbroken()) ==> Unbroken() && (n <= |old(data)| ==> r.Some?)
    {
      var buf := [];
      while |buf| < n
        invariant |buf| <= n && buf + data == old(data)
        invariant old(Unbroken()) ==> Unbroken()
        decreases |data|, |script|
      {
        var ev, got := ReadRaw(n - |buf|);
        match ev
        case UpTo(_) =>
          if got == [] {
            return None;
          }
          buf := buf + got;
        case Interrupted =>
        case Broken => return None;
      }
      r := Some(buf);
    }

    /** The reader in `cmd_mount_fuse_t_helper`. */
    method ReadMessage() returns (r: Option<Message>)
      modifies this
      ensures r.Some? ==> Read(old(data)) == r
      ensures old(Unbroken()) ==> r == Read(old(data))
    {
      var version := ReadExact(1);
      if version.None? {
        return None;
      }
      var mvk := ReadExact(KEY_LEN);
      if mvk.None? {
        return None;
      }
      assert old(data) == version.value + mvk.value + data;
      assert old(data)[1..33] == mvk.value && old(data)[33..] == data;
      if version.value[0] == 1 {
        return Some(Standard(mvk.value));
      } else if version.value[0] != 2 {
        return None;
      }
      var state := ReadState();
      r := match state case None => None case Some((salt, slot, inner)) => Some(Deniable(mvk.value, salt, slot, inner));
    }

    /** The part of a deniable message after the key. */
    method ReadState() returns (r: Option<(Key, byte, Inner)>)
      modifies this
      ensures r.Some? ==> ReadTail(old(data)) == r
      ensures old(Unbroken()) ==> r == ReadTail(old(data))
    {
      var salt := ReadExact(SALT_LEN);
      if salt.None? {
        return None;
      }
      var slot := ReadExact(1);
      if slot.None? {
        return None;
      }
      var inner := ReadExact(INNER_LEN);
      if inner.None? {
        return None;
      }
      assert old(data) == salt.value + slot.value + inner.value + data;
      assert old(data)[..32] == salt.value && old(data)[33..71] == inner.value;
      r := match ParseInner(inner.value) case None => None case Some(h) => Some((salt.value, slot.value[0], h));
    }
  }

  /** The writer in `mount_in_background`: the message is built in one buffer
      that never outgrows what was reserved for it. */
  method WriteMessage(mvk: Key, deniable: Option<(Key, Inner, nat)>) returns (buf: Option<seq<byte>>)
    ensures buf.Some? ==> |buf.value| <= HANDOFF_MAX
    ensures deniable.None? ==> buf == Some(Wire(Standard(mvk)))
    ensures deniable.Some? ==>
      var (salt, inner, slot) := deniable.value;
      buf == if slot < 256 then Some(Wire(Deniable(mvk, salt, slot, inner))) else None
    ensures buf.Some? ==> |buf.value| >= 33 && buf.value[0] == (if deniable.None? then 1 else 2) && buf.value[1..33] == mvk
    ensures buf.Some? && deniable.Some? ==>
      |buf.value| == 104 && buf.value[33..65] == deniable.value.0 && buf.value[65] == deniable.value.2 && buf.value[66..] == Serialise(deniable.value.1)
  {
    var handoff := [];
    match deniable {
      case None =>
        handoff := handoff + [1];
        handoff := handoff + mvk;
        assert handoff == Wire(Standard(mvk));
      case Some((salt, inner, slotIdx)) =>
        if slotIdx >= 256 {
          return None;
        }
        handoff := handoff + [2];
        handoff := handoff + mvk;
        handoff := handoff + salt;
        handoff := handoff + [slotIdx];
        handoff := handoff + Serialise(inner);
        assert handoff == Wire(Deniable(mvk, salt, slotIdx, inner));
    }
    buf := Some(handoff);
  }
}
