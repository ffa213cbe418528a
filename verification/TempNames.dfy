/** Names of temporary files: how `write_secure_tmp_for` forms them and how the
    orphan scanner recognises them again after a crash. */
module TempNames {
  import opened Common

  type Name = string

  datatype OrphanKind = AtomicWriteTmp | RotationTmp
  datatype Orphan = Orphan(name: Name, kind: OrphanKind)

  const TMP: string := ".tmp."
  const ROTATING: string := ".rotating"

  predicate IsLowerHex(c: char) {
    '0' <= c <= '9' || 'a' <= c <= 'f'
  }

  /** Eight random bytes printed as `{:02x}`. */
  predicate IsSuffix16(h: string) {
    |h| == 16 && forall i :: 0 <= i < |h| ==> IsLowerHex(h[i])
  }

  function HexDigit(n: nat): (c: char)
    requires n < 16
    ensures IsLowerHex(c)
  {
    "0123456789abcdef"[n]
  }

  /** `{:02x}` of each byte. */
  function HexPrint(b: seq<byte>): (h: string)
    ensures |h| == 2 * |b|
  {
    if b == [] then "" else [HexDigit(b[0] / 16), HexDigit(b[0] % 16)] + HexPrint(b[1..])
  }

  function HexValue(c: char): (n: nat)
    requires IsLowerHex(c)
    ensures n < 16 && HexDigit(n) == c
  {
    if c <= '9' then (c - '0') as int else 10 + (c - 'a') as int
  }

  lemma {:induction false} HexPrintIsHex(b: seq<byte>)
    ensures forall i | 0 <= i < |HexPrint(b)| :: IsLowerHex(HexPrint(b)[i])
  {
    if b != [] {
      HexPrintIsHex(b[1..]);
    }
  }

  lemma PrintsPair(v: byte, hi: nat, lo: nat, rest: seq<byte>)
    requires hi < 16 && lo < 16 && v == 16 * hi + lo
    ensures HexPrint([v] + rest) == [HexDigit(hi), HexDigit(lo)] + HexPrint(rest)
  {
    assert ([v] + rest)[1..] == rest && v / 16 == hi && v % 16 == lo;
  }

  lemma {:induction false} HexIsPrinted(h: string, k: nat) returns (b: seq<byte>)
    requires |h| == 2 * k && forall i | 0 <= i < |h| :: IsLowerHex(h[i])
    ensures |b| == k && HexPrint(b) == h
    decreases k
  {
    b := [];
    if k > 0 {
      var rest := HexIsPrinted(h[2..], k - 1);
      var v := 16 * HexValue(h[0]) + HexValue(h[1]);
      b := [v] + rest;
      PrintsPair(v, HexValue(h[0]), HexValue(h[1]), rest);
      assert h == [h[0], h[1]] + h[2..];
    }
  }

  /** The scanner's sixteen digits are exactly what eight random bytes print as. */
  lemma SuffixesArePrinted(h: string)
    ensures IsSuffix16(h) <==> exists b: seq<byte> :: |b| == 8 && h == HexPrint(b)
  {
    if IsSuffix16(h) {
      var b := HexIsPrinted(h, 8);
    }
    if b: seq<byte> :| |b| == 8 && h == HexPrint(b) {
      HexPrintIsHex(b);
    }
  }

  function TempName(target: Name, hex: string): Name {
    target + TMP + hex
  }

  /** Some target's temporary name. */
  predicate TempShaped(n: Name) {
    && |n| >= 21
    && n[|n| - 21..|n| - 16] == TMP
    && IsSuffix16(n[|n| - 16..])
  }

  predicate MatchAt(s: string, pat: string, i: nat) {
    i + |pat| <= |s| && s[i..i + |pat|] == pat
  }

  /** `str::find`, started at index `i`. */
  function FindFrom(s: string, pat: string, i: nat): (r: Option<nat>)
    requires i <= |s|
    ensures r.Some? ==> i <= r.value && MatchAt(s, pat, r.value)
    ensures forall j :: i <= j && (r.Some? ==> j < r.value) ==> !MatchAt(s, pat, j) || |pat| == 0
    decreases |s| - i
  {
    if MatchAt(s, pat, i) then Some(i)
    else if i == |s| then None
    else FindFrom(s, pat, i + 1)
  }

  /** `classify_tempfile_suffix`. */
  function Classify(suffix: string): Option<OrphanKind> {
    if suffix == ROTATING then Some(RotationTmp)
    else
      match FindFrom(suffix, TMP, 0)
      case None => None
      case Some(i) =>
        if IsSuffix16(suffix[i + |TMP|..]) then Some(AtomicWriteTmp) else None
  }

  /** What the scan for `vault` makes of one directory entry. */
  function OrphanOf(vault: Name, n: Name): Option<OrphanKind> {
    if n == vault then None
    else if |vault| <= |n| && n[..|vault|] == vault then Classify(n[|vault|..])
    else None
  }

  lemma TempNameIsShaped(target: Name, hex: string)
    requires IsSuffix16(hex)
    ensures TempShaped(TempName(target, hex))
  {
    var n := TempName(target, hex);
    assert n[|n| - 16..] == hex;
    assert n[|n| - 21..|n| - 16] == TMP;
  }

  /** Two calls share a temporary name only by sharing target and suffix. */
  lemma TempNameInjective(t1: Name, h1: string, t2: Name, h2: string)
    requires IsSuffix16(h1) && IsSuffix16(h2)
    ensures TempName(t1, h1) == TempName(t2, h2) <==> t1 == t2 && h1 == h2
  {
    var n1, n2 := TempName(t1, h1), TempName(t2, h2);
    assert n1[|n1| - 16..] == h1 && n2[|n2| - 16..] == h2;
    assert n1[..|n1| - 21] == t1 && n2[..|n2| - 21] == t2;
  }

  /** Soundness of the scan: what it marks deletable is some target's temporary
      name, hence neither the vault nor a rotation copy. */
  lemma DeletableIsTemp(vault: Name, n: Name)
    requires OrphanOf(vault, n) == Some(AtomicWriteTmp)
    ensures TempShaped(n) && n != vault
    ensures !(|n| >= |ROTATING| && n[|n| - |ROTATING|..] == ROTATING)
  {
    var sfx := n[|vault|..];
    var i := FindFrom(sfx, TMP, 0).value;
    assert n == vault + sfx;
    assert |sfx| == i + 21;
    assert n[|n| - 16..] == sfx[i + 5..];
    assert n[|n| - 21..|n| - 16] == sfx[i..i + 5];
    var last := n[|n| - 16..][15];
    assert last == n[|n| - 1];
    assert |n| >= |ROTATING| ==> n[|n| - |ROTATING|..][|ROTATING| - 1] == last;
  }

  /** What the scan makes of a name, exactly: the vault's name and `.rotating` is a
      rotation copy; the vault's name, anything, and a first `.tmp.` with sixteen
      digits to the end is deletable; nothing else is an orphan. */
  lemma OrphanExactly(vault: Name, n: Name)
    ensures OrphanOf(vault, n) == Some(RotationTmp) <==> n == vault + ".rotating"
    ensures OrphanOf(vault, n) == Some(AtomicWriteTmp) <==> exists side: string, hex: string :: Deletes(vault, n, side, hex)
  {
    if |vault| <= |n| && n[..|vault|] == vault {
      var sfx := n[|vault|..];
      assert n == vault + sfx;
      if OrphanOf(vault, n) == Some(AtomicWriteTmp) {
        var i := FindFrom(sfx, TMP, 0).value;
        assert sfx == sfx[..i] + ".tmp." + sfx[i + 5..];
        assert Deletes(vault, n, sfx[..i], sfx[i + 5..]);
      }
    }
    if side: string, hex: string :| Deletes(vault, n, side, hex) {
      var sfx := side + ".tmp." + hex;
      assert n[..|vault|] == vault && n[|vault|..] == sfx;
      assert sfx[|side|..|side| + 5] == TMP && sfx[|side| + 5..] == hex;
      assert MatchAt(sfx, TMP, |side|);
      assert sfx[|sfx| - 1] == hex[15];
    }
    assert (vault + ".rotating")[..|vault|] == vault && (vault + ".rotating")[|vault|..] == ".rotating";
  }

  predicate Deletes(vault: Name, n: Name, side: string, hex: string) {
    && n == vault + (side + ".tmp." + hex) && IsSuffix16(hex)
    && forall j | 0 <= j < |side| :: !MatchAt(side + ".tmp." + hex, ".tmp.", j)
  }

  /** Completeness of the scan, with its exact limit: the temporary name of a
      sidecar `vault + side` is deletable if and only if `side` neither contains
      `.tmp.` nor ends in `.tmp`. */
  lemma TempOfSidecarDeletable(vault: Name, side: string, hex: string)
    requires IsSuffix16(hex)
    ensures OrphanOf(vault, TempName(vault + side, hex)) == Some(AtomicWriteTmp)
       <==> (forall i: nat :: !MatchAt(side, TMP, i)) && !(|side| >= 4 && side[|side| - 4..] == ".tmp")
  {
    var n := TempName(vault + side, hex);
    var sfx := n[|vault|..];
    assert n[..|vault|] == vault;
    assert sfx == side + TMP + hex;
    assert sfx != ROTATING by { assert sfx[|side|..][0] == '.'; assert sfx[|sfx| - 1] == hex[15]; }
    assert MatchAt(sfx, TMP, |side|) by { assert sfx[|side|..|side| + 5] == TMP; }
    var found := FindFrom(sfx, TMP, 0);
    if found == Some(|side|) {
      assert sfx[|side| + 5..] == hex;
      NothingEarlier(side, hex);
    } else {
      var i := found.value;
      assert i < |side|;
      assert |sfx[i + 5..]| > 16;
      OverlapOnlyAtDot(side, hex, i);
    }
  }

  lemma NothingEarlier(side: string, hex: string)
    requires FindFrom(side + TMP + hex, TMP, 0) == Some(|side|)
    ensures (forall i: nat :: !MatchAt(side, TMP, i)) && !(|side| >= 4 && side[|side| - 4..] == ".tmp")
  {
    var sfx := side + TMP + hex;
    forall i: nat ensures !MatchAt(side, TMP, i) {
      if MatchAt(side, TMP, i) {
        assert sfx[i..i + 5] == side[i..i + 5];
        assert MatchAt(sfx, TMP, i);
      }
    }
    if |side| >= 4 && side[|side| - 4..] == ".tmp" {
      EarlierMatch(side, hex);
    }
  }

  /** A suffix ending in `.tmp` completes an earlier `.tmp.`. */
  lemma EarlierMatch(side: string, hex: string)
    requires |side| >= 4 && side[|side| - 4..] == ".tmp"
    ensures MatchAt(side + TMP + hex, TMP, |side| - 4)
  {
    var sfx := side + TMP + hex;
    var i := |side| - 4;
    assert sfx[i..i + 5] == side[i..] + ".";
  }

  /** An occurrence of `.tmp.` that starts inside `side` lies inside it or
      borrows exactly the dot that follows it. */
  lemma OverlapOnlyAtDot(side: string, hex: string, i: nat)
    requires i < |side| && MatchAt(side + TMP + hex, TMP, i)
    ensures MatchAt(side, TMP, i) || (|side| >= 4 && side[|side| - 4..] == ".tmp")
  {
    var sfx := side + TMP + hex;
    var m := sfx[i..i + 5];
    if i + 5 <= |side| {
      assert side[i..i + 5] == m;
    } else {
      var d := |side| - i;
      assert forall k :: 0 <= k < 5 ==> m[k] == sfx[i + k];
      assert m[d] == sfx[|side|] == '.';
      assert d == 4;
      assert side[|side| - 4..] == m[..4];
    }
  }

  /** The entries the scan reports, in directory order. */
  function Report(vault: Name, entries: seq<Name>): (r: seq<Orphan>) {
    if entries == [] then []
    else
      var rest := Report(vault, entries[..|entries| - 1]);
      var n := entries[|entries| - 1];
      match OrphanOf(vault, n)
      case None => rest
      case Some(k) => rest + [Orphan(n, k)]
  }

  lemma {:induction false} ReportExact(vault: Name, entries: seq<Name>, o: Orphan)
    ensures o in Report(vault, entries) <==> o.name in entries && OrphanOf(vault, o.name) == Some(o.kind)
  {
    if entries != [] {
      var front, n := entries[..|entries| - 1], entries[|entries| - 1];
      ReportExact(vault, front, o);
      assert entries == front + [n];
    }
  }

  /** `find_orphan_tempfiles` over the names `read_dir` yielded. */
  method FindOrphanTempfiles(vault: Name, entries: seq<Name>) returns (out: seq<Orphan>)
    ensures out == Report(vault, entries)
    ensures forall o :: o in out <==> o.name in entries && OrphanOf(vault, o.name) == Some(o.kind)
  {
    out := [];
    for i := 0 to |entries|
      invariant out == Report(vault, entries[..i])
    {
      var name := entries[i];
      assert entries[..i + 1] == entries[..i] + [name];
      if name == vault {
        continue;
      }
      var kind := None;
      if |vault| <= |name| && name[..|vault|] == vault {
        kind := Classify(name[|vault|..]);
      }
      if kind.Some? {
        out := out + [Orphan(name, kind.value)];
      }
    }
    assert entries[..|entries|] == entries;
    forall o ensures o in out <==> o.name in entries && OrphanOf(vault, o.name) == Some(o.kind) {
      ReportExact(vault, entries, o);
    }
  }

  function Deletable(orphans: seq<Orphan>): (s: set<Name>) {
    set o | o in orphans && o.kind == AtomicWriteTmp :: o.name
  }

  /** A directory whose entries the deletion loop removes. */
  class Directory {
    var names: set<Name>

    constructor (names: set<Name>)
      ensures this.names == names
    {
      this.names := names;
    }

    /** `delete_atomic_write_orphans`; `refuse` are the entries whose removal
        the operating system denies. */
    method DeleteAtomicWriteOrphans(orphans: seq<Orphan>, refuse: set<Name>)
      returns (deleted: seq<Name>, errors: seq<Name>)
      modifies this
      ensures names == old(names) - (Deletable(orphans) - refuse)
      ensures forall n | n in old(names) :: n !in names <==> n !in refuse && exists o :: o in orphans && o.name == n && o.kind == AtomicWriteTmp
      ensures forall n :: n in deleted <==> n in Deletable(orphans) && n in old(names) && n !in refuse
      ensures forall n :: n in Deletable(orphans) ==> n in deleted || n in errors
      ensures forall n :: n in errors ==> n in Deletable(orphans)
      ensures |deleted| + |errors| <= |orphans|
    {
      deleted, errors := [], [];
      for i := 0 to |orphans|
        invariant names == old(names) - (Deletable(orphans[..i]) - refuse)
        invariant forall n :: n in deleted <==> n in Deletable(orphans[..i]) && n in old(names) && n !in refuse
        invariant forall n :: n in Deletable(orphans[..i]) ==> n in deleted || n in errors
        invariant forall n :: n in errors ==> n in Deletable(orphans[..i])
        invariant |deleted| + |errors| <= i
      {
        var o := orphans[i];
        assert orphans[..i + 1] == orphans[..i] + [o];
        if o.kind != AtomicWriteTmp {
          assert Deletable(orphans[..i + 1]) == Deletable(orphans[..i]);
          continue;
        }
        assert Deletable(orphans[..i + 1]) == Deletable(orphans[..i]) + {o.name};
        if o.name in names && o.name !in refuse {
          names := names - {o.name};
          deleted := deleted + [o.name];
        } else {
          errors := errors + [o.name];
        }
      }
      assert orphans[..|orphans|] == orphans;
    }
  }
}
