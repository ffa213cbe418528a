/** Copying between vaults: whole trees, and single files to and from streams. */
module TreeCopy {
  import opened Common

  type Id = nat
  type Bytes = seq<byte>

  const COPY_BUF: nat := 64 * 1024

  /** An inode as the file-system layer stores it; a directory lists its entries
      in `readdir` order. */
  datatype Node = File(content: Bytes) | Dir(children: seq<(string, Id)>) | Symlink(target: string)

  type Store = map<Id, Node>

  /** What a directory means, inode numbers aside. */
  datatype Tree = Leaf(content: Bytes) | Link(target: string) | Branch(entries: seq<Entry>)
  datatype Entry = Entry(name: string, tree: Tree)

  // ----- inodes and what they mean ------------------------------------------

  /** Inode `id` of `s` is the root of a copy of `t` kept at numbers from `lo`
      up to `hi`. */
  predicate Represents(s: Store, lo: Id, hi: Id, id: Id, t: Tree)
    decreases t
  {
    && lo <= id < hi && id in s
    && match t
       case Leaf(c) => s[id] == File(c)
       case Link(l) => s[id] == Symlink(l)
       case Branch(es) => s[id].Dir? && Lists(s, lo, hi, s[id].children, es)
  }

  predicate Lists(s: Store, lo: Id, hi: Id, children: seq<(string, Id)>, es: seq<Entry>)
    decreases es
  {
    && |children| == |es|
    && forall k | 0 <= k < |es| :: children[k].0 == es[k].name && Represents(s, lo, hi, children[k].1, es[k].tree)
  }

  /** Changes outside `lo..hi`, or a wider range, leave the meaning alone. */
  lemma {:induction false} Framed(s: Store, lo: Id, hi: Id, id: Id, t: Tree, s': Store, lo': Id, hi': Id)
    requires Represents(s, lo, hi, id, t) && lo' <= lo && hi <= hi'
    requires forall i | lo <= i < hi && i in s :: i in s' && s'[i] == s[i]
    ensures Represents(s', lo', hi', id, t)
    decreases t
  {
    if t.Branch? {
      ListsFramed(s, lo, hi, s[id].children, t.entries, s', lo', hi');
    }
  }

  lemma {:induction false} ListsFramed(s: Store, lo: Id, hi: Id, children: seq<(string, Id)>, es: seq<Entry>, s': Store, lo': Id, hi': Id)
    requires Lists(s, lo, hi, children, es) && lo' <= lo && hi <= hi'
    requires forall i | lo <= i < hi && i in s :: i in s' && s'[i] == s[i]
    ensures Lists(s', lo', hi', children, es)
    decreases es
  {
    forall k | 0 <= k < |es| ensures Represents(s', lo', hi', children[k].1, es[k].tree) {
      Framed(s, lo, hi, children[k].1, es[k].tree, s', lo', hi');
    }
  }

  /** An inode means one tree, so a copy that means what the source means leaves
      nothing open. */
  lemma {:induction false} MeansOneTree(s: Store, lo: Id, hi: Id, id: Id, t: Tree, u: Tree)
    requires Represents(s, lo, hi, id, t) && Represents(s, lo, hi, id, u)
    ensures t == u
    decreases t
  {
    if t.Branch? {
      forall k | 0 <= k < |t.entries| ensures t.entries[k] == u.entries[k] {
        MeansOneTree(s, lo, hi, s[id].children[k].1, t.entries[k].tree, u.entries[k].tree);
      }
      assert t.entries == u.entries;
    }
  }

  predicate DistinctNames(es: seq<Entry>) {
    forall i, j | 0 <= i < j < |es| :: es[i].name != es[j].name
  }

  /** No directory lists a name twice, and the destination takes every name and
      symlink target. */
  predicate Acceptable(es: seq<Entry>, goodName: string -> bool, goodTarget: string -> bool)
    decreases es
  {
    && DistinctNames(es)
    && forall k | 0 <= k < |es| :: goodName(es[k].name) && AcceptableTree(es[k].tree, goodName, goodTarget)
  }

  /** What every vault keeps of its own directories: distinct names and entries of
      the kinds it takes. */
  predicate WellKept(s: Store, goodName: string -> bool, goodTarget: string -> bool) {
    && (forall id | id in s && s[id].Symlink? :: goodTarget(s[id].target))
    && (forall id | id in s && s[id].Dir? ::
          && (forall k | 0 <= k < |s[id].children| :: goodName(s[id].children[k].0))
          && (forall i, j | 0 <= i < j < |s[id].children| :: s[id].children[i].0 != s[id].children[j].0))
  }

  /** So whatever a vault with the destination's rules holds, the destination
      takes: a copy between such vaults is never refused. */
  lemma {:induction false} KeptIsAcceptable(s: Store, lo: Id, hi: Id, id: Id, t: Tree, goodName: string -> bool, goodTarget: string -> bool)
    requires WellKept(s, goodName, goodTarget) && Represents(s, lo, hi, id, t)
    ensures AcceptableTree(t, goodName, goodTarget)
    decreases t
  {
    if t.Branch? {
      KeptListIsAcceptable(s, lo, hi, id, t.entries, goodName, goodTarget);
    }
  }

  lemma {:induction false} KeptListIsAcceptable(s: Store, lo: Id, hi: Id, id: Id, es: seq<Entry>, goodName: string -> bool, goodTarget: string -> bool)
    requires WellKept(s, goodName, goodTarget) && id in s && s[id].Dir? && Lists(s, lo, hi, s[id].children, es)
    ensures Acceptable(es, goodName, goodTarget)
    decreases es
  {
    var children := s[id].children;
    forall k | 0 <= k < |es| ensures goodName(es[k].name) && AcceptableTree(es[k].tree, goodName, goodTarget) {
      assert children[k].0 == es[k].name;
      KeptIsAcceptable(s, lo, hi, children[k].1, es[k].tree, goodName, goodTarget);
    }
    forall i, j | 0 <= i < j < |es| ensures es[i].name != es[j].name {
      assert children[i].0 == es[i].name && children[j].0 == es[j].name;
    }
  }

  predicate AcceptableTree(t: Tree, goodName: string -> bool, goodTarget: string -> bool)
    decreases t
  {
    match t
    case Leaf(_) => true
    case Link(l) => goodTarget(l)
    case Branch(es) => Acceptable(es, goodName, goodTarget)
  }

  predicate Unused(children: seq<(string, Id)>, name: string) {
    forall c | c in children :: c.0 != name
  }

  // ----- the file-system layer ----------------------------------------------

  /** What callers may rely on of `Vfs`: reads may be short but not empty before
      the end of the file, fresh inode numbers, no duplicate names. Any operation
      may fail for reasons of its own; `script` says which do, `faults` counts
      them. */
  class Vfs {
    var nodes: Store
    var next: Id
    var hints: seq<nat>
    var script: seq<bool>
    var faults: nat
    const goodName: string -> bool
    const goodTarget: string -> bool

    constructor (goodName: string -> bool, goodTarget: string -> bool, hints: seq<nat>, script: seq<bool>)
      ensures Valid() && nodes == map[0 := Dir([])] && next == 1 && faults == 0 && WellKept(nodes, goodName, goodTarget)
      ensures this.goodName == goodName && this.goodTarget == goodTarget
    {
      this.nodes, this.next, this.hints := map[0 := Dir([])], 1, hints;
      this.script, this.faults := script, 0;
      this.goodName, this.goodTarget := goodName, goodTarget;
    }

    predicate Valid()
      reads this
    {
      forall i | i in nodes :: i < next
    }

    predicate IsFile(id: Id)
      reads this
    {
      id in nodes && nodes[id].File?
    }

    predicate IsDir(id: Id)
      reads this
    {
      id in nodes && nodes[id].Dir?
    }

    /** Whether the next operation fails. */
    method Fault() returns (fails: bool)
      modifies this`script, this`faults
      ensures faults == old(faults) + if fails then 1 else 0
    {
      fails := script != [] && script[0];
      script := if script == [] then [] else script[1..];
      faults := if fails then faults + 1 else faults;
    }

    /** `read`: as much as the schedule grants of what was asked for. */
    method Read(id: Id, off: nat, want: nat) returns (r: Option<Bytes>)
      requires IsFile(id) && want > 0
      modifies this`hints, this`script, this`faults
      ensures faults == old(faults) + if r.None? then 1 else 0
      ensures r.Some? && off >= |nodes[id].content| ==> r.value == []
      ensures r.Some? && off < |nodes[id].content| ==> 0 < |r.value| <= want && off + |r.value| <= |nodes[id].content|
      ensures r.Some? && off < |nodes[id].content| ==> r.value == nodes[id].content[off..off + |r.value|]
    {
      var fails := Fault();
      if fails {
        return None;
      }
      var content := nodes[id].content;
      if off >= |content| {
        return Some([]);
      }
      var limit := if want < |content| - off then want else |content| - off;
      var n := if hints != [] && 0 < hints[0] < limit then hints[0] else limit;
      hints := if hints == [] then [] else hints[1..];
      r := Some(content[off..off + n]);
    }

    /** `write` at an offset inside or at the end of the file. */
    method Write(id: Id, off: nat, data: Bytes) returns (ok: bool)
      requires Valid() && IsFile(id) && off <= |nodes[id].content|
      modifies this`nodes, this`script, this`faults
      ensures Valid() && faults == old(faults) + if ok then 0 else 1
      ensures old(WellKept(nodes, goodName, goodTarget)) ==> WellKept(nodes, goodName, goodTarget)
      ensures !ok ==> nodes == old(nodes)
      ensures ok ==> var c := old(nodes[id].content);
        nodes == old(nodes)[id := File(c[..off] + data + if off + |data| < |c| then c[off + |data|..] else [])]
    {
      var fails := Fault();
      if fails {
        return false;
      }
      var c := nodes[id].content;
      nodes := nodes[id := File(c[..off] + data + if off + |data| < |c| then c[off + |data|..] else [])];
      ok := true;
    }

    /** `mkdir`, `create` and `symlink`: a new inode under a new name. */
    method Add(parent: Id, name: string, node: Node) returns (r: Option<Id>)
      requires Valid() && IsDir(parent) && (node.Dir? ==> node.children == [])
      modifies this`nodes, this`next, this`script, this`faults
      ensures Valid() && old(faults) <= faults
      ensures r.Some? <==> faults == old(faults) && goodName(name) && (node.Symlink? ==> goodTarget(node.target)) && Unused(old(nodes[parent].children), name)
      ensures r.Some? ==> r.value == old(next) && next == old(next) + 1
      ensures r.Some? ==> nodes == old(nodes)[old(next) := node][parent := Dir(old(nodes[parent].children) + [(name, old(next))])]
      ensures r.None? ==> nodes == old(nodes) && next == old(next)
      ensures old(WellKept(nodes, goodName, goodTarget)) ==> WellKept(nodes, goodName, goodTarget)
    {
      var fails := Fault();
      var children := nodes[parent].children;
      if fails || !goodName(name) || (node.Symlink? && !goodTarget(node.target)) || !Unused(children, name) {
        return None;
      }
      nodes := nodes[next := node][parent := Dir(children + [(name, next)])];
      next := next + 1;
      r := Some(next - 1);
    }
  }

  // ----- streams ------------------------------------------------------------

  /** A file that held `c` after `data` was written over its start. */
  function Over(data: Bytes, c: Bytes): (r: Bytes)
    ensures |r| == if |data| < |c| then |c| else |data|
    ensures forall k | 0 <= k < |r| :: r[k] == if k < |data| then data[k] else c[k]
  {
    data + if |data| < |c| then c[|data|..] else []
  }

  /** Writing the stream's next bytes where the last ones ended. */
  lemma OverGrows(src: Bytes, c: Bytes, n: nat, m: nat)
    requires n <= m <= |src|
    ensures var before := Over(src[..n], c);
      before[..n] + src[n..m] + (if m < |before| then before[m..] else []) == Over(src[..m], c)
  {}

  /** What one `read` of a stream yields: some bytes, or an error. */
  datatype Chunk = UpTo(n: nat) | Broken

  /** `copy_into` from a stream that delivers `src` in reads of any size: the file
      starts with the stream, whatever it held before continues after it. A
      failure leaves it with some start of the stream instead. */
  method CopyInto(vfs: Vfs, id: Id, src: Bytes, grants: seq<Chunk>) returns (n: nat, ok: bool)
    requires vfs.Valid() && vfs.IsFile(id)
    modifies vfs`nodes, vfs`script, vfs`faults
    ensures vfs.Valid() && n <= |src| && vfs.nodes == old(vfs.nodes)[id := File(Over(src[..n], old(vfs.nodes[id].content)))]
    ensures ok ==> n == |src| && vfs.faults == old(vfs.faults)
    ensures !ok ==> vfs.faults > old(vfs.faults) || Broken in grants
  {
    n := 0;
    var turn := 0;
    ghost var c := vfs.nodes[id].content;
    assert Over(src[..0], c) == c;
    while n < |src|
      invariant n <= |src| && vfs.Valid() && vfs.IsFile(id) && vfs.faults == old(vfs.faults)
      invariant vfs.nodes == old(vfs.nodes)[id := File(Over(src[..n], c))]
    {
      var left := if |src| - n < COPY_BUF then |src| - n else COPY_BUF;
      var read := if turn < |grants| then grants[turn] else UpTo(left);
      if read.Broken? {
        return n, false;
      }
      var got := if 0 < read.n < left then read.n else left;
      OverGrows(src, c, n, n + got);
      var wrote := vfs.Write(id, n, src[n..n + got]);
      if !wrote {
        return n, false;
      }
      n := n + got;
      turn := turn + 1;
    }
    ok := true;
  }

  /** `copy_out`: the stream gets the file's bytes under any schedule of short
      reads, or a start of them if a read or the stream, which takes at most
      `room` bytes, fails. */
  method CopyOut(vfs: Vfs, id: Id, room: nat) returns (dst: Bytes, ok: bool)
    requires vfs.IsFile(id)
    modifies vfs`hints, vfs`script, vfs`faults
    ensures dst <= vfs.nodes[id].content
    ensures ok <==> vfs.faults == old(vfs.faults) && |vfs.nodes[id].content| <= room
    ensures ok ==> dst == vfs.nodes[id].content
  {
    var size := |vfs.nodes[id].content|;
    dst := [];
    while |dst| < size
      invariant |dst| <= size && dst == vfs.nodes[id].content[..|dst|]
      invariant vfs.faults == old(vfs.faults) && |dst| <= room
    {
      var got := vfs.Read(id, |dst|, COPY_BUF);
      if got.None? {
        return dst, false;
      }
      if got.value == [] {
        break;
      }
      if |dst| + |got.value| > room {
        dst := dst + got.value[..room - |dst|];
        return dst, false;
      }
      dst := dst + got.value;
    }
    ok := true;
  }

  /** A stream put into a file and got out again, when nothing fails: the same
      stream exactly if the file was no longer than it before. */
  method PutThenGet(vfs: Vfs, id: Id, src: Bytes, grants: seq<Chunk>, room: nat) returns (dst: Bytes, ok: bool)
    requires vfs.Valid() && vfs.IsFile(id)
    modifies vfs
    ensures ok ==> dst == Over(src, old(vfs.nodes[id].content))
    ensures ok ==> (dst == src <==> |old(vfs.nodes[id].content)| <= |src|)
    ensures vfs.faults == old(vfs.faults) && Broken !in grants && |src| <= room && |old(vfs.nodes[id].content)| <= room ==> ok
  {
    var n;
    n, ok := CopyInto(vfs, id, src, grants);
    if !ok {
      return [], false;
    }
    assert src[..n] == src;
    dst, ok := CopyOut(vfs, id, room);
  }

  // ----- trees --------------------------------------------------------------

  /** Neither side has failed an operation since `f` and `g` were counted. */
  predicate NoFaults(src: Vfs, dst: Vfs, f: nat, g: nat)
    reads src, dst
  {
    src.faults == f && dst.faults == g
  }

  /** The file branch of `copy_subtree`: read what is left up to the buffer, write
      it at the same offset. */
  method CopyFile(src: Vfs, srcId: Id, dst: Vfs, newFile: Id) returns (ok: bool)
    requires src != dst && src.IsFile(srcId) && dst.Valid() && dst.IsFile(newFile) && dst.nodes[newFile] == File([])
    modifies src`hints, src`script, src`faults, dst`nodes, dst`script, dst`faults
    ensures dst.Valid() && old(src.faults) <= src.faults && old(dst.faults) <= dst.faults
    ensures ok <==> NoFaults(src, dst, old(src.faults), old(dst.faults))
    ensures ok ==> dst.nodes == old(dst.nodes)[newFile := src.nodes[srcId]]
    ensures !ok ==> exists n :: 0 <= n <= |src.nodes[srcId].content| && dst.nodes == old(dst.nodes)[newFile := File(src.nodes[srcId].content[..n])]
  {
    var total := |src.nodes[srcId].content|;
    var off := 0;
    while off < total
      invariant off <= total && dst.Valid() && NoFaults(src, dst, old(src.faults), old(dst.faults))
      invariant dst.nodes == old(dst.nodes)[newFile := File(src.nodes[srcId].content[..off])]
    {
      var want := if total - off < COPY_BUF then total - off else COPY_BUF;
      var got := src.Read(srcId, off, want);
      if got.None? {
        return false;
      }
      if got.value == [] {
        break;
      }
      assert dst.nodes[newFile].content[..off] + got.value + [] == src.nodes[srcId].content[..off + |got.value|];
      var wrote := dst.Write(newFile, off, got.value);
      if !wrote {
        return false;
      }
      off := off + |got.value|;
    }
    assert src.nodes[srcId].content[..total] == src.nodes[srcId].content;
    ok := true;
  }

  /** The progress of a copy into `dstDir`: the first `n` entries are there, all
      at inode numbers from `lo` on. */
  predicate Copied(s: Store, lo: Id, hi: Id, dstDir: Id, es: seq<Entry>, n: nat)
    requires n <= |es|
  {
    dstDir in s && s[dstDir].Dir? && Lists(s, lo, hi, s[dstDir].children, es[..n])
  }

  /** One more entry, copied without touching the ones before it. */
  lemma Extended(s: Store, lo: Id, mid: Id, dstDir: Id, es: seq<Entry>, n: nat, s': Store, hi: Id)
    requires n < |es| && dstDir < lo <= mid < hi && Copied(s, lo, mid, dstDir, es, n)
    requires dstDir in s' && s'[dstDir] == Dir(s[dstDir].children + [(es[n].name, mid)])
    requires forall i | lo <= i < mid && i in s :: i in s' && s'[i] == s[i]
    requires Represents(s', lo, hi, mid, es[n].tree)
    ensures Copied(s', lo, hi, dstDir, es, n + 1)
  {
    var children, grown := s[dstDir].children, s'[dstDir].children;
    ListsFramed(s, lo, mid, children, es[..n], s', lo, hi);
    forall k | 0 <= k < n + 1
      ensures grown[k].0 == es[..n + 1][k].name && Represents(s', lo, hi, grown[k].1, es[..n + 1][k].tree)
    {
      if k < n {
        assert grown[k] == children[k] && es[..n][k] == es[k];
      }
    }
  }

  /** `copy_subtree` into an empty directory: it ends for every finite tree, and
      when it reports success the destination has the same names, kinds, symlink
      targets and bytes, in inodes of its own. It succeeds exactly when the
      destination takes every name and target and no operation fails. */
  method CopySubtree(src: Vfs, srcDir: Id, dst: Vfs, dstDir: Id, ghost es: seq<Entry>) returns (ok: bool)
    requires src != dst && dst.Valid() && dst.IsDir(dstDir) && dst.nodes[dstDir] == Dir([])
    requires src.IsDir(srcDir) && Lists(src.nodes, 0, src.next, src.nodes[srcDir].children, es)
    modifies src`hints, src`script, src`faults, dst`nodes, dst`next, dst`script, dst`faults
    ensures dst.Valid() && old(dst.next) <= dst.next
    ensures forall i | i in old(dst.nodes) && i != dstDir :: i in dst.nodes && dst.nodes[i] == old(dst.nodes[i])
    ensures ok ==> Copied(dst.nodes, old(dst.next), dst.next, dstDir, es, |es|)
    ensures old(src.faults) <= src.faults && old(dst.faults) <= dst.faults
    ensures ok <==> Acceptable(es, dst.goodName, dst.goodTarget) && NoFaults(src, dst, old(src.faults), old(dst.faults))
    ensures WellKept(src.nodes, dst.goodName, dst.goodTarget) && NoFaults(src, dst, old(src.faults), old(dst.faults)) ==> ok
    decreases es
  {
    var entries := src.nodes[srcDir].children;
    if WellKept(src.nodes, dst.goodName, dst.goodTarget) {
      KeptListIsAcceptable(src.nodes, 0, src.next, srcDir, es, dst.goodName, dst.goodTarget);
    }
    ghost var lo := dst.next;
    assert es[..0] == [];
    for i := 0 to |entries|
      invariant dst.Valid() && lo <= dst.next && NoFaults(src, dst, old(src.faults), old(dst.faults))
      invariant forall j | j in old(dst.nodes) && j != dstDir :: j in dst.nodes && dst.nodes[j] == old(dst.nodes[j])
      invariant Copied(dst.nodes, lo, dst.next, dstDir, es, i) && Acceptable(es[..i], dst.goodName, dst.goodTarget)
    {
      ghost var before, mid := dst.nodes, dst.next;
      assert Represents(src.nodes, 0, src.next, entries[i].1, es[i].tree);
      NamesSoFar(before, lo, mid, dstDir, es, i);
      ok := CopyEntry(src, entries[i].1, dst, dstDir, entries[i].0, es[i].tree);
      OneMore(es, i, dst.goodName, dst.goodTarget);
      if !ok {
        return false;
      }
      Framed(dst.nodes, mid, dst.next, mid, es[i].tree, dst.nodes, lo, dst.next);
      Extended(before, lo, mid, dstDir, es, i, dst.nodes, dst.next);
    }
    ok := true;
    assert es[..|es|] == es;
  }

  /** The names already in the directory are those of the entries before. */
  lemma NamesSoFar(s: Store, lo: Id, hi: Id, dstDir: Id, es: seq<Entry>, n: nat)
    requires n < |es| && Copied(s, lo, hi, dstDir, es, n)
    ensures Unused(s[dstDir].children, es[n].name) <==> forall k | 0 <= k < n :: es[k].name != es[n].name
  {
    var children := s[dstDir].children;
    forall k | 0 <= k < n ensures children[k].0 == es[k].name && children[k] in children {
      assert es[..n][k] == es[k];
    }
    if forall k | 0 <= k < n :: es[k].name != es[n].name {
      forall c | c in children ensures c.0 != es[n].name {
        var k :| 0 <= k < |children| && children[k] == c;
      }
    }
  }

  /** The destination takes entry `n` after those before it. */
  predicate Fits(es: seq<Entry>, n: nat, goodName: string -> bool, goodTarget: string -> bool)
    requires n < |es|
  {
    && goodName(es[n].name) && AcceptableTree(es[n].tree, goodName, goodTarget)
    && forall k | 0 <= k < n :: es[k].name != es[n].name
  }

  /** What the next entry adds to an acceptable start; an unacceptable entry makes
      the whole unacceptable. */
  lemma OneMore(es: seq<Entry>, n: nat, goodName: string -> bool, goodTarget: string -> bool)
    requires n < |es| && Acceptable(es[..n], goodName, goodTarget)
    ensures Acceptable(es[..n + 1], goodName, goodTarget) <==> Fits(es, n, goodName, goodTarget)
    ensures !Fits(es, n, goodName, goodTarget) ==> !Acceptable(es, goodName, goodTarget)
  {
    if Fits(es, n, goodName, goodTarget) {
      FittingExtends(es, n, goodName, goodTarget);
    } else {
      MisfitSpoils(es, n, goodName, goodTarget);
      var more := es[..n + 1];
      assert forall k | 0 <= k <= n :: more[k] == es[k];
      MisfitSpoils(more, n, goodName, goodTarget);
    }
  }

  lemma FittingExtends(es: seq<Entry>, n: nat, goodName: string -> bool, goodTarget: string -> bool)
    requires n < |es| && Acceptable(es[..n], goodName, goodTarget) && Fits(es, n, goodName, goodTarget)
    ensures Acceptable(es[..n + 1], goodName, goodTarget)
  {
    var start, more := es[..n], es[..n + 1];
    forall k | 0 <= k < n ensures more[k] == es[k] == start[k] {}
    forall i, j | 0 <= i < j < n + 1 ensures more[i].name != more[j].name {
      if j < n {
        assert start[i].name != start[j].name;
      }
    }
    forall k | 0 <= k < n + 1 ensures goodName(more[k].name) && AcceptableTree(more[k].tree, goodName, goodTarget) {
      if k < n {
        assert goodName(start[k].name) && AcceptableTree(start[k].tree, goodName, goodTarget);
      }
    }
  }

  lemma MisfitSpoils(es: seq<Entry>, n: nat, goodName: string -> bool, goodTarget: string -> bool)
    requires n < |es| && !Fits(es, n, goodName, goodTarget)
    ensures !Acceptable(es, goodName, goodTarget)
  {}

  /** One turn of its loop: the entry's node, then what is in it. */
  method CopyEntry(src: Vfs, srcId: Id, dst: Vfs, dstDir: Id, name: string, ghost t: Tree) returns (ok: bool)
    requires src != dst && dst.Valid() && dst.IsDir(dstDir)
    requires Represents(src.nodes, 0, src.next, srcId, t)
    modifies src`hints, src`script, src`faults, dst`nodes, dst`next, dst`script, dst`faults
    ensures dst.Valid() && old(dst.next) <= dst.next
    ensures forall i | i in old(dst.nodes) && i != dstDir :: i in dst.nodes && dst.nodes[i] == old(dst.nodes[i])
    ensures ok ==> dstDir in dst.nodes && dst.nodes[dstDir] == Dir(old(dst.nodes[dstDir].children) + [(name, old(dst.next))])
    ensures ok ==> Represents(dst.nodes, old(dst.next), dst.next, old(dst.next), t)
    ensures old(src.faults) <= src.faults && old(dst.faults) <= dst.faults
    ensures ok <==>
      && dst.goodName(name) && AcceptableTree(t, dst.goodName, dst.goodTarget) && Unused(old(dst.nodes[dstDir].children), name)
      && NoFaults(src, dst, old(src.faults), old(dst.faults))
    decreases t
  {
    ghost var mid := dst.next;
    match src.nodes[srcId] {
      case Dir(_) =>
        var newDir := dst.Add(dstDir, name, Dir([]));
        if newDir.None? {
          return false;
        }
        ok := CopySubtree(src, srcId, dst, newDir.value, t.entries);
        if ok {
          assert t.entries[..|t.entries|] == t.entries;
          ListsFramed(dst.nodes, mid + 1, dst.next, dst.nodes[mid].children, t.entries, dst.nodes, mid, dst.next);
        }
      case File(_) =>
        var newFile := dst.Add(dstDir, name, File([]));
        if newFile.None? {
          return false;
        }
        ok := CopyFile(src, srcId, dst, newFile.value);
      case Symlink(target) =>
        var link := dst.Add(dstDir, name, Symlink(target));
        ok := link.Some?;
    }
  }
}
