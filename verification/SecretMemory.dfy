/** Memory that holds keys: page locks, mappings and descriptors over whole runs
    of allocating, cloning and dropping secret boxes. */
module SecretMemory {
  import opened Common

  type PageSize = n: nat | KEY_LEN <= n witness 4096

  /** Where a secret lives. A memfd or private page belongs to one secret; a heap
      secret may straddle two pages and share them. */
  datatype Backing = MemfdSecret(page: nat, fd: nat) | Page(page: nat) | Heap(at: nat)

  /** A live box; `pinned` says that locking it worked when it was made. */
  datatype Box = Box(backing: Backing, pinned: bool)

  type Boxes = map<nat, Box>

  /** What the kernel keeps for secret boxes: mapped pages, locked pages and open
      descriptors. `stray` are the heap pages among the locked ones; `lost` and
      `lostFds` are what a failing call at a drop left mapped or open. */
  datatype Kernel = Kernel(mapped: set<nat>, locked: set<nat>, stray: set<nat>, fds: set<nat>, lost: set<nat>, lostFds: set<nat>)

  datatype State = State(size: PageSize, boxes: Boxes, kernel: Kernel, mem: map<nat, byte>)

  // ----- places -------------------------------------------------------------

  function At(size: PageSize, b: Backing): nat {
    if b.Heap? then b.at else b.page * size
  }

  function Pages(size: PageSize, b: Backing): set<nat> {
    if b.Heap? then {b.at / size, (b.at + KEY_LEN - 1) / size} else {b.page}
  }

  predicate Within(size: PageSize, b: Backing, a: nat) { At(size, b) <= a < At(size, b) + KEY_LEN }

  lemma DivIs(a: nat, q: nat, r: nat, n: nat)
    requires r < n && a == q * n + r
    ensures a / n == q
  {
    var d := a / n - q;
    assert d * n == r - a % n;
    assert d >= 1 ==> d * n >= n;
    assert d <= -1 ==> d * n + n <= 0;
  }

  /** Going on by less than a page reaches this page or the next. */
  lemma NextPage(a: nat, k: nat, n: nat)
    requires n > 0 && k < n
    ensures (a + k) / n == if a % n + k < n then a / n else a / n + 1
  {
    var q, r := a / n, a % n;
    assert a == q * n + r;
    if r + k < n {
      DivIs(a + k, q, r + k, n);
    } else {
      assert (q + 1) * n == q * n + n;
      DivIs(a + k, q + 1, r + k - n, n);
    }
  }

  /** A secret's bytes lie on its pages. */
  lemma OnItsPages(size: PageSize, b: Backing, a: nat)
    requires Within(size, b, a)
    ensures a / size in Pages(size, b)
  {
    if b.Heap? {
      NextPage(b.at, a - b.at, size);
      NextPage(b.at, KEY_LEN - 1, size);
    } else {
      DivIs(a, b.page, a - b.page * size, size);
    }
  }

  predicate Apart(size: PageSize, a: Backing, b: Backing) {
    At(size, a) + KEY_LEN <= At(size, b) || At(size, b) + KEY_LEN <= At(size, a)
  }

  lemma PagesKeepApart(size: PageSize, a: Backing, b: Backing)
    requires Pages(size, a) !! Pages(size, b)
    ensures Apart(size, a, b)
  {
    var later := if At(size, a) <= At(size, b) then At(size, b) else At(size, a);
    if Within(size, a, later) && Within(size, b, later) {
      OnItsPages(size, a, later);
      OnItsPages(size, b, later);
    }
  }

  // ----- memory -------------------------------------------------------------

  function Peek(mem: map<nat, byte>, a: nat): byte { if a in mem then mem[a] else 0 }

  function Put(mem: map<nat, byte>, at: nat, data: seq<byte>): map<nat, byte>
    decreases |data|
  {
    if data == [] then mem else Put(mem[at := data[0]], at + 1, data[1..])
  }

  lemma {:induction false} PutPeek(mem: map<nat, byte>, at: nat, data: seq<byte>, a: nat)
    ensures Peek(Put(mem, at, data), a) == if at <= a < at + |data| then data[a - at] else Peek(mem, a)
    decreases |data|
  {
    if data != [] {
      PutPeek(mem[at := data[0]], at + 1, data[1..], a);
    }
  }

  function Content(size: PageSize, mem: map<nat, byte>, b: Backing): (c: seq<byte>)
    ensures |c| == KEY_LEN
  {
    Bytes(mem, At(size, b), KEY_LEN)
  }

  function Bytes(mem: map<nat, byte>, at: nat, n: nat): (c: seq<byte>)
    ensures |c| == n && forall k | 0 <= k < n :: c[k] == Peek(mem, at + k)
  {
    if n == 0 then [] else Bytes(mem, at, n - 1) + [Peek(mem, at + n - 1)]
  }

  const BLANK: seq<byte> := Repeat(0, KEY_LEN)

  lemma PutGet(size: PageSize, mem: map<nat, byte>, b: Backing, data: seq<byte>)
    requires |data| == KEY_LEN
    ensures Content(size, Put(mem, At(size, b), data), b) == data
  {
    forall k | 0 <= k < KEY_LEN ensures Content(size, Put(mem, At(size, b), data), b)[k] == data[k] {
      PutPeek(mem, At(size, b), data, At(size, b) + k);
    }
  }

  lemma PutAside(size: PageSize, mem: map<nat, byte>, a: Backing, b: Backing, data: seq<byte>)
    requires Apart(size, a, b) && |data| == KEY_LEN
    ensures Content(size, Put(mem, At(size, a), data), b) == Content(size, mem, b)
  {
    var mem' := Put(mem, At(size, a), data);
    forall k | 0 <= k < KEY_LEN ensures Content(size, mem', b)[k] == Content(size, mem, b)[k] {
      PutPeek(mem, At(size, a), data, At(size, b) + k);
    }
  }

  // ----- allocating and dropping --------------------------------------------

  /** What the system grants one allocation: each call's result, `None` or
      `false` when it fails. */
  datatype Grant = Grant(
    memfd: Option<nat>, sized: bool, truncates: bool, shared: Option<nat>, closes: bool,
    anon: Option<nat>, locks: bool, heapAt: nat, heapLocks: set<nat>)

  function Choice(g: Grant): Backing {
    if g.memfd.Some? && g.sized && g.truncates && g.shared.Some? then MemfdSecret(g.shared.value, g.memfd.value)
    else if g.sized && g.anon.Some? then Page(g.anon.value)
    else Heap(g.heapAt)
  }

  function Made(size: PageSize, g: Grant): (b: Box)
    ensures b.backing == Choice(g)
  {
    Box(Choice(g), match Choice(g)
      case MemfdSecret(_, _) => true
      case Page(_) => g.locks
      case Heap(at) => Pages(size, Heap(at)) <= g.heapLocks)
  }

  /** A memfd that could not be sized or mapped: closed again, unless that fails. */
  predicate Abandons(g: Grant) { g.memfd.Some? && !Choice(g).MemfdSecret? && !g.closes }

  function Tried(k: Kernel, g: Grant): Kernel {
    if Abandons(g) then k.(fds := k.fds + {g.memfd.value}, lostFds := k.lostFds + {g.memfd.value}) else k
  }

  function Claim(size: PageSize, before: Kernel, g: Grant): Kernel {
    var k := Tried(before, g);
    match Choice(g)
    case MemfdSecret(page, fd) => k.(mapped := k.mapped + {page}, locked := k.locked + {page}, fds := k.fds + {fd})
    case Page(page) => k.(mapped := k.mapped + {page}, locked := if g.locks then k.locked + {page} else k.locked)
    case Heap(at) =>
      var got := Pages(size, Heap(at)) * g.heapLocks;
      k.(locked := k.locked + got, stray := k.stray + got)
  }

  /** Which of a drop's system calls fail. */
  datatype Faults = Faults(munlock: bool, munmap: bool, close: bool)

  function Unmapped(k: Kernel, page: nat, fails: bool): Kernel {
    if fails then k.(lost := k.lost + {page}) else k.(mapped := k.mapped - {page}, locked := k.locked - {page})
  }

  function Closed(k: Kernel, fd: nat, fails: bool): Kernel {
    if fails then k.(lostFds := k.lostFds + {fd}) else k.(fds := k.fds - {fd})
  }

  function Unlocked(k: Kernel, page: nat, fails: bool): Kernel {
    if fails then k else k.(locked := k.locked - {page})
  }

  function GiveBack(k: Kernel, b: Backing, f: Faults): Kernel {
    match b
    case MemfdSecret(page, fd) => Closed(Unmapped(k, page, f.munmap), fd, f.close)
    case Page(page) => Unmapped(Unlocked(k, page, f.munlock), page, f.munmap)
    case Heap(_) => k
  }

  function Alloc(s: State, id: nat, g: Grant): State {
    State(s.size, s.boxes[id := Made(s.size, g)], Claim(s.size, s.kernel, g), Put(s.mem, At(s.size, Choice(g)), BLANK))
  }

  function Drop(s: State, id: nat, f: Faults): State
    requires id in s.boxes
  {
    var b := s.boxes[id].backing;
    State(s.size, s.boxes - {id}, GiveBack(s.kernel, b, f), Put(s.mem, At(s.size, b), BLANK))
  }

  function Fill(s: State, id: nat, data: seq<byte>): State
    requires id in s.boxes
  {
    s.(mem := Put(s.mem, At(s.size, s.boxes[id].backing), data))
  }

  /** A clone: a new box, then the bytes copied across. */
  function Copy(s: State, from: nat, id: nat, g: Grant): State
    requires from in s.boxes
  {
    var s1 := Alloc(s, id, g);
    Fill(s1, id, Content(s.size, s1.mem, s.boxes[from].backing))
  }

  // ----- runs ---------------------------------------------------------------

  /** What the program does, and the allocator giving a page back to the kernel,
      which unlocks it. */
  datatype Command =
    | Allocate(id: nat, g: Grant)
    | Write(id: nat, data: seq<byte>)
    | Clone(from: nat, id: nat, g: Grant)
    | Release(id: nat, f: Faults)
    | Trim(page: nat)

  predicate Unused(size: PageSize, boxes: Boxes, page: nat) { forall j | j in boxes :: page !in Pages(size, boxes[j].backing) }

  /** The system keeps to its part: a new descriptor is not open, a new mapping
      lies on no page in use, heap memory overlaps no live secret. */
  predicate Sane(size: PageSize, boxes: Boxes, k: Kernel, g: Grant) {
    (g.memfd.Some? ==> g.memfd.value !in k.fds) && match Choice(g)
    case MemfdSecret(page, _) => Unused(size, boxes, page) && page !in k.stray + k.lost
    case Page(page) => Unused(size, boxes, page) && page !in k.stray + k.lost
    case Heap(at) => Pages(size, Heap(at)) !! k.mapped && forall j | j in boxes :: Apart(size, Heap(at), boxes[j].backing)
  }

  predicate Legal(s: State, c: Command) {
    match c
    case Allocate(id, g) => id !in s.boxes && Sane(s.size, s.boxes, s.kernel, g)
    case Write(id, data) => id in s.boxes && |data| == KEY_LEN
    case Clone(from, id, g) => from in s.boxes && id !in s.boxes && Sane(s.size, s.boxes, s.kernel, g)
    case Release(id, _) => id in s.boxes
    case Trim(page) => Unused(s.size, s.boxes, page)
  }

  function Step(s: State, c: Command): State
    requires Legal(s, c)
  {
    match c
    case Allocate(id, g) => Alloc(s, id, g)
    case Write(id, data) => Fill(s, id, data)
    case Clone(from, id, g) => Copy(s, from, id, g)
    case Release(id, f) => Drop(s, id, f)
    case Trim(page) => s.(kernel := s.kernel.(locked := s.kernel.locked - {page}, stray := s.kernel.stray - {page}))
  }

  predicate LegalRun(s: State, cs: seq<Command>)
    decreases |cs|
  {
    cs == [] || (Legal(s, cs[0]) && LegalRun(Step(s, cs[0]), cs[1..]))
  }

  function Run(s: State, cs: seq<Command>): State
    requires LegalRun(s, cs)
    decreases |cs|
  {
    if cs == [] then s else Run(Step(s, cs[0]), cs[1..])
  }

  // ----- the invariant ------------------------------------------------------

  function OwnPages(boxes: Boxes): set<nat> { set j | j in boxes && !boxes[j].backing.Heap? :: boxes[j].backing.page }

  function OwnFds(boxes: Boxes): set<nat> { set j | j in boxes && boxes[j].backing.MemfdSecret? :: boxes[j].backing.fd }

  function PinnedPages(boxes: Boxes): set<nat> {
    set j | j in boxes && !boxes[j].backing.Heap? && boxes[j].pinned :: boxes[j].backing.page
  }

  /** Two live boxes share nothing but, if both are on the heap, a page. */
  predicate Separate(size: PageSize, a: Backing, b: Backing) {
    && Apart(size, a, b)
    && ((a.Heap? && b.Heap?) || Pages(size, a) !! Pages(size, b))
    && (a.MemfdSecret? && b.MemfdSecret? ==> a.fd != b.fd)
  }

  predicate AllSeparate(size: PageSize, boxes: Boxes) {
    forall i, j | i in boxes && j in boxes && i != j :: Separate(size, boxes[i].backing, boxes[j].backing)
  }

  /** Mappings and descriptors are those of live boxes and what was lost, and the
      locked pages those of boxes with a page of their own plus what heap boxes
      left locked, lost pages aside. */
  predicate Balanced(boxes: Boxes, k: Kernel) {
    && k.mapped == OwnPages(boxes) + k.lost && OwnPages(boxes) !! k.lost
    && k.fds == OwnFds(boxes) + k.lostFds && OwnFds(boxes) !! k.lostFds
    && k.locked - k.lost == PinnedPages(boxes) + k.stray && k.stray !! k.mapped
  }

  predicate Locked(size: PageSize, k: Kernel, b: Backing) { Pages(size, b) <= k.locked }

  predicate PinnedLocked(size: PageSize, boxes: Boxes, k: Kernel) {
    forall j | j in boxes && boxes[j].pinned :: Locked(size, k, boxes[j].backing)
  }

  /** Nothing of a secret is left anywhere but in live boxes. */
  ghost predicate NoResidue(size: PageSize, boxes: Boxes, mem: map<nat, byte>) {
    forall a: nat :: Peek(mem, a) != 0 ==> exists j :: j in boxes && Within(size, boxes[j].backing, a)
  }

  predicate Sound(size: PageSize, boxes: Boxes, k: Kernel) {
    AllSeparate(size, boxes) && Balanced(boxes, k) && PinnedLocked(size, boxes, k)
  }

  ghost predicate Inv(s: State) { Sound(s.size, s.boxes, s.kernel) && NoResidue(s.size, s.boxes, s.mem) }

  // ----- every step keeps it ------------------------------------------------

  lemma NewIsSeparate(size: PageSize, boxes: Boxes, k: Kernel, g: Grant)
    requires Balanced(boxes, k) && Sane(size, boxes, k, g)
    ensures forall j | j in boxes :: Separate(size, Choice(g), boxes[j].backing)
  {
    var b := Choice(g);
    forall j | j in boxes ensures Separate(size, b, boxes[j].backing) {
      var c := boxes[j].backing;
      if b.Heap? {
        assert !c.Heap? ==> c.page in OwnPages(boxes);
      } else {
        PagesKeepApart(size, b, c);
        assert c.MemfdSecret? ==> c.fd in OwnFds(boxes);
      }
    }
  }

  lemma SeparateIsMutual(size: PageSize, a: Backing, b: Backing)
    ensures Separate(size, a, b) <==> Separate(size, b, a)
  {}

  lemma AddKeepsSeparate(size: PageSize, boxes: Boxes, id: nat, b: Box)
    requires AllSeparate(size, boxes) && id !in boxes && forall j | j in boxes :: Separate(size, b.backing, boxes[j].backing)
    ensures AllSeparate(size, boxes[id := b])
  {
    var boxes' := boxes[id := b];
    forall i, j | i in boxes' && j in boxes' && i != j ensures Separate(size, boxes'[i].backing, boxes'[j].backing) {
      if j == id {
        SeparateIsMutual(size, boxes'[i].backing, boxes'[j].backing);
      }
    }
  }

  lemma AddedPages(boxes: Boxes, id: nat, b: Box)
    requires id !in boxes
    ensures OwnPages(boxes[id := b]) == OwnPages(boxes) + if b.backing.Heap? then {} else {b.backing.page}
    ensures PinnedPages(boxes[id := b]) == PinnedPages(boxes) + if b.backing.Heap? || !b.pinned then {} else {b.backing.page}
    ensures OwnFds(boxes[id := b]) == OwnFds(boxes) + if b.backing.MemfdSecret? then {b.backing.fd} else {}
  {
    var boxes' := boxes[id := b];
    assert boxes'[id] == b && forall j | j in boxes :: boxes'[j] == boxes[j];
  }

  lemma ClaimKeepsBalance(size: PageSize, boxes: Boxes, k: Kernel, id: nat, g: Grant)
    requires Balanced(boxes, k) && id !in boxes && Sane(size, boxes, k, g)
    ensures Balanced(boxes[id := Made(size, g)], Claim(size, k, g))
  {
    AddedPages(boxes, id, Made(size, g));
  }

  lemma ClaimKeepsLocks(size: PageSize, boxes: Boxes, k: Kernel, id: nat, g: Grant)
    requires PinnedLocked(size, boxes, k) && id !in boxes
    ensures PinnedLocked(size, boxes[id := Made(size, g)], Claim(size, k, g))
  {
    var boxes', k' := boxes[id := Made(size, g)], Claim(size, k, g);
    forall j | j in boxes' && boxes'[j].pinned ensures Locked(size, k', boxes'[j].backing) {
      if j != id {
        assert Locked(size, k, boxes[j].backing);
      }
    }
  }

  lemma ClaimKeepsSound(size: PageSize, boxes: Boxes, k: Kernel, id: nat, g: Grant)
    requires Sound(size, boxes, k) && id !in boxes && Sane(size, boxes, k, g)
    ensures Sound(size, boxes[id := Made(size, g)], Claim(size, k, g))
  {
    NewIsSeparate(size, boxes, k, g);
    AddKeepsSeparate(size, boxes, id, Made(size, g));
    ClaimKeepsBalance(size, boxes, k, id, g);
    ClaimKeepsLocks(size, boxes, k, id, g);
  }

  lemma RemovedPages(size: PageSize, boxes: Boxes, id: nat)
    requires AllSeparate(size, boxes) && id in boxes
    ensures var b := boxes[id].backing;
      && OwnPages(boxes - {id}) == OwnPages(boxes) - (if b.Heap? then {} else {b.page})
      && PinnedPages(boxes - {id}) == PinnedPages(boxes) - (if b.Heap? then {} else {b.page})
      && OwnFds(boxes - {id}) == OwnFds(boxes) - (if b.MemfdSecret? then {b.fd} else {})
  {
    var b, rest := boxes[id].backing, boxes - {id};
    forall j | j in rest ensures rest[j] == boxes[j] && Separate(size, b, boxes[j].backing) {}
  }

  lemma GiveBackKeepsSound(size: PageSize, boxes: Boxes, k: Kernel, id: nat, f: Faults)
    requires Sound(size, boxes, k) && id in boxes
    ensures Sound(size, boxes - {id}, GiveBack(k, boxes[id].backing, f))
  {
    var b, rest, k' := boxes[id].backing, boxes - {id}, GiveBack(k, boxes[id].backing, f);
    RemovedPages(size, boxes, id);
    assert !b.Heap? ==> b.page in OwnPages(boxes);
    assert b.MemfdSecret? ==> b.fd in OwnFds(boxes);
    forall j | j in rest && rest[j].pinned ensures Locked(size, k', rest[j].backing) {
      assert Locked(size, k, boxes[j].backing);
      assert Separate(size, b, boxes[j].backing);
    }
  }

  lemma BlankLeavesNoResidue(size: PageSize, boxes: Boxes, mem: map<nat, byte>, b: Backing, rest: Boxes)
    requires NoResidue(size, boxes, mem)
    requires forall j | j in boxes && boxes[j].backing != b :: j in rest && rest[j] == boxes[j]
    ensures NoResidue(size, rest, Put(mem, At(size, b), BLANK))
  {
    var mem' := Put(mem, At(size, b), BLANK);
    forall a: nat | Peek(mem', a) != 0 ensures exists j :: j in rest && Within(size, rest[j].backing, a) {
      PutPeek(mem, At(size, b), BLANK, a);
      var j :| j in boxes && Within(size, boxes[j].backing, a);
      assert j in rest;
    }
  }

  lemma FillLeavesNoResidue(size: PageSize, boxes: Boxes, mem: map<nat, byte>, id: nat, data: seq<byte>)
    requires NoResidue(size, boxes, mem) && id in boxes && |data| == KEY_LEN
    ensures NoResidue(size, boxes, Put(mem, At(size, boxes[id].backing), data))
  {
    var b := boxes[id].backing;
    forall a: nat | Peek(Put(mem, At(size, b), data), a) != 0 ensures exists j :: j in boxes && Within(size, boxes[j].backing, a) {
      PutPeek(mem, At(size, b), data, a);
      assert Within(size, b, a) || Peek(mem, a) != 0;
    }
  }

  lemma AllocKeeps(s: State, id: nat, g: Grant)
    requires Inv(s) && Legal(s, Allocate(id, g))
    ensures Inv(Alloc(s, id, g))
  {
    ClaimKeepsSound(s.size, s.boxes, s.kernel, id, g);
    BlankLeavesNoResidue(s.size, s.boxes, s.mem, Choice(g), s.boxes[id := Made(s.size, g)]);
  }

  lemma DropKeeps(s: State, id: nat, f: Faults)
    requires Inv(s) && id in s.boxes
    ensures Inv(Drop(s, id, f))
  {
    GiveBackKeepsSound(s.size, s.boxes, s.kernel, id, f);
    BlankLeavesNoResidue(s.size, s.boxes, s.mem, s.boxes[id].backing, s.boxes - {id});
  }

  lemma TrimKeeps(s: State, page: nat)
    requires Inv(s) && Legal(s, Trim(page))
    ensures Inv(Step(s, Trim(page)))
  {
    var k, k' := s.kernel, Step(s, Trim(page)).kernel;
    forall j | j in s.boxes && s.boxes[j].pinned ensures Locked(s.size, k', s.boxes[j].backing) {
      assert Locked(s.size, k, s.boxes[j].backing);
    }
    assert forall j | j in s.boxes && !s.boxes[j].backing.Heap? :: s.boxes[j].backing.page in Pages(s.size, s.boxes[j].backing);
  }

  lemma StepKeeps(s: State, c: Command)
    requires Inv(s) && Legal(s, c)
    ensures Inv(Step(s, c))
  {
    match c
    case Allocate(id, g) => AllocKeeps(s, id, g);
    case Write(id, data) => FillLeavesNoResidue(s.size, s.boxes, s.mem, id, data);
    case Clone(from, id, g) =>
      AllocKeeps(s, id, g);
      var s1 := Alloc(s, id, g);
      FillLeavesNoResidue(s.size, s1.boxes, s1.mem, id, Content(s.size, s1.mem, s.boxes[from].backing));
    case Release(id, f) => DropKeeps(s, id, f);
    case Trim(page) => TrimKeeps(s, page);
  }

  // ----- whole runs ---------------------------------------------------------

  /** Over every run: mappings, descriptors and locks stay those of live boxes,
      and no secret byte is left outside them. */
  lemma {:induction false} RunKeeps(s: State, cs: seq<Command>)
    requires Inv(s) && LegalRun(s, cs)
    ensures Inv(Run(s, cs))
    decreases |cs|
  {
    if cs != [] {
      StepKeeps(s, cs[0]);
      RunKeeps(Step(s, cs[0]), cs[1..]);
    }
  }

  /** Once nothing is live, all but what was lost is given back: no mapping, no
      descriptor, no lock but on heap pages, and memory that is zero throughout. */
  lemma AllGivenBack(s: State, cs: seq<Command>)
    requires Inv(s) && LegalRun(s, cs) && Run(s, cs).boxes == map[]
    ensures var k := Run(s, cs).kernel; k.mapped == k.lost && k.fds == k.lostFds && k.locked - k.lost == k.stray
    ensures forall a: nat :: Peek(Run(s, cs).mem, a) == 0
  {
    RunKeeps(s, cs);
  }

  /** The command leaves a mapping or a descriptor behind. */
  predicate Leaks(s: State, c: Command) {
    match c
    case Allocate(_, g) => Abandons(g)
    case Clone(_, _, g) => Abandons(g)
    case Release(id, f) => id in s.boxes && ((!s.boxes[id].backing.Heap? && f.munmap) || (s.boxes[id].backing.MemfdSecret? && f.close))
    case _ => false
  }

  predicate NoneLeaks(s: State, cs: seq<Command>)
    requires LegalRun(s, cs)
    decreases |cs|
  {
    cs == [] || (!Leaks(s, cs[0]) && NoneLeaks(Step(s, cs[0]), cs[1..]))
  }

  predicate NothingLost(s: State) { s.kernel.lost == {} && s.kernel.lostFds == {} }

  lemma LossIffLeak(s: State, c: Command)
    requires Legal(s, c)
    ensures NothingLost(Step(s, c)) <==> NothingLost(s) && !Leaks(s, c)
  {}

  /** Something is lost over a run exactly if some unmap or some close fails; what
      is lost is never found again. */
  lemma {:induction false} LostIff(s: State, cs: seq<Command>)
    requires LegalRun(s, cs)
    ensures NothingLost(Run(s, cs)) <==> NothingLost(s) && NoneLeaks(s, cs)
    decreases |cs|
  {
    if cs != [] {
      LossIffLeak(s, cs[0]);
      LostIff(Step(s, cs[0]), cs[1..]);
    }
  }

  predicate Drops(c: Command, id: nat) { c.Release? && c.id == id }

  /** A step that does not drop a box leaves it in place. */
  lemma StaysInPlace(s: State, c: Command, id: nat)
    requires Legal(s, c) && id in s.boxes && !Drops(c, id)
    ensures id in Step(s, c).boxes && Step(s, c).boxes[id] == s.boxes[id] && Step(s, c).size == s.size
  {}

  /** A secret whose pages were locked when it was made stays where it is and
      locked until its own drop, whatever other boxes do. */
  lemma {:induction false} LockedUntilDropped(s: State, cs: seq<Command>, id: nat)
    requires Inv(s) && LegalRun(s, cs) && id in s.boxes && s.boxes[id].pinned && forall c | c in cs :: !Drops(c, id)
    ensures var s' := Run(s, cs); id in s'.boxes && s'.boxes[id] == s.boxes[id] && Locked(s'.size, s'.kernel, s.boxes[id].backing)
    decreases |cs|
  {
    if cs != [] {
      StepKeeps(s, cs[0]);
      StaysInPlace(s, cs[0], id);
      LockedUntilDropped(Step(s, cs[0]), cs[1..], id);
    }
  }

  predicate LeavesContent(c: Command, id: nat) { !Drops(c, id) && (c.Write? ==> c.id != id) }

  /** A fresh box is zero, and a clone holds what its original holds. */
  lemma FreshAndCloned(s: State, c: Command)
    requires Inv(s) && Legal(s, c) && (c.Allocate? || c.Clone?)
    ensures c.id in Step(s, c).boxes
    ensures Content(s.size, Step(s, c).mem, Step(s, c).boxes[c.id].backing)
         == if c.Clone? then Content(s.size, s.mem, s.boxes[c.from].backing) else BLANK
  {
    var s1, b := Alloc(s, c.id, c.g), Choice(c.g);
    PutGet(s.size, s.mem, b, BLANK);
    if c.Clone? {
      var from := s.boxes[c.from].backing;
      NewIsSeparate(s.size, s.boxes, s.kernel, c.g);
      PutAside(s.size, s.mem, b, from, BLANK);
      PutGet(s.size, s1.mem, b, Content(s.size, s1.mem, from));
    }
  }

  lemma StepLeavesContent(s: State, c: Command, id: nat)
    requires Inv(s) && Legal(s, c) && id in s.boxes && LeavesContent(c, id)
    ensures Content(s.size, Step(s, c).mem, s.boxes[id].backing) == Content(s.size, s.mem, s.boxes[id].backing)
  {
    var b := s.boxes[id].backing;
    match c
    case Allocate(_, g) =>
      NewIsSeparate(s.size, s.boxes, s.kernel, g);
      PutAside(s.size, s.mem, Choice(g), b, BLANK);
    case Write(other, data) =>
      assert Separate(s.size, s.boxes[other].backing, b);
      PutAside(s.size, s.mem, s.boxes[other].backing, b, data);
    case Clone(from, new_, g) =>
      var s1 := Alloc(s, new_, g);
      NewIsSeparate(s.size, s.boxes, s.kernel, g);
      PutAside(s.size, s.mem, Choice(g), b, BLANK);
      PutAside(s.size, s1.mem, Choice(g), b, Content(s.size, s1.mem, s.boxes[from].backing));
    case Release(other, _) =>
      assert Separate(s.size, s.boxes[other].backing, b);
      PutAside(s.size, s.mem, s.boxes[other].backing, b, BLANK);
    case Trim(_) =>
  }

  /** No run of other boxes' allocations, clones, writes and drops reaches into a
      secret. */
  lemma {:induction false} ContentStays(s: State, cs: seq<Command>, id: nat)
    requires Inv(s) && LegalRun(s, cs) && id in s.boxes && forall c | c in cs :: LeavesContent(c, id)
    ensures id in Run(s, cs).boxes && Content(s.size, Run(s, cs).mem, s.boxes[id].backing) == Content(s.size, s.mem, s.boxes[id].backing)
    decreases |cs|
  {
    if cs != [] {
      assert LeavesContent(cs[0], id);
      StepKeeps(s, cs[0]);
      StaysInPlace(s, cs[0], id);
      StepLeavesContent(s, cs[0], id);
      ContentStays(Step(s, cs[0]), cs[1..], id);
    }
  }

  // ----- why heap boxes are never unlocked ----------------------------------

  /** Unlocking a heap box's pages as it is dropped would keep the other pinned
      boxes locked exactly when none of them shares a page with it. */
  lemma UnlockingHeapIsSafeIff(s: State, id: nat)
    requires Inv(s) && id in s.boxes && s.boxes[id].backing.Heap?
    ensures var pages := Pages(s.size, s.boxes[id].backing);
      PinnedLocked(s.size, s.boxes - {id}, s.kernel.(locked := s.kernel.locked - pages))
      <==> forall j | j in s.boxes && j != id && s.boxes[j].pinned :: Pages(s.size, s.boxes[j].backing) !! pages
  {
    var pages := Pages(s.size, s.boxes[id].backing);
    var rest, k' := s.boxes - {id}, s.kernel.(locked := s.kernel.locked - pages);
    forall j | j in rest && s.boxes[j].pinned
      ensures rest[j] == s.boxes[j] && (Locked(s.size, k', rest[j].backing) <==> Pages(s.size, s.boxes[j].backing) !! pages)
    {
      assert Locked(s.size, s.kernel, s.boxes[j].backing);
    }
  }

  /** Two heap secrets side by side on one page: the unlock takes the survivor's. */
  lemma UnlockingHeapExposesNeighbour()
    ensures exists s: State, id: nat | id in s.boxes ::
      Inv(s) && !PinnedLocked(s.size, s.boxes - {id}, s.kernel.(locked := s.kernel.locked - Pages(s.size, s.boxes[id].backing)))
  {
    var s := State(4096, map[0 := Box(Heap(0), true), 1 := Box(Heap(32), true)], Kernel({}, {0}, {0}, {}, {}, {}), map[]);
    assert OwnPages(s.boxes) == {} && OwnFds(s.boxes) == {} && PinnedPages(s.boxes) == {};
    assert Inv(s);
    UnlockingHeapIsSafeIff(s, 0);
    assert 0 in Pages(s.size, s.boxes[1].backing) && 0 in Pages(s.size, s.boxes[0].backing);
  }
}
