/** The hybrid enroll transaction across the header, the sidecar and the seed
    file, with its compensating rollback, and the commands that run beside it. */
module HybridEnroll {
  import opened Common
  import opened HybridSidecar
  import opened Keyslots

  type Path = string

  /** A hybrid slot opens with the ciphertext `ct` and the seed; `home` is where
      the enrolling call wrote the seed file. */
  datatype Slot = Vacant | Classic | Hybrid(ct: nat, seed: nat, home: Path)

  type Slots = s: seq<Slot> | |s| == MAX_KEYSLOTS witness seq(MAX_KEYSLOTS, _ => Vacant)

  /** What survives the process: the persisted header, the sidecar and every seed
      file. */
  datatype Disk = Disk(deniable: bool, header: Slots, sidecar: Option<seq<Entry>>, seeds: map<Path, nat>)

  /** How one write went. A failure may be reported after the change landed: a
      rename whose directory sync fails, or, for the header alone and with its
      dirty flag already cleared, an anchor that cannot be refreshed. */
  datatype Outcome = Done | FailedBefore | FailedAfter | FailedAtAnchor {
    predicate Landed() { !FailedBefore? }
    predicate Late() { FailedAfter? || FailedAtAnchor? }
    predicate StaysDirty() { FailedBefore? || FailedAfter? }
  }

  /** The outcomes of one call's writes; `retry` is the header write that
      dropping a dirty container makes. */
  datatype Outcomes = Outcomes(
    sidecarReads: bool, sidecar: Outcome, seed: Outcome, persist: Outcome,
    undoSidecar: Outcome, undoSeed: Outcome, retry: Outcome)

  // ----- what reaches the disk ----------------------------------------------

  datatype Effect =
    | Nothing
    | PutSidecar(entries: seq<Entry>)
    | DropSidecar
    | PutSeed(path: Path, seed: nat)
    | DropSeed(path: Path)
    | PutHeader(slots: Slots)

  function If(c: bool, e: Effect): Effect { if c then e else Nothing }

  function Do(d: Disk, e: Effect): Disk {
    match e
    case Nothing => d
    case PutSidecar(entries) => d.(sidecar := Some(entries))
    case DropSidecar => d.(sidecar := None)
    case PutSeed(path, seed) => d.(seeds := d.seeds[path := seed])
    case DropSeed(path) => d.(seeds := d.seeds - {path})
    case PutHeader(slots) => d.(header := slots)
  }

  /** The disk after the first `n` effects: what a crash there leaves. */
  function After(d: Disk, es: seq<Effect>, n: nat): Disk
    requires n <= |es|
  {
    if n == 0 then d else Do(After(d, es, n - 1), es[n - 1])
  }

  lemma {:induction false} AfterPrefix(d: Disk, es: seq<Effect>, more: seq<Effect>, n: nat)
    requires n <= |es|
    ensures After(d, es + more, n) == After(d, es, n)
  {
    if n > 0 {
      AfterPrefix(d, es, more, n - 1);
    }
  }

  // ----- consistency --------------------------------------------------------

  predicate IsVacant(s: Slot) { s == Vacant }

  function FreeSlot(h: Slots): (i: nat)
    ensures i <= MAX_KEYSLOTS && (i < MAX_KEYSLOTS ==> h[i] == Vacant) && forall k | 0 <= k < i :: h[k] != Vacant
  {
    FirstFree(h, IsVacant)
  }

  function Entries(d: Disk): seq<Entry> { if d.sidecar.Some? then d.sidecar.value else [] }

  /** If slot `i` is hybrid it can be opened: its sidecar entry holds its own
      ciphertext, and its seed file its seed. */
  predicate Supported(d: Disk, i: nat)
    requires i < MAX_KEYSLOTS
  {
    var s := d.header[i];
    s.Hybrid? ==> Find(Entries(d), i) == Some(s.ct) && s.home in d.seeds && d.seeds[s.home] == s.seed
  }

  predicate Consistent(d: Disk) {
    Tidy(Entries(d)) && forall i | 0 <= i < MAX_KEYSLOTS :: Supported(d, i)
  }

  // ----- one enroll call, as what it makes of the disk ----------------------

  function Renewed(d: Disk, idx: nat, ct: nat): seq<Entry> { Without(Entries(d), idx) + [Entry(idx, ct)] }

  /** The rollback of the sidecar: the new entry popped, an empty sidecar removed. */
  function Restored(d: Disk, idx: nat): Effect {
    var back := Without(Entries(d), idx);
    if back == [] then DropSidecar else PutSidecar(back)
  }

  /** The call found a slot to fill: the vault is not deniable and not full. */
  predicate Starts(d: Disk) { !d.deniable && FreeSlot(d.header) < MAX_KEYSLOTS }

  /** It can read the sidecar there is. */
  predicate Opens(d: Disk, o: Outcomes) { d.sidecar.Some? ==> o.sidecarReads && WellFormed(d.sidecar.value) }

  /** It got past the sidecar, past the seed file, to the end. */
  predicate SidecarStands(d: Disk, ct: nat, o: Outcomes) {
    Starts(d) && Opens(d, o) && WellFormed(Renewed(d, FreeSlot(d.header), ct)) && o.sidecar.Done?
  }

  predicate SeedStands(d: Disk, path: Path, ct: nat, o: Outcomes) {
    SidecarStands(d, ct, o) && path !in d.seeds && o.seed.Done?
  }

  predicate Succeeds(d: Disk, path: Path, ct: nat, o: Outcomes) {
    SeedStands(d, path, ct, o) && o.persist.Done?
  }

  function Enrolled(d: Disk, path: Path, ct: nat, seed: nat): Slots
    requires Starts(d)
  {
    d.header[FreeSlot(d.header) := Hybrid(ct, seed, path)]
  }

  /** Three writes and, unless all succeed, what the rollback and the dropped
      container still write; `Nothing` for a write not reached or not landed. */
  function EnrollEffects(d: Disk, path: Path, ct: nat, seed: nat, o: Outcomes): (es: seq<Effect>)
    ensures |es| == 6
  {
    if !Starts(d) then [Nothing, Nothing, Nothing, Nothing, Nothing, Nothing] else
      var idx := FreeSlot(d.header);
      var failed := !Succeeds(d, path, ct, o);
      [ If(Opens(d, o) && WellFormed(Renewed(d, idx, ct)) && o.sidecar.Landed(), PutSidecar(Renewed(d, idx, ct))),
        If(SidecarStands(d, ct, o) && path !in d.seeds && o.seed.Landed(), PutSeed(path, seed)),
        If(SeedStands(d, path, ct, o) && o.persist.Landed(), PutHeader(Enrolled(d, path, ct, seed))),
        If(failed && SidecarStands(d, ct, o) && o.undoSidecar.Landed(), Restored(d, idx)),
        If(failed && SeedStands(d, path, ct, o) && o.undoSeed.Landed(), DropSeed(path)),
        If(failed && o.retry.Landed(), PutHeader(d.header)) ]
  }

  /** The first five effects, by how far the call got: to the sidecar, */
  lemma EndsAtSidecar(d: Disk, path: Path, ct: nat, seed: nat, o: Outcomes)
    requires Starts(d) && !SidecarStands(d, ct, o)
    ensures var renewed := Renewed(d, FreeSlot(d.header), ct);
      EnrollEffects(d, path, ct, seed, o)[..5]
      == [If(Opens(d, o) && WellFormed(renewed) && o.sidecar.Landed(), PutSidecar(renewed)), Nothing, Nothing, Nothing, Nothing]
  {}

  /** to the seed file, */
  lemma EndsAtSeed(d: Disk, path: Path, ct: nat, seed: nat, o: Outcomes)
    requires SidecarStands(d, ct, o) && !SeedStands(d, path, ct, o)
    ensures var idx := FreeSlot(d.header);
      EnrollEffects(d, path, ct, seed, o)[..5]
      == [PutSidecar(Renewed(d, idx, ct)), If(path !in d.seeds && o.seed.Landed(), PutSeed(path, seed)), Nothing,
          If(o.undoSidecar.Landed(), Restored(d, idx)), Nothing]
  {}

  /** or to the header. */
  lemma EndsAtHeader(d: Disk, path: Path, ct: nat, seed: nat, o: Outcomes)
    requires SeedStands(d, path, ct, o)
    ensures var idx := FreeSlot(d.header);
      EnrollEffects(d, path, ct, seed, o)[..5]
      == [PutSidecar(Renewed(d, idx, ct)), PutSeed(path, seed), If(o.persist.Landed(), PutHeader(Enrolled(d, path, ct, seed))),
          If(!o.persist.Done? && o.undoSidecar.Landed(), Restored(d, idx)), If(!o.persist.Done? && o.undoSeed.Landed(), DropSeed(path))]
  {}

  /** A call finds a slot exactly when some slot is vacant, and then the lowest. */
  lemma StartsAtLowest(d: Disk)
    ensures Starts(d) <==> !d.deniable && exists k :: 0 <= k < MAX_KEYSLOTS && d.header[k] == Vacant
    ensures forall i | 0 <= i < MAX_KEYSLOTS :: FreeSlot(d.header) == i <==> d.header[i] == Vacant && forall k | 0 <= k < i :: d.header[k] != Vacant
  {}

  /** On a consistent disk the sidecar's own limits never stop an enroll: the call
      succeeds exactly when there is room, the path is free and every write is. */
  lemma SucceedsExactly(d: Disk, path: Path, ct: nat, o: Outcomes)
    requires Consistent(d)
    ensures Succeeds(d, path, ct, o) <==>
      && !d.deniable && (exists k :: 0 <= k < MAX_KEYSLOTS && d.header[k] == Vacant)
      && path !in d.seeds && (d.sidecar.Some? ==> o.sidecarReads) && o.sidecar.Done? && o.seed.Done? && o.persist.Done?
  {
    var idx := FreeSlot(d.header);
    TidyIsSmall(Entries(d), 0);
    if Starts(d) {
      var rest := Without(Entries(d), idx);
      WithoutKeeps(Entries(d), idx);
      TidyIsSmall(rest, idx);
      PushKeeps(rest, Entry(idx, ct));
    }
  }

  // ----- every call leaves the other slots' files alone ---------------------

  /** The files of `d` serve every slot but `idx` as those of `d0` do, and no
      seed file of `d0` is gone or changed. */
  ghost predicate Aside(d0: Disk, d: Disk, idx: nat) {
    && Tidy(Entries(d))
    && (forall i | i != idx :: Find(Entries(d), i) == Find(Entries(d0), i))
    && (forall p | p in d0.seeds :: p in d.seeds && d.seeds[p] == d0.seeds[p])
  }

  ghost predicate Harmless(d0: Disk, idx: nat, e: Effect) {
    match e
    case Nothing => true
    case PutSidecar(x) => Tidy(x) && forall i | i != idx :: Find(x, i) == Find(Entries(d0), i)
    case DropSidecar => forall i | i != idx :: Find(Entries(d0), i) == None
    case PutSeed(p, _) => p !in d0.seeds
    case DropSeed(p) => p !in d0.seeds
    case PutHeader(_) => true
  }

  lemma {:induction false} HarmlessKeepAside(d0: Disk, idx: nat, es: seq<Effect>, n: nat)
    requires n <= |es| && Tidy(Entries(d0)) && forall k | 0 <= k < |es| :: Harmless(d0, idx, es[k])
    ensures Aside(d0, After(d0, es, n), idx)
  {
    if n > 0 {
      HarmlessKeepAside(d0, idx, es, n - 1);
      assert Harmless(d0, idx, es[n - 1]);
    }
  }

  lemma SidecarWritesAreHarmless(d: Disk, idx: nat, ct: nat)
    requires Tidy(Entries(d)) && idx < MAX_KEYSLOTS
    ensures Harmless(d, idx, PutSidecar(Renewed(d, idx, ct)))
    ensures Harmless(d, idx, Restored(d, idx))
  {
    var back := Without(Entries(d), idx);
    WithoutKeeps(Entries(d), idx);
    PushKeeps(back, Entry(idx, ct));
    if back == [] {
      forall i | i != idx ensures Find(Entries(d), i) == None {
        assert Find(back, i) == None;
      }
    }
  }

  lemma EnrollIsHarmless(d: Disk, path: Path, ct: nat, seed: nat, o: Outcomes)
    requires Tidy(Entries(d))
    ensures forall k | 0 <= k < 6 :: Harmless(d, FreeSlot(d.header), EnrollEffects(d, path, ct, seed, o)[k])
  {
    forall k | 0 <= k < 6 ensures Harmless(d, FreeSlot(d.header), EnrollEffects(d, path, ct, seed, o)[k]) {
      if Starts(d) {
        EachIsHarmless(d, path, ct, seed, o, k);
      }
    }
  }

  lemma EachIsHarmless(d: Disk, path: Path, ct: nat, seed: nat, o: Outcomes, k: nat)
    requires Tidy(Entries(d)) && Starts(d) && k < 6
    ensures Harmless(d, FreeSlot(d.header), EnrollEffects(d, path, ct, seed, o)[k])
  {
    var e := EnrollEffects(d, path, ct, seed, o)[k];
    if k == 0 || k == 3 {
      SidecarWritesAreHarmless(d, FreeSlot(d.header), ct);
    } else if k == 1 || k == 4 {
      assert e.Nothing? || (path !in d.seeds && (e == PutSeed(path, seed) || e == DropSeed(path)));
    } else {
      assert e.Nothing? || e.PutHeader?;
    }
  }

  /** Files that serve the other slots are enough while the header is the old one. */
  lemma AsideIsConsistent(d0: Disk, d: Disk)
    requires Consistent(d0) && Aside(d0, d, FreeSlot(d0.header)) && d.header == d0.header
    ensures Consistent(d)
  {
    forall i | 0 <= i < MAX_KEYSLOTS ensures Supported(d, i) {
      assert Supported(d0, i);
    }
  }

  /** With the new slot in the header, everything turns on its own two files. */
  lemma EnrolledIsConsistentIff(d0: Disk, d: Disk, path: Path, ct: nat, seed: nat)
    requires Consistent(d0) && Starts(d0) && Aside(d0, d, FreeSlot(d0.header)) && d.header == Enrolled(d0, path, ct, seed)
    ensures Consistent(d) <==> Supported(d, FreeSlot(d0.header))
  {
    forall i | 0 <= i < MAX_KEYSLOTS && i != FreeSlot(d0.header) ensures Supported(d, i) {
      assert Supported(d0, i);
    }
  }

  // ----- the enroll call, exactly -------------------------------------------

  /** Where the header stands after `n` writes. */
  predicate HeaderStands(d: Disk, path: Path, ct: nat, o: Outcomes, n: nat) {
    SeedStands(d, path, ct, o) && o.persist.Landed() && 3 <= n && (n < 6 || o.persist.Done? || !o.retry.Landed())
  }

  /** A header write was reported as failed although it landed, a rollback step
      reached the disk after it, and the header without the slot did not. */
  predicate Undermined(d: Disk, path: Path, ct: nat, o: Outcomes, n: nat) {
    && HeaderStands(d, path, ct, o, n) && o.persist.Late()
    && ((4 <= n && o.undoSidecar.Landed()) || (5 <= n && o.undoSeed.Landed()))
  }

  /** The sidecar's entries and the seed files after `n` writes of a call that
      gets to its header. */
  function EntriesAfter(d: Disk, ct: nat, o: Outcomes, n: nat): seq<Entry>
    requires Starts(d)
  {
    var idx := FreeSlot(d.header);
    if 4 <= n && !o.persist.Done? && o.undoSidecar.Landed() then Without(Entries(d), idx) else Renewed(d, idx, ct)
  }

  function SeedsAfter(d: Disk, path: Path, seed: nat, o: Outcomes, n: nat): map<Path, nat> {
    if 5 <= n && !o.persist.Done? && o.undoSeed.Landed() then d.seeds[path := seed] - {path} else d.seeds[path := seed]
  }

  predicate StoresAre(d: Disk, path: Path, ct: nat, seed: nat, o: Outcomes, n: nat, after: Disk)
    requires Starts(d)
  {
    && after.header == (if HeaderStands(d, path, ct, o, n) then Enrolled(d, path, ct, seed) else d.header)
    && Entries(after) == EntriesAfter(d, ct, o, n)
    && after.seeds == SeedsAfter(d, path, seed, o, n)
  }

  lemma StoresAfterThree(d: Disk, path: Path, ct: nat, seed: nat, o: Outcomes)
    requires SeedStands(d, path, ct, o)
    ensures StoresAre(d, path, ct, seed, o, 3, After(d, EnrollEffects(d, path, ct, seed, o), 3))
  {
    var es := EnrollEffects(d, path, ct, seed, o);
    assert After(d, es, 0) == d;
    assert After(d, es, 1) == Do(d, es[0]);
    assert After(d, es, 2) == Do(Do(d, es[0]), es[1]);
    assert After(d, es, 3) == Do(After(d, es, 2), es[2]);
  }

  lemma OneMoreWrite(d: Disk, path: Path, ct: nat, seed: nat, o: Outcomes, n: nat, before: Disk)
    requires SeedStands(d, path, ct, o) && 3 <= n < 6 && StoresAre(d, path, ct, seed, o, n, before)
    ensures StoresAre(d, path, ct, seed, o, n + 1, Do(before, EnrollEffects(d, path, ct, seed, o)[n]))
  {
    var e := EnrollEffects(d, path, ct, seed, o)[n];
    if n == 3 {
      assert e == If(!o.persist.Done? && o.undoSidecar.Landed(), Restored(d, FreeSlot(d.header)));
    } else if n == 4 {
      assert e == If(!o.persist.Done? && o.undoSeed.Landed(), DropSeed(path));
    } else {
      assert e == If(!o.persist.Done? && o.retry.Landed(), PutHeader(d.header));
    }
  }

  lemma {:induction false} StoresAfter(d: Disk, path: Path, ct: nat, seed: nat, o: Outcomes, n: nat)
    requires SeedStands(d, path, ct, o) && 3 <= n <= 6
    ensures StoresAre(d, path, ct, seed, o, n, After(d, EnrollEffects(d, path, ct, seed, o), n))
  {
    if n == 3 {
      StoresAfterThree(d, path, ct, seed, o);
    } else {
      StoresAfter(d, path, ct, seed, o, n - 1);
      OneMoreWrite(d, path, ct, seed, o, n - 1, After(d, EnrollEffects(d, path, ct, seed, o), n - 1));
    }
  }

  /** The header stays what it was before the third write, and throughout a call
      whose third write does not land. */
  lemma {:induction false} HeaderKept(d: Disk, path: Path, ct: nat, seed: nat, o: Outcomes, n: nat)
    requires n <= 6 && (n < 3 || !(SeedStands(d, path, ct, o) && o.persist.Landed()))
    ensures After(d, EnrollEffects(d, path, ct, seed, o), n).header == d.header
  {
    if n > 0 {
      HeaderKept(d, path, ct, seed, o, n - 1);
    }
  }

  /** Enrolling keeps the disk consistent wherever it stops, on its own or by a
      crash, exactly when it is not undermined; in particular always, when a
      failed header write leaves the header alone. */
  lemma EnrollKeepsConsistentIff(d: Disk, path: Path, ct: nat, seed: nat, o: Outcomes, n: nat)
    requires Consistent(d) && n <= 6
    ensures Consistent(After(d, EnrollEffects(d, path, ct, seed, o), n)) <==> !Undermined(d, path, ct, o, n)
  {
    var es := EnrollEffects(d, path, ct, seed, o);
    EnrollIsHarmless(d, path, ct, seed, o);
    HarmlessKeepAside(d, FreeSlot(d.header), es, n);
    if HeaderStands(d, path, ct, o, n) {
      SupportedIff(d, path, ct, seed, o, n);
      EnrolledIsConsistentIff(d, After(d, es, n), path, ct, seed);
    } else {
      if n < 3 || !(SeedStands(d, path, ct, o) && o.persist.Landed()) {
        HeaderKept(d, path, ct, seed, o, n);
      } else {
        StoresAfter(d, path, ct, seed, o, n);
      }
      AsideIsConsistent(d, After(d, es, n));
    }
  }

  lemma SupportedIff(d: Disk, path: Path, ct: nat, seed: nat, o: Outcomes, n: nat)
    requires Tidy(Entries(d)) && n <= 6 && HeaderStands(d, path, ct, o, n)
    ensures var after := After(d, EnrollEffects(d, path, ct, seed, o), n);
      after.header == Enrolled(d, path, ct, seed) && (Supported(after, FreeSlot(d.header)) <==> !Undermined(d, path, ct, o, n))
  {
    var idx := FreeSlot(d.header);
    StoresAfter(d, path, ct, seed, o, n);
    WithoutKeeps(Entries(d), idx);
    PushKeeps(Without(Entries(d), idx), Entry(idx, ct));
  }

  /** The rollback puts everything back, when every write that failed did nothing
      and every rollback step works: header and seed files are what they were, and
      of the sidecar at most a stale entry for the slot is gone. */
  lemma RollbackRestores(d: Disk, path: Path, ct: nat, seed: nat, o: Outcomes)
    requires Starts(d) && !Succeeds(d, path, ct, o)
    requires !o.sidecar.Late() && !o.seed.Late() && !o.persist.Late() && o.undoSidecar.Landed() && o.undoSeed.Landed()
    ensures var after := After(d, EnrollEffects(d, path, ct, seed, o), 6);
      && after.header == d.header && after.seeds == d.seeds
      && (Entries(after) == Entries(d) || Entries(after) == Without(Entries(d), FreeSlot(d.header)))
      && (after.sidecar.None? || after.sidecar == d.sidecar || Entries(after) != [])
  {
    var es := EnrollEffects(d, path, ct, seed, o);
    if SeedStands(d, path, ct, o) {
      StoresAfter(d, path, ct, seed, o, 6);
      assert d.seeds[path := seed] - {path} == d.seeds;
      SidecarAfter(d, path, ct, seed, o);
    } else {
      HeaderKept(d, path, ct, seed, o, 6);
      RolledBackEarly(d, path, ct, seed, o);
    }
  }

  lemma RolledBackEarly(d: Disk, path: Path, ct: nat, seed: nat, o: Outcomes)
    requires Starts(d) && !SeedStands(d, path, ct, o) && !o.sidecar.Late() && !o.seed.Late() && o.undoSidecar.Landed()
    ensures var after := After(d, EnrollEffects(d, path, ct, seed, o), 6);
      after.seeds == d.seeds && after.sidecar == if SidecarStands(d, ct, o) then Do(d, Restored(d, FreeSlot(d.header))).sidecar else d.sidecar
  {
    var es := EnrollEffects(d, path, ct, seed, o);
    assert es[1] == Nothing && es[2] == Nothing && es[4] == Nothing;
    assert After(d, es, 1) == Do(d, es[0]) && After(d, es, 3) == After(d, es, 2) == After(d, es, 1);
    assert After(d, es, 5) == After(d, es, 4) == Do(After(d, es, 3), es[3]);
    assert After(d, es, 6) == Do(After(d, es, 5), es[5]);
  }

  lemma SidecarAfter(d: Disk, path: Path, ct: nat, seed: nat, o: Outcomes)
    requires SeedStands(d, path, ct, o) && !o.persist.Done? && o.undoSidecar.Landed()
    ensures After(d, EnrollEffects(d, path, ct, seed, o), 6).sidecar == Do(d, Restored(d, FreeSlot(d.header))).sidecar
  {
    var es := EnrollEffects(d, path, ct, seed, o);
    assert es[3] == Restored(d, FreeSlot(d.header));
    assert After(d, es, 4) == Do(After(d, es, 3), es[3]);
    assert After(d, es, 5) == Do(After(d, es, 4), es[4]);
    assert After(d, es, 6) == Do(After(d, es, 5), es[5]);
  }

  /** It can happen to every enroll: on any consistent disk with room and a free
      path, a header write that fails late, a rollback that works and a container
      that cannot write again leave a persisted slot nobody can open. */
  lemma AnyEnrollCanBeUndermined(d: Disk, path: Path, ct: nat, seed: nat)
    requires Consistent(d) && Starts(d) && path !in d.seeds
    ensures exists o: Outcomes ::
      && Undermined(d, path, ct, o, 6)
      && !Consistent(After(d, EnrollEffects(d, path, ct, seed, o), 6))
      && !Supported(After(d, EnrollEffects(d, path, ct, seed, o), 6), FreeSlot(d.header))
  {
    var o := Outcomes(true, Done, Done, FailedAfter, Done, Done, FailedBefore);
    SucceedsExactly(d, path, ct, o.(persist := Done));
    EnrollKeepsConsistentIff(d, path, ct, seed, o, 6);
    SupportedIff(d, path, ct, seed, o, 6);
  }

  /** What the call reports against what it left: success puts an openable slot
      in the header, and a reported failure leaves the header as it was exactly
      when no failed header write stayed. */
  lemma ReportIsTrue(d: Disk, path: Path, ct: nat, seed: nat, o: Outcomes)
    requires Consistent(d) && Starts(d)
    ensures var after, idx := After(d, EnrollEffects(d, path, ct, seed, o), 6), FreeSlot(d.header);
      && (Succeeds(d, path, ct, o) ==> after.header == d.header[idx := Hybrid(ct, seed, path)] && Supported(after, idx))
      && (!Succeeds(d, path, ct, o) ==>
            (after.header == d.header <==> !(SeedStands(d, path, ct, o) && o.persist.Late() && !o.retry.Landed())))
  {
    if HeaderStands(d, path, ct, o, 6) {
      SupportedIff(d, path, ct, seed, o, 6);
      assert Enrolled(d, path, ct, seed)[FreeSlot(d.header)] != d.header[FreeSlot(d.header)];
    } else if SeedStands(d, path, ct, o) && o.persist.Landed() {
      StoresAfter(d, path, ct, seed, o, 6);
    } else {
      HeaderKept(d, path, ct, seed, o, 6);
    }
  }

  // ----- the commands that run beside it ------------------------------------

  /** `revoke` empties a slot, and `update` and the other enrolls fill one with a
      slot that needs no sidecar; neither looks at sidecar or seed files. */
  datatype Command =
    | EnrollHybrid(path: Path, ct: nat, seed: nat, o: Outcomes)
    | Change(slot: nat, to: Slot, o: Outcomes)

  /** A command and how many of its writes were over when power failed, if it did. */
  datatype Call = Call(cmd: Command, stop: nat)

  function ChangeEffects(d: Disk, slot: nat, to: Slot, o: Outcomes): (es: seq<Effect>)
    ensures |es| == 2
  {
    if d.deniable || slot >= MAX_KEYSLOTS || to.Hybrid? then [Nothing, Nothing] else
      var e := PutHeader(d.header[slot := to]);
      [If(o.persist.Landed(), e), If(o.persist.StaysDirty() && o.retry.Landed(), e)]
  }

  function Effects(d: Disk, cmd: Command): (es: seq<Effect>) {
    match cmd
    case EnrollHybrid(path, ct, seed, o) => EnrollEffects(d, path, ct, seed, o)
    case Change(slot, to, o) => ChangeEffects(d, slot, to, o)
  }

  function Reach(d: Disk, c: Call): (n: nat)
    ensures n <= |Effects(d, c.cmd)|
  {
    if c.stop < |Effects(d, c.cmd)| then c.stop else |Effects(d, c.cmd)|
  }

  function Step(d: Disk, c: Call): Disk { After(d, Effects(d, c.cmd), Reach(d, c)) }

  function Run(d: Disk, calls: seq<Call>): Disk
    decreases |calls|
  {
    if calls == [] then d else Run(Step(d, calls[0]), calls[1..])
  }

  predicate CallUndermined(d: Disk, c: Call) {
    c.cmd.EnrollHybrid? && Undermined(d, c.cmd.path, c.cmd.ct, c.cmd.o, Reach(d, c))
  }

  predicate NoneUndermined(d: Disk, calls: seq<Call>)
    decreases |calls|
  {
    calls == [] || (!CallUndermined(d, calls[0]) && NoneUndermined(Step(d, calls[0]), calls[1..]))
  }

  /** The slot a call is about: the first free one, or the one it names. */
  function Target(d: Disk, c: Call): nat {
    if c.cmd.EnrollHybrid? then FreeSlot(d.header) else c.cmd.slot
  }

  /** Changing one slot leaves the old header or the new one. */
  lemma ChangeIsAtomic(d: Disk, c: Call)
    requires c.cmd.Change?
    ensures Step(d, c) == d || (c.cmd.slot < MAX_KEYSLOTS && !c.cmd.to.Hybrid? && Step(d, c) == d.(header := d.header[c.cmd.slot := c.cmd.to]))
  {
    var es := Effects(d, c.cmd);
    assert After(d, es, 0) == d;
    assert After(d, es, 1) == Do(d, es[0]);
    assert After(d, es, 2) == Do(Do(d, es[0]), es[1]);
  }

  lemma {:induction false} EnrollTouchesOne(d: Disk, path: Path, ct: nat, seed: nat, o: Outcomes, n: nat, i: nat)
    requires n <= 6 && i < MAX_KEYSLOTS && i != FreeSlot(d.header)
    ensures After(d, EnrollEffects(d, path, ct, seed, o), n).header[i] == d.header[i]
  {
    if n > 0 {
      EnrollTouchesOne(d, path, ct, seed, o, n - 1, i);
      HeadersWritten(d, path, ct, seed, o, n - 1);
    }
  }

  lemma HeadersWritten(d: Disk, path: Path, ct: nat, seed: nat, o: Outcomes, k: nat)
    requires k < 6
    ensures var e := EnrollEffects(d, path, ct, seed, o)[k];
      e.PutHeader? ==> e.slots == d.header || (Starts(d) && e.slots == Enrolled(d, path, ct, seed))
  {}

  /** One call, whatever fails: the sidecar stays tidy, seed files stay, and a
      slot the call is not about keeps its content and its sidecar entry. */
  lemma CallKeepsOthers(d: Disk, c: Call)
    requires Tidy(Entries(d))
    ensures Aside(d, Step(d, c), Target(d, c))
    ensures forall i | 0 <= i < MAX_KEYSLOTS && i != Target(d, c) :: Step(d, c).header[i] == d.header[i]
  {
    if c.cmd.EnrollHybrid? {
      EnrollIsHarmless(d, c.cmd.path, c.cmd.ct, c.cmd.seed, c.cmd.o);
      HarmlessKeepAside(d, FreeSlot(d.header), Effects(d, c.cmd), Reach(d, c));
      forall i | 0 <= i < MAX_KEYSLOTS && i != Target(d, c) ensures Step(d, c).header[i] == d.header[i] {
        EnrollTouchesOne(d, c.cmd.path, c.cmd.ct, c.cmd.seed, c.cmd.o, Reach(d, c), i);
      }
    } else {
      ChangeIsAtomic(d, c);
    }
  }

  /** One call keeps the disk consistent exactly when it is not undermined. */
  lemma CallKeepsConsistentIff(d: Disk, c: Call)
    requires Consistent(d)
    ensures Consistent(Step(d, c)) <==> !CallUndermined(d, c)
  {
    if c.cmd.EnrollHybrid? {
      EnrollKeepsConsistentIff(d, c.cmd.path, c.cmd.ct, c.cmd.seed, c.cmd.o, Reach(d, c));
    } else {
      ChangeIsAtomic(d, c);
      forall i | 0 <= i < MAX_KEYSLOTS ensures Supported(Step(d, c), i) {
        assert Supported(d, i);
      }
    }
  }

  // ----- whole runs ---------------------------------------------------------

  /** Over every run of commands with failures and crashes anywhere, none of them
      undermined, every persisted hybrid slot can be opened. */
  lemma {:induction false} RunKeepsConsistent(d: Disk, calls: seq<Call>)
    requires Consistent(d) && NoneUndermined(d, calls)
    ensures Consistent(Run(d, calls))
    decreases |calls|
  {
    if calls != [] {
      CallKeepsConsistentIff(d, calls[0]);
      RunKeepsConsistent(Step(d, calls[0]), calls[1..]);
    }
  }

  /** While no header write that is reported as failed lands, nothing undermines
      a run. */
  lemma {:induction false} HonestHeaderWrites(d: Disk, calls: seq<Call>)
    requires forall c | c in calls :: !c.cmd.o.persist.Late()
    ensures NoneUndermined(d, calls)
    decreases |calls|
  {
    if calls != [] {
      HonestHeaderWrites(Step(d, calls[0]), calls[1..]);
    }
  }

  /** Whatever fails, undermined or not: a hybrid slot that could be opened still
      can, until a command changes that very slot. */
  lemma {:induction false} OpenableUntilChanged(d: Disk, calls: seq<Call>, i: nat)
    requires Tidy(Entries(d)) && i < MAX_KEYSLOTS && d.header[i].Hybrid? && Supported(d, i)
    requires forall c | c in calls :: c.cmd.Change? ==> c.cmd.slot != i
    ensures Run(d, calls).header[i] == d.header[i] && Supported(Run(d, calls), i)
    decreases |calls|
  {
    if calls != [] {
      assert calls[0] in calls;
      CallKeepsOthers(d, calls[0]);
      OpenableUntilChanged(Step(d, calls[0]), calls[1..], i);
    }
  }

  /** And no call removes or changes a seed file that was there before it. */
  lemma {:induction false} SeedFilesStay(d: Disk, calls: seq<Call>)
    requires Tidy(Entries(d))
    ensures Tidy(Entries(Run(d, calls)))
    ensures forall p | p in d.seeds :: p in Run(d, calls).seeds && Run(d, calls).seeds[p] == d.seeds[p]
    decreases |calls|
  {
    if calls != [] {
      CallKeepsOthers(d, calls[0]);
      SeedFilesStay(Step(d, calls[0]), calls[1..]);
    }
  }
}
