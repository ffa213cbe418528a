/** The commands of the hybrid enroll transaction, write by write. */
module HybridSession {
  import opened Common
  import opened HybridSidecar
  import opened Keyslots
  import opened HybridEnroll

  /** An opened container and the files beside it. `done` records what every
      write since then made of the disk. */
  class Session {
    var disk: Disk
    var header: Slots
    var dirty: bool
    ghost var done: seq<Effect>

    /** Opening the vault reads the persisted header. */
    constructor (disk: Disk)
      ensures this.disk == disk && header == disk.header && !dirty && done == []
    {
      this.disk, this.header, this.dirty, this.done := disk, disk.header, false, [];
    }

    /** The disk is where the recorded effects took `d`. */
    ghost predicate Since(d: Disk)
      reads this
    {
      disk == After(d, done, |done|)
    }

    /** One write: `e` if it reached the disk. */
    ghost predicate Recorded(was: Disk, before: seq<Effect>, e: Effect)
      reads this
    {
      disk == Do(was, e) && done == before + [e]
    }

    /** The record stays true when one more write is recorded. */
    lemma Still(d: Disk, was: Disk, before: seq<Effect>, e: Effect)
      requires was == After(d, before, |before|) && Recorded(was, before, e)
      ensures Since(d)
    {
      AfterPrefix(d, before, [e], |before|);
    }

    /** Writes a failing call does not get to. */
    ghost method Skip(d: Disk, n: nat)
      requires Since(d)
      modifies this`done
      ensures Since(d) && done == old(done) + seq(n, _ => Nothing)
    {
      for k := 0 to n
        invariant Since(d) && done == old(done) + seq(k, _ => Nothing)
      {
        ghost var before := done;
        done := done + [Nothing];
        Still(d, disk, before, Nothing);
      }
    }

    // ----- the single writes --------------------------------------------------

    /** `write_with_binding`: validation, then an atomic replacement. */
    method WriteSidecar(entries: seq<Entry>, o: Outcome) returns (ok: bool)
      modifies this`disk, this`done
      ensures ok <==> WellFormed(entries) && o.Done?
      ensures Recorded(old(disk), old(done), If(WellFormed(entries) && o.Landed(), PutSidecar(entries)))
    {
      done := done + [If(WellFormed(entries) && o.Landed(), PutSidecar(entries))];
      if !WellFormed(entries) {
        return false;
      }
      if o.Landed() {
        disk := disk.(sidecar := Some(entries));
      }
      ok := o.Done?;
    }

    /** `seed_file::write` creates a new file and never replaces one. */
    method WriteSeed(path: Path, seed: nat, o: Outcome) returns (ok: bool)
      modifies this`disk, this`done
      ensures ok <==> path !in old(disk).seeds && o.Done?
      ensures Recorded(old(disk), old(done), If(path !in old(disk).seeds && o.Landed(), PutSeed(path, seed)))
    {
      done := done + [If(path !in disk.seeds && o.Landed(), PutSeed(path, seed))];
      if path in disk.seeds {
        return false;
      }
      if o.Landed() {
        disk := disk.(seeds := disk.seeds[path := seed]);
      }
      ok := o.Done?;
    }

    /** `remove_file` of the seed file, its result ignored. */
    method RemoveSeed(path: Path, o: Outcome)
      modifies this`disk, this`done
      ensures Recorded(old(disk), old(done), If(o.Landed(), DropSeed(path)))
    {
      done := done + [If(o.Landed(), DropSeed(path))];
      if o.Landed() {
        disk := disk.(seeds := disk.seeds - {path});
      }
    }

    method RemoveSidecar(o: Outcome)
      modifies this`disk, this`done
      ensures Recorded(old(disk), old(done), If(o.Landed(), DropSidecar))
    {
      done := done + [If(o.Landed(), DropSidecar)];
      if o.Landed() {
        disk := disk.(sidecar := None);
      }
    }

    /** `persist_header`: nothing to do unless a slot changed; the flag is cleared
        before the anchor is refreshed. */
    method PersistHeader(o: Outcome) returns (ok: bool)
      modifies this`disk, this`done, this`dirty
      ensures ok <==> !old(dirty) || o.Done?
      ensures dirty == (old(dirty) && o.StaysDirty())
      ensures Recorded(old(disk), old(done), If(old(dirty) && o.Landed(), PutHeader(header)))
    {
      done := done + [If(dirty && o.Landed(), PutHeader(header))];
      if !dirty {
        return true;
      }
      if o.Landed() {
        disk := disk.(header := header);
      }
      dirty := o.StaysDirty();
      ok := o.Done?;
    }

    method SetSlot(i: nat, s: Slot)
      requires i < MAX_KEYSLOTS
      modifies this`header, this`dirty
      ensures header == old(header)[i := s] && dirty
    {
      header := header[i := s];
      dirty := true;
    }

    // ----- the transaction ----------------------------------------------------

    /** The rollback every later failure shares: revoke the slot in memory, pop
        the entry, rewrite or remove the sidecar. */
    method TakeBack(ghost d: Disk, idx: nat, entries: seq<Entry>, o: Outcome)
      requires idx < MAX_KEYSLOTS && Since(d) && WellFormed(entries) && entries != []
      requires entries[..|entries| - 1] == Without(Entries(d), idx)
      modifies this
      ensures Since(d) && done == old(done) + [If(o.Landed(), Restored(d, idx))]
      ensures header == old(header)[idx := Vacant] && dirty
    {
      SetSlot(idx, Vacant);
      var rest := entries[..|entries| - 1];
      if rest == [] {
        RemoveSidecar(o);
      } else {
        var _ := WriteSidecar(rest, o);
      }
      Still(d, old(disk), old(done), If(o.Landed(), Restored(d, idx)));
    }

    /** The sidecar step: read what is there, replace this slot's entry, write. */
    method ExtendSidecar(ghost d: Disk, idx: nat, ct: nat, o: Outcomes) returns (ok: bool, entries: seq<Entry>)
      requires Starts(d) && idx == FreeSlot(d.header) && disk == d && done == []
      modifies this
      ensures ok <==> SidecarStands(d, ct, o)
      ensures Since(d) && done == [If(Opens(d, o) && WellFormed(Renewed(d, idx, ct)) && o.sidecar.Landed(), PutSidecar(Renewed(d, idx, ct)))]
      ensures ok ==> entries == Renewed(d, idx, ct) && header == old(header) && dirty == old(dirty)
      ensures disk.seeds == d.seeds
      ensures !ok ==> header == old(header)[idx := Vacant] && dirty
    {
      entries := [];
      if disk.sidecar.Some? {
        entries := disk.sidecar.value;
        if !o.sidecarReads || !WellFormed(entries) {
          SetSlot(idx, Vacant);
          Skip(d, 1);
          return false, [];
        }
      }
      entries := Without(entries, idx);
      entries := entries + [Entry(idx, ct)];
      ok := WriteSidecar(entries, o.sidecar);
      Still(d, d, [], done[0]);
      if !ok {
        SetSlot(idx, Vacant);
      }
    }

    /** The seed file step. */
    method AddSeed(ghost d: Disk, idx: nat, path: Path, seed: nat, entries: seq<Entry>, o: Outcomes) returns (ok: bool)
      requires idx < MAX_KEYSLOTS && Since(d) && WellFormed(entries) && entries != [] && disk.seeds == d.seeds
      requires entries[..|entries| - 1] == Without(Entries(d), idx)
      modifies this
      ensures (ok <==> path !in d.seeds && o.seed.Done?) && Since(d)
      ensures var e := If(path !in d.seeds && o.seed.Landed(), PutSeed(path, seed));
        done == old(done) + if ok then [e] else [e, Nothing, If(o.undoSidecar.Landed(), Restored(d, idx)), Nothing]
      ensures ok ==> header == old(header) && dirty == old(dirty)
      ensures !ok ==> header == old(header)[idx := Vacant] && dirty
    {
      ok := WriteSeed(path, seed, o.seed);
      Still(d, old(disk), old(done), If(path !in d.seeds && o.seed.Landed(), PutSeed(path, seed)));
      if !ok {
        Skip(d, 1);
        TakeBack(d, idx, entries, o.undoSidecar);
        Skip(d, 1);
      }
    }

    /** The header step. */
    method Commit(ghost d: Disk, idx: nat, path: Path, entries: seq<Entry>, o: Outcomes) returns (ok: bool)
      requires idx < MAX_KEYSLOTS && Since(d) && WellFormed(entries) && entries != [] && dirty
      requires entries[..|entries| - 1] == Without(Entries(d), idx)
      modifies this
      ensures (ok <==> o.persist.Done?) && Since(d)
      ensures var e := If(o.persist.Landed(), PutHeader(old(header)));
        done == old(done) + if ok then [e, Nothing, Nothing] else [e, If(o.undoSidecar.Landed(), Restored(d, idx)), If(o.undoSeed.Landed(), DropSeed(path))]
      ensures dirty == !ok && header == if ok then old(header) else old(header)[idx := Vacant]
    {
      ok := PersistHeader(o.persist);
      Still(d, old(disk), old(done), If(o.persist.Landed(), PutHeader(header)));
      if ok {
        Skip(d, 2);
      } else {
        TakeBack(d, idx, entries, o.undoSidecar);
        ghost var was, before := disk, done;
        RemoveSeed(path, o.undoSeed);
        Still(d, was, before, If(o.undoSeed.Landed(), DropSeed(path)));
      }
    }

    /** The slot in memory, then sidecar, seed file and header in this order. */
    method Transact(idx: nat, path: Path, ct: nat, seed: nat, o: Outcomes) returns (ok: bool)
      requires Starts(disk) && idx == FreeSlot(disk.header) && header == disk.header && !dirty && done == []
      modifies this
      ensures ok <==> Succeeds(old(disk), path, ct, o)
      ensures Since(old(disk)) && done == EnrollEffects(old(disk), path, ct, seed, o)[..5]
      ensures dirty == !ok && (!ok ==> header == old(disk).header)
    {
      ghost var d := disk;
      SetSlot(idx, Hybrid(ct, seed, path));
      assert header[idx := Vacant] == d.header;
      var entries;
      ok, entries := ExtendSidecar(d, idx, ct, o);
      if !ok {
        Skip(d, 4);
        EndsAtSidecar(d, path, ct, seed, o);
      } else {
        ok := Finish(d, idx, path, ct, seed, entries, o);
      }
    }

    /** Seed file and header, once the sidecar is in place. */
    method Finish(ghost d: Disk, idx: nat, path: Path, ghost ct: nat, seed: nat, entries: seq<Entry>, o: Outcomes) returns (ok: bool)
      requires SidecarStands(d, ct, o) && idx == FreeSlot(d.header) && entries == Renewed(d, idx, ct)
      requires Since(d) && disk.seeds == d.seeds && header == Enrolled(d, path, ct, seed) && dirty && done == [PutSidecar(entries)]
      modifies this
      ensures ok <==> Succeeds(d, path, ct, o)
      ensures Since(d) && done == EnrollEffects(d, path, ct, seed, o)[..5]
      ensures dirty == !ok && (!ok ==> header == d.header)
    {
      assert header[idx := Vacant] == d.header;
      ok := AddSeed(d, idx, path, seed, entries, o);
      if !ok {
        EndsAtSeed(d, path, ct, seed, o);
        return;
      }
      assert done == [PutSidecar(entries), PutSeed(path, seed)];
      ok := Commit(d, idx, path, entries, o);
      EndsAtHeader(d, path, ct, seed, o);
    }

    /** The enroll command, to the point where the container is dropped and, if a
        slot changed since the last header write, persists its header once more.
        It writes what `EnrollEffects` says, in that order, and reports success
        only when the slot is in place. */
    method Enroll(path: Path, ct: nat, seed: nat, o: Outcomes) returns (r: Option<nat>)
      requires header == disk.header && !dirty && done == []
      modifies this
      ensures done == EnrollEffects(old(disk), path, ct, seed, o) && disk == After(old(disk), done, 6)
      ensures r.Some? <==> Succeeds(old(disk), path, ct, o)
      ensures r.Some? ==>
        && r.value < MAX_KEYSLOTS && old(disk).header[r.value] == Vacant && (forall k | 0 <= k < r.value :: old(disk).header[k] != Vacant)
        && disk.header == old(disk).header[r.value := Hybrid(ct, seed, path)]
      ensures r.Some? && old(disk).sidecar.Some? ==>
        o.sidecarReads && |old(disk).sidecar.value| <= 8 && forall j, k | 0 <= j < k < |old(disk).sidecar.value| :: old(disk).sidecar.value[j].slotIdx != old(disk).sidecar.value[k].slotIdx
      ensures Consistent(old(disk)) ==> (r.Some? <==>
        && !old(disk).deniable && (exists k :: 0 <= k < MAX_KEYSLOTS && old(disk).header[k] == Vacant)
        && path !in old(disk).seeds && (old(disk).sidecar.Some? ==> o.sidecarReads) && o.sidecar.Done? && o.seed.Done? && o.persist.Done?)
      ensures Consistent(old(disk)) ==> (Consistent(disk) <==> !Undermined(old(disk), path, ct, o, 6))
    {
      ghost var d := disk;
      var idx := FreeSlot(header);
      if disk.deniable || idx == MAX_KEYSLOTS {
        Skip(d, 6);
        r := None;
      } else {
        var ok := Transact(idx, path, ct, seed, o);
        ghost var was, before := disk, done;
        var _ := PersistHeader(o.retry);
        Still(d, was, before, done[5]);
        r := if ok then Some(idx) else None;
      }
      if r.Some? {
        StoresAfter(d, path, ct, seed, o, 6);
      }
      if Consistent(d) {
        SucceedsExactly(d, path, ct, o);
        EnrollKeepsConsistentIff(d, path, ct, seed, o, 6);
      }
    }

    /** `revoke`, and a slot filled with a kind that needs no sidecar. */
    method ChangeSlot(i: nat, s: Slot, o: Outcomes) returns (ok: bool)
      requires header == disk.header && !dirty && done == [] && !s.Hybrid?
      modifies this
      ensures done == ChangeEffects(old(disk), i, s, o) && disk == After(old(disk), done, 2)
      ensures ok <==> !disk.deniable && i < MAX_KEYSLOTS && o.persist.Done?
      ensures ok ==> disk == old(disk).(header := old(disk).header[i := s])
      ensures Consistent(old(disk)) ==> Consistent(disk)
    {
      ghost var d := disk;
      if disk.deniable || i >= MAX_KEYSLOTS {
        Skip(d, 2);
        return false;
      }
      SetSlot(i, s);
      ok := PersistHeader(o.persist);
      Still(d, d, [], done[0]);
      ghost var was, before := disk, done;
      var _ := PersistHeader(o.retry);
      Still(d, was, before, done[1]);
      if Consistent(d) {
        CallKeepsConsistentIff(d, Call(Change(i, s, o), 2));
      }
    }
  }
}
