/** Atomic replacement refines the durable register: a forward simulation, and
    what it gives a caller, a reader and whoever opens the disk after a crash. */
module Linearizability {
  import opened Common
  import opened TempNames
  import opened AtomicReplace
  import D = DurableRegister

  /** What readers see of the paths proper, temporary files left aside. */
  function Visible(d: Disk): map<Name, Bytes> {
    map n | n in d.dir && !TempShaped(n) && d.dir[n] in d.files :: d.files[d.dir[n]].content
  }

  predicate Commits(s: State, a: Action) {
    && a.Commit? && a.pid in s.procs && s.procs[a.pid].Call? && s.procs[a.pid].stage.Ready?
    && CommitSucceeds(s, a.pid)
  }

  predicate Flushes(s: State, a: Action) {
    a.SyncDir? && a.pid in s.procs && s.procs[a.pid].Call? && s.procs[a.pid].stage.Flushing?
  }

  /** The register event a step amounts to: a call takes effect at its rename or
      link and nowhere else. */
  function Emit(s: State, a: Action): D.Event {
    if a.PowerLoss? && CrashView(s.disk, a.view) then D.Crash(Visible(Apply(s, a).disk))
    else if Commits(s, a) then
      var c := s.procs[a.pid];
      if c.mode == Replace then D.Put(a.pid, c.target, c.bytes) else D.CreateNew(a.pid, c.target, c.bytes)
    else if Flushes(s, a) then D.Flush
    else D.Internal
  }

  function Trace(s: State, acts: seq<Action>): seq<D.Event>
    decreases |acts|
  {
    if acts == [] then [] else [Emit(s, acts[0])] + Trace(Apply(s, acts[0]), acts[1..])
  }

  // ----- the simulation relation --------------------------------------------

  ghost predicate NoTempPaths(r: D.Reg) {
    && (forall n | n in r.base :: !TempShaped(n))
    && (forall i | 0 <= i < |r.log| :: !TempShaped(r.log[i].path))
  }

  /** Now, and after any crash, the directory shows a state of the register. */
  ghost predicate SameContent(d: Disk, r: D.Reg) {
    && r.flushed <= |r.log|
    && (forall n | !TempShaped(n) :: Read(d, n) == D.Current(r, n))
    && (forall n | !TempShaped(n) :: D.Explains(r, n, Content(d, Get(d.durable, n))))
    && (forall e | e in d.dirty && !TempShaped(e.0) :: D.Explains(r, e.0, Content(d, e.1)))
  }

  predicate Uncommitted(c: Proc) {
    c.Call? ==> c.stage.Start? || c.stage.Filling? || c.stage.Synced? || c.stage.Ready? || c.stage.Aborting?
  }

  /** The effect of call `p`, if any, is its own write. */
  ghost predicate OwnEffect(r: D.Reg, p: Pid, c: Proc) {
    && (Uncommitted(c) ==> !D.TookEffect(r, p))
    && (c.Call? ==> forall i | 0 <= i < |r.log| && r.log[i].caller == p :: r.log[i] == D.Commit(p, c.target, c.bytes))
    && (c.Call? && (c.stage.Unlinking? || c.stage.Flushing?) ==> D.TookEffect(r, p))
    && (c.Call? && c.stage.Returned? && c.stage.result.Ok? ==>
          exists i :: 0 <= i < r.flushed <= |r.log| && r.log[i].caller == p)
  }

  ghost predicate Effects(s: State, r: D.Reg) {
    && (forall i, j | 0 <= i < j < |r.log| :: r.log[i].caller != r.log[j].caller)
    && (forall i | 0 <= i < |r.log| :: r.log[i].caller in s.procs)
    && (forall p | p in s.procs :: OwnEffect(r, p, s.procs[p]))
  }

  ghost predicate Sim(s: State, r: D.Reg) {
    Inv(s) && NoTempPaths(r) && SameContent(s.disk, r) && Effects(s, r)
  }

  // ----- one lemma per kind of event ----------------------------------------

  lemma ContentKept(s: State, s': State, p: Pid, v: Option<Inode>)
    requires Local(s, s', p) && Backed(s.disk, v)
    ensures Content(s'.disk, v) == Content(s.disk, v)
  {
  }

  /** A step that leaves the paths alone leaves the register relation alone. */
  lemma InternalSimulates(s: State, a: Action, r: D.Reg)
    requires Sim(s, r) && Proper(a) && Emit(s, a) == D.Internal
    ensures Sim(Apply(s, a), r)
  {
    var s' := Apply(s, a);
    StepKeeps(s, a);
    if s' != s {
      var p := a.pid;
      PathsUntouched(s, a);
      forall n | !TempShaped(n)
        ensures Read(s'.disk, n) == D.Current(r, n)
        ensures D.Explains(r, n, Content(s'.disk, Get(s'.disk.durable, n)))
      {
        assert Backed(s.disk, Get(s.disk.dir, n)) && Backed(s.disk, Get(s.disk.durable, n));
        ContentKept(s, s', p, Get(s.disk.dir, n));
        ContentKept(s, s', p, Get(s.disk.durable, n));
        assert Read(s.disk, n) == D.Current(r, n);
        assert D.Explains(r, n, Content(s.disk, Get(s.disk.durable, n)));
      }
      forall e | e in s'.disk.dirty && !TempShaped(e.0) ensures D.Explains(r, e.0, Content(s'.disk, e.1)) {
        assert e in s.disk.dirty;
        ContentKept(s, s', p, e.1);
      }
      InternalEffects(s, a, r);
    }
  }

  lemma PathsUntouched(s: State, a: Action)
    requires Inv(s) && Emit(s, a) == D.Internal && !a.PowerLoss?
    ensures forall n | !TempShaped(n) :: Get(Apply(s, a).disk.dir, n) == Get(s.disk.dir, n)
    ensures Apply(s, a).disk.durable == s.disk.durable
    ensures forall e | e in Apply(s, a).disk.dirty && !TempShaped(e.0) :: e in s.disk.dirty
  {
    if a.pid in s.procs && s.procs[a.pid].Call? {
      CallLeavesPaths(s, a);
    } else if a.pid in s.procs && a.DeleteNext? {
      CleanerLeavesPaths(s, a);
    }
  }

  lemma CallLeavesPaths(s: State, a: Action)
    requires Inv(s) && Emit(s, a) == D.Internal && !a.PowerLoss? && a.pid in s.procs && s.procs[a.pid].Call?
    ensures forall n | !TempShaped(n) :: Get(Apply(s, a).disk.dir, n) == Get(s.disk.dir, n)
    ensures Apply(s, a).disk.durable == s.disk.durable
    ensures forall e | e in Apply(s, a).disk.dirty && !TempShaped(e.0) :: e in s.disk.dirty
  {
    var c := s.procs[a.pid];
    assert ProcOk(s, a.pid, c);
    if a.CreateTemp? && IsSuffix16(a.hex) {
      TempNameIsShaped(c.target, a.hex);
    }
  }

  lemma CleanerLeavesPaths(s: State, a: Action)
    requires a.DeleteNext? && a.pid in s.procs && s.procs[a.pid].Cleaner?
    ensures forall n | !TempShaped(n) :: Get(Apply(s, a).disk.dir, n) == Get(s.disk.dir, n)
    ensures Apply(s, a).disk.durable == s.disk.durable
    ensures forall e | e in Apply(s, a).disk.dirty && !TempShaped(e.0) :: e in s.disk.dirty
  {
    var c := s.procs[a.pid];
    if c.next.Some? && c.next.value < |c.found| && OrphanOf(c.vault, c.found[c.next.value]) == Some(AtomicWriteTmp) {
      DeletableIsTemp(c.vault, c.found[c.next.value]);
    }
  }

  lemma InternalEffects(s: State, a: Action, r: D.Reg)
    requires Inv(s) && Effects(s, r) && r.flushed <= |r.log| && Emit(s, a) == D.Internal && !a.PowerLoss?
    ensures Effects(Apply(s, a), r)
  {
    var s' := Apply(s, a);
    OthersStay(s, a);
    forall p | p in s'.procs ensures OwnEffect(r, p, s'.procs[p]) {
      if p !in s.procs {
        assert forall i | 0 <= i < |r.log| :: r.log[i].caller in s.procs;
      } else {
        assert OwnEffect(r, p, s.procs[p]);
        if p == a.pid {
          OwnStep(s, a);
          SameSide(r, p, s.procs[p], s'.procs[p]);
        }
      }
    }
  }

  lemma OthersStay(s: State, a: Action)
    requires !a.PowerLoss?
    ensures forall q | q in s.procs :: q in Apply(s, a).procs
    ensures forall q | q in s.procs && q != a.pid :: Apply(s, a).procs[q] == s.procs[q]
    ensures forall q | q in Apply(s, a).procs && q !in s.procs :: Apply(s, a).procs[q].Call? ==> Apply(s, a).procs[q].stage.Start?
  {}

  predicate SameSideOfCommit(c: Proc, c': Proc) {
    && c.Call? == c'.Call?
    && (Uncommitted(c') ==> Uncommitted(c))
    && (c.Call? ==> c'.target == c.target && c'.bytes == c.bytes)
    && (c.Call? && (c'.stage.Unlinking? || c'.stage.Flushing?) ==> c.stage.Unlinking? || c.stage.Flushing?)
    && (c.Call? && c'.stage.Returned? && c'.stage.result.Ok? ==> c' == c)
  }

  lemma SameSide(r: D.Reg, p: Pid, c: Proc, c': Proc)
    requires OwnEffect(r, p, c) && SameSideOfCommit(c, c')
    ensures OwnEffect(r, p, c')
  {}

  /** A step that is neither commit nor sync leaves a call on the same side of its
      commit, and ends it in Ok only if it was there. */
  lemma OwnStep(s: State, a: Action)
    requires Emit(s, a) == D.Internal && !a.PowerLoss? && a.pid in s.procs
    ensures a.pid in Apply(s, a).procs
    ensures SameSideOfCommit(s.procs[a.pid], Apply(s, a).procs[a.pid])
  {}

  lemma FlushSimulates(s: State, a: Action, r: D.Reg)
    requires Sim(s, r) && Emit(s, a) == D.Flush
    ensures Sim(Apply(s, a), D.Next(r, D.Flush))
  {
    StepKeeps(s, a);
    FlushContent(s, a, r);
    FlushEffects(s, a, r);
  }

  lemma FlushContent(s: State, a: Action, r: D.Reg)
    requires SameContent(s.disk, r) && Flushes(s, a)
    ensures SameContent(Apply(s, a).disk, D.Next(r, D.Flush))
  {
    var d, d', r' := s.disk, Apply(s, a).disk, D.Next(r, D.Flush);
    forall n | !TempShaped(n)
      ensures Read(d', n) == D.Current(r', n)
      ensures D.Explains(r', n, Content(d', Get(d'.durable, n)))
    {
      assert Read(d, n) == D.Current(r, n);
      assert D.ValueAt(r', |r'.log|, n) == D.Current(r, n);
    }
  }

  lemma FlushEffects(s: State, a: Action, r: D.Reg)
    requires Effects(s, r) && Flushes(s, a)
    ensures Effects(Apply(s, a), D.Next(r, D.Flush))
  {
    var s', r' := Apply(s, a), D.Next(r, D.Flush);
    forall p | p in s'.procs ensures OwnEffect(r', p, s'.procs[p]) {
      assert OwnEffect(r, p, s.procs[p]);
      FlushKeepsEffect(r, p, s.procs[p]);
    }
  }

  lemma FlushKeepsEffect(r: D.Reg, p: Pid, c: Proc)
    requires OwnEffect(r, p, c)
    ensures OwnEffect(r.(flushed := |r.log|), p, c)
    ensures c.Call? && c.stage.Flushing? ==> OwnEffect(r.(flushed := |r.log|), p, c.(stage := Returned(Ok(c.stage.ino))))
  {
    var r' := r.(flushed := |r.log|);
    if D.TookEffect(r, p) {
      var i :| 0 <= i < |r.log| && r.log[i].caller == p;
      assert 0 <= i < r'.flushed <= |r'.log| && r'.log[i].caller == p;
    }
    assert D.TookEffect(r', p) <==> D.TookEffect(r, p);
  }

  lemma CommitSimulates(s: State, a: Action, r: D.Reg)
    requires Sim(s, r) && Commits(s, a)
    ensures D.Allowed(r, Emit(s, a))
    ensures Sim(Apply(s, a), D.Next(r, Emit(s, a)))
  {
    CommitAllowed(s, a, r);
    StepKeeps(s, a);
    CommitContent(s, a, r);
    CommitEffects(s, a, r);
  }

  lemma CommitAllowed(s: State, a: Action, r: D.Reg)
    requires Inv(s) && NoTempPaths(r) && SameContent(s.disk, r) && Effects(s, r) && Commits(s, a)
    ensures D.Allowed(r, Emit(s, a))
    ensures NoTempPaths(D.Next(r, Emit(s, a)))
  {
    var c := s.procs[a.pid];
    assert ProcOk(s, a.pid, c) && OwnEffect(r, a.pid, c);
    assert Read(s.disk, c.target) == D.Current(r, c.target);
  }

  /** The files are what they were, so the entries of before say what they said. */
  lemma CommitContent(s: State, a: Action, r: D.Reg)
    requires Inv(s) && SameContent(s.disk, r) && Commits(s, a)
    ensures SameContent(Apply(s, a).disk, D.Next(r, Emit(s, a)))
  {
    var c := s.procs[a.pid];
    var d, d' := s.disk, Apply(s, a).disk;
    var e := D.Commit(a.pid, c.target, c.bytes);
    var r' := D.Next(r, Emit(s, a));
    assert ProcOk(s, a.pid, c);
    assert d'.files == d.files && d'.durable == d.durable;
    forall n | !TempShaped(n)
      ensures Read(d', n) == D.Current(r', n)
      ensures D.Explains(r', n, Content(d', Get(d'.durable, n)))
    {
      CommitReads(s, a, r, n);
      assert D.Explains(r, n, Content(d, Get(d.durable, n)));
      StillExplained(r, e, n, Content(d, Get(d.durable, n)));
    }
    forall x | x in d'.dirty && !TempShaped(x.0) ensures D.Explains(r', x.0, Content(d', x.1)) {
      CommitDirty(s, a, r, x);
    }
  }

  lemma CommitReads(s: State, a: Action, r: D.Reg, n: Name)
    requires Inv(s) && Commits(s, a) && !TempShaped(n) && Read(s.disk, n) == D.Current(r, n)
    ensures Read(Apply(s, a).disk, n) == D.Current(D.Next(r, Emit(s, a)), n)
  {
    var c := s.procs[a.pid];
    assert ProcOk(s, a.pid, c);
    D.CommitExtends(r, D.Commit(a.pid, c.target, c.bytes), |r.log|, n);
  }

  lemma CommitDirty(s: State, a: Action, r: D.Reg, x: (Name, Option<Inode>))
    requires Inv(s) && SameContent(s.disk, r) && Commits(s, a) && x in Apply(s, a).disk.dirty && !TempShaped(x.0)
    ensures D.Explains(D.Next(r, Emit(s, a)), x.0, Content(Apply(s, a).disk, x.1))
  {
    var c := s.procs[a.pid];
    var e := D.Commit(a.pid, c.target, c.bytes);
    var r' := D.Next(r, Emit(s, a));
    assert ProcOk(s, a.pid, c);
    if x in s.disk.dirty {
      StillExplained(r, e, x.0, Content(s.disk, x.1));
    } else {
      assert x == (c.target, Some(c.stage.ino));
      D.CommitExtends(r, e, |r.log|, c.target);
      assert D.ValueAt(r', |r'.log|, c.target) == Some(c.bytes);
    }
  }

  lemma StillExplained(r: D.Reg, e: D.Commit, n: Name, v: Option<Bytes>)
    requires r.flushed <= |r.log| && D.Explains(r, n, v)
    ensures D.Explains(r.(log := r.log + [e]), n, v)
  {
    var k :| r.flushed <= k <= |r.log| && D.ValueAt(r, k, n) == v;
    D.CommitExtends(r, e, k, n);
    assert D.ValueAt(r.(log := r.log + [e]), k, n) == v;
  }

  lemma CommitEffects(s: State, a: Action, r: D.Reg)
    requires Effects(s, r) && Commits(s, a)
    ensures Effects(Apply(s, a), D.Next(r, Emit(s, a)))
  {
    var s', c := Apply(s, a), s.procs[a.pid];
    var e := D.Commit(a.pid, c.target, c.bytes);
    var r' := D.Next(r, Emit(s, a));
    assert OwnEffect(r, a.pid, c);
    forall p | p in s'.procs ensures OwnEffect(r', p, s'.procs[p]) {
      assert OwnEffect(r, p, s.procs[p]);
      if p == a.pid {
        assert r'.log[|r.log|] == e;
      } else {
        EffectOfOther(r, e, p, s.procs[p]);
      }
    }
    forall i | 0 <= i < |r.log| ensures r.log[i].caller != a.pid {
      assert !D.TookEffect(r, a.pid);
    }
  }

  lemma EffectOfOther(r: D.Reg, e: D.Commit, p: Pid, c: Proc)
    requires OwnEffect(r, p, c) && e.caller != p
    ensures OwnEffect(r.(log := r.log + [e]), p, c)
  {
    var r' := r.(log := r.log + [e]);
    assert forall i | 0 <= i < |r.log| :: r'.log[i] == r.log[i];
    if D.TookEffect(r, p) {
      var i :| 0 <= i < |r.log| && r.log[i].caller == p;
      assert r'.log[i].caller == p;
    }
    if i :| 0 <= i < r.flushed <= |r.log| && r.log[i].caller == p {
      assert r'.log[i].caller == p;
    }
  }

  /** Temporary names never were paths of the register. */
  lemma {:induction false} TempAbsent(r: D.Reg, k: nat, n: Name)
    requires NoTempPaths(r) && k <= |r.log| && TempShaped(n)
    ensures D.ValueAt(r, k, n) == None
  {
    if k > 0 {
      assert r.log[..k][..k - 1] == r.log[..k - 1];
      assert r.log[..k][k - 1] == r.log[k - 1];
      TempAbsent(r, k - 1, n);
    }
  }

  lemma CrashSimulates(s: State, a: Action, r: D.Reg)
    requires Sim(s, r) && a.PowerLoss? && CrashView(s.disk, a.view)
    ensures D.Allowed(r, Emit(s, a))
    ensures Sim(Apply(s, a), D.Next(r, Emit(s, a)))
  {
    StepKeeps(s, a);
    var view := Visible(Apply(s, a).disk);
    forall n ensures D.Explains(r, n, Get(view, n)) {
      CrashExplained(s, a, r, n);
    }
    AtRestSimulates(Apply(s, a));
  }

  lemma CrashExplained(s: State, a: Action, r: D.Reg, n: Name)
    requires Sim(s, r) && a.PowerLoss? && CrashView(s.disk, a.view)
    ensures D.Explains(r, n, Get(Visible(Apply(s, a).disk), n))
  {
    var d, d' := s.disk, Apply(s, a).disk;
    var view := Visible(d');
    if TempShaped(n) {
      TempAbsent(r, |r.log|, n);
      assert D.ValueAt(r, |r.log|, n) == Get(view, n);
    } else {
      var v := Get(a.view, n);
      assert Possible(d, n, v) by {
        if n in a.view.Keys + d.durable.Keys {}
      }
      assert Backed(d, v);
      assert D.Explains(r, n, Content(d, v));
      assert Content(d, v) == Content(d', v) == Get(view, n);
    }
  }

  /** A state with nothing pending is related to the register that starts there. */
  lemma AtRestSimulates(s: State)
    requires Inv(s) && s.procs == map[] && s.disk.durable == s.disk.dir && s.disk.dirty == {}
    ensures Sim(s, Fresh(s))
  {
    var r := Fresh(s);
    forall n | !TempShaped(n)
      ensures Read(s.disk, n) == D.Current(r, n)
      ensures D.Explains(r, n, Content(s.disk, Get(s.disk.durable, n)))
    {
      assert D.ValueAt(r, 0, n) == Read(s.disk, n);
    }
  }

  /** Forward simulation: one step of the system is one event of the register. */
  lemma StepSimulates(s: State, a: Action, r: D.Reg)
    requires Sim(s, r) && Proper(a)
    ensures D.Allowed(r, Emit(s, a))
    ensures Sim(Apply(s, a), D.Next(r, Emit(s, a)))
  {
    if a.PowerLoss? && CrashView(s.disk, a.view) {
      CrashSimulates(s, a, r);
    } else if Commits(s, a) {
      CommitSimulates(s, a, r);
    } else if Flushes(s, a) {
      FlushSimulates(s, a, r);
    } else {
      InternalSimulates(s, a, r);
    }
  }

  // ----- whole runs ---------------------------------------------------------

  /** A mounted directory at rest: everything on it is on stable storage. */
  ghost predicate Quiet(s: State) {
    && s.procs == map[]
    && s.disk.durable == s.disk.dir && s.disk.dirty == {}
    && (forall n | n in s.disk.dir :: s.disk.dir[n] in s.disk.files)
    && (forall i | i in s.disk.files :: s.disk.files[i].synced)
  }

  function Fresh(s: State): D.Reg {
    D.Reg(Visible(s.disk), [], 0)
  }

  lemma QuietSimulates(s: State)
    requires Quiet(s)
    ensures Sim(s, Fresh(s))
  {
    AtRestSimulates(s);
  }

  /** Refinement: from any related state, every interleaving of calls, cleaners,
      failures and crashes is a run of the register. */
  lemma {:induction false} Refines(s: State, acts: seq<Action>, r: D.Reg)
    requires Sim(s, r) && forall a | a in acts :: Proper(a)
    ensures D.AllAllowed(r, Trace(s, acts))
    ensures Sim(Run(s, acts), D.After(r, Trace(s, acts)))
    decreases |acts|
  {
    if acts != [] {
      var e := Emit(s, acts[0]);
      StepSimulates(s, acts[0], r);
      Refines(Apply(s, acts[0]), acts[1..], D.Next(r, e));
      var t := Trace(s, acts);
      assert t[0] == e && t[1..] == Trace(Apply(s, acts[0]), acts[1..]);
    }
  }

  /** The register's state after a run from a directory at rest. */
  function History(s: State, acts: seq<Action>): D.Reg {
    D.After(Fresh(s), Trace(s, acts))
  }

  /** Linearizability. After any run, every path reads as the register says: its
      content at start-up or one call's complete bytes. A call that returned Ok
      took effect exactly once, with its own bytes, and the key it returned names
      the file holding them; no call took effect twice, with other bytes, or before
      its rename or link. */
  lemma Linearizable(s: State, acts: seq<Action>)
    requires Quiet(s) && forall a | a in acts :: Proper(a)
    ensures D.AllAllowed(Fresh(s), Trace(s, acts))
    ensures var t, h := Run(s, acts), History(s, acts);
      && (forall n | !TempShaped(n) ::
            && Read(t.disk, n) == D.Current(h, n)
            && (Read(t.disk, n) == Get(h.base, n)
                || exists j :: 0 <= j < |h.log| && h.log[j].path == n && Read(t.disk, n) == Some(h.log[j].bytes)))
      && (forall i, j | 0 <= i < j < |h.log| :: h.log[i].caller != h.log[j].caller)
      && (forall p | p in t.procs && t.procs[p].Call? :: CallAccounted(t, h, p))
  {
    var t, h := Run(s, acts), History(s, acts);
    QuietSimulates(s);
    Refines(s, acts, Fresh(s));
    forall n | !TempShaped(n)
      ensures Read(t.disk, n) == D.Current(h, n)
      ensures Read(t.disk, n) == Get(h.base, n)
           || exists j :: 0 <= j < |h.log| && h.log[j].path == n && Read(t.disk, n) == Some(h.log[j].bytes)
    {
      assert Read(t.disk, n) == D.Current(h, n);
      D.ValueIsWhole(h, |h.log|, n);
    }
    forall p | p in t.procs && t.procs[p].Call? ensures CallAccounted(t, h, p) {
      EachAccounted(t, h, p);
    }
  }

  /** What the history says of call `p`: only its own commit, none before its
      rename or link, and one, with its bytes stored, once it returned Ok. */
  ghost predicate CallAccounted(t: State, h: D.Reg, p: Pid)
    requires p in t.procs && t.procs[p].Call?
  {
    var c := t.procs[p];
    && (forall i | 0 <= i < |h.log| && h.log[i].caller == p :: h.log[i] == D.Commit(p, c.target, c.bytes))
    && (Uncommitted(c) ==> !D.TookEffect(h, p))
    && (c.stage.Returned? && c.stage.result.Ok? ==> Stored(t, c.stage.result.value, c.bytes) && D.TookEffect(h, p))
  }

  lemma EachAccounted(t: State, h: D.Reg, p: Pid)
    requires Inv(t) && Effects(t, h) && p in t.procs && t.procs[p].Call?
    ensures CallAccounted(t, h, p)
  {
    assert ProcOk(t, p, t.procs[p]) && OwnEffect(h, p, t.procs[p]);
  }

  /** The same for one call: its Ok stands for one effect, its own. */
  lemma OkTookEffect(s: State, acts: seq<Action>, p: Pid, c: Proc)
    requires Quiet(s) && forall a | a in acts :: Proper(a)
    requires p in Run(s, acts).procs && Run(s, acts).procs[p] == c
    requires c.Call? && c.stage.Returned? && c.stage.result.Ok?
    ensures Stored(Run(s, acts), c.stage.result.value, c.bytes)
    ensures exists i :: 0 <= i < |History(s, acts).log| && History(s, acts).log[i] == D.Commit(p, c.target, c.bytes)
  {
    var t, h := Run(s, acts), History(s, acts);
    QuietSimulates(s);
    Refines(s, acts, Fresh(s));
    assert ProcOk(t, p, c) && OwnEffect(h, p, c);
    var i :| 0 <= i < h.flushed <= |h.log| && h.log[i].caller == p;
    assert h.log[i] == D.Commit(p, c.target, c.bytes);
  }

  /** Crash atomicity. A crash at any point of any run leaves each path with its
      content at start-up or one committed call's complete bytes, never a mixture
      and never anything older than the last directory sync. */
  lemma CrashAtomic(s: State, acts: seq<Action>, view: map<Name, Inode>, torn: map<Inode, Bytes>, n: Name)
    requires Quiet(s) && (forall a | a in acts :: Proper(a))
    requires !TempShaped(n) && CrashView(Run(s, acts).disk, view)
    ensures var h, found := History(s, acts), Read(Apply(Run(s, acts), PowerLoss(view, torn)).disk, n);
      && D.Explains(h, n, found)
      && (found == Get(h.base, n)
          || exists j :: 0 <= j < |h.log| && h.log[j].path == n && found == Some(h.log[j].bytes))
  {
    var t, h := Run(s, acts), History(s, acts);
    var crash := PowerLoss(view, torn);
    QuietSimulates(s);
    Refines(s, acts, Fresh(s));
    CrashSimulates(t, crash, h);
    var shown := Visible(Apply(t, crash).disk);
    assert D.Current(D.Next(h, Emit(t, crash)), n) == Get(shown, n);
    assert D.Explains(h, n, Get(shown, n));
    var k :| h.flushed <= k <= |h.log| && D.ValueAt(h, k, n) == Get(shown, n);
    D.ValueIsWhole(h, k, n);
  }

  /** The bytes of the commits to `n` from the `i`-th on, and of those a later
      run adds. */
  function Successors(h: D.Reg, i: nat, later: seq<D.Event>, n: Name): set<Bytes> {
    (set j | i <= j < |h.log| && h.log[j].path == n :: h.log[j].bytes)
    + (set k | 0 <= k < |later| && (later[k].Put? || later[k].CreateNew?) && later[k].path == n :: later[k].bytes)
  }

  /** The commit of an Ok call lies before the last flush, so from here every
      crash shows it or a later one. */
  lemma FlushedSurvives(h: D.Reg, i: nat, n: Name, later: seq<D.Event>)
    requires i < h.flushed <= |h.log| && h.log[i].path == n
    ensures D.Settled(h, n, Successors(h, i, later, n))
  {
    forall k | h.flushed <= k <= |h.log|
      ensures D.ValueAt(h, k, n).Some? && D.ValueAt(h, k, n).value in Successors(h, i, later, n)
    {
      D.ValueFrom(h, i, k, n);
    }
  }

  /** The call's own commit, or one to the same path that took effect after it. */
  ghost predicate LatestFrom(h: D.Reg, i: nat, later: seq<D.Event>, n: Name, b: Bytes) {
    || (exists j :: i <= j < |h.log| && h.log[j].path == n && h.log[j].bytes == b)
    || (exists k :: 0 <= k < |later| && D.Writes(later[k], n, b))
  }

  /** Durability. Once a call has returned Ok, its path holds that call's bytes, or
      those of a commit to the path after it, through every continuation: any
      calls, any failures, any number of crashes and restarts. */
  lemma DurableOnceOk(s: State, acts: seq<Action>, p: Pid, more: seq<Action>)
    requires Quiet(s) && (forall a | a in acts :: Proper(a)) && (forall a | a in more :: Proper(a))
    requires p in Run(s, acts).procs && Run(s, acts).procs[p].Call?
    requires Run(s, acts).procs[p].stage.Returned? && Run(s, acts).procs[p].stage.result.Ok?
    ensures var t, h := Run(s, acts), History(s, acts);
      var c, found := t.procs[p], Read(Run(t, more).disk, t.procs[p].target);
      exists i ::
        && 0 <= i < |h.log| && h.log[i] == D.Commit(p, c.target, c.bytes)
        && found.Some? && LatestFrom(h, i, Trace(t, more), c.target, found.value)
  {
    var t, h := Run(s, acts), History(s, acts);
    var c, later := t.procs[p], Trace(t, more);
    QuietSimulates(s);
    Refines(s, acts, Fresh(s));
    assert ProcOk(t, p, c) && OwnEffect(h, p, c);
    var i :| 0 <= i < h.flushed <= |h.log| && h.log[i].caller == p;
    assert h.log[i] == D.Commit(p, c.target, c.bytes);
    StaysDurable(t, more, h, i, c.target);
  }

  lemma StaysDurable(t: State, more: seq<Action>, h: D.Reg, i: nat, n: Name)
    requires Sim(t, h) && (forall a | a in more :: Proper(a)) && !TempShaped(n)
    requires i < h.flushed <= |h.log| && h.log[i].path == n
    ensures Read(Run(t, more).disk, n).Some? && LatestFrom(h, i, Trace(t, more), n, Read(Run(t, more).disk, n).value)
  {
    var later := Trace(t, more);
    var good, end := Successors(h, i, later, n), D.After(h, later);
    Refines(t, more, h);
    FlushedSurvives(h, i, n, later);
    D.RunSettles(h, later, n, good);
    assert Read(Run(t, more).disk, n) == D.Current(end, n);
    SettledNow(end, n, good);
    SuccessorIsLatest(h, i, later, n, D.Current(end, n).value);
  }

  lemma SettledNow(r: D.Reg, n: Name, good: set<Bytes>)
    requires D.Settled(r, n, good)
    ensures D.Current(r, n).Some? && D.Current(r, n).value in good
  {}

  lemma SuccessorIsLatest(h: D.Reg, i: nat, later: seq<D.Event>, n: Name, b: Bytes)
    requires b in Successors(h, i, later, n)
    ensures LatestFrom(h, i, later, n, b)
  {
    if k :| 0 <= k < |later| && (later[k].Put? || later[k].CreateNew?) && later[k].path == n && later[k].bytes == b {
      assert D.Writes(later[k], n, b);
    }
  }
}
