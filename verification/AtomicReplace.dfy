/** Atomic file replacement as a transition system: one directory, any number of
    `atomic_secure_write` and `atomic_secure_create_new` calls and orphan
    cleaners, each advancing one system call at a time, and crashes at any point.

    The directory distinguishes what a lookup sees now from what may be found
    after a crash: an entry changed since the last directory sync may come back
    as any value it has had since then, each name on its own. A file's bytes
    survive a crash only if `fsync` returned after the last write to it. */
module AtomicReplace {
  import opened Common
  import opened TempNames

  type Bytes = seq<byte>
  type Inode = nat
  type Pid = nat

  /** `owner` is the call that created the file, if it ran in this session. */
  datatype File = File(content: Bytes, synced: bool, owner: Option<Pid>)

  datatype Disk = Disk(
    dir: map<Name, Inode>,
    durable: map<Name, Inode>,
    dirty: set<(Name, Option<Inode>)>,
    files: map<Inode, File>)

  datatype Mode = Replace | NoClobber

  datatype Stage =
    | Start
    | Filling(temp: Name, ino: Inode, n: nat)
    | Synced(temp: Name, ino: Inode)
    | Ready(temp: Name, ino: Inode)
    | Unlinking(temp: Name, ino: Inode)
    | Flushing(ino: Inode)
    | Aborting(temp: Name)
    | Returned(result: Result<Inode>)

  datatype Proc =
    | Call(mode: Mode, target: Name, bytes: Bytes, stage: Stage)
    | Cleaner(vault: Name, found: seq<Name>, next: Option<nat>)

  datatype State = State(disk: Disk, procs: map<Pid, Proc>)

  datatype Action =
    | Invoke(pid: Pid, mode: Mode, target: Name, bytes: Bytes)
    | CreateTemp(pid: Pid, hex: string, newIno: Inode)
    | Write(pid: Pid, count: nat)
    | Fsync(pid: Pid)
    | ReadKey(pid: Pid)
    | Commit(pid: Pid)
    | Unlink(pid: Pid)
    | SyncDir(pid: Pid)
    | Fail(pid: Pid)
    | StartCleaner(pid: Pid, vault: Name)
    | Observe(pid: Pid, name: Name)
    | BeginDelete(pid: Pid)
    | DeleteNext(pid: Pid)
    | PowerLoss(view: map<Name, Inode>, torn: map<Inode, Bytes>)

  // ----- the disk -----------------------------------------------------------

  function SetEntry(d: Disk, n: Name, v: Option<Inode>): Disk {
    d.(dir := if v.Some? then d.dir[n := v.value] else d.dir - {n},
       dirty := d.dirty + {(n, v)})
  }

  function SetFile(d: Disk, i: Inode, f: File): Disk {
    d.(files := d.files[i := f])
  }

  /** What name `n` may refer to after a crash. */
  predicate Possible(d: Disk, n: Name, v: Option<Inode>) {
    v == Get(d.durable, n) || (n, v) in d.dirty
  }

  /** Directory `view` can be what a crash leaves behind. */
  predicate CrashView(d: Disk, view: map<Name, Inode>) {
    forall n | n in view.Keys + d.durable.Keys :: Possible(d, n, Get(view, n))
  }

  /** After a crash a synced file is intact and any other holds arbitrary bytes. */
  function Survivors(files: map<Inode, File>, torn: map<Inode, Bytes>): map<Inode, File> {
    map i | i in files ::
      File(if files[i].synced then files[i].content else if i in torn then torn[i] else [], true, None)
  }

  function Content(d: Disk, v: Option<Inode>): Option<Bytes> {
    if v.Some? && v.value in d.files then Some(d.files[v.value].content) else None
  }

  /** What a reader of path `n` gets. */
  function Read(d: Disk, n: Name): Option<Bytes> {
    Content(d, Get(d.dir, n))
  }

  // ----- one system call ----------------------------------------------------

  /** A call between the creation of its temporary file and the commit. */
  predicate Holds(p: Proc, n: Name) {
    p.Call? && (p.stage.Filling? || p.stage.Synced? || p.stage.Ready?) && p.stage.temp == n
  }

  /** The one assumption about the random suffix: a call does not draw the
      temporary name another unfinished call is still using. */
  predicate NotInUse(s: State, n: Name) {
    forall q | q in s.procs :: !Holds(s.procs[q], n)
  }

  function Advance(s: State, p: Pid, st: Stage): State
    requires p in s.procs && s.procs[p].Call?
  {
    s.(procs := s.procs[p := s.procs[p].(stage := st)])
  }

  function DoCreateTemp(s: State, p: Pid, hex: string, newIno: Inode): State
    requires p in s.procs && s.procs[p].Call? && s.procs[p].stage.Start?
  {
    var temp := TempName(s.procs[p].target, hex);
    if !IsSuffix16(hex) || !NotInUse(s, temp) || newIno in s.disk.files then s
    else if temp in s.disk.dir then Advance(s, p, Returned(Err))       // O_EXCL
    else
      var d := SetEntry(SetFile(s.disk, newIno, File([], false, Some(p))), temp, Some(newIno));
      Advance(s.(disk := d), p, Filling(temp, newIno, 0))
  }

  function DoWrite(s: State, p: Pid, count: nat): State
    requires p in s.procs && s.procs[p].Call? && s.procs[p].stage.Filling?
  {
    var c := s.procs[p];
    var m := c.stage.n + count;
    if m > |c.bytes| || c.stage.ino !in s.disk.files || c.stage.n > |c.bytes| then s
    else
      var f := s.disk.files[c.stage.ino];
      var d := SetFile(s.disk, c.stage.ino, f.(content := f.content + c.bytes[c.stage.n..m], synced := false));
      Advance(s.(disk := d), p, c.stage.(n := m))
  }

  function DoFsync(s: State, p: Pid): State
    requires p in s.procs && s.procs[p].Call? && s.procs[p].stage.Filling?
  {
    var c := s.procs[p];
    if c.stage.n != |c.bytes| || c.stage.ino !in s.disk.files then s
    else
      var f := s.disk.files[c.stage.ino];
      Advance(s.(disk := SetFile(s.disk, c.stage.ino, f.(synced := true))), p, Synced(c.stage.temp, c.stage.ino))
  }

  /** The commit finds its temporary file and, for a no-clobber create, no target. */
  predicate CommitSucceeds(s: State, p: Pid)
    requires p in s.procs && s.procs[p].Call? && s.procs[p].stage.Ready?
  {
    && s.procs[p].stage.temp in s.disk.dir
    && (s.procs[p].mode == NoClobber ==> s.procs[p].target !in s.disk.dir)
  }

  /** `rename(temp, target)` or `link(temp, target)`. */
  function DoCommit(s: State, p: Pid): State
    requires p in s.procs && s.procs[p].Call? && s.procs[p].stage.Ready?
  {
    var c := s.procs[p];
    if !CommitSucceeds(s, p) then Advance(s, p, Aborting(c.stage.temp))
    else
      var i := s.disk.dir[c.stage.temp];
      match c.mode
      case Replace =>
        Advance(s.(disk := SetEntry(SetEntry(s.disk, c.target, Some(i)), c.stage.temp, None)), p, Flushing(c.stage.ino))
      case NoClobber =>
        Advance(s.(disk := SetEntry(s.disk, c.target, Some(i))), p, Unlinking(c.stage.temp, c.stage.ino))
  }

  function DoUnlink(s: State, p: Pid): State
    requires p in s.procs && s.procs[p].Call? && (s.procs[p].stage.Unlinking? || s.procs[p].stage.Aborting?)
  {
    var st := s.procs[p].stage;
    var d := if st.temp in s.disk.dir then SetEntry(s.disk, st.temp, None) else s.disk;
    Advance(s.(disk := d), p, if st.Unlinking? then Flushing(st.ino) else Returned(Err))
  }

  function DoSyncDir(s: State, p: Pid): State
    requires p in s.procs && s.procs[p].Call? && s.procs[p].stage.Flushing?
  {
    Advance(s.(disk := s.disk.(durable := s.disk.dir, dirty := {})), p, Returned(Ok(s.procs[p].stage.ino)))
  }

  /** The pending system call fails without effect; what the code does next. */
  function DoFail(s: State, p: Pid): State
    requires p in s.procs
  {
    match s.procs[p]
    case Cleaner(v, found, Some(k)) => s.(procs := s.procs[p := Cleaner(v, found, Some(k + 1))])
    case Cleaner(_, _, None) => s
    case Call(_, _, _, st) =>
      match st
      case Ready(t, _) => Advance(s, p, Aborting(t))
      case Unlinking(_, i) => Advance(s, p, Flushing(i))
      case Returned(_) => s
      case _ => Advance(s, p, Returned(Err))
  }

  function DoObserve(s: State, p: Pid, n: Name): State
    requires p in s.procs && s.procs[p].Cleaner?
  {
    var c := s.procs[p];
    if c.next.None? && n in s.disk.dir && OrphanOf(c.vault, n).Some?
    then s.(procs := s.procs[p := c.(found := c.found + [n])]) else s
  }

  function DoDeleteNext(s: State, p: Pid): State
    requires p in s.procs && s.procs[p].Cleaner?
  {
    var c := s.procs[p];
    if c.next.None? || c.next.value >= |c.found| then s
    else
      var n := c.found[c.next.value];
      var d := if OrphanOf(c.vault, n) == Some(AtomicWriteTmp) && n in s.disk.dir
               then SetEntry(s.disk, n, None) else s.disk;
      State(d, s.procs[p := c.(next := Some(c.next.value + 1))])
  }

  /** One step of the system. A step that is not enabled changes nothing, so
      every sequence of actions is a run. */
  function Apply(s: State, a: Action): State {
    if a.PowerLoss? then
      if CrashView(s.disk, a.view) then State(Disk(a.view, a.view, {}, Survivors(s.disk.files, a.torn)), map[]) else s
    else if a.Invoke? then
      if a.pid in s.procs then s
      else s.(procs := s.procs[a.pid := Call(a.mode, a.target, a.bytes, Start)])
    else if a.StartCleaner? then
      if a.pid in s.procs then s else s.(procs := s.procs[a.pid := Cleaner(a.vault, [], None)])
    else if a.pid !in s.procs then s
    else if a.Fail? then DoFail(s, a.pid)
    else if s.procs[a.pid].Call? then CallStep(s, a)
    else CleanerStep(s, a)
  }

  function CallStep(s: State, a: Action): State
    requires !a.PowerLoss? && a.pid in s.procs && s.procs[a.pid].Call?
  {
    var st := s.procs[a.pid].stage;
    match a
    case CreateTemp(p, hex, newIno) => if st.Start? then DoCreateTemp(s, p, hex, newIno) else s
    case Write(p, count) => if st.Filling? then DoWrite(s, p, count) else s
    case Fsync(p) => if st.Filling? then DoFsync(s, p) else s
    case ReadKey(p) => if st.Synced? then Advance(s, p, Ready(st.temp, st.ino)) else s
    case Commit(p) => if st.Ready? then DoCommit(s, p) else s
    case Unlink(p) => if st.Unlinking? || st.Aborting? then DoUnlink(s, p) else s
    case SyncDir(p) => if st.Flushing? then DoSyncDir(s, p) else s
    case _ => s
  }

  function CleanerStep(s: State, a: Action): State
    requires !a.PowerLoss? && a.pid in s.procs && s.procs[a.pid].Cleaner?
  {
    match a
    case Observe(p, n) => DoObserve(s, p, n)
    case BeginDelete(p) =>
      if s.procs[p].next.None? then s.(procs := s.procs[p := s.procs[p].(next := Some(0))]) else s
    case DeleteNext(p) => DoDeleteNext(s, p)
    case _ => s
  }

  function Run(s: State, acts: seq<Action>): State
    decreases |acts|
  {
    if acts == [] then s else Run(Apply(s, acts[0]), acts[1..])
  }

  lemma {:induction false} RunAppend(s: State, a: seq<Action>, b: seq<Action>)
    ensures Run(s, a + b) == Run(Run(s, a), b)
    decreases |a|
  {
    if a == [] {
      assert a + b == b;
    } else {
      assert (a + b)[0] == a[0] && (a + b)[1..] == a[1..] + b;
      RunAppend(Apply(s, a[0]), a[1..], b);
    }
  }

  // ----- what every step keeps ----------------------------------------------

  /** Entry `v` of a path refers to a file whose bytes are on stable storage. */
  predicate Backed(d: Disk, v: Option<Inode>) {
    v.Some? ==> v.value in d.files && d.files[v.value].synced
  }

  /** The invariant of the protocol: no name a reader may follow, now or after
      a crash, leads to a file that was not fully synced first. */
  ghost predicate DiskOk(d: Disk) {
    && (forall n | n in d.dir :: d.dir[n] in d.files)
    && (forall n | n in d.durable :: d.durable[n] in d.files)
    && (forall e | e in d.dirty && e.1.Some? :: e.1.value in d.files)
    && (forall n | !TempShaped(n) :: Backed(d, Get(d.dir, n)))
    && (forall n | !TempShaped(n) :: Backed(d, Get(d.durable, n)))
    && (forall e | e in d.dirty && !TempShaped(e.0) :: Backed(d, e.1))
  }

  predicate Holding(s: State, p: Pid, c: Proc, temp: Name, ino: Inode, written: Bytes, synced: bool) {
    && ino in s.disk.files
    && s.disk.files[ino] == File(written, synced, Some(p))
    && TempShaped(temp)
    && (temp in s.disk.dir ==> s.disk.dir[temp] == ino)
  }

  predicate Stored(s: State, ino: Inode, bytes: Bytes) {
    ino in s.disk.files && s.disk.files[ino].synced && s.disk.files[ino].content == bytes
  }

  predicate ProcOk(s: State, p: Pid, c: Proc) {
    match c
    case Cleaner(_, _, _) => true
    case Call(_, target, bytes, st) =>
      && !TempShaped(target)
      && match st
         case Start => true
         case Filling(t, i, n) => n <= |bytes| && Holding(s, p, c, t, i, bytes[..n], false)
         case Synced(t, i) => Holding(s, p, c, t, i, bytes, true)
         case Ready(t, i) => Holding(s, p, c, t, i, bytes, true)
         case Unlinking(t, i) => TempShaped(t) && Stored(s, i, bytes)
         case Flushing(i) => Stored(s, i, bytes)
         case Aborting(t) => TempShaped(t)
         case Returned(r) => r.Ok? ==> Stored(s, r.value, bytes)
  }

  ghost predicate Inv(s: State) {
    DiskOk(s.disk) && forall p | p in s.procs :: ProcOk(s, p, s.procs[p])
  }

  /** What a step of `p` may do to the disk: change only unsynced files of its
      own, and bind a temporary name only if no call is using it. */
  ghost predicate Local(s: State, s': State, p: Pid) {
    && (forall q | q in s'.procs && q != p :: q in s.procs && s'.procs[q] == s.procs[q])
    && (forall i | i in s.disk.files ::
          && i in s'.disk.files
          && (s'.disk.files[i] == s.disk.files[i] || (!s.disk.files[i].synced && s.disk.files[i].owner == Some(p))))
    && (forall n | n in s'.disk.dir && TempShaped(n) ::
          (n in s.disk.dir && s'.disk.dir[n] == s.disk.dir[n]) || NotInUse(s, n))
  }

  lemma OthersUndisturbed(s: State, s': State, p: Pid)
    requires Inv(s) && Local(s, s', p)
    requires DiskOk(s'.disk)
    requires p in s'.procs ==> ProcOk(s', p, s'.procs[p])
    ensures Inv(s')
  {
    forall q | q in s'.procs ensures ProcOk(s', q, s'.procs[q]) {
      if q != p {
        var c := s.procs[q];
        assert ProcOk(s, q, c);
        if c.Call? && (c.stage.Filling? || c.stage.Synced? || c.stage.Ready?) {
          assert Holds(c, c.stage.temp);
          assert s.disk.files[c.stage.ino].owner == Some(q);
        }
      }
    }
  }

  lemma SetEntryKeeps(d: Disk, n: Name, v: Option<Inode>)
    requires DiskOk(d)
    requires v.Some? ==> v.value in d.files && (!TempShaped(n) ==> d.files[v.value].synced)
    ensures DiskOk(SetEntry(d, n, v))
  {
    var d' := SetEntry(d, n, v);
    forall m | !TempShaped(m) ensures Backed(d', Get(d'.dir, m)) && Backed(d', Get(d'.durable, m)) {
      assert Backed(d, Get(d.dir, m)) && Backed(d, Get(d.durable, m));
    }
  }

  lemma CreateTempKeeps(s: State, p: Pid, hex: string, newIno: Inode)
    requires Inv(s) && p in s.procs && s.procs[p].Call? && s.procs[p].stage.Start?
    ensures Inv(DoCreateTemp(s, p, hex, newIno))
    ensures Local(s, DoCreateTemp(s, p, hex, newIno), p)
  {
    var s' := DoCreateTemp(s, p, hex, newIno);
    var c := s.procs[p];
    assert ProcOk(s, p, c);
    if IsSuffix16(hex) {
      TempNameIsShaped(c.target, hex);
    }
    assert c.bytes[..0] == [];
    OthersUndisturbed(s, s', p);
  }

  lemma WriteKeeps(s: State, p: Pid, count: nat)
    requires Inv(s) && p in s.procs && s.procs[p].Call? && s.procs[p].stage.Filling?
    ensures Inv(DoWrite(s, p, count))
    ensures Local(s, DoWrite(s, p, count), p)
  {
    var s' := DoWrite(s, p, count);
    var c := s.procs[p];
    assert ProcOk(s, p, c);
    var m := c.stage.n + count;
    if m <= |c.bytes| {
      assert c.bytes[..c.stage.n] + c.bytes[c.stage.n..m] == c.bytes[..m];
    }
    OthersUndisturbed(s, s', p);
  }

  lemma FsyncKeeps(s: State, p: Pid)
    requires Inv(s) && p in s.procs && s.procs[p].Call? && s.procs[p].stage.Filling?
    ensures Inv(DoFsync(s, p))
    ensures Local(s, DoFsync(s, p), p)
  {
    var c := s.procs[p];
    assert ProcOk(s, p, c);
    assert c.bytes[..|c.bytes|] == c.bytes;
    OthersUndisturbed(s, DoFsync(s, p), p);
  }

  lemma CommitKeeps(s: State, p: Pid)
    requires Inv(s) && p in s.procs && s.procs[p].Call? && s.procs[p].stage.Ready?
    ensures Inv(DoCommit(s, p))
    ensures Local(s, DoCommit(s, p), p)
  {
    var c := s.procs[p];
    assert ProcOk(s, p, c);
    if CommitSucceeds(s, p) {
      var linked := SetEntry(s.disk, c.target, Some(c.stage.ino));
      SetEntryKeeps(s.disk, c.target, Some(c.stage.ino));
      SetEntryKeeps(linked, c.stage.temp, None);
    }
    OthersUndisturbed(s, DoCommit(s, p), p);
  }

  lemma UnlinkKeeps(s: State, p: Pid)
    requires Inv(s) && p in s.procs && s.procs[p].Call? && (s.procs[p].stage.Unlinking? || s.procs[p].stage.Aborting?)
    ensures Inv(DoUnlink(s, p))
    ensures Local(s, DoUnlink(s, p), p)
  {
    assert ProcOk(s, p, s.procs[p]);
    OthersUndisturbed(s, DoUnlink(s, p), p);
  }

  lemma SyncDirKeeps(s: State, p: Pid)
    requires Inv(s) && p in s.procs && s.procs[p].Call? && s.procs[p].stage.Flushing?
    ensures Inv(DoSyncDir(s, p))
    ensures Local(s, DoSyncDir(s, p), p)
  {
    assert ProcOk(s, p, s.procs[p]);
    OthersUndisturbed(s, DoSyncDir(s, p), p);
  }

  lemma FailKeeps(s: State, p: Pid)
    requires Inv(s) && p in s.procs
    ensures Inv(DoFail(s, p))
    ensures Local(s, DoFail(s, p), p)
  {
    assert ProcOk(s, p, s.procs[p]);
    OthersUndisturbed(s, DoFail(s, p), p);
  }

  lemma DeleteNextKeeps(s: State, p: Pid)
    requires Inv(s) && p in s.procs && s.procs[p].Cleaner?
    ensures Inv(DoDeleteNext(s, p))
    ensures Local(s, DoDeleteNext(s, p), p)
  {
    var c := s.procs[p];
    if c.next.Some? && c.next.value < |c.found| {
      var n := c.found[c.next.value];
      if OrphanOf(c.vault, n) == Some(AtomicWriteTmp) {
        DeletableIsTemp(c.vault, n);
        SetEntryKeeps(s.disk, n, None);
      }
    }
    OthersUndisturbed(s, DoDeleteNext(s, p), p);
  }

  lemma CleanerKeeps(s: State, a: Action)
    requires Inv(s) && !a.PowerLoss? && a.pid in s.procs && s.procs[a.pid].Cleaner?
    ensures Inv(CleanerStep(s, a))
    ensures Local(s, CleanerStep(s, a), a.pid)
  {
    if a.DeleteNext? {
      DeleteNextKeeps(s, a.pid);
    } else {
      OthersUndisturbed(s, CleanerStep(s, a), a.pid);
    }
  }

  lemma PowerLossKeeps(s: State, view: map<Name, Inode>, torn: map<Inode, Bytes>)
    requires Inv(s)
    ensures Inv(Apply(s, PowerLoss(view, torn)))
  {
    var d := s.disk;
    if CrashView(d, view) {
      var d' := Disk(view, view, {}, Survivors(d.files, torn));
      forall n | n in view ensures view[n] in d'.files && (!TempShaped(n) ==> d'.files[view[n]].synced) {
        assert n in view.Keys + d.durable.Keys;
        assert Possible(d, n, Get(view, n));
      }
    }
  }

  /** The target of a call is a path proper, not the temporary name of another. */
  predicate Proper(a: Action) {
    a.Invoke? ==> !TempShaped(a.target)
  }

  /** Every step, whoever makes it, keeps the invariant. */
  lemma StepKeeps(s: State, a: Action)
    requires Inv(s) && Proper(a)
    ensures Inv(Apply(s, a))
    ensures !a.PowerLoss? ==> Local(s, Apply(s, a), a.pid)
  {
    if a.PowerLoss? {
      PowerLossKeeps(s, a.view, a.torn);
    } else if a.Invoke? || a.StartCleaner? || a.pid !in s.procs {
      OthersUndisturbed(s, Apply(s, a), a.pid);
    } else if a.Fail? {
      FailKeeps(s, a.pid);
    } else if s.procs[a.pid].Call? {
      CallStepKeeps(s, a);
    } else {
      CleanerKeeps(s, a);
    }
  }

  lemma CallStepKeeps(s: State, a: Action)
    requires Inv(s) && !a.PowerLoss? && a.pid in s.procs && s.procs[a.pid].Call?
    ensures Inv(CallStep(s, a))
    ensures Local(s, CallStep(s, a), a.pid)
  {
    var st := s.procs[a.pid].stage;
    assert ProcOk(s, a.pid, s.procs[a.pid]);
    match a
    case CreateTemp(p, hex, newIno) => if st.Start? { CreateTempKeeps(s, p, hex, newIno); }
    case Write(p, count) => if st.Filling? { WriteKeeps(s, p, count); }
    case Fsync(p) => if st.Filling? { FsyncKeeps(s, p); }
    case ReadKey(p) => OthersUndisturbed(s, CallStep(s, a), p);
    case Commit(p) => if st.Ready? { CommitKeeps(s, p); }
    case Unlink(p) => if st.Unlinking? || st.Aborting? { UnlinkKeeps(s, p); }
    case SyncDir(p) => if st.Flushing? { SyncDirKeeps(s, p); }
    case _ =>
  }
}
