/** The code of `file_util.rs` itself, running on the shared directory: each
    method makes its own system calls in order, and before every one of them the
    environment runs. What it leaves behind is a run of the transition system, so
    the results about runs hold of it. */
module Volume {
  import opened Common
  import opened TempNames
  import opened AtomicReplace
  import opened Linearizability
  import D = DurableRegister

  /** The world around one call: what others do before its k-th system call,
      which of its system calls fail, how much each `write` accepts, and the
      random suffix and inode number it is given. */
  datatype Environment = Environment(
    others: seq<seq<Action>>,
    failing: set<nat>,
    accepts: seq<nat>,
    hex: string,
    newIno: Inode)

  function Before(env: Environment, k: nat): seq<Action> {
    if k < |env.others| then env.others[k] else []
  }

  /** Bytes taken by the k-th `write`: at least one, at most what is left. */
  function Accepted(env: Environment, k: nat, left: nat): (n: nat)
    requires left > 0
    ensures 1 <= n <= left
  {
    if k < |env.accepts| && 1 <= env.accepts[k] <= left then env.accepts[k] else left
  }

  /** Actions of other processes; a crash would end this one. */
  predicate Foreign(a: Action, me: Pid) {
    !a.PowerLoss? && a.pid != me && Proper(a)
  }

  ghost predicate Civil(env: Environment, me: Pid) {
    forall k, a | 0 <= k < |env.others| && a in env.others[k] :: Foreign(a, me)
  }

  lemma ForeignLeavesMine(s: State, a: Action, me: Pid)
    requires Foreign(a, me) && me in s.procs
    ensures me in Apply(s, a).procs && Apply(s, a).procs[me] == s.procs[me]
    ensures s.disk.files.Keys <= Apply(s, a).disk.files.Keys
  {
  }

  /** The draw can be used: sixteen hex digits no unfinished call is using, and
      an inode number that is free. */
  predicate Drawable(s: State, path: Name, env: Environment) {
    IsSuffix16(env.hex) && NotInUse(s, TempName(path, env.hex)) && env.newIno !in s.disk.files
  }

  /** And its name is free. */
  predicate Free(s: State, path: Name, env: Environment) {
    Drawable(s, path, env) && TempName(path, env.hex) !in s.disk.dir
  }

  /** Nobody else moves, the draw is usable and its name free. */
  predicate Alone(s: State, path: Name, env: Environment) {
    env.others == [] && Free(s, path, env)
  }

  // ----- a call among others ------------------------------------------------

  /** What others make of the directory before the k-th system call. */
  function Meanwhile(s: State, env: Environment, k: nat): State { Run(s, Before(env, k)) }

  /** The directory after `write`s from the k-th system call on, none failing. */
  function Written(s: State, me: Pid, env: Environment, k: nat, left: nat): State
    decreases left
  {
    if left == 0 then s else
      var n := Accepted(env, k, left);
      Written(Apply(Meanwhile(s, env, k), AtomicReplace.Action.Write(me, n)), me, env, k + 1, left - n)
  }

  /** And after the temporary file is created, filled, synced and identified. */
  function Filled(s: State, me: Pid, bytes: Bytes, env: Environment): State {
    var k := SyncAt(env, 1, |bytes|);
    var full := Written(Apply(Meanwhile(s, env, 0), CreateTemp(me, env.hex, env.newIno)), me, env, 1, |bytes|);
    Apply(Meanwhile(Apply(Meanwhile(full, env, k), Fsync(me)), env, k + 1), ReadKey(me))
  }

  /** The directory a call invoked on `s` finds when it comes to create its
      temporary file, */
  function AtCreate(s: State, me: Pid, mode: Mode, path: Name, bytes: Bytes, env: Environment): State {
    Meanwhile(Apply(s, Invoke(me, mode, path, bytes)), env, 0)
  }

  /** and when it comes to its rename or link. */
  function AtCommit(s: State, me: Pid, mode: Mode, path: Name, bytes: Bytes, env: Environment): State {
    Meanwhile(Filled(Apply(s, Invoke(me, mode, path, bytes)), me, bytes, env), env, CommitAt(env, bytes))
  }

  /** The calls whose commit succeeds in a stretch of actions. */
  function Committers(s: State, acts: seq<Action>): set<Pid>
    decreases |acts|
  {
    if acts == [] then {} else
      (if Commits(s, acts[0]) then {acts[0].pid} else {}) + Committers(Apply(s, acts[0]), acts[1..])
  }

  lemma {:induction false} CommittersGrow(s: State, acts: seq<Action>, a: Action)
    ensures Committers(s, acts + [a]) == Committers(s, acts) + if Commits(Run(s, acts), a) then {a.pid} else {}
    decreases |acts|
  {
    if acts == [] {
      assert acts + [a] == [a] && [a][1..] == [];
      assert Committers(Apply(s, a), []) == {};
    } else {
      assert (acts + [a])[0] == acts[0] && (acts + [a])[1..] == acts[1..] + [a];
      CommittersGrow(Apply(s, acts[0]), acts[1..], a);
    }
  }

  /** They are the calls that took effect. */
  lemma {:induction false} CommittersTookEffect(s: State, acts: seq<Action>, r: D.Reg, p: Pid)
    requires forall a | a in acts :: !a.PowerLoss?
    ensures D.TookEffect(D.After(r, Trace(s, acts)), p) <==> D.TookEffect(r, p) || p in Committers(s, acts)
    decreases |acts|
  {
    if acts != [] {
      var e := Emit(s, acts[0]);
      assert acts[0] in acts;
      EffectAtCommit(s, acts[0], r, p);
      CommittersTookEffect(Apply(s, acts[0]), acts[1..], D.Next(r, e), p);
      var t := Trace(s, acts);
      assert t[0] == e && t[1..] == Trace(Apply(s, acts[0]), acts[1..]);
    }
  }

  /** A call takes effect at its own successful commit and nowhere else. */
  lemma EffectAtCommit(s: State, a: Action, r: D.Reg, p: Pid)
    requires !a.PowerLoss?
    ensures D.TookEffect(D.Next(r, Emit(s, a)), p) <==> D.TookEffect(r, p) || (Commits(s, a) && a.pid == p)
  {
    var r' := D.Next(r, Emit(s, a));
    assert forall i | 0 <= i < |r.log| :: r'.log[i] == r.log[i];
    if Commits(s, a) {
      assert r'.log[|r.log|].caller == a.pid;
    }
  }

  // ----- a call by itself: which of its system calls decide what ------------

  /** The index of the system call after the `write`s, when they start at `k` and
      `left` bytes are left: the `fsync`. */
  function SyncAt(env: Environment, k: nat, left: nat): (i: nat)
    ensures k <= i
    decreases left
  {
    if left == 0 then k else SyncAt(env, k + 1, left - Accepted(env, k, left))
  }

  /** One `write` of a loop that still has bytes left. */
  lemma WriteCounts(s: State, me: Pid, env: Environment, k: nat, left: nat)
    requires left > 0 && k >= 1
    ensures var n := Accepted(env, k, left);
      && k < SyncAt(env, k, left) == SyncAt(env, k + 1, left - n)
      && Written(s, me, env, k, left) == Written(Apply(Meanwhile(s, env, k), AtomicReplace.Action.Write(me, n)), me, env, k + 1, left - n)
    ensures FailsIn(env, 1, k + 1) <==> FailsIn(env, 1, k) || k in env.failing
    ensures k in env.failing ==> FailsIn(env, 1, SyncAt(env, k, left))
  {}

  lemma NoneFails(env: Environment, k: nat)
    requires 1 <= k
    ensures (forall i | 0 <= i < k + 2 :: i !in env.failing)
       <==> 0 !in env.failing && !FailsIn(env, 1, k) && k !in env.failing && k + 1 !in env.failing
  {}

  predicate FailsIn(env: Environment, lo: nat, hi: nat) {
    exists i :: lo <= i < hi && i in env.failing
  }

  /** The commit comes after the `write`s, `fsync` and `inode_key`. */
  function CommitAt(env: Environment, bytes: Bytes): nat { SyncAt(env, 1, |bytes|) + 2 }

  /** The temporary file is created but cannot be filled, synced or identified. */
  predicate FillFails(env: Environment, bytes: Bytes) { FailsIn(env, 1, CommitAt(env, bytes)) }

  predicate CommitFails(env: Environment, mode: Mode, bytes: Bytes, taken: bool) {
    CommitAt(env, bytes) in env.failing || (mode == NoClobber && taken)
  }

  /** The target gets its new entry. */
  predicate Lands(env: Environment, mode: Mode, bytes: Bytes, taken: bool) {
    0 !in env.failing && !FillFails(env, bytes) && !CommitFails(env, mode, bytes, taken)
  }

  /** The temporary file is left behind: its filling failed, or it was to be
      unlinked, after a failed commit or a link, and that failed. */
  predicate LeavesTemp(env: Environment, mode: Mode, bytes: Bytes, taken: bool) {
    && 0 !in env.failing
    && (FillFails(env, bytes) || (CommitAt(env, bytes) + 1 in env.failing && (mode == NoClobber || CommitFails(env, mode, bytes, taken))))
  }

  /** The last system call: the directory sync, after the unlink if there is one. */
  function DirSyncAt(env: Environment, mode: Mode, bytes: Bytes): nat {
    CommitAt(env, bytes) + if mode == Replace then 1 else 2
  }

  /** The promised cleanup does not reach every failure after the temporary file
      was written: one of `fsync` or `inode_key` leaves the file behind and the
      target alone, whatever else happens. */
  lemma FailedSyncLeavesTemp(env: Environment, mode: Mode, bytes: Bytes, taken: bool)
    requires 0 !in env.failing && (SyncAt(env, 1, |bytes|) in env.failing || SyncAt(env, 1, |bytes|) + 1 in env.failing)
    ensures LeavesTemp(env, mode, bytes, taken) && !Lands(env, mode, bytes, taken)
  {}

  /** Where a call goes when its commit succeeds, and what that does to names. */
  function Committed(c: Proc): Stage
    requires c.Call? && c.stage.Ready?
  {
    if c.mode == Replace then Flushing(c.stage.ino) else Unlinking(c.stage.temp, c.stage.ino)
  }

  function Moved(dir: map<Name, Inode>, c: Proc): map<Name, Inode>
    requires c.Call? && c.stage.Ready? && c.stage.temp in dir
  {
    var linked := dir[c.target := dir[c.stage.temp]];
    if c.mode == Replace then linked - {c.stage.temp} else linked
  }

  /** What a call left to itself does to the directory `dir`, failures included:
      when it returns Ok, when its target changes, and when its temporary file is
      left behind. */
  predicate Outcome(dir: map<Name, Inode>, dir': map<Name, Inode>, mode: Mode, path: Name, bytes: Bytes, env: Environment, key: Result<Inode>) {
    var temp, taken := TempName(path, env.hex), path in dir;
    && key == (if Lands(env, mode, bytes, taken) && DirSyncAt(env, mode, bytes) !in env.failing then Ok(env.newIno) else Err)
    && dir' - {temp} == (if Lands(env, mode, bytes, taken) then dir[path := env.newIno] else dir)
    && (temp in dir' <==> LeavesTemp(env, mode, bytes, taken))
  }

  /** Created, committed and removed again, the temporary name leaves no trace. */
  lemma TempComesAndGoes(dir: map<Name, Inode>, temp: Name, path: Name, i: Inode)
    requires temp !in dir && |temp| > |path|
    ensures dir[temp := i][path := i] - {temp} == dir[path := i] == dir[path := i] - {temp}
    ensures dir[temp := i] - {temp} == dir == dir - {temp}
  {}

  lemma UnfilledOutcome(dir: map<Name, Inode>, mode: Mode, path: Name, bytes: Bytes, env: Environment)
    requires TempName(path, env.hex) !in dir && (0 in env.failing || FillFails(env, bytes))
    ensures Outcome(dir, if 0 in env.failing then dir else dir[TempName(path, env.hex) := env.newIno], mode, path, bytes, env, Err)
  {
    TempComesAndGoes(dir, TempName(path, env.hex), path, env.newIno);
  }

  lemma RenamedOutcome(dir: map<Name, Inode>, path: Name, bytes: Bytes, env: Environment)
    requires TempName(path, env.hex) !in dir && 0 !in env.failing && !FillFails(env, bytes)
    ensures var temp, k := TempName(path, env.hex), CommitAt(env, bytes);
      var made := dir[temp := env.newIno];
      Outcome(dir, if k !in env.failing then made[path := env.newIno] - {temp} else made - if k + 1 in env.failing then {} else {temp},
              Replace, path, bytes, env, if k !in env.failing && k + 1 !in env.failing then Ok(env.newIno) else Err)
  {
    TempComesAndGoes(dir, TempName(path, env.hex), path, env.newIno);
  }

  lemma LinkedOutcome(dir: map<Name, Inode>, path: Name, bytes: Bytes, env: Environment)
    requires TempName(path, env.hex) !in dir && 0 !in env.failing && !FillFails(env, bytes)
    ensures var temp, k := TempName(path, env.hex), CommitAt(env, bytes);
      var made, links := dir[temp := env.newIno], k !in env.failing && path !in dir;
      Outcome(dir, (if links then made[path := env.newIno] else made) - if k + 1 in env.failing then {} else {temp},
              NoClobber, path, bytes, env, if links && k + 2 !in env.failing then Ok(env.newIno) else Err)
  {
    TempComesAndGoes(dir, TempName(path, env.hex), path, env.newIno);
  }

  class Directory {
    var st: State
    /** Everything done to the directory since its creation. */
    ghost var done: seq<Action>
    /** The calls whose commit has succeeded. */
    ghost var committed: set<Pid>
    ghost const origin: State

    ghost predicate Valid()
      reads this
    {
      && st == Run(origin, done) && committed == Committers(origin, done)
      && forall a | a in done :: Proper(a) && !a.PowerLoss?
    }

    constructor (s: State)
      ensures Valid() && st == s && origin == s && done == [] && committed == {}
    {
      st, origin, done, committed := s, s, [], {};
    }

    /** Whether `me` is committed did not change. */
    ghost predicate Spared(me: Pid, was: set<Pid>)
      reads this
    {
      me in committed <==> me in was
    }

    method Step(a: Action)
      requires Valid() && Proper(a) && !a.PowerLoss?
      modifies this
      ensures Valid() && st == Apply(old(st), a) && done == old(done) + [a]
      ensures committed == old(committed) + if Commits(old(st), a) then {a.pid} else {}
    {
      RunAppend(origin, done, [a]);
      CommittersGrow(origin, done, a);
      committed := committed + if Commits(st, a) then {a.pid} else {};
      st := Apply(st, a);
      done := done + [a];
    }

    /** The environment's turn. */
    method Interlude(me: Pid, env: Environment, k: nat)
      requires Valid() && Civil(env, me) && me in st.procs
      modifies this
      ensures Valid() && old(done) <= done && st == Meanwhile(old(st), env, k)
      ensures me in st.procs && st.procs[me] == old(st.procs[me]) && Spared(me, old(committed))
      ensures old(st.disk.files.Keys) <= st.disk.files.Keys
      ensures env.others == [] ==> st == old(st)
    {
      var acts := Before(env, k);
      for i := 0 to |acts|
        invariant Valid() && old(done) <= done && Run(st, acts[i..]) == Run(old(st), acts)
        invariant me in st.procs && st.procs[me] == old(st.procs[me]) && Spared(me, old(committed))
        invariant old(st.disk.files.Keys) <= st.disk.files.Keys
      {
        ForeignLeavesMine(st, acts[i], me);
        assert acts[i..][0] == acts[i] && acts[i..][1..] == acts[i + 1..];
        Step(acts[i]);
      }
    }

    /** The pending system call fails; the call gives up. */
    method GiveUp(me: Pid)
      requires Valid() && me in st.procs && st.procs[me].Call?
      requires st.procs[me].stage.Start? || st.procs[me].stage.Filling? || st.procs[me].stage.Synced?
      modifies this
      ensures Valid() && old(done) <= done && Spared(me, old(committed))
      ensures me in st.procs && st.procs[me] == old(st.procs[me]).(stage := Returned(Err)) && st.disk == old(st.disk)
    {
      Step(Fail(me));
    }

    /** `write_all`: as many `write` calls as it takes. It gives up only because
        one of them fails. */
    method WriteAll(me: Pid, c: Proc, env: Environment) returns (ok: bool, k: nat)
      requires Valid() && Civil(env, me) && me in st.procs && st.procs[me] == c
      requires c.Call? && c.stage.Filling? && c.stage.n == 0 && c.stage.ino in st.disk.files
      modifies this
      ensures Valid() && old(done) <= done && Spared(me, old(committed)) && me in st.procs && c.stage.ino in st.disk.files
      ensures st.procs[me] == c.(stage := if ok then c.stage.(n := |c.bytes|) else Returned(Err))
      ensures ok <==> !FailsIn(env, 1, SyncAt(env, 1, |c.bytes|))
      ensures ok ==> k == SyncAt(env, 1, |c.bytes|) && st == Written(old(st), me, env, 1, |c.bytes|)
      ensures env.others == [] ==> st.disk.dir == old(st.disk.dir)
    {
      k := 1;
      var left: nat := |c.bytes|;
      ghost var end, full := SyncAt(env, k, left), Written(st, me, env, k, left);
      while left > 0
        invariant Valid() && old(done) <= done && Spared(me, old(committed)) && me in st.procs && left <= |c.bytes|
        invariant st.procs[me] == c.(stage := c.stage.(n := |c.bytes| - left)) && c.stage.ino in st.disk.files
        invariant 1 <= k && SyncAt(env, k, left) == end && !FailsIn(env, 1, k)
        invariant Written(st, me, env, k, left) == full
        invariant env.others == [] ==> st.disk.dir == old(st.disk.dir)
      {
        ok, left := WriteOnce(me, st.procs[me], env, k, left);
        if !ok {
          return false, k + 1;
        }
        k := k + 1;
      }
      ok := true;
    }

    /** One `write` of its loop, with `left` bytes left. */
    method WriteOnce(me: Pid, c: Proc, env: Environment, k: nat, left: nat) returns (ok: bool, rest: nat)
      requires Valid() && Civil(env, me) && me in st.procs && st.procs[me] == c && k >= 1 && left > 0
      requires c.Call? && c.stage.Filling? && c.stage.n + left == |c.bytes| && c.stage.ino in st.disk.files
      modifies this
      ensures Valid() && old(done) <= done && Spared(me, old(committed)) && me in st.procs && c.stage.ino in st.disk.files
      ensures ok <==> k !in env.failing
      ensures rest < left && SyncAt(env, k + 1, rest) == SyncAt(env, k, left)
      ensures st.procs[me] == c.(stage := if ok then c.stage.(n := |c.bytes| - rest) else Returned(Err))
      ensures ok ==> Written(st, me, env, k + 1, rest) == Written(old(st), me, env, k, left)
      ensures !ok ==> FailsIn(env, 1, SyncAt(env, k, left))
      ensures ok && !FailsIn(env, 1, k) ==> !FailsIn(env, 1, k + 1)
      ensures env.others == [] ==> st.disk.dir == old(st.disk.dir)
    {
      var n := Accepted(env, k, left);
      rest := left - n;
      WriteCounts(st, me, env, k, left);
      Interlude(me, env, k);
      if k in env.failing {
        GiveUp(me);
        return false, rest;
      }
      Step(AtomicReplace.Action.Write(me, n));
      ok := true;
    }

    /** `sync_all` on the handle still open. */
    method Sync(me: Pid, c: Proc, env: Environment, k: nat) returns (ok: bool)
      requires Valid() && Civil(env, me) && me in st.procs && st.procs[me] == c
      requires c.Call? && c.stage.Filling? && c.stage.n == |c.bytes| && c.stage.ino in st.disk.files
      modifies this
      ensures Valid() && old(done) <= done && Spared(me, old(committed)) && me in st.procs
      ensures ok <==> k !in env.failing
      ensures st.procs[me] == c.(stage := if ok then Synced(c.stage.temp, c.stage.ino) else Returned(Err))
      ensures ok ==> st == Apply(Meanwhile(old(st), env, k), Fsync(me))
      ensures env.others == [] ==> st.disk.dir == old(st.disk.dir)
    {
      Interlude(me, env, k);
      if k in env.failing {
        GiveUp(me);
        return false;
      }
      Step(Fsync(me));
      ok := true;
    }

    /** `inode_key` on it. */
    method Identify(me: Pid, c: Proc, env: Environment, k: nat) returns (ok: bool)
      requires Valid() && Civil(env, me) && me in st.procs && st.procs[me] == c && c.Call? && c.stage.Synced?
      modifies this
      ensures Valid() && old(done) <= done && Spared(me, old(committed)) && me in st.procs
      ensures ok <==> k !in env.failing
      ensures st.procs[me] == c.(stage := if ok then Ready(c.stage.temp, c.stage.ino) else Returned(Err))
      ensures ok ==> st == Apply(Meanwhile(old(st), env, k), ReadKey(me))
      ensures env.others == [] ==> st.disk.dir == old(st.disk.dir)
    {
      Interlude(me, env, k);
      if k in env.failing {
        GiveUp(me);
        return false;
      }
      Step(ReadKey(me));
      ok := true;
    }

    /** The creation of the temporary file. */
    method Create(me: Pid, mode: Mode, path: Name, bytes: Bytes, env: Environment) returns (ok: bool)
      requires Valid() && Civil(env, me)
      requires me in st.procs && st.procs[me] == Call(mode, path, bytes, Start)
      modifies this
      ensures Valid() && old(done) <= done && Spared(me, old(committed)) && me in st.procs
      ensures ok <==> 0 !in env.failing && Free(Meanwhile(old(st), env, 0), path, env)
      ensures st.procs[me] == Call(mode, path, bytes, if ok then Filling(TempName(path, env.hex), env.newIno, 0) else Returned(Err))
      ensures ok ==> st == Apply(Meanwhile(old(st), env, 0), CreateTemp(me, env.hex, env.newIno)) && env.newIno in st.disk.files
      ensures env.others == [] ==> st.disk.dir == if ok then old(st.disk.dir)[TempName(path, env.hex) := env.newIno] else old(st.disk.dir)
    {
      Interlude(me, env, 0);
      if 0 in env.failing || !Drawable(st, path, env) {
        GiveUp(me);
        return false;
      }
      Step(CreateTemp(me, env.hex, env.newIno));
      ok := st.procs[me].stage.Filling?;
    }

    /** `write_secure_tmp_for`, for the call `me` already invoked on `path`: it
        gives up only because one of its system calls fails, or the draw cannot be
        used, or its name is taken, when it comes to create the file. */
    method WriteSecureTmpFor(me: Pid, mode: Mode, path: Name, bytes: Bytes, env: Environment)
      returns (r: Result<Inode>, k: nat)
      requires Valid() && Civil(env, me)
      requires me in st.procs && st.procs[me] == Call(mode, path, bytes, Start)
      modifies this
      ensures Valid() && old(done) <= done && Spared(me, old(committed)) && me in st.procs
      ensures r.Ok? ==> st.procs[me] == Call(mode, path, bytes, Ready(TempName(path, env.hex), r.value)) && k == CommitAt(env, bytes)
      ensures r.Err? ==> st.procs[me] == Call(mode, path, bytes, Returned(Err))
      ensures r == if (forall i | 0 <= i < CommitAt(env, bytes) :: i !in env.failing) && Free(Meanwhile(old(st), env, 0), path, env) then Ok(env.newIno) else Err
      ensures r.Ok? ==> st == Filled(old(st), me, bytes, env)
      ensures Alone(old(st), path, env) ==>
        st.disk.dir == if 0 in env.failing then old(st.disk.dir) else old(st.disk.dir)[TempName(path, env.hex) := env.newIno]
    {
      var ok := Create(me, mode, path, bytes, env);
      if !ok {
        return Err, 1;
      }
      ok, k := WriteAll(me, st.procs[me], env);
      if !ok {
        return Err, k;
      }
      ok := Sync(me, st.procs[me], env, k);
      if !ok {
        return Err, k + 1;
      }
      ok := Identify(me, st.procs[me], env, k + 1);
      NoneFails(env, k);
      return if ok then Ok(env.newIno) else Err, k + 2;
    }

    /** The commit: `rename`, or `link` for a no-clobber create. It fails only if
        the system call does, or the temporary file is gone, or the target of a
        create is taken, when it comes to it. */
    method CommitTemp(me: Pid, c: Proc, env: Environment, k: nat)
      requires Valid() && Civil(env, me) && me in st.procs && st.procs[me] == c && c.Call? && c.stage.Ready?
      modifies this
      ensures Valid() && old(done) <= done && me in st.procs
      ensures st.procs[me] == c.(stage :=
        if k !in env.failing && c.stage.temp in Meanwhile(old(st), env, k).disk.dir
           && (c.mode == NoClobber ==> c.target !in Meanwhile(old(st), env, k).disk.dir)
        then Committed(c) else Aborting(c.stage.temp))
      ensures me in committed <==> me in old(committed) || st.procs[me].stage == Committed(c)
      ensures env.others == [] && c.stage.temp in old(st.disk.dir) ==>
        if k in env.failing || (c.mode == NoClobber && c.target in old(st.disk.dir))
        then st.procs[me].stage.Aborting? && st.disk.dir == old(st.disk.dir)
        else st.procs[me].stage == Committed(c) && st.disk.dir == Moved(old(st.disk.dir), c)
    {
      Interlude(me, env, k);
      if k in env.failing {
        Step(Fail(me));
      } else {
        Step(AtomicReplace.Action.Commit(me));
      }
    }

    /** `remove_file(temp)`, its result ignored. */
    method RemoveTemp(me: Pid, env: Environment, k: nat)
      requires Valid() && Civil(env, me) && me in st.procs && st.procs[me].Call?
      requires st.procs[me].stage.Unlinking? || st.procs[me].stage.Aborting?
      modifies this
      ensures Valid() && old(done) <= done && Spared(me, old(committed)) && me in st.procs
      ensures var st0 := old(st.procs[me].stage);
        st.procs[me] == old(st.procs[me]).(stage := if st0.Unlinking? then Flushing(st0.ino) else Returned(Err))
      ensures env.others == [] ==> st.disk.dir == old(st.disk.dir) - if k in env.failing then {} else {old(st.procs[me].stage.temp)}
    {
      Interlude(me, env, k);
      if k in env.failing {
        Step(Fail(me));
      } else {
        Step(Unlink(me));
      }
    }

    /** `sync_parent_dir`, strict as on Unix. */
    method SyncParentDir(me: Pid, env: Environment, k: nat) returns (r: Result<Inode>)
      requires Valid() && Civil(env, me) && me in st.procs && st.procs[me].Call? && st.procs[me].stage.Flushing?
      modifies this
      ensures Valid() && old(done) <= done && Spared(me, old(committed)) && me in st.procs
      ensures st.procs[me] == old(st.procs[me]).(stage := Returned(r))
      ensures r == if k in env.failing then Err else Ok(old(st.procs[me].stage.ino))
      ensures env.others == [] ==> st.disk.dir == old(st.disk.dir)
    {
      Interlude(me, env, k);
      if k in env.failing {
        Step(Fail(me));
        r := Err;
      } else {
        r := Ok(st.procs[me].stage.ino);
        Step(SyncDir(me));
      }
    }

    /** From a synced temporary file on: rename, else unlink; directory sync. */
    method Rename(me: Pid, c: Proc, env: Environment, k: nat) returns (key: Result<Inode>)
      requires Valid() && Civil(env, me) && me in st.procs && st.procs[me] == c && c.Call? && c.stage.Ready? && c.mode == Replace
      requires me !in committed
      modifies this
      ensures Valid() && old(done) <= done && me in st.procs && st.procs[me] == c.(stage := Returned(key))
      ensures me in committed <==> k !in env.failing && c.stage.temp in Meanwhile(old(st), env, k).disk.dir
      ensures key == if me in committed && k + 1 !in env.failing then Ok(c.stage.ino) else Err
      ensures env.others == [] && c.stage.temp in old(st.disk.dir) ==>
        st.disk.dir == if k !in env.failing then Moved(old(st.disk.dir), c) else old(st.disk.dir) - if k + 1 in env.failing then {} else {c.stage.temp}
    {
      CommitTemp(me, c, env, k);
      if st.procs[me].stage.Aborting? {
        RemoveTemp(me, env, k + 1);
        key := Err;
      } else {
        key := SyncParentDir(me, env, k + 1);
      }
    }

    /** The same for a no-clobber create: link; unlink either way; directory sync. */
    method Link(me: Pid, c: Proc, env: Environment, k: nat) returns (key: Result<Inode>)
      requires Valid() && Civil(env, me) && me in st.procs && st.procs[me] == c && c.Call? && c.stage.Ready? && c.mode == NoClobber
      requires me !in committed
      modifies this
      ensures Valid() && old(done) <= done && me in st.procs && st.procs[me] == c.(stage := Returned(key))
      ensures me in committed <==> k !in env.failing && c.stage.temp in Meanwhile(old(st), env, k).disk.dir && c.target !in Meanwhile(old(st), env, k).disk.dir
      ensures key == if me in committed && k + 2 !in env.failing then Ok(c.stage.ino) else Err
      ensures env.others == [] && c.stage.temp in old(st.disk.dir) ==>
        var links := k !in env.failing && c.target !in old(st.disk.dir);
        st.disk.dir == (if links then Moved(old(st.disk.dir), c) else old(st.disk.dir)) - if k + 1 in env.failing then {} else {c.stage.temp}
    {
      CommitTemp(me, c, env, k);
      var linked := st.procs[me].stage.Unlinking?;
      RemoveTemp(me, env, k + 1);
      if linked {
        key := SyncParentDir(me, env, k + 2);
      } else {
        key := Err;
      }
    }

    /** The two halves of the call, once invoked. */
    method WriteAndRename(me: Pid, path: Name, bytes: Bytes, env: Environment) returns (key: Result<Inode>)
      requires Valid() && Civil(env, me) && me in st.procs && st.procs[me] == Call(Replace, path, bytes, Start) && me !in committed
      modifies this
      ensures Valid() && old(done) <= done && me in st.procs && st.procs[me] == Call(Replace, path, bytes, Returned(key))
      ensures me in committed <==>
        && (forall i | 0 <= i <= CommitAt(env, bytes) :: i !in env.failing)
        && Free(Meanwhile(old(st), env, 0), path, env)
        && TempName(path, env.hex) in Meanwhile(Filled(old(st), me, bytes, env), env, CommitAt(env, bytes)).disk.dir
      ensures key == if me in committed && CommitAt(env, bytes) + 1 !in env.failing then Ok(env.newIno) else Err
      ensures Alone(old(st), path, env) ==> Outcome(old(st.disk.dir), st.disk.dir, Replace, path, bytes, env, key)
    {
      var tmp, k := WriteSecureTmpFor(me, Replace, path, bytes, env);
      if tmp.Err? {
        if Alone(old(st), path, env) {
          UnfilledOutcome(old(st.disk.dir), Replace, path, bytes, env);
        }
        return Err;
      }
      key := Rename(me, st.procs[me], env, k);
      if Alone(old(st), path, env) {
        RenamedOutcome(old(st.disk.dir), path, bytes, env);
      }
    }

    /** The two halves of the call, once invoked. */
    method WriteAndLink(me: Pid, path: Name, bytes: Bytes, env: Environment) returns (key: Result<Inode>)
      requires Valid() && Civil(env, me) && me in st.procs && st.procs[me] == Call(NoClobber, path, bytes, Start) && me !in committed
      modifies this
      ensures Valid() && old(done) <= done && me in st.procs && st.procs[me] == Call(NoClobber, path, bytes, Returned(key))
      ensures me in committed <==>
        && (forall i | 0 <= i <= CommitAt(env, bytes) :: i !in env.failing)
        && Free(Meanwhile(old(st), env, 0), path, env)
        && TempName(path, env.hex) in Meanwhile(Filled(old(st), me, bytes, env), env, CommitAt(env, bytes)).disk.dir
        && path !in Meanwhile(Filled(old(st), me, bytes, env), env, CommitAt(env, bytes)).disk.dir
      ensures key == if me in committed && CommitAt(env, bytes) + 2 !in env.failing then Ok(env.newIno) else Err
      ensures Alone(old(st), path, env) ==> Outcome(old(st.disk.dir), st.disk.dir, NoClobber, path, bytes, env, key)
    {
      var tmp, k := WriteSecureTmpFor(me, NoClobber, path, bytes, env);
      if tmp.Err? {
        if Alone(old(st), path, env) {
          UnfilledOutcome(old(st.disk.dir), NoClobber, path, bytes, env);
        }
        return Err;
      }
      key := Link(me, st.procs[me], env, k);
      if Alone(old(st), path, env) {
        LinkedOutcome(old(st.disk.dir), path, bytes, env);
      }
    }

    /** What a finished call amounts to, started from a directory at rest. */
    ghost predicate Accounted(me: Pid, mode: Mode, path: Name, bytes: Bytes, r: Result<Inode>)
      reads this
    {
      && me in st.procs && st.procs[me] == Call(mode, path, bytes, Returned(r))
      && (D.TookEffect(History(origin, done), me) <==> me in committed)
      && (r.Ok? ==>
            && Stored(st, r.value, bytes)
            && exists i :: 0 <= i < |History(origin, done).log|
                 && History(origin, done).log[i] == D.Commit(me, path, bytes))
    }

    lemma Account(me: Pid, mode: Mode, path: Name, bytes: Bytes, r: Result<Inode>)
      requires Valid() && Quiet(origin)
      requires me in st.procs && st.procs[me] == Call(mode, path, bytes, Returned(r))
      ensures Accounted(me, mode, path, bytes, r)
    {
      CommittersTookEffect(origin, done, Fresh(origin), me);
      if r.Ok? {
        OkTookEffect(origin, done, me, st.procs[me]);
      }
    }

    lemma NewCallUncommitted(me: Pid)
      requires Valid() && Quiet(origin) && me !in st.procs
      ensures me !in committed
    {
      QuietSimulates(origin);
      Refines(origin, done, Fresh(origin));
      CommittersTookEffect(origin, done, Fresh(origin), me);
    }

    /** `atomic_secure_write`: whatever others do meanwhile, on Ok the bytes are
        whole in the file the returned key names, and the call took effect as one
        write of them to `path`. It takes effect exactly when none of its system
        calls up to the rename fails, its temporary name is free when it creates the
        file and still there when it renames it, and it returns Ok exactly when the
        directory sync works as well. Left to itself, it does to the directory
        exactly what `Outcome` says. */
    method AtomicSecureWrite(me: Pid, path: Name, bytes: Bytes, env: Environment) returns (key: Result<Inode>)
      requires Valid() && Quiet(origin) && Civil(env, me) && me !in st.procs && !TempShaped(path)
      modifies this
      ensures Valid() && old(done) <= done
      ensures Accounted(me, Replace, path, bytes, key)
      ensures var u, w := AtCreate(old(st), me, Replace, path, bytes, env), AtCommit(old(st), me, Replace, path, bytes, env);
        (me in committed <==>
        && (forall i | 0 <= i <= CommitAt(env, bytes) :: i !in env.failing)
        && IsSuffix16(env.hex) && NotInUse(u, TempName(path, env.hex)) && env.newIno !in u.disk.files
        && TempName(path, env.hex) !in u.disk.dir && TempName(path, env.hex) in w.disk.dir)
      ensures key == if me in committed && CommitAt(env, bytes) + 1 !in env.failing then Ok(env.newIno) else Err
      ensures Alone(old(st), path, env) ==> Outcome(old(st.disk.dir), st.disk.dir, Replace, path, bytes, env, key)
    {
      NewCallUncommitted(me);
      Step(Invoke(me, Replace, path, bytes));
      key := WriteAndRename(me, path, bytes, env);
      Account(me, Replace, path, bytes, key);
    }

    /** `atomic_secure_create_new`: the same, if `path` is absent at the link. */
    method AtomicSecureCreateNew(me: Pid, path: Name, bytes: Bytes, env: Environment) returns (key: Result<Inode>)
      requires Valid() && Quiet(origin) && Civil(env, me) && me !in st.procs && !TempShaped(path)
      modifies this
      ensures Valid() && old(done) <= done
      ensures Accounted(me, NoClobber, path, bytes, key)
      ensures var u, w := AtCreate(old(st), me, NoClobber, path, bytes, env), AtCommit(old(st), me, NoClobber, path, bytes, env);
        (me in committed <==>
        && (forall i | 0 <= i <= CommitAt(env, bytes) :: i !in env.failing)
        && IsSuffix16(env.hex) && NotInUse(u, TempName(path, env.hex)) && env.newIno !in u.disk.files
        && TempName(path, env.hex) !in u.disk.dir && TempName(path, env.hex) in w.disk.dir
        && path !in w.disk.dir)
      ensures key == if me in committed && CommitAt(env, bytes) + 2 !in env.failing then Ok(env.newIno) else Err
      ensures Alone(old(st), path, env) ==> Outcome(old(st.disk.dir), st.disk.dir, NoClobber, path, bytes, env, key)
    {
      NewCallUncommitted(me);
      Step(Invoke(me, NoClobber, path, bytes));
      key := WriteAndLink(me, path, bytes, env);
      Account(me, NoClobber, path, bytes, key);
    }
  }
}
