/** Where atomic replacement ends: targets that look like temporary files. */
module TempTargets {
  import opened Common
  import opened TempNames
  import opened AtomicReplace
  import opened Linearizability

  const EMPTY: State := State(Disk(map[], map[], {}, map[]), map[])
  const HEX: string := "0123456789abcdef"

  /** The steps of a call up to its commit, writing the one byte `b`. */
  function Prepare(p: Pid, target: Name, hex: string, b: byte, ino: Inode): seq<Action> {
    [Invoke(p, Replace, target, [b]), CreateTemp(p, hex, ino), Write(p, 1), Fsync(p), ReadKey(p)]
  }

  lemma RunThree(s: State, a: Action, b: Action, c: Action)
    ensures Run(s, [a, b, c]) == Apply(Apply(Apply(s, a), b), c)
  {
    var x := Apply(Apply(s, a), b);
    assert Run(x, [c]) == Apply(x, c);
    assert [a, b, c][1..] == [b, c] && [b, c][1..] == [c];
    assert Run(Apply(s, a), [b, c]) == Run(x, [c]);
  }

  lemma RunFive(s: State, a: Action, b: Action, c: Action, d: Action, e: Action)
    ensures Run(s, [a, b, c, d, e]) == Apply(Apply(Apply(Apply(Apply(s, a), b), c), d), e)
  {
    var x := Apply(Apply(s, a), b);
    RunThree(x, c, d, e);
    assert [a, b, c, d, e][1..] == [b, c, d, e] && [b, c, d, e][1..] == [c, d, e];
    assert Run(Apply(s, a), [b, c, d, e]) == Run(x, [c, d, e]);
  }

  /** From invocation to a synced temporary file, with nothing in the way. */
  lemma Prepared(s: State, p: Pid, target: Name, hex: string, b: byte, ino: Inode)
    requires IsSuffix16(hex) && p !in s.procs && ino !in s.disk.files
    requires TempName(target, hex) !in s.disk.dir && NotInUse(s, TempName(target, hex))
    ensures var temp := TempName(target, hex);
      Run(s, Prepare(p, target, hex, b, ino))
      == State(SetEntry(SetFile(s.disk, ino, File([b], true, Some(p))), temp, Some(ino)),
               s.procs[p := Call(Replace, target, [b], Ready(temp, ino))])
  {
    var temp := TempName(target, hex);
    var d := SetEntry(SetFile(s.disk, ino, File([], false, Some(p))), temp, Some(ino));
    var s1 := Apply(s, Invoke(p, Replace, target, [b]));
    var s2 := Apply(s1, CreateTemp(p, hex, ino));
    assert s2 == State(d, s.procs[p := Call(Replace, target, [b], Filling(temp, ino, 0))]) by {
      assert NotInUse(s1, temp);
    }
    Filled(State(d, s.procs), p, target, b, ino, temp);
    RunFive(s, Invoke(p, Replace, target, [b]), CreateTemp(p, hex, ino), Write(p, 1), Fsync(p), ReadKey(p));
    assert SetFile(d, ino, File([b], true, Some(p)))
        == SetEntry(SetFile(s.disk, ino, File([b], true, Some(p))), temp, Some(ino));
  }

  lemma Filled(s: State, p: Pid, target: Name, b: byte, ino: Inode, temp: Name)
    requires ino in s.disk.files && s.disk.files[ino] == File([], false, Some(p))
    ensures
      Apply(Apply(Apply(s.(procs := s.procs[p := Call(Replace, target, [b], Filling(temp, ino, 0))]), Write(p, 1)), Fsync(p)), ReadKey(p))
      == State(SetFile(s.disk, ino, File([b], true, Some(p))), s.procs[p := Call(Replace, target, [b], Ready(temp, ino))])
  {
    var s2 := s.(procs := s.procs[p := Call(Replace, target, [b], Filling(temp, ino, 0))]);
    var s3 := Apply(s2, Write(p, 1));
    assert [] + [b][0..1] == [b];
    assert s3 == State(SetFile(s.disk, ino, File([b], false, Some(p))), s.procs[p := Call(Replace, target, [b], Filling(temp, ino, 1))]);
    var s4 := Apply(s3, Fsync(p));
    assert s4 == State(SetFile(s.disk, ino, File([b], true, Some(p))), s.procs[p := Call(Replace, target, [b], Synced(temp, ino))]);
  }

  // ----- lost to a cleaner --------------------------------------------------

  /** A call on the path completes, then a cleaner for `vault` runs. */
  function Cleaned(vault: Name, n: Name): seq<Action> {
    Prepare(1, n, HEX, 1, 10)
    + [Commit(1), SyncDir(1), StartCleaner(2, vault)]
    + [Observe(2, n), BeginDelete(2), DeleteNext(2)]
  }

  lemma CleanerDeletes(s: State, vault: Name, n: Name)
    requires OrphanOf(vault, n) == Some(AtomicWriteTmp) && n in s.disk.dir
    requires 2 in s.procs && s.procs[2] == Cleaner(vault, [], None)
    ensures var t := Run(s, [Observe(2, n), BeginDelete(2), DeleteNext(2)]);
      Read(t.disk, n) == None && forall p | p in s.procs && p != 2 :: p in t.procs && t.procs[p] == s.procs[p]
  {
    RunThree(s, Observe(2, n), BeginDelete(2), DeleteNext(2));
    var s1 := Apply(s, Observe(2, n));
    assert s1.procs[2] == Cleaner(vault, [n], None);
    var s2 := Apply(s1, BeginDelete(2));
    assert s2.procs[2] == Cleaner(vault, [n], Some(0)) && s2.disk == s.disk;
  }

  lemma CommitsAlone(s: State, n: Name, temp: Name, vault: Name)
    requires s.procs == map[1 := Call(Replace, n, [1], Ready(temp, 10))] && temp in s.disk.dir && temp != n
    ensures var t := Run(s, [Commit(1), SyncDir(1), StartCleaner(2, vault)]);
      && n in t.disk.dir && 2 in t.procs && t.procs[2] == Cleaner(vault, [], None)
      && 1 in t.procs && t.procs[1] == Call(Replace, n, [1], Returned(Ok(10)))
  {
    RunThree(s, Commit(1), SyncDir(1), StartCleaner(2, vault));
    var s1 := Apply(s, Commit(1));
    assert n in s1.disk.dir && s1.procs == map[1 := Call(Replace, n, [1], Flushing(10))];
    var s2 := Apply(s1, SyncDir(1));
    assert s2.disk.dir == s1.disk.dir && s2.procs == map[1 := Call(Replace, n, [1], Returned(Ok(10)))];
  }

  /** A path that looks like the temporary file of `vault` is lost to a cleanup
      of `vault`, whatever the vault's name, after its write returned Ok. */
  lemma LostToCleaner(vault: Name, hex: string)
    requires IsSuffix16(hex)
    ensures var n := TempName(vault, hex);
      Lost(Run(EMPTY, Cleaned(vault, n)), 1, n)
  {
    var n := TempName(vault, hex);
    TempOfSidecarDeletable(vault, "", hex);
    assert vault + "" == vault;
    var first, second, third := Prepare(1, n, HEX, 1, 10), [Commit(1), SyncDir(1), StartCleaner(2, vault)], [Observe(2, n), BeginDelete(2), DeleteNext(2)];
    Prepared(EMPTY, 1, n, HEX, 1, 10);
    var s1 := Run(EMPTY, first);
    CommitsAlone(s1, n, TempName(n, HEX), vault);
    CleanerDeletes(Run(s1, second), vault, n);
    RunAppend(EMPTY, first, second);
    RunAppend(EMPTY, first + second, third);
  }

  /** A call on `n` returned Ok, yet the path is gone. */
  predicate Lost(t: State, p: Pid, n: Name) {
    && p in t.procs && t.procs[p].Call? && t.procs[p].target == n
    && t.procs[p].stage.Returned? && t.procs[p].stage.result.Ok?
    && Read(t.disk, n) == None
  }

  /** All targets but `n` are paths proper. */
  predicate ProperBut(acts: seq<Action>, n: Name) {
    forall a | a in acts && a.Invoke? && a.target != n :: !TempShaped(a.target)
  }

  /** A run from a directory at rest that loses `n` this way. */
  ghost predicate Loses(s: State, acts: seq<Action>, p: Pid, n: Name) {
    Quiet(s) && ProperBut(acts, n) && Lost(Run(s, acts), p, n)
  }

  /** The exact limit: among calls on paths proper, a target can be lost after Ok
      if and only if it is itself shaped like a temporary name. */
  lemma LosableIff(n: Name)
    ensures TempShaped(n) <==> exists s: State, acts: seq<Action>, p: Pid :: Loses(s, acts, p, n)
  {
    if TempShaped(n) {
      var vault, hex := n[..|n| - 21], n[|n| - 16..];
      assert n == TempName(vault, hex);
      LostToCleaner(vault, hex);
      assert Loses(EMPTY, Cleaned(vault, n), 1, n);
    } else {
      forall s: State, acts: seq<Action>, p: Pid ensures !Loses(s, acts, p, n) {
        if Loses(s, acts, p, n) {
          DurableOnceOk(s, acts, p, []);
        }
      }
    }
  }

  // ----- harm to other paths ------------------------------------------------

  /** A call on `path` with suffix `hex`, and before its commit a second call whose
      target is the first one's temporary name. */
  function Collision(path: Name, hex: string): seq<Action> {
    Prepare(1, path, hex, 1, 10) + Prepare(2, TempName(path, hex), HEX, 2, 11) + [Commit(2), Commit(1), SyncDir(1)]
  }

  lemma Overtaken(s: State, path: Name, t1: Name, t2: Name)
    requires path != t1 && t1 != t2 && path != t2
    requires 1 in s.procs && s.procs[1] == Call(Replace, path, [1], Ready(t1, 10))
    requires 2 in s.procs && s.procs[2] == Call(Replace, t1, [2], Ready(t2, 11))
    requires t1 in s.disk.dir && t2 in s.disk.dir && s.disk.dir[t2] == 11
    requires 10 in s.disk.files && s.disk.files[10].content == [1]
    requires 11 in s.disk.files && s.disk.files[11].content == [2]
    ensures var t := Apply(Apply(Apply(s, Commit(2)), Commit(1)), SyncDir(1));
      && 1 in t.procs && t.procs[1] == Call(Replace, path, [1], Returned(Ok(10)))
      && Read(t.disk, path) == Some([2]) && Content(t.disk, Some(10)) == Some([1])
  {
    var u1 := Apply(s, Commit(2));
    assert u1.disk.dir[t1] == 11 && u1.procs[1] == Call(Replace, path, [1], Ready(t1, 10));
    var u2 := Apply(u1, Commit(1));
    assert u2.disk.dir[path] == 11 && u2.procs[1].stage == Flushing(10);
  }

  /** Such a target harms others too: for every path and suffix, the call on the
      path returns Ok with the key of its own file, yet the path reads as the
      other call's bytes. */
  lemma TempShapedTargetBreaks(path: Name, hex: string)
    requires IsSuffix16(hex)
    ensures var t := Run(EMPTY, Collision(path, hex));
      && 1 in t.procs && t.procs[1] == Call(Replace, path, [1], Returned(Ok(10)))
      && Read(t.disk, path) == Some([2]) && Content(t.disk, Some(10)) == Some([1])
  {
    var t1, t2 := TempName(path, hex), TempName(TempName(path, hex), HEX);
    assert |t1| == |path| + 21 && |t2| == |path| + 42;
    var first, second, third := Prepare(1, path, hex, 1, 10), Prepare(2, t1, HEX, 2, 11), [Commit(2), Commit(1), SyncDir(1)];
    Prepared(EMPTY, 1, path, hex, 1, 10);
    var s1 := Run(EMPTY, first);
    Prepared(s1, 2, t1, HEX, 2, 11);
    var s2 := Run(s1, second);
    Overtaken(s2, path, t1, t2);
    RunThree(s2, Commit(2), Commit(1), SyncDir(1));
    RunAppend(EMPTY, first, second);
    RunAppend(EMPTY, first + second, third);
  }
}
