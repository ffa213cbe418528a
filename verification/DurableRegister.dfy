/** The specification that atomic file replacement refines: one register per
    path, written in single steps, with an explicit rule for what a crash may
    bring back. */
module DurableRegister {
  import opened Common

  type Path = string
  type Bytes = seq<byte>
  type Caller = nat

  /** A call that took effect. */
  datatype Commit = Commit(caller: Caller, path: Path, bytes: Bytes)

  /** `base` is what the disk held when the system came up, `log` the commits
      since, in order; the first `flushed` of them are guaranteed to survive. */
  datatype Reg = Reg(base: map<Path, Bytes>, log: seq<Commit>, flushed: nat)

  function Value(base: map<Path, Bytes>, log: seq<Commit>, p: Path): Option<Bytes> {
    if log == [] then Get(base, p)
    else if log[|log| - 1].path == p then Some(log[|log| - 1].bytes)
    else Value(base, log[..|log| - 1], p)
  }

  /** The content of `p` after the first `k` commits. */
  function ValueAt(r: Reg, k: nat, p: Path): Option<Bytes>
    requires k <= |r.log|
  {
    Value(r.base, r.log[..k], p)
  }

  function Current(r: Reg, p: Path): Option<Bytes> {
    ValueAt(r, |r.log|, p)
  }

  datatype Event =
    | Internal
    | Put(caller: Caller, path: Path, bytes: Bytes)
    | CreateNew(caller: Caller, path: Path, bytes: Bytes)
    | Flush
    | Crash(view: map<Path, Bytes>)

  predicate TookEffect(r: Reg, c: Caller) {
    exists i :: 0 <= i < |r.log| && r.log[i].caller == c
  }

  /** Some point of the history no older than the last flush explains `v`. */
  ghost predicate Explains(r: Reg, p: Path, v: Option<Bytes>) {
    exists k :: r.flushed <= k <= |r.log| && ValueAt(r, k, p) == v
  }

  /** A call takes effect at most once; a no-clobber create only on an absent
      path; a crash leaves each path at one of its values since the last flush. */
  ghost predicate Allowed(r: Reg, e: Event) {
    match e
    case Internal => true
    case Put(c, _, _) => !TookEffect(r, c)
    case CreateNew(c, p, _) => !TookEffect(r, c) && Current(r, p) == None
    case Flush => true
    case Crash(view) => forall p :: Explains(r, p, Get(view, p))
  }

  function Next(r: Reg, e: Event): Reg {
    match e
    case Internal => r
    case Put(c, p, b) => r.(log := r.log + [Commit(c, p, b)])
    case CreateNew(c, p, b) => r.(log := r.log + [Commit(c, p, b)])
    case Flush => r.(flushed := |r.log|)
    case Crash(view) => Reg(view, [], 0)
  }

  ghost predicate AllAllowed(r: Reg, es: seq<Event>)
    decreases |es|
  {
    es == [] || (Allowed(r, es[0]) && AllAllowed(Next(r, es[0]), es[1..]))
  }

  function After(r: Reg, es: seq<Event>): Reg
    decreases |es|
  {
    if es == [] then r else After(Next(r, es[0]), es[1..])
  }

  /** A commit leaves the past readable and becomes the present of its path. */
  lemma CommitExtends(r: Reg, c: Commit, k: nat, p: Path)
    requires k <= |r.log|
    ensures ValueAt(r.(log := r.log + [c]), k, p) == ValueAt(r, k, p)
    ensures Current(r.(log := r.log + [c]), p) == if p == c.path then Some(c.bytes) else Current(r, p)
  {
    var log := r.log + [c];
    assert log[..k] == r.log[..k];
    assert log[..|log|] == log && log[..|log| - 1] == r.log;
    assert r.log[..|r.log|] == r.log;
  }

  /** Whatever a path held after commit `i` to it, it holds the bytes of that
      commit or of a later one to the same path. */
  lemma {:induction false} ValueFrom(r: Reg, i: nat, k: nat, p: Path)
    requires i < k <= |r.log| && r.log[i].path == p
    ensures exists j :: i <= j < k && r.log[j].path == p && ValueAt(r, k, p) == Some(r.log[j].bytes)
  {
    var log := r.log[..k];
    assert log[k - 1] == r.log[k - 1];
    if r.log[k - 1].path != p {
      assert log[..k - 1] == r.log[..k - 1];
      ValueFrom(r, i, k - 1, p);
    }
  }

  /** Any value of any path is its initial content or one commit's whole bytes. */
  lemma {:induction false} ValueIsWhole(r: Reg, k: nat, p: Path)
    requires k <= |r.log|
    ensures ValueAt(r, k, p) == Get(r.base, p)
         || exists j :: 0 <= j < k && r.log[j].path == p && ValueAt(r, k, p) == Some(r.log[j].bytes)
  {
    if k > 0 {
      var log := r.log[..k];
      assert log[k - 1] == r.log[k - 1];
      if r.log[k - 1].path != p {
        assert log[..k - 1] == r.log[..k - 1];
        ValueIsWhole(r, k - 1, p);
      }
    }
  }

  // ----- durability ---------------------------------------------------------

  /** The event writes bytes `b` to path `p`. */
  predicate Writes(e: Event, p: Path, b: Bytes) {
    (e.Put? || e.CreateNew?) && e.path == p && e.bytes == b
  }

  /** Now, and after any crash from here, `p` holds one of `good`. */
  ghost predicate Settled(r: Reg, p: Path, good: set<Bytes>) {
    r.flushed <= |r.log| && forall k | r.flushed <= k <= |r.log| :: ValueAt(r, k, p).Some? && ValueAt(r, k, p).value in good
  }

  /** Any event but another write to `p` leaves it so, a crash included. */
  lemma EventSettles(r: Reg, e: Event, p: Path, good: set<Bytes>)
    requires Settled(r, p, good) && Allowed(r, e)
    requires (e.Put? || e.CreateNew?) && e.path == p ==> e.bytes in good
    ensures Settled(Next(r, e), p, good)
  {
    var r' := Next(r, e);
    match e
    case Put(c, q, b) => CommitSettles(r, Commit(c, q, b), p, good);
    case CreateNew(c, q, b) => CommitSettles(r, Commit(c, q, b), p, good);
    case Crash(view) =>
      assert Explains(r, p, Get(view, p));
      assert ValueAt(r', 0, p) == Get(view, p);
    case _ =>
      assert forall k | r'.flushed <= k <= |r.log| :: ValueAt(r', k, p) == ValueAt(r, k, p);
  }

  lemma CommitSettles(r: Reg, c: Commit, p: Path, good: set<Bytes>)
    requires Settled(r, p, good) && (c.path == p ==> c.bytes in good)
    ensures Settled(r.(log := r.log + [c]), p, good)
  {
    var r' := r.(log := r.log + [c]);
    forall k | r'.flushed <= k <= |r'.log| ensures ValueAt(r', k, p).Some? && ValueAt(r', k, p).value in good {
      if k <= |r.log| {
        CommitExtends(r, c, k, p);
      } else {
        CommitExtends(r, c, |r.log|, p);
        assert ValueAt(r, |r.log|, p).Some?;
      }
    }
  }

  /** So it goes over every run, however many crashes it holds. */
  lemma {:induction false} RunSettles(r: Reg, es: seq<Event>, p: Path, good: set<Bytes>)
    requires Settled(r, p, good) && AllAllowed(r, es)
    requires forall k | 0 <= k < |es| && (es[k].Put? || es[k].CreateNew?) && es[k].path == p :: es[k].bytes in good
    ensures Settled(After(r, es), p, good)
    decreases |es|
  {
    if es != [] {
      EventSettles(r, es[0], p, good);
      assert forall k | 0 <= k < |es[1..]| :: es[1..][k] == es[k + 1];
      RunSettles(Next(r, es[0]), es[1..], p, good);
    }
  }
}
