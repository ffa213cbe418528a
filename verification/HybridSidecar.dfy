/** The `.hybrid` sidecar as a list of per-slot entries. */
module HybridSidecar {
  import opened Common
  import opened Keyslots

  const MAX_ENTRIES: nat := 8

  datatype Entry = Entry(slotIdx: nat, ct: nat)

  predicate Distinct(es: seq<Entry>) {
    forall i, j | 0 <= i < j < |es| :: es[i].slotIdx != es[j].slotIdx
  }

  /** What the sidecar's reader and writer insist on. */
  predicate WellFormed(es: seq<Entry>) { |es| <= MAX_ENTRIES && Distinct(es) }

  /** Readers take the first entry for a slot. */
  function Find(es: seq<Entry>, idx: nat): (r: Option<nat>)
    ensures r.Some? ==> Entry(idx, r.value) in es
    ensures r.None? ==> forall e | e in es :: e.slotIdx != idx
  {
    if es == [] then None else if es[0].slotIdx == idx then Some(es[0].ct) else Find(es[1..], idx)
  }

  /** An entry is found exactly at its first occurrence. */
  lemma {:induction false} FindsFirst(es: seq<Entry>, idx: nat, k: nat)
    requires k < |es| && es[k].slotIdx == idx && forall j | 0 <= j < k :: es[j].slotIdx != idx
    ensures Find(es, idx) == Some(es[k].ct)
  {
    if k > 0 {
      FindsFirst(es[1..], idx, k - 1);
    }
  }

  function Without(es: seq<Entry>, idx: nat): (r: seq<Entry>)
    ensures forall e :: e in r <==> e in es && e.slotIdx != idx
    ensures |r| <= |es|
  {
    if es == [] then [] else (if es[0].slotIdx == idx then [] else [es[0]]) + Without(es[1..], idx)
  }

  predicate Tidy(es: seq<Entry>) { Distinct(es) && forall e | e in es :: e.slotIdx < MAX_KEYSLOTS }

  /** A tidy sidecar has at most eight entries, at most seven once a slot's own
      entry is gone, so the writer never refuses it. */
  lemma TidyIsSmall(es: seq<Entry>, spare: nat)
    requires Tidy(es) && spare < MAX_KEYSLOTS
    ensures |es| <= MAX_ENTRIES
    ensures (forall e | e in es :: e.slotIdx != spare) ==> |es| < MAX_ENTRIES
  {
    var used := Indices(es);
    var all := Below(MAX_KEYSLOTS);
    AsManyIndices(es);
    Subset(used, all);
    if forall e | e in es :: e.slotIdx != spare {
      Subset(used, all - {spare});
    }
  }

  function Indices(es: seq<Entry>): set<nat> { set e | e in es :: e.slotIdx }

  lemma {:induction false} AsManyIndices(es: seq<Entry>)
    requires Distinct(es)
    ensures |Indices(es)| == |es|
  {
    if es != [] {
      var rest := es[1..];
      AsManyIndices(rest);
      assert es == [es[0]] + rest;
      assert forall e | e in rest :: exists k | 1 <= k < |es| :: es[k] == e;
      assert es[0].slotIdx !in Indices(rest);
      assert Indices(es) == Indices(rest) + {es[0].slotIdx};
    }
  }

  function Below(n: nat): (r: set<nat>)
    ensures |r| == n && forall i: nat :: i in r <==> i < n
  {
    if n == 0 then {} else Below(n - 1) + {n - 1}
  }

  lemma Subset<T>(a: set<T>, b: set<T>)
    requires a <= b
    ensures |a| <= |b|
  {
    assert b == a + (b - a);
  }

  /** `retain` works entry by entry and keeps the order. */
  lemma {:induction false} WithoutConcat(a: seq<Entry>, b: seq<Entry>, idx: nat)
    ensures Without(a + b, idx) == Without(a, idx) + Without(b, idx)
  {
    if a == [] {
      assert a + b == b && Without(a, idx) == [];
    } else {
      var kept := if a[0].slotIdx == idx then [] else [a[0]];
      assert (a + b)[0] == a[0] && (a + b)[1..] == a[1..] + b;
      WithoutConcat(a[1..], b, idx);
      Regroup(kept, Without(a[1..], idx), Without(b, idx));
    }
  }

  lemma Regroup(x: seq<Entry>, y: seq<Entry>, z: seq<Entry>)
    ensures x + (y + z) == (x + y) + z
  {}

  /** Dropping one index keeps every other answer. */
  lemma WithoutKeeps(es: seq<Entry>, idx: nat)
    requires Tidy(es)
    ensures Tidy(Without(es, idx)) && Find(Without(es, idx), idx) == None
    ensures forall i | i != idx :: Find(Without(es, idx), i) == Find(es, i)
  {
    WithoutDistinct(es, idx);
    forall i | i != idx ensures Find(Without(es, idx), i) == Find(es, i) {
      WithoutFinds(es, idx, i);
    }
  }

  lemma {:induction false} WithoutDistinct(es: seq<Entry>, idx: nat)
    requires Distinct(es)
    ensures Distinct(Without(es, idx))
  {
    if es != [] {
      WithoutDistinct(es[1..], idx);
      var rest := Without(es[1..], idx);
      forall e | e in rest ensures e.slotIdx != es[0].slotIdx {
        var k :| 0 <= k < |es[1..]| && es[1..][k] == e;
        assert es[k + 1] == e;
      }
    }
  }

  lemma {:induction false} WithoutFinds(es: seq<Entry>, idx: nat, i: nat)
    requires i != idx
    ensures Find(Without(es, idx), i) == Find(es, i)
  {
    if es != [] {
      WithoutFinds(es[1..], idx, i);
      var rest := Without(es[1..], idx);
      assert ([es[0]] + rest)[1..] == rest;
      assert [] + rest == rest;
    }
  }

  lemma {:induction false} PushKeeps(es: seq<Entry>, e: Entry)
    requires Tidy(es) && Find(es, e.slotIdx) == None && e.slotIdx < MAX_KEYSLOTS
    ensures Tidy(es + [e]) && Find(es + [e], e.slotIdx) == Some(e.ct)
    ensures forall i | i != e.slotIdx :: Find(es + [e], i) == Find(es, i)
  {
    forall i | i != e.slotIdx ensures Find(es + [e], i) == Find(es, i) {
      FindAppend(es, e, i);
    }
    FindAppend(es, e, e.slotIdx);
  }

  lemma {:induction false} FindAppend(es: seq<Entry>, e: Entry, i: nat)
    ensures Find(es + [e], i) == if Find(es, i).Some? then Find(es, i) else if e.slotIdx == i then Some(e.ct) else None
  {
    if es == [] {
      assert es + [e] == [e];
    } else {
      assert (es + [e])[1..] == es[1..] + [e];
      FindAppend(es[1..], e, i);
    }
  }
}
