/** The Argon2id cost given to passphrases written into an existing vault, and
    that it never weakens what an attacker of the vault has to pay. */
module KdfCost {
  import opened Common
  import opened Keyslots

  const U32: nat := 0x1_0000_0000
  const U64: nat := 0x1_0000_0000_0000_0000
  type u32 = x: nat | x < U32

  /** `Argon2idParams`. */
  datatype Params = Params(mCostKib: u32, tCost: u32, pCost: u32)

  const INTERACTIVE: Params := Params(256 * 1024, 3, 4)
  const SAFE_M_COST_KIB_MAX: nat := 4 * 1024 * 1024
  const SAFE_T_COST_MAX: nat := 16
  const SAFE_P_COST_MAX: nat := 16

  /** `is_sane_for_disk`. */
  predicate SaneForDisk(p: Params) {
    8 <= p.mCostKib <= SAFE_M_COST_KIB_MAX && 1 <= p.tCost <= SAFE_T_COST_MAX && 1 <= p.pCost <= SAFE_P_COST_MAX
  }

  const FLOOR_M_COST_KIB: nat := 64 * 1024
  const FLOOR_WORK: nat := FLOOR_M_COST_KIB * 3

  function Work(p: Params): nat {
    p.mCostKib * p.tCost
  }

  /** The u64 product of two u32 costs does not wrap. */
  lemma WorkFits(p: Params)
    ensures Work(p) < U64
  {
    ProductBound(p.mCostKib, p.tCost, U32 - 1);
  }

  lemma ProductBound(a: nat, b: nat, k: nat)
    requires a <= k && b <= k
    ensures a * b <= k * k
  {
    assert a * b <= a * k;
    assert a * k <= k * k;
  }

  /** `kdf_weakness`: some reason, if the cost is under the RFC 9106 floor. */
  predicate Weak(p: Params) {
    p.mCostKib < FLOOR_M_COST_KIB || Work(p) < FLOOR_WORK
  }

  /** The floor is the 64 MiB option of section 4 of RFC 9106: its memory, and the
      work of its three passes. */
  lemma FloorIsRfcOption(p: Params)
    ensures !Weak(p) <==> p.mCostKib >= 65536 && p.mCostKib * p.tCost >= 65536 * 3
  {}

  /** `kdf_work`, compared as the tuple it is. */
  predicate Leq(a: Params, b: Params) {
    Work(a) < Work(b) || (Work(a) == Work(b) && a.mCostKib <= b.mCostKib)
  }

  datatype Slot = Slot(kind: SlotKind, params: Params)

  predicate Usable(s: Slot) {
    s.kind.RunsPassphraseKdf() && SaneForDisk(s.params)
  }

  /** `max_by_key(kdf_work)` over the usable slots: the last of the maxima. */
  function Strongest(slots: seq<Slot>): (r: Option<Params>)
    ensures r.Some? ==> exists i :: 0 <= i < |slots| && Usable(slots[i]) && slots[i].params == r.value
    ensures forall i :: 0 <= i < |slots| && Usable(slots[i]) ==> r.Some? && Leq(slots[i].params, r.value)
  {
    if slots == [] then None
    else
      var n := |slots| - 1;
      var rest := Strongest(slots[..n]);
      assert forall i | 0 <= i < n :: slots[..n][i] == slots[i];
      if !Usable(slots[n]) then rest
      else if rest.Some? && !Leq(rest.value, slots[n].params) then rest
      else Some(slots[n].params)
  }

  /** `inherited_kdf_params`. */
  function Inherited(slots: seq<Slot>, replacing: Option<nat>): Option<Params> {
    if replacing.Some? && replacing.value < |slots| && Usable(slots[replacing.value])
    then Some(slots[replacing.value].params)
    else Strongest(slots)
  }

  /** `kdf_params_for_existing` without `--kdf`. */
  function ForExisting(slots: seq<Slot>, replacing: Option<nat>): Params {
    match Inherited(slots, replacing)
    case Some(p) => p
    case None => INTERACTIVE
  }

  // ----- commands on a vault ------------------------------------------------

  datatype Command =
    | EnrollPassphrase
    | EnrollSepPassphrase(kind: SlotKind)      // fused Secure Enclave kinds with a passphrase
    | EnrollOther(kind: SlotKind)              // kinds that ask for no passphrase
    | UpdatePassphrase(slot: nat)
    | UpdateOther(slot: nat, kind: SlotKind)
    | Revoke(slot: nat)

  predicate ValidCommand(c: Command) {
    match c
    case EnrollSepPassphrase(k) => k.IsSepPassphrase()
    case EnrollOther(k) => !k.RunsPassphraseKdf()
    case UpdateOther(_, k) => !k.RunsPassphraseKdf()
    case _ => true
  }

  predicate IsEmpty(s: Slot) { s.kind == Empty }

  function Enroll(slots: seq<Slot>, s: Slot): seq<Slot> {
    var i := FirstFree(slots, IsEmpty);
    if i == |slots| then slots else slots[i := s]
  }

  /** One command without `--kdf`; one that fails leaves the keyslots alone. */
  function Step(slots: seq<Slot>, c: Command): (r: seq<Slot>)
    ensures |r| == |slots|
  {
    match c
    case EnrollPassphrase => Enroll(slots, Slot(Passphrase, ForExisting(slots, None)))
    case EnrollSepPassphrase(k) => Enroll(slots, Slot(k, ForExisting(slots, None)))
    case EnrollOther(k) => Enroll(slots, Slot(k, INTERACTIVE))
    case UpdatePassphrase(i) =>
      if i < |slots| && slots[i].kind != Empty then slots[i := Slot(Passphrase, ForExisting(slots, Some(i)))] else slots
    case UpdateOther(i, k) =>
      if i < |slots| && slots[i].kind != Empty then slots[i := Slot(k, INTERACTIVE)] else slots
    case Revoke(i) => if i < |slots| then slots[i := slots[i].(kind := Empty)] else slots
  }

  function Run(slots: seq<Slot>, cs: seq<Command>): seq<Slot>
    decreases |cs|
  {
    if cs == [] then slots else Run(Step(slots, cs[0]), cs[1..])
  }

  predicate HasUsable(slots: seq<Slot>) {
    exists i :: 0 <= i < |slots| && Usable(slots[i])
  }

  /** An attacker pays at least `b` whichever usable passphrase slot is attacked. */
  predicate CostsAtLeast(slots: seq<Slot>, b: Params) {
    forall i :: 0 <= i < |slots| && Usable(slots[i]) ==> Leq(b, slots[i].params)
  }

  predicate NoneWeak(slots: seq<Slot>) {
    forall i :: 0 <= i < |slots| && Usable(slots[i]) ==> !Weak(slots[i].params)
  }

  /** The command writes a passphrase while no usable slot is left to inherit from. */
  predicate FallsBack(slots: seq<Slot>, c: Command) {
    !HasUsable(slots) && match c
      case EnrollPassphrase => FirstFree(slots, IsEmpty) < |slots|
      case EnrollSepPassphrase(_) => FirstFree(slots, IsEmpty) < |slots|
      case UpdatePassphrase(i) => i < |slots| && slots[i].kind != Empty
      case _ => false
  }

  /** What a passphrase without `--kdf` is given: a cost already in the vault, or
      the interactive preset when there is none. */
  lemma InheritedIsPresent(slots: seq<Slot>, replacing: Option<nat>)
    ensures HasUsable(slots) ==>
      exists i :: 0 <= i < |slots| && Usable(slots[i]) && slots[i].params == ForExisting(slots, replacing)
    ensures !HasUsable(slots) ==> ForExisting(slots, replacing) == INTERACTIVE
  {
  }

  /** Exactly which cost: `update` keeps that of the usable slot it rewrites;
      otherwise it is one no usable slot exceeds in work, then memory; and without a
      usable slot 256 MiB, three passes, four lanes. */
  lemma InheritsExactly(slots: seq<Slot>, replacing: Option<nat>)
    ensures var p := ForExisting(slots, replacing);
      if replacing.Some? && replacing.value < |slots| && Usable(slots[replacing.value]) then p == slots[replacing.value].params
      else if exists i :: 0 <= i < |slots| && Usable(slots[i])
      then forall i | 0 <= i < |slots| && Usable(slots[i]) ::
             var q := slots[i].params;
             q.mCostKib * q.tCost < p.mCostKib * p.tCost || (q.mCostKib * q.tCost == p.mCostKib * p.tCost && q.mCostKib <= p.mCostKib)
      else p == Params(262144, 3, 4)
  {}

  /** Which slots carry a cost an attacker pays: those that need a passphrase, with
      parameters the disk format allows. */
  lemma UsableExactly(s: Slot)
    ensures Usable(s) <==>
      Pass in Needs(s.kind) && 8 <= s.params.mCostKib <= 4194304 && 1 <= s.params.tCost <= 16 && 1 <= s.params.pCost <= 16
  {
    KindsByNeeds(s.kind);
  }

  /** A command changes one slot at most: an enroll the lowest empty one, an update
      or revoke the one it names; and it leaves there the kind it is about. */
  lemma StepChangesOne(slots: seq<Slot>, c: Command, j: nat)
    requires j < |slots|
    ensures var lowest, after := slots[j].kind == Empty && forall k | 0 <= k < j :: slots[k].kind != Empty, Step(slots, c)[j];
      match c
      case EnrollPassphrase => after == if lowest then Slot(Passphrase, ForExisting(slots, None)) else slots[j]
      case EnrollSepPassphrase(kind) => after == if lowest then Slot(kind, ForExisting(slots, None)) else slots[j]
      case EnrollOther(kind) => after.kind == (if lowest then kind else slots[j].kind) && (!lowest ==> after == slots[j])
      case UpdatePassphrase(i) => after == if i == j && slots[j].kind != Empty then Slot(Passphrase, ForExisting(slots, Some(j))) else slots[j]
      case UpdateOther(i, kind) => after.kind == (if i == j && slots[j].kind != Empty then kind else slots[j].kind) && (i != j ==> after == slots[j])
      case Revoke(i) => if i == j then after.kind == Empty else after == slots[j]
  {}

  lemma StepKeepsCost(slots: seq<Slot>, c: Command, b: Params)
    requires ValidCommand(c) && CostsAtLeast(slots, b)
    ensures CostsAtLeast(Step(slots, c), b) <==> !FallsBack(slots, c) || Leq(b, INTERACTIVE)
  {
    InheritedIsPresent(slots, None);
    match c
    case UpdatePassphrase(i) =>
      InheritedIsPresent(slots, Some(i));
      if FallsBack(slots, c) { assert Usable(Step(slots, c)[i]); }
    case EnrollPassphrase =>
      if FallsBack(slots, c) { assert Usable(Step(slots, c)[FirstFree(slots, IsEmpty)]); }
    case EnrollSepPassphrase(_) =>
      if FallsBack(slots, c) { assert Usable(Step(slots, c)[FirstFree(slots, IsEmpty)]); }
    case _ =>
  }

  /** No command of the run finds the vault without a usable passphrase slot. */
  predicate NeverFallsBack(slots: seq<Slot>, cs: seq<Command>)
    decreases |cs|
  {
    cs == [] || (!FallsBack(slots, cs[0]) && NeverFallsBack(Step(slots, cs[0]), cs[1..]))
  }

  /** Cost never silently weakens: over every run, no usable passphrase slot ends
      up cheaper than the cheapest was, as long as the run never writes a
      passphrase into a vault left without a usable one. */
  lemma {:induction false} CostNeverFalls(slots: seq<Slot>, cs: seq<Command>, b: Params)
    requires (forall c | c in cs :: ValidCommand(c)) && CostsAtLeast(slots, b) && NeverFallsBack(slots, cs)
    ensures CostsAtLeast(Run(slots, cs), b)
    decreases |cs|
  {
    if cs != [] {
      StepKeepsCost(slots, cs[0], b);
      CostNeverFalls(Step(slots, cs[0]), cs[1..], b);
    }
  }

  /** A bound no higher than the interactive preset needs no such care. */
  lemma {:induction false} CostNeverFallsBelowPreset(slots: seq<Slot>, cs: seq<Command>, b: Params)
    requires (forall c | c in cs :: ValidCommand(c)) && CostsAtLeast(slots, b) && Leq(b, INTERACTIVE)
    ensures CostsAtLeast(Run(slots, cs), b)
    decreases |cs|
  {
    if cs != [] {
      StepKeepsCost(slots, cs[0], b);
      CostNeverFallsBelowPreset(Step(slots, cs[0]), cs[1..], b);
    }
  }

  /** A vault with no slot under the floor never gains one, on any run at all. */
  lemma {:induction false} FloorIsKept(slots: seq<Slot>, cs: seq<Command>)
    requires (forall c | c in cs :: ValidCommand(c)) && NoneWeak(slots)
    ensures NoneWeak(Run(slots, cs))
    decreases |cs|
  {
    if cs != [] {
      InheritedIsPresent(slots, None);
      if cs[0].UpdatePassphrase? {
        InheritedIsPresent(slots, Some(cs[0].slot));
      }
      assert NoneWeak(Step(slots, cs[0]));
      FloorIsKept(Step(slots, cs[0]), cs[1..]);
    }
  }

  /** Some usable slot is under the floor although no usable slot costs more. */
  predicate StrongestIsWeak(slots: seq<Slot>) {
    exists i :: 0 <= i < |slots| && Usable(slots[i]) && Weak(slots[i].params)
                && forall j :: 0 <= j < |slots| && Usable(slots[j]) ==> Leq(slots[j].params, slots[i].params)
  }

  /** Costs that tie in the order are equal in work and memory, hence in weakness. */
  lemma TiesAgree(a: Params, b: Params)
    requires Leq(a, b) && Leq(b, a)
    ensures Weak(a) == Weak(b)
  {}

  /** The floor is only kept, not restored. Exactly when a passphrase without
      `--kdf` gets a cost under the floor: the slot it replaces has one, or there
      is none to keep and the strongest usable cost is weak. */
  lemma InheritsWeakIff(slots: seq<Slot>, replacing: Option<nat>)
    ensures Weak(ForExisting(slots, replacing)) <==>
      if replacing.Some? && replacing.value < |slots| && Usable(slots[replacing.value])
      then Weak(slots[replacing.value].params) else StrongestIsWeak(slots)
  {
    var top := Strongest(slots);
    if top.Some? {
      var i :| 0 <= i < |slots| && Usable(slots[i]) && slots[i].params == top.value;
      if j :| 0 <= j < |slots| && Usable(slots[j]) && Weak(slots[j].params)
              && forall k :: 0 <= k < |slots| && Usable(slots[k]) ==> Leq(slots[k].params, slots[j].params) {
        TiesAgree(slots[j].params, top.value);
      }
    }
  }

  /** It happens although a slot above the floor is present, because the order
      compares total work before memory. */
  lemma StrongestMayBeWeak()
    ensures var slots := [Slot(Passphrase, Params(32 * 1024, 16, 1)), Slot(Passphrase, Params(64 * 1024, 3, 1))];
      && Weak(slots[0].params) && !Weak(slots[1].params)
      && ForExisting(slots, None) == slots[0].params
  {
    var slots := [Slot(Passphrase, Params(32 * 1024, 16, 1)), Slot(Passphrase, Params(64 * 1024, 3, 1))];
    assert Usable(slots[0]) && Usable(slots[1]);
    assert slots[..1] == [slots[0]] && slots[..1][..0] == [];
    assert Strongest(slots[..1]) == Some(slots[0].params);
  }
}
