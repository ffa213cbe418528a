/** Opening a vault through its Secure Enclave keyslots: the loop that skips an
    open call it already made gives what the loop without the shortcut gives. */
module SepOpen {
  import opened Common
  import opened Keyslots

  /** What an authenticator or a key encapsulation yields. */
  type Output = nat

  /** The authenticator's answer for one slot. */
  datatype Fido = Response(secret: Output) | PinFailure | OtherFailure

  /** The factors of one `Container::open` call. */
  datatype Factors = Factors(hmac: Option<Output>, passphrase: bool, pq: Option<Output>)

  /** The world: keyslots, what hardware and sidecar answer for each, and which
      slots unlock under which factors. `wantPq` is `pq_shared_for.is_some()`. */
  datatype World = World(
    slots: seq<SlotKind>,
    wantPq: bool,
    askedFido2: bool,
    passphraseGiven: bool,
    fido: nat -> Fido,
    pq: nat -> Option<Output>,
    unlocks: (nat, Factors) -> bool)

  predicate InScope(w: World, k: SlotKind) {
    k.IsSep() && k.IsHybridPq() == w.wantPq
  }

  predicate AnyInScope(w: World, fido2: bool) {
    exists k | k in w.slots :: InScope(w, k) && k.IsSepFido2() == fido2
  }

  /** The authenticator is used if asked for, or if every slot in scope needs it. */
  predicate CollectFido2(w: World) {
    AnyInScope(w, true) && (w.askedFido2 || !AnyInScope(w, false))
  }

  predicate Attempted(w: World, k: SlotKind) {
    InScope(w, k) && (CollectFido2(w) || !k.IsSepFido2())
  }

  /** The slots the loop body gets to: attempted, and the passphrase at hand. */
  predicate Visited(w: World, i: nat)
    requires i < |w.slots|
  {
    Attempted(w, w.slots[i]) && (w.slots[i].IsSepPassphrase() ==> w.passphraseGiven)
  }

  /** Slots that bring no input of their own: one open call per shape covers all. */
  predicate Plain(w: World, i: nat)
    requires i < |w.slots|
  {
    !w.wantPq && !w.slots[i].IsSepFido2()
  }

  /** In terms of what the kinds need: a slot is tried if it is an enclave slot,
      post-quantum exactly when that is asked for, its passphrase is at hand, and
      its authenticator, if it needs one, is asked for or needed by every slot in
      scope. */
  lemma VisitedExactly(w: World, i: nat)
    requires i < |w.slots|
    ensures Visited(w, i) <==>
      && Enclave in Needs(w.slots[i])
      && (MlKem768 in Needs(w.slots[i]) || MlKem1024 in Needs(w.slots[i])) == w.wantPq
      && (Pass in Needs(w.slots[i]) ==> w.passphraseGiven)
      && (Fido2 in Needs(w.slots[i]) ==>
            w.askedFido2 || forall k | k in w.slots && Enclave in Needs(k) && (MlKem768 in Needs(k) || MlKem1024 in Needs(k)) == w.wantPq :: Fido2 in Needs(k))
  {
    forall k: SlotKind ensures InScope(w, k) <==> Enclave in Needs(k) && (MlKem768 in Needs(k) || MlKem1024 in Needs(k)) == w.wantPq {
      KindsByNeeds(k);
    }
    forall k: SlotKind ensures k.IsSepFido2() <==> {Enclave, Fido2} <= Needs(k) {
      KindsByNeeds(k);
    }
    KindsByNeeds(w.slots[i]);
  }

  // ----- Container::open ----------------------------------------------------

  predicate Matches(k: SlotKind, f: Factors) {
    k.IsSep() && k.IsSepFido2() == f.hmac.Some? && k.IsSepPassphrase() == f.passphrase && k.IsHybridPq() == f.pq.Some?
  }

  /** Every slot whose factor set matches is tried in order; the first success wins. */
  function ContainerOpen(w: World, f: Factors, i: nat): (r: Option<nat>)
    requires i <= |w.slots|
    ensures r.Some? ==> i <= r.value < |w.slots| && Matches(w.slots[r.value], f) && w.unlocks(r.value, f)
    ensures forall j :: i <= j < |w.slots| && (r.Some? ==> j < r.value) ==> !(Matches(w.slots[j], f) && w.unlocks(j, f))
    decreases |w.slots| - i
  {
    if i == |w.slots| then None
    else if Matches(w.slots[i], f) && w.unlocks(i, f) then Some(i)
    else ContainerOpen(w, f, i + 1)
  }

  // ----- the loop without the shortcut --------------------------------------

  datatype Outcome = Opened(slot: nat) | PinRefused | NotOpened

  /** What one pass of the body does to slot `i`, the shortcut aside: None means
      the loop goes on. */
  function Body(w: World, i: nat): Option<Outcome>
    requires i < |w.slots|
  {
    if w.wantPq && w.pq(i).None? then None
    else if w.slots[i].IsSepFido2() && w.fido(i).PinFailure? then Some(PinRefused)
    else if w.slots[i].IsSepFido2() && w.fido(i).OtherFailure? then None
    else
      match ContainerOpen(w, FactorsFor(w, i), 0)
      case Some(s) => Some(Opened(s))
      case None => None
  }

  function FactorsFor(w: World, i: nat): Factors
    requires i < |w.slots|
  {
    Factors(
      if w.slots[i].IsSepFido2() && w.fido(i).Response? then Some(w.fido(i).secret) else None,
      w.slots[i].IsSepPassphrase(),
      if w.wantPq then w.pq(i) else None)
  }

  /** In terms of the answers: a missing encapsulation or a failing authenticator
      gives nothing, a refused PIN ends it, and otherwise the slot's own factors
      open the lowest slot of these factors that they unlock. */
  lemma BodyExactly(w: World, i: nat)
    requires i < |w.slots| && Visited(w, i)
    ensures var needs := Needs(w.slots[i]);
      var f := Factors(if Fido2 in needs && w.fido(i).Response? then Some(w.fido(i).secret) else None, Pass in needs, if w.wantPq then w.pq(i) else None);
      if w.wantPq && w.pq(i).None? then Body(w, i) == None
      else if Fido2 in needs && w.fido(i).PinFailure? then Body(w, i) == Some(PinRefused)
      else if Fido2 in needs && w.fido(i).OtherFailure? then Body(w, i) == None
      else
        && (Body(w, i) == None <==> forall j | 0 <= j < |w.slots| && SameFactors(w, i, j) :: !w.unlocks(j, f))
        && forall s: nat :: Body(w, i) == Some(Opened(s)) ==>
             0 <= s < |w.slots| && SameFactors(w, i, s) && w.unlocks(s, f) && forall j | 0 <= j < s && SameFactors(w, i, j) :: !w.unlocks(j, f)
  {
    var f := FactorsFor(w, i);
    KindsByNeeds(w.slots[i]);
    if !(w.wantPq && w.pq(i).None?) && !(w.slots[i].IsSepFido2() && !w.fido(i).Response?) {
      forall j | 0 <= j < |w.slots| ensures Matches(w.slots[j], f) <==> SameFactors(w, i, j) {
        KindsByNeeds(w.slots[j]);
      }
    }
  }

  /** Slot `j` is an enclave slot that needs the same kinds of input as slot `i`. */
  predicate SameFactors(w: World, i: nat, j: nat)
    requires i < |w.slots| && j < |w.slots|
  {
    var a, b := Needs(w.slots[i]), Needs(w.slots[j]);
    && Enclave in b && (Fido2 in a <==> Fido2 in b) && (Pass in a <==> Pass in b)
    && (MlKem768 in a || MlKem1024 in a <==> MlKem768 in b || MlKem1024 in b)
  }

  function EverySlot(w: World, i: nat): Outcome
    requires i <= |w.slots|
    decreases |w.slots| - i
  {
    if i == |w.slots| then NotOpened
    else if !Visited(w, i) then EverySlot(w, i + 1)
    else
      match Body(w, i)
      case Some(o) => o
      case None => EverySlot(w, i + 1)
  }

  /** What the full loop achieves in terms of slots: it opens the vault exactly
      when some visited slot's factors open one before a PIN is refused. */
  lemma {:induction false} EverySlotOpens(w: World, i: nat)
    requires i <= |w.slots|
    ensures EverySlot(w, i).Opened? <==>
      exists k :: i <= k < |w.slots| && Visited(w, k) && Body(w, k).Some? && Body(w, k).value.Opened?
                  && forall j :: i <= j < k && Visited(w, j) ==> Body(w, j) == None
    decreases |w.slots| - i
  {
    if i < |w.slots| {
      EverySlotOpens(w, i + 1);
    }
  }

  /** Its outcome is one slot's, or none had anything to offer. */
  lemma {:induction false} EverySlotMeans(w: World, i: nat)
    requires i <= |w.slots|
    ensures EverySlot(w, i) == NotOpened ==> forall k | i <= k < |w.slots| && Visited(w, k) :: Body(w, k) == None
    ensures EverySlot(w, i) != NotOpened ==> exists k :: i <= k < |w.slots| && Visited(w, k) && Body(w, k) == Some(EverySlot(w, i))
    decreases |w.slots| - i
  {
    if i < |w.slots| && !(Visited(w, i) && Body(w, i).Some?) {
      EverySlotMeans(w, i + 1);
    }
  }

  /** Two plain slots of one shape ask the same of `Container::open`. */
  lemma PlainBodiesAgree(w: World, i: nat, j: nat)
    requires i < |w.slots| && j < |w.slots| && Plain(w, i) && Plain(w, j)
    requires w.slots[i].IsSepPassphrase() == w.slots[j].IsSepPassphrase()
    ensures Body(w, i) == Body(w, j)
  {
  }

  // ----- the code -----------------------------------------------------------

  /** What the loop does to the outside world. */
  datatype Event = OpenCall(slot: nat, plain: bool, passphrase: bool) | Touch(slot: nat, answer: Fido)

  predicate PlainCall(e: Event) {
    e.OpenCall? && e.plain
  }

  /** No two open calls for plain slots share a passphrase shape. */
  predicate OncePerShape(log: seq<Event>) {
    forall a, b | 0 <= a < b < |log| && PlainCall(log[a]) && PlainCall(log[b]) :: log[a].passphrase != log[b].passphrase
  }

  predicate Refused(e: Event) {
    e.Touch? && e.answer.PinFailure?
  }

  /** Plain slots of the tried shapes have nothing left to offer from `i` on. */
  predicate Exhausted(w: World, i: nat, shapes: set<bool>) {
    forall k | i <= k < |w.slots| && Plain(w, k) && w.slots[k].IsSepPassphrase() in shapes :: Body(w, k) == None
  }

  /** Every event is about a slot the loop may try, and the authenticator is used
      only for those that need it. */
  predicate Rightful(w: World, log: seq<Event>) {
    forall a | 0 <= a < |log| ::
      log[a].slot < |w.slots| && Visited(w, log[a].slot) && (log[a].Touch? ==> w.slots[log[a].slot].IsSepFido2())
  }

  /** The slot's own secrets are to be had. */
  predicate Gives(w: World, i: nat)
    requires i < |w.slots|
  {
    (w.wantPq ==> w.pq(i).Some?) && (w.slots[i].IsSepFido2() ==> w.fido(i).Response?)
  }

  /** An open call was made with the factors of slot `i`: its own, or, for a plain
      slot, one of its shape. */
  predicate Called(w: World, log: seq<Event>, i: nat)
    requires i < |w.slots|
  {
    exists a :: 0 <= a < |log| && log[a].OpenCall?
      && (log[a].slot == i || (Plain(w, i) && log[a].plain && log[a].passphrase == w.slots[i].IsSepPassphrase()))
  }

  predicate AllCalled(w: World, log: seq<Event>, n: nat, shapes: set<bool>)
    requires n <= |w.slots|
  {
    && (forall i | 0 <= i < n && Visited(w, i) && Gives(w, i) :: Called(w, log, i))
    && (true in shapes ==> PlainCalled(log, true)) && (false in shapes ==> PlainCalled(log, false))
  }

  predicate PlainCalled(log: seq<Event>, passphrase: bool) {
    exists a :: 0 <= a < |log| && PlainCall(log[a]) && log[a].passphrase == passphrase
  }

  lemma CallsAdded(w: World, log: seq<Event>, idx: nat, shapes: set<bool>, events: seq<Event>)
    requires idx < |w.slots| && AllCalled(w, log, idx, shapes)
    requires Plain(w, idx) ==> events == [OpenCall(idx, true, w.slots[idx].IsSepPassphrase())]
    requires Gives(w, idx) ==> events != [] && events[|events| - 1].OpenCall? && events[|events| - 1].slot == idx
    ensures AllCalled(w, log + events, idx + 1, if Plain(w, idx) then shapes + {w.slots[idx].IsSepPassphrase()} else shapes)
  {
    var all := log + events;
    assert forall a | 0 <= a < |log| :: all[a] == log[a];
    forall i | 0 <= i < idx + 1 && Visited(w, i) && Gives(w, i) ensures Called(w, all, i) {
      if i == idx {
        assert all[|all| - 1] == events[|events| - 1];
      } else {
        assert Called(w, log, i);
      }
    }
    if Plain(w, idx) {
      assert all[|log|] == events[0];
    }
  }

  lemma RightfulAdded(w: World, log: seq<Event>, idx: nat, events: seq<Event>)
    requires idx < |w.slots| && Visited(w, idx) && Rightful(w, log)
    requires forall a | 0 <= a < |events| :: events[a].slot == idx && (events[a].Touch? ==> w.slots[idx].IsSepFido2())
    ensures Rightful(w, log + events)
  {
    var all := log + events;
    forall a | 0 <= a < |all| ensures all[a] == if a < |log| then log[a] else events[a - |log|] {}
  }

  /** The part of the loop body behind the skips: secrets for slot `idx`, then
      one open call. */
  method TrySlot(w: World, idx: nat) returns (o: Option<Outcome>, events: seq<Event>)
    requires idx < |w.slots|
    ensures o == Body(w, idx)
    ensures if Plain(w, idx) then events == [OpenCall(idx, true, w.slots[idx].IsSepPassphrase())]
            else forall e | e in events :: !PlainCall(e)
    ensures if o == Some(PinRefused) then |events| == 1 else forall e | e in events :: !Refused(e)
    ensures forall a | 0 <= a < |events| :: events[a].slot == idx && (events[a].Touch? ==> w.slots[idx].IsSepFido2())
    ensures Gives(w, idx) ==> events != [] && events[|events| - 1].OpenCall?
  {
    events := [];
    var kind := w.slots[idx];
    var pq := None;
    if w.wantPq {
      pq := w.pq(idx);
      if pq.None? {
        return None, events;
      }
    }
    var hmac := None;
    if kind.IsSepFido2() {
      events := [Touch(idx, w.fido(idx))];
      match w.fido(idx) {
        case Response(s) => hmac := Some(s);
        case PinFailure => return Some(PinRefused), events;
        case OtherFailure => return None, events;
      }
    }
    events := events + [OpenCall(idx, !w.wantPq && !kind.IsSepFido2(), kind.IsSepPassphrase())];
    var hit := ContainerOpen(w, Factors(hmac, kind.IsSepPassphrase(), pq), 0);
    o := match hit case Some(s) => Some(Opened(s)) case None => None;
  }

  /** The open calls made so far: the plain ones among them are one per tried
      shape, and no PIN was refused. */
  predicate Orderly(log: seq<Event>, shapes: set<bool>) {
    && OncePerShape(log)
    && (forall a | 0 <= a < |log| :: !Refused(log[a]))
    && (forall a | 0 <= a < |log| && PlainCall(log[a]) :: log[a].passphrase in shapes)
  }

  /** One more slot's events: for a plain slot one call of a shape not yet tried. */
  lemma StaysOrderly(log: seq<Event>, shapes: set<bool>, events: seq<Event>, shape: bool, plain: bool)
    requires Orderly(log, shapes) && (plain ==> shape !in shapes)
    requires if plain then |events| == 1 && events[0].OpenCall? && events[0].passphrase == shape else forall e | e in events :: !PlainCall(e)
    ensures OncePerShape(log + events)
    ensures (forall e | e in events :: !Refused(e)) ==> Orderly(log + events, if plain then shapes + {shape} else shapes)
  {
    var all := log + events;
    forall a | 0 <= a < |all| ensures all[a] == if a < |log| then log[a] else events[a - |log|] {}
  }

  /** Once a plain slot had nothing to offer, no plain slot of its shape has. */
  lemma ShapeExhausted(w: World, idx: nat, shapes: set<bool>)
    requires idx < |w.slots| && Exhausted(w, idx, shapes) && Body(w, idx) == None
    ensures Exhausted(w, idx + 1, if Plain(w, idx) then shapes + {w.slots[idx].IsSepPassphrase()} else shapes)
  {
    forall k | idx < k < |w.slots| && Plain(w, idx) && Plain(w, k) && w.slots[k].IsSepPassphrase() == w.slots[idx].IsSepPassphrase()
      ensures Body(w, k) == None
    {
      PlainBodiesAgree(w, idx, k);
    }
  }

  /** `open_sep_common`: the same outcome as trying every slot; at most one open
      call per passphrase shape for the plain slots; nothing after a refused PIN. */
  method OpenSepCommon(w: World) returns (r: Outcome, log: seq<Event>)
    ensures r == EverySlot(w, 0)
    ensures OncePerShape(log)
    ensures forall a :: 0 <= a < |log| && Refused(log[a]) ==> a == |log| - 1 && r == PinRefused
    ensures r == NotOpened ==> forall i | 0 <= i < |w.slots| && Visited(w, i) :: Body(w, i) == None
    ensures r != NotOpened ==> exists i :: 0 <= i < |w.slots| && Visited(w, i) && Body(w, i) == Some(r)
    ensures Rightful(w, log)
    ensures r == NotOpened ==> forall i | 0 <= i < |w.slots| && Visited(w, i) && Gives(w, i) :: Called(w, log, i)
    ensures !w.askedFido2 && (exists k :: k in w.slots && Enclave in Needs(k) && (MlKem768 in Needs(k) || MlKem1024 in Needs(k)) == w.wantPq && Fido2 !in Needs(k)) ==>
      forall a | 0 <= a < |log| :: !log[a].Touch?
  {
    r, log := Walk(w);
    EverySlotMeans(w, 0);
    UntouchedUnlessNeeded(w, log);
  }

  /** The state of the loop before slot `idx`. */
  predicate Progress(w: World, idx: nat, log: seq<Event>, shapes: set<bool>)
    requires idx <= |w.slots|
  {
    Exhausted(w, idx, shapes) && Orderly(log, shapes) && Rightful(w, log) && AllCalled(w, log, idx, shapes)
  }

  /** A slot not to be tried, or plain and of a tried shape, is passed over. */
  lemma Passed(w: World, idx: nat, log: seq<Event>, shapes: set<bool>)
    requires idx < |w.slots| && Progress(w, idx, log, shapes)
    requires !Visited(w, idx) || (Plain(w, idx) && w.slots[idx].IsSepPassphrase() in shapes)
    ensures Progress(w, idx + 1, log, shapes) && EverySlot(w, idx) == EverySlot(w, idx + 1)
  {
    PassedCalls(w, idx, log, shapes);
    PassedOutcome(w, idx, shapes);
  }

  lemma PassedCalls(w: World, idx: nat, log: seq<Event>, shapes: set<bool>)
    requires idx < |w.slots| && AllCalled(w, log, idx, shapes)
    requires !Visited(w, idx) || (Plain(w, idx) && w.slots[idx].IsSepPassphrase() in shapes)
    ensures AllCalled(w, log, idx + 1, shapes)
  {
    if Plain(w, idx) && w.slots[idx].IsSepPassphrase() in shapes {
      assert PlainCalled(log, w.slots[idx].IsSepPassphrase());
      assert Called(w, log, idx);
    }
  }

  lemma PassedOutcome(w: World, idx: nat, shapes: set<bool>)
    requires idx < |w.slots| && Exhausted(w, idx, shapes)
    requires !Visited(w, idx) || (Plain(w, idx) && w.slots[idx].IsSepPassphrase() in shapes)
    ensures EverySlot(w, idx) == EverySlot(w, idx + 1)
  {}

  /** Any other is tried, and the loop goes on if it has nothing to offer. */
  lemma Tried(w: World, idx: nat, log: seq<Event>, shapes: set<bool>, events: seq<Event>, shapes': set<bool>)
    requires idx < |w.slots|
    requires shapes' == if Plain(w, idx) then shapes + {w.slots[idx].IsSepPassphrase()} else shapes
    requires idx < |w.slots| && Progress(w, idx, log, shapes) && Visited(w, idx) && Body(w, idx) == None
    requires Plain(w, idx) ==> w.slots[idx].IsSepPassphrase() !in shapes
    requires if Plain(w, idx) then events == [OpenCall(idx, true, w.slots[idx].IsSepPassphrase())] else forall e | e in events :: !PlainCall(e)
    requires forall e | e in events :: !Refused(e)
    requires forall a | 0 <= a < |events| :: events[a].slot == idx && (events[a].Touch? ==> w.slots[idx].IsSepFido2())
    requires Gives(w, idx) ==> events != [] && events[|events| - 1].OpenCall?
    ensures Progress(w, idx + 1, log + events, shapes')
    ensures EverySlot(w, idx) == EverySlot(w, idx + 1)
  {
    StaysOrderly(log, shapes, events, w.slots[idx].IsSepPassphrase(), Plain(w, idx));
    CallsAdded(w, log, idx, shapes, events);
    RightfulAdded(w, log, idx, events);
    ShapeExhausted(w, idx, shapes);
  }

  /** The last slot tried ends the loop. */
  lemma Ended(w: World, idx: nat, log: seq<Event>, shapes: set<bool>, events: seq<Event>)
    requires idx < |w.slots| && Progress(w, idx, log, shapes) && Visited(w, idx) && Body(w, idx).Some?
    requires Plain(w, idx) ==> w.slots[idx].IsSepPassphrase() !in shapes
    requires if Plain(w, idx) then events == [OpenCall(idx, true, w.slots[idx].IsSepPassphrase())] else forall e | e in events :: !PlainCall(e)
    requires if Body(w, idx) == Some(PinRefused) then |events| == 1 else forall e | e in events :: !Refused(e)
    requires forall a | 0 <= a < |events| :: events[a].slot == idx && (events[a].Touch? ==> w.slots[idx].IsSepFido2())
    ensures EverySlot(w, idx) == Body(w, idx).value != NotOpened
    ensures OncePerShape(log + events) && Rightful(w, log + events)
    ensures forall a | 0 <= a < |log + events| && Refused((log + events)[a]) :: a == |log + events| - 1 && Body(w, idx) == Some(PinRefused)
  {
    StaysOrderly(log, shapes, events, w.slots[idx].IsSepPassphrase(), Plain(w, idx));
    RightfulAdded(w, log, idx, events);
    var all := log + events;
    forall a | 0 <= a < |all| ensures all[a] == if a < |log| then log[a] else events[a - |log|] {}
  }

  /** Its loop over the keyslots. */
  method Walk(w: World) returns (r: Outcome, log: seq<Event>)
    ensures r == EverySlot(w, 0)
    ensures OncePerShape(log) && Rightful(w, log)
    ensures forall a :: 0 <= a < |log| && Refused(log[a]) ==> a == |log| - 1 && r == PinRefused
    ensures r == NotOpened ==> forall i | 0 <= i < |w.slots| && Visited(w, i) && Gives(w, i) :: Called(w, log, i)
  {
    log := [];
    var triedShapes: set<bool> := {};
    for idx := 0 to |w.slots|
      invariant EverySlot(w, idx) == EverySlot(w, 0) && Progress(w, idx, log, triedShapes)
    {
      var o;
      o, log, triedShapes := Turn(w, idx, log, triedShapes);
      if o.Some? {
        return o.value, log;
      }
    }
    r := NotOpened;
  }

  /** One turn: the skips, then the slot's own secrets and one open call. */
  method Turn(w: World, idx: nat, log: seq<Event>, tried: set<bool>) returns (o: Option<Outcome>, log': seq<Event>, tried': set<bool>)
    requires idx < |w.slots| && Progress(w, idx, log, tried)
    ensures o.None? ==> Progress(w, idx + 1, log', tried') && EverySlot(w, idx) == EverySlot(w, idx + 1)
    ensures o.Some? ==> EverySlot(w, idx) == o.value && o.value != NotOpened && OncePerShape(log') && Rightful(w, log')
    ensures o.Some? ==> forall a | 0 <= a < |log'| && Refused(log'[a]) :: a == |log'| - 1 && o.value == PinRefused
  {
    var kind := w.slots[idx];
    if !Attempted(w, kind) || (kind.IsSepPassphrase() && !w.passphraseGiven) {
      Passed(w, idx, log, tried);
      return None, log, tried;
    }
    var shape := kind.IsSepPassphrase();
    tried' := tried;
    if !w.wantPq && !kind.IsSepFido2() {
      if shape in tried {
        Passed(w, idx, log, tried);
        return None, log, tried;
      }
      tried' := tried + {shape};
    }
    var events;
    o, events := TrySlot(w, idx);
    log' := log + events;
    if o.Some? {
      Ended(w, idx, log, tried, events);
    } else {
      Tried(w, idx, log, tried, events, tried');
    }
  }

  /** Not asked for, and not needed by every slot in scope: the authenticator is
      left alone. */
  lemma UntouchedUnlessNeeded(w: World, log: seq<Event>)
    requires Rightful(w, log)
    ensures !w.askedFido2 && (exists k :: k in w.slots && Enclave in Needs(k) && (MlKem768 in Needs(k) || MlKem1024 in Needs(k)) == w.wantPq && Fido2 !in Needs(k)) ==>
      forall a | 0 <= a < |log| :: !log[a].Touch?
  {
    forall a | 0 <= a < |log| ensures Visited(w, log[a].slot) && (log[a].Touch? ==> Fido2 in Needs(w.slots[log[a].slot])) {
      VisitedExactly(w, log[a].slot);
      KindsByNeeds(w.slots[log[a].slot]);
    }
    forall a | 0 <= a < |log| && log[a].Touch? ensures w.askedFido2 || forall k | k in w.slots && Enclave in Needs(k) && (MlKem768 in Needs(k) || MlKem1024 in Needs(k)) == w.wantPq :: Fido2 in Needs(k) {
      VisitedExactly(w, log[a].slot);
    }
  }
}
