/** The GPRS layer 1: active and pending TBFs, and the per-slot state kept beside them. */
module Gprs {
  import opened Options
  import opened GprsSlots
  import opened GprsLists

  const EINVAL: int := 22
  const ENOENT: int := 2

  // the payload types of a downlink block
  const DATA_BLOCK: int := 0
  const CONTROL_BLOCK: int := 1
  const CONTROL_BLOCK_OPT: int := 2

  // the place in the 104-multiframe of the frame a PTCCH block is reported with
  const PTCCH: int := 12

  /** What is passed on of a block: the uplink state flag, if it was read, and the octets. */
  datatype BlockInd = BlockInd(usf: byte, data: seq<byte>)

  const NO_USF: byte := 0xff

  /** Slot k has an active downlink TBF with the TFI. */
  ghost predicate HasTfi(active: seq<Tbf>, k: int, tfi: nat)
  {
    exists t :: t in active && !t.uplink && k in t.slots && t.tfi == tfi
  }

  /** A data block is for the TBF whose TFI it carries, and so is a control block with
      optional octets; other control blocks are for everyone, and reserved ones for no one. */
  ghost predicate Addressed(active: seq<Tbf>, k: int, data: seq<byte>)
    requires |data| >= 3
  {
    var kind := data[0] / 64;
    if kind == DATA_BLOCK then HasTfi(active, k, data[1] / 2 % 32)
    else if kind == CONTROL_BLOCK_OPT then HasTfi(active, k, data[2] / 2 % 32)
    else kind == CONTROL_BLOCK
  }

  class GprsState {
    const pdch: array<Pdch>
    var active: seq<Tbf>
    var pending: seq<Request>

    // every call of the timeslot callback
    ghost var log: seq<Signal>

    const reached: Reached

    constructor (reached: Reached)
      ensures Valid() && Both() == Lists([], []) && FitsIn(Both())
      ensures Knows({}) && MasksOk()
      ensures this.reached == reached && fresh(pdch)
    {
      this.reached := reached;
      active, pending, log := [], [], [];
      pdch := new Pdch[SLOTS](_ => Pdch(0, 0, {}, 0, 0));
    }

    ghost predicate CountersOk()
      reads this`active, this`pending, pdch
    {
      && Counted(pdch[..], active, pending)
      && (forall i :: 0 <= i < |active| ==> WellFormed(active[i]))
      && (forall i :: 0 <= i < |pending| ==> WellFormed(pending[i].tbf))
    }

    ghost predicate Knows(loose: set<int>)
      reads this`log, pdch
    {
      Told(log, pdch[..], loose)
    }

    // ---------------------------------------------------------------- active TBFs

    /** Makes a TBF active: links it to its slots and appends it to the list. */
    method Register(t: Tbf)
      requires CountersOk() && WellFormed(t)
      modifies this`active, this`log, pdch
      ensures active == old(active) + [t] && CountersOk()
      ensures forall k :: 0 <= k < SLOTS ==>
        pdch[k].tfis == old(pdch[k].tfis) + if k in t.slots && !t.uplink then {t.tfi} else {}
      ensures Fits(active, pending) && old(Knows(t.slots)) ==> Knows({})
    {
      LinkSlots(t);
      active := active + [t];
      forall k | 0 <= k < SLOTS
        ensures SlotCounted(pdch[k], active, pending, k)
        ensures k in t.slots && Fits(active, pending) ==> old(Used(pdch[k], t)) < 255
      {
        SlotLinked(old(pdch[k]), old(active), pending, k, t);
        if k in t.slots && Fits(active, pending) {
          RoomToLink(old(pdch[k]), old(active), pending, k, t);
        }
      }
    }

    method LinkSlots(t: Tbf)
      requires pdch.Length == SLOTS
      modifies this`log, pdch
      ensures forall k :: 0 <= k < SLOTS ==> pdch[k] == if k in t.slots then Linked(old(pdch[k]), t) else old(pdch[k])
      ensures old(Knows(t.slots)) && (forall k :: 0 <= k < SLOTS && k in t.slots ==> old(Used(pdch[k], t)) < 255) ==> Knows({})
    {
      var tn := 0;
      while tn < SLOTS
        invariant 0 <= tn <= SLOTS
        invariant forall k :: 0 <= k < tn ==> pdch[k] == if k in t.slots then Linked(old(pdch[k]), t) else old(pdch[k])
        invariant forall k :: tn <= k < SLOTS ==> pdch[k] == old(pdch[k])
        invariant old(Knows(t.slots)) && (forall k :: 0 <= k < tn && k in t.slots ==> old(Used(pdch[k], t)) < 255)
          ==> Knows(set k | k in t.slots && k >= tn)
      {
        if tn in t.slots {
          pdch[tn] := Linked(pdch[tn], t);
          SignalFirstUse(tn);
        }
        tn := tn + 1;
      }
    }

    /** Tells the callback when slot tn just got its first use. */
    method SignalFirstUse(tn: int)
      requires pdch.Length == SLOTS && 0 <= tn < SLOTS
      modifies this`log
      ensures log == old(log) + if Use(pdch[tn]) == 1 then [Signal(tn, true)] else []
      ensures Quiet(log) == old(Quiet(log))
      ensures forall k :: LastSignal(log, k) == (old(LastSignal(log, k)) || (k == tn && Use(pdch[tn]) == 1))
    {
      if Use(pdch[tn]) == 1 {
        Signalled(log, Signal(tn, true));
        log := log + [Signal(tn, true)];
      } else {
        assert log + [] == log;
      }
    }

    /** Tells the callback when slot tn lost its last use. */
    method SignalNoUse(tn: int)
      requires pdch.Length == SLOTS && 0 <= tn < SLOTS
      modifies this`log
      ensures log == old(log) + if Use(pdch[tn]) == 0 then [Signal(tn, false)] else []
      ensures old(Quiet(log) && LastSignal(log, tn)) ==> Quiet(log)
      ensures forall k :: LastSignal(log, k) == (old(LastSignal(log, k)) && !(k == tn && Use(pdch[tn]) == 0))
    {
      if Use(pdch[tn]) == 0 {
        Signalled(log, Signal(tn, false));
        log := log + [Signal(tn, false)];
      } else {
        assert log + [] == log;
      }
    }

    /** Takes an active TBF off its slots and off the list; not ok is a failed assertion. */
    method Unregister(i: nat) returns (ok: bool)
      requires CountersOk() && i < |active|
      modifies this`active, this`log, pdch
      ensures ok <==> forall k :: k in old(active)[i].slots ==> old(Used(pdch[k], active[i])) > 0
      ensures old(Fits(active, pending)) ==> ok
      ensures ok ==> active == old(active)[..i] + old(active)[i + 1..] && CountersOk()
      ensures ok ==> forall k :: 0 <= k < SLOTS ==>
        pdch[k].tfis == old(pdch[k].tfis) - if k in old(active)[i].slots && !old(active)[i].uplink then {old(active)[i].tfi} else {}
      ensures ok && old(Knows({})) ==> Knows({})
    {
      var t := active[i];
      if Fits(active, pending) {
        forall k | k in t.slots
          ensures Used(pdch[k], t) > 0
        {
          FittingCounters(pdch[k], active, pending, k);
        }
      }
      ok := UnlinkSlots(t);
      if ok {
        active := active[..i] + active[i + 1..];
        forall k | 0 <= k < SLOTS
          ensures SlotCounted(pdch[k], active, pending, k)
        {
          SlotUnlinked(old(pdch[k]), old(active), pending, k, i);
        }
      }
    }

    method UnlinkSlots(t: Tbf) returns (ok: bool)
      requires pdch.Length == SLOTS && WellFormed(t)
      modifies this`log, pdch
      ensures ok <==> forall k :: k in t.slots ==> old(Used(pdch[k], t)) > 0
      ensures ok ==> forall k :: 0 <= k < SLOTS ==> pdch[k] == if k in t.slots then Unlinked(old(pdch[k]), t) else old(pdch[k])
      ensures ok && old(Knows({})) ==> Knows({})
    {
      var tn := 0;
      while tn < SLOTS
        invariant 0 <= tn <= SLOTS
        invariant forall k :: 0 <= k < tn && k in t.slots ==> old(Used(pdch[k], t)) > 0
        invariant forall k :: 0 <= k < tn ==> pdch[k] == if k in t.slots then Unlinked(old(pdch[k]), t) else old(pdch[k])
        invariant forall k :: tn <= k < SLOTS ==> pdch[k] == old(pdch[k])
        invariant old(Knows({})) ==> Knows({})
      {
        if tn in t.slots {
          if Used(pdch[tn], t) == 0 {
            return false;
          }
          pdch[tn] := Unlinked(pdch[tn], t);
          SignalNoUse(tn);
        }
        tn := tn + 1;
      }
      ok := true;
    }

    /** Moves an active TBF to other slots; not ok is a failed assertion. */
    method Update(i: nat, slots: set<int>) returns (ok: bool)
      requires CountersOk() && i < |active| && WellFormed(active[i].(slots := slots))
      modifies this`active, this`log, pdch
      ensures ok <==> forall k :: k in old(active)[i].slots && k !in slots ==> old(Used(pdch[k], active[i])) > 0
      ensures old(Fits(active, pending)) ==> ok
      ensures ok ==> active == old(active)[i := old(active)[i].(slots := slots)] && CountersOk()
      ensures ok ==> forall k :: 0 <= k < SLOTS ==>
        pdch[k].tfis == old(Updated(pdch[k], active[i], slots, k)).tfis
      ensures old(Fits(active, pending)) && Fits(active, pending) && old(Knows(slots)) ==> Knows({})
    {
      var t := active[i];
      if Fits(active, pending) {
        forall k | k in t.slots
          ensures Used(pdch[k], t) > 0
        {
          FittingCounters(pdch[k], active, pending, k);
        }
      }
      if t.slots == slots {
        assert active == active[i := t];
        return true;
      }
      ok := MoveSlots(t, slots);
      if ok {
        active := active[i := t.(slots := slots)];
        forall k | 0 <= k < SLOTS
          ensures SlotCounted(pdch[k], active, pending, k)
          ensures k in slots && k !in t.slots && Fits(active, pending) ==> old(Used(pdch[k], t)) < 255
        {
          SlotUpdated(old(pdch[k]), old(active), pending, k, i, slots);
          if k in slots && k !in t.slots && Fits(active, pending) {
            RoomToUpdate(old(pdch[k]), old(active), pending, k, i, slots);
          }
        }
      }
    }

    method MoveSlots(t: Tbf, slots: set<int>) returns (ok: bool)
      requires pdch.Length == SLOTS && WellFormed(t)
      modifies this`log, pdch
      ensures ok <==> forall k :: k in t.slots && k !in slots ==> old(Used(pdch[k], t)) > 0
      ensures ok ==> forall k :: 0 <= k < SLOTS ==> pdch[k] == Updated(old(pdch[k]), t, slots, k)
      ensures old(Knows(slots)) && (forall k :: 0 <= k < SLOTS ==> old(Movable(pdch[k], t, slots, k))) ==> Knows({})
    {
      var tn := 0;
      while tn < SLOTS
        invariant 0 <= tn <= SLOTS
        invariant forall k :: 0 <= k < tn && k in t.slots && k !in slots ==> old(Used(pdch[k], t)) > 0
        invariant forall k :: 0 <= k < tn ==> pdch[k] == Updated(old(pdch[k]), t, slots, k)
        invariant forall k :: tn <= k < SLOTS ==> pdch[k] == old(pdch[k])
        invariant old(Knows(slots)) && (forall k :: 0 <= k < SLOTS ==> old(Movable(pdch[k], t, slots, k)))
          ==> Knows(set k | k in slots && k >= tn)
      {
        ok := MoveSlot(tn, t, slots, set k | k in slots && k >= tn);
        if !ok {
          return;
        }
        tn := tn + 1;
      }
      ok := true;
    }

    /** The counters of a slot let it be moved without a failed assertion or an overflow. */
    static predicate Movable(p: Pdch, t: Tbf, slots: set<int>, k: int)
    {
      && (k in t.slots ==> Used(p, t) > 0)
      && (k in slots && k !in t.slots ==> Used(p, t) < 255)
    }

    method MoveSlot(tn: int, t: Tbf, slots: set<int>, ghost loose: set<int>) returns (ok: bool)
      requires pdch.Length == SLOTS && 0 <= tn < SLOTS && (tn in loose <==> tn in slots)
      modifies this`log, pdch
      ensures ok <==> (tn in t.slots && tn !in slots ==> old(Used(pdch[tn], t)) > 0)
      ensures forall k :: 0 <= k < SLOTS && k != tn ==> pdch[k] == old(pdch[k])
      ensures ok ==> pdch[tn] == Updated(old(pdch[tn]), t, slots, tn)
      ensures ok && old(Knows(loose)) && old(Movable(pdch[tn], t, slots, tn)) ==> Knows(loose - {tn})
    {
      ok := true;
      if tn in t.slots && tn !in slots {
        if Used(pdch[tn], t) == 0 {
          return false;
        }
        pdch[tn] := Unlinked(pdch[tn], t);
        SignalNoUse(tn);
      } else if tn !in t.slots && tn in slots {
        pdch[tn] := Linked(pdch[tn], t);
        SignalFirstUse(tn);
      }
    }

    // ---------------------------------------------------------------- pending TBFs

    method AddPending(r: Request)
      requires CountersOk() && WellFormed(r.tbf)
      modifies this`pending, this`log, pdch
      ensures pending == old(pending) + [r] && CountersOk()
      ensures forall k :: 0 <= k < SLOTS ==> pdch[k].tfis == old(pdch[k].tfis)
      ensures Fits(active, pending) && old(Knows({})) ==> Knows({})
    {
      QueueSlots(r.tbf);
      pending := pending + [r];
      forall k | 0 <= k < SLOTS
        ensures SlotCounted(pdch[k], active, pending, k)
        ensures k in r.tbf.slots && Fits(active, pending) ==> old(UsedPending(pdch[k], r.tbf)) < 255
      {
        SlotQueued(old(pdch[k]), active, old(pending), k, r);
        if k in r.tbf.slots && Fits(active, pending) {
          RoomToQueue(old(pdch[k]), active, old(pending), k, r);
        }
      }
    }

    method QueueSlots(t: Tbf)
      requires pdch.Length == SLOTS
      modifies this`log, pdch
      ensures forall k :: 0 <= k < SLOTS ==> pdch[k] == if k in t.slots then Queued(old(pdch[k]), t) else old(pdch[k])
      ensures old(Knows({})) && (forall k :: 0 <= k < SLOTS && k in t.slots ==> old(UsedPending(pdch[k], t)) < 255) ==> Knows({})
    {
      var tn := 0;
      while tn < SLOTS
        invariant 0 <= tn <= SLOTS
        invariant forall k :: 0 <= k < tn ==> pdch[k] == if k in t.slots then Queued(old(pdch[k]), t) else old(pdch[k])
        invariant forall k :: tn <= k < SLOTS ==> pdch[k] == old(pdch[k])
        invariant old(Knows({})) && (forall k :: 0 <= k < tn && k in t.slots ==> old(UsedPending(pdch[k], t)) < 255) ==> Knows({})
      {
        if tn in t.slots {
          pdch[tn] := Queued(pdch[tn], t);
          SignalFirstUse(tn);
        }
        tn := tn + 1;
      }
    }

    /** Takes a pending TBF off its slots and off the list. The callback is not told: the
        slots are about to be used again. */
    method RemovePending(i: nat) returns (ok: bool)
      requires CountersOk() && i < |pending|
      modifies this`pending, pdch
      ensures ok <==> forall k :: k in old(pending)[i].tbf.slots ==> old(UsedPending(pdch[k], pending[i].tbf)) > 0
      ensures old(Fits(active, pending)) ==> ok
      ensures ok ==> pending == Dropped(old(pending), i) && CountersOk()
      ensures ok ==> forall k :: 0 <= k < SLOTS ==> pdch[k].tfis == old(pdch[k].tfis)
      ensures ok && old(Knows({})) ==> Knows(old(pending)[i].tbf.slots)
    {
      var t := pending[i].tbf;
      if Fits(active, pending) {
        forall k | k in t.slots
          ensures UsedPending(pdch[k], t) > 0
        {
          FittingCounters(pdch[k], active, pending, k);
        }
      }
      ok := UnqueueSlots(t);
      if ok {
        pending := pending[..i] + pending[i + 1..];
        forall k | 0 <= k < SLOTS
          ensures SlotCounted(pdch[k], active, pending, k)
        {
          SlotUnqueued(old(pdch[k]), active, old(pending), k, i);
        }
      }
    }

    method UnqueueSlots(t: Tbf) returns (ok: bool)
      requires pdch.Length == SLOTS && WellFormed(t)
      modifies pdch
      ensures ok <==> forall k :: k in t.slots ==> old(UsedPending(pdch[k], t)) > 0
      ensures ok ==> forall k :: 0 <= k < SLOTS ==> pdch[k] == if k in t.slots then Unqueued(old(pdch[k]), t) else old(pdch[k])
    {
      var tn := 0;
      while tn < SLOTS
        invariant 0 <= tn <= SLOTS
        invariant forall k :: 0 <= k < tn && k in t.slots ==> old(UsedPending(pdch[k], t)) > 0
        invariant forall k :: 0 <= k < tn ==> pdch[k] == if k in t.slots then Unqueued(old(pdch[k]), t) else old(pdch[k])
        invariant forall k :: tn <= k < SLOTS ==> pdch[k] == old(pdch[k])
      {
        if tn in t.slots {
          if UsedPending(pdch[tn], t) == 0 {
            return false;
          }
          pdch[tn] := Unqueued(pdch[tn], t);
        }
        tn := tn + 1;
      }
      ok := true;
    }

    ghost function Both(): Lists
      reads this`active, this`pending
    {
      Lists(active, pending)
    }

    /** Every slot's mask holds the TFIs of the active downlink TBFs on the slot. */
    ghost predicate MasksOk()
      reads this`active, pdch
    {
      pdch.Length == SLOTS && forall k :: 0 <= k < SLOTS ==> pdch[k].tfis == Tfis(active, k)
    }

    ghost predicate Valid()
      reads this`active, this`pending, pdch
    {
      CountersOk() && Unique(active)
    }

    /** Replaces the i-th active TBF by one with its direction and reference. */
    method Replace(i: nat, t: Tbf) returns (ok: bool)
      requires Valid() && i < |active| && WellFormed(t)
      requires active[i].uplink == t.uplink && active[i].ref == t.ref
      modifies this`active, this`log, pdch
      ensures old(Fits(active, pending)) ==> ok
      ensures ok ==> active == old(active)[i := t] && CountersOk()
      ensures old(Fits(active, pending)) && Fits(active, pending) && old(Knows(t.slots)) ==> Knows({})
      ensures ok && old(MasksOk() && DistinctTfis(active) && (t.uplink || t.tfi == active[i].tfi)) ==> MasksOk()
    {
      forall k | 0 <= k < SLOTS && MasksOk() && DistinctTfis(active)
        && (k in active[i].slots && k !in t.slots ==> Used(pdch[k], active[i]) > 0)
        ensures Updated(pdch[k], active[i], t.slots, k).tfis == Tfis(active[i := active[i].(slots := t.slots)], k)
      {
        MaskUpdated(active, i, t.slots, k, pdch[k]);
      }
      ok := Update(i, t.slots);
      if ok {
        Retag(i, t.tfi);
      }
    }

    method Retag(i: nat, tfi: nat)
      requires CountersOk() && i < |active|
      modifies this`active
      ensures active == old(active)[i := old(active)[i].(tfi := tfi)] && CountersOk()
      ensures forall k :: Load(active, pending, k) == old(Load(active, pending, k))
      ensures old(MasksOk()) && (old(active)[i].uplink || old(active)[i].tfi == tfi) ==> MasksOk()
    {
      var t := active[i];
      ghost var was := active;
      active := active[i := t.(tfi := tfi)];
      forall uplink, k
        ensures Count(active, uplink, k) == Count(was, uplink, k)
      {
        CountReplaced(was, i, t.(tfi := tfi), uplink, k);
      }
      forall k | 0 <= k < SLOTS
        ensures t.uplink ==> Tfis(active, k) == Tfis(was, k)
      {
        Replaced(was, i, t.(tfi := tfi), k);
        Replaced(was, i, t, k);
        assert was[i := t] == was;
      }
      assert t.tfi == tfi ==> active == was;
    }

    /** Replaces the active TBF with the direction and reference of t by t, or adds t. */
    method Activate(t: Tbf) returns (ok: bool)
      requires Valid() && WellFormed(t)
      modifies this`active, this`log, pdch
      ensures old(Fits(active, pending)) ==> ok
      ensures ok ==> active == Merged(old(active), t) && CountersOk()
      ensures old(Fits(active, pending)) && Fits(active, pending) && old(Knows(t.slots)) ==> Knows({})
      ensures ok && old(MasksOk() && DistinctTfis(active) && KeepsTfi(active, t)) ==> MasksOk()
    {
      var i := Find(active, t.uplink, t.ref);
      if i < |active| {
        ok := Replace(i, t);
      } else {
        forall k {
          TfisLinked(active, t, k);
        }
        Register(t);
        ok := true;
      }
    }

    /** Makes the i-th pending TBF active. */
    method Promote(i: nat) returns (ok: bool)
      requires Valid() && i < |pending|
      modifies this`active, this`pending, this`log, pdch
      ensures ok ==> Both() == Lists(Merged(old(active), old(pending)[i].tbf), Dropped(old(pending), i))
      ensures ok ==> Valid()
      ensures old(FitsIn(Both())) ==> ok && FitsIn(Both()) && (old(Knows({})) ==> Knows({}))
      ensures ok && old(MasksOk() && DistinctTfis(active) && KeepsTfi(active, pending[i].tbf)) ==> MasksOk()
    {
      var t := pending[i].tbf;
      ghost var l := Both();
      MergedKeeps(l, i, Lists(Merged(active, t), Dropped(pending, i)));
      if FitsIn(l) {
        DroppedFits(l, i);
      }
      ok := RemovePending(i);
      if ok {
        ok := Activate(t);
      }
    }

    // ---------------------------------------------------------------- requests

    /** Makes the pending TBFs active whose start frame was reached. */
    method CheckPending(fn: nat) returns (ok: bool)
      requires Valid()
      modifies this`active, this`pending, this`log, pdch
      ensures ok ==> Valid() && Both() == Promoted(old(Both()), 0, fn, reached)
      ensures old(FitsIn(Both())) ==> ok && FitsIn(Both()) && (old(Knows({})) ==> Knows({}))
      ensures ok && old(MasksOk() && Kept(Both(), 0, fn, reached)) ==> MasksOk()
    {
      var i := 0;
      while i < |pending|
        invariant Valid()
        invariant Promoted(Both(), i, fn, reached) == Promoted(old(Both()), 0, fn, reached)
        invariant old(FitsIn(Both())) ==> FitsIn(Both()) && (old(Knows({})) ==> Knows({}))
        invariant old(MasksOk() && Kept(Both(), 0, fn, reached)) ==> MasksOk() && Kept(Both(), i, fn, reached)
        decreases |pending| - i
      {
        if reached(fn, pending[i].startFn) {
          MergedKeeps(Both(), i, Lists(Merged(active, pending[i].tbf), Dropped(pending, i)));
          ok := Promote(i);
          if !ok {
            return;
          }
        } else {
          i := i + 1;
        }
      }
      ok := true;
    }

    /** Carries out a request: the result is zero, or minus an error number. */
    method Request(t: Tbf, startFn: nat) returns (ok: bool, rc: int)
      requires Valid() && (forall k :: k in t.slots ==> 0 <= k < SLOTS)
      modifies this`active, this`pending, this`log, pdch
      ensures ok ==> Valid() && Both() == Requested(old(Both()), t, startFn)
      ensures rc == if t.slots == {} && Find(old(active), t.uplink, t.ref) == |old(active)| then -ENOENT else 0
      ensures old(FitsIn(Both())) ==> ok
      ensures old(FitsIn(Both())) && FitsIn(Both()) && old(Knows({})) ==> Knows({})
      ensures ok && old(MasksOk() && DistinctTfis(active)) ==> MasksOk()
    {
      RequestedKeepsUnique(Both(), t, startFn);
      ok, rc := true, 0;
      if t.slots != {} && startFn != TDMA_FN_INVALID {
        AddPending(GprsSlots.Request(t, startFn));
        return;
      }
      var i := Find(active, t.uplink, t.ref);
      if t.slots != {} {
        if i < |active| {
          ok := Move(i, t.slots);
        } else {
          forall k {
            TfisLinked(active, t, k);
          }
          Register(t);
        }
      } else if i < |active| {
        ok := Remove(i);
      } else {
        rc := -ENOENT;
      }
    }

    method Move(i: nat, slots: set<int>) returns (ok: bool)
      requires Valid() && i < |active| && WellFormed(active[i].(slots := slots))
      modifies this`active, this`log, pdch
      ensures old(Fits(active, pending)) ==> ok
      ensures ok ==> active == old(active)[i := old(active)[i].(slots := slots)] && CountersOk()
      ensures old(Fits(active, pending)) && Fits(active, pending) && old(Knows({})) ==> Knows({})
      ensures ok && old(MasksOk() && DistinctTfis(active)) ==> MasksOk()
    {
      forall k | 0 <= k < SLOTS && MasksOk() && DistinctTfis(active)
        && (k in active[i].slots && k !in slots ==> Used(pdch[k], active[i]) > 0)
        ensures Updated(pdch[k], active[i], slots, k).tfis == Tfis(active[i := active[i].(slots := slots)], k)
      {
        MaskUpdated(active, i, slots, k, pdch[k]);
      }
      ok := Update(i, slots);
    }

    method Remove(i: nat) returns (ok: bool)
      requires Valid() && i < |active|
      modifies this`active, this`log, pdch
      ensures old(Fits(active, pending)) ==> ok
      ensures ok ==> active == Dropped(old(active), i) && CountersOk()
      ensures ok && old(Knows({})) ==> Knows({})
      ensures ok && old(MasksOk() && DistinctTfis(active)) ==> MasksOk()
    {
      forall k | 0 <= k < SLOTS && MasksOk() && DistinctTfis(active)
        ensures Tfis(Dropped(active, i), k)
          == pdch[k].tfis - if k in active[i].slots && !active[i].uplink then {active[i].tfi} else {}
      {
        MaskUnregistered(active, i, k);
      }
      ok := Unregister(i);
    }

    /** Carries out an uplink or downlink configuration request. */
    method HandleConfig(e: Event) returns (ok: bool, rc: int)
      requires Valid() && !e.Block? && (e.Config? ==> forall k :: k in e.slots ==> 0 <= k < SLOTS)
      modifies this`active, this`pending, this`log, pdch
      ensures ok ==> Valid() && Both() == Step(old(Both()), e, reached)
      ensures rc == -EINVAL <==> e.Malformed? || (!e.uplink && e.tfi > 31)
      ensures rc == -ENOENT <==>
        && e.Config? && (e.uplink || e.tfi <= 31) && e.slots == {}
        && Find(old(active), e.uplink, e.ref) == |old(active)|
      ensures rc == 0 || rc == -EINVAL || rc == -ENOENT
      ensures old(FitsIn(Both())) ==> ok
      ensures old(FitsIn(Both())) && FitsIn(Both()) && old(Knows({})) ==> Knows({})
      ensures ok && old(MasksOk() && KeptBy(Both(), e, reached)) ==> MasksOk()
    {
      if e.Malformed? || (!e.uplink && e.tfi > 31) {
        return true, -EINVAL;
      }
      ok, rc := Request(Tbf(e.uplink, e.ref, e.slots, if e.uplink then 0 else e.tfi), e.startFn);
    }

    // ---------------------------------------------------------------- blocks

    /** Whether a downlink block is for one of the TBFs of its slot. */
    method FilterDlBlock(tn: int, data: seq<byte>) returns (pass: bool)
      requires pdch.Length == SLOTS && 0 <= tn < SLOTS && |data| >= 3
      ensures MasksOk() ==> (pass <==> Addressed(active, tn, data))
    {
      var kind := data[0] / 64;
      var tfi;
      if kind == DATA_BLOCK {
        tfi := data[1] / 2 % 32;
      } else if kind == CONTROL_BLOCK_OPT {
        tfi := data[2] / 2 % 32;
      } else {
        return kind == CONTROL_BLOCK;
      }
      pass := tfi in pdch[tn].tfis;
      TfiOf(tfi, tn);
    }

    lemma TfiOf(tfi: nat, k: int)
      ensures tfi in Tfis(active, k) <==> HasTfi(active, k, tfi)
    {
      if t :| t in active && !t.uplink && k in t.slots && t.tfi == tfi {
        var i :| 0 <= i < |active| && active[i] == t;
        assert active[i].tfi == tfi;
      }
    }

    /** Passes a received block on, without its octets when it is not for this phone; nothing
        is passed on from a slot without an active TBF. `coded` tells that the length of the
        block is that of one of the coding schemes CS-1 to CS-4. */
    method HandleBlock(fn: nat, tn: int, data: seq<byte>, coded: bool) returns (ok: bool, msg: Option<BlockInd>)
      requires Valid() && (coded ==> |data| >= 3)
      modifies this`active, this`pending, this`log, pdch
      ensures ok ==> Valid() && Both() == if 0 <= tn < SLOTS then Step(old(Both()), Block(fn), reached) else old(Both())
      ensures old(FitsIn(Both())) ==> ok && FitsIn(Both()) && (old(Knows({})) ==> Knows({}))
      ensures ok && old(MasksOk() && (0 <= tn < SLOTS ==> Kept(Both(), 0, fn, reached))) ==> MasksOk()
      ensures !(0 <= tn < SLOTS) ==> msg.None?
      ensures old(FitsIn(Both())) && 0 <= tn < SLOTS ==> (msg.Some? <==> exists t :: t in active && tn in t.slots)
      ensures ok && msg.Some? && old(MasksOk() && Kept(Both(), 0, fn, reached)) ==>
        var whole := data == [] || fn % 104 == PTCCH;
        && msg.value.data == (if whole || (coded && Addressed(active, tn, data)) then data else [])
        && msg.value.usf == if !whole && coded then data[0] % 8 else NO_USF
    {
      msg := None;
      if tn < 0 || tn >= SLOTS {
        return true, None;
      }
      ok := CheckPending(fn);
      if !ok {
        return;
      }
      SlotInUse(tn);
      if pdch[tn].ul + pdch[tn].dl == 0 {
        return;
      }
      if |data| == 0 || fn % 104 == PTCCH {
        msg := Some(BlockInd(NO_USF, data));
      } else if coded {
        var pass := FilterDlBlock(tn, data);
        msg := Some(BlockInd(data[0] % 8, if pass then data else []));
      } else {
        msg := Some(BlockInd(NO_USF, []));
      }
    }

    lemma SlotInUse(k: int)
      requires Valid() && 0 <= k < SLOTS
      ensures FitsIn(Both()) ==> (pdch[k].ul + pdch[k].dl > 0 <==> exists t :: t in active && k in t.slots)
    {
      assert SlotCounted(pdch[..][k], active, pending, k);
      CountPositive(active, true, k);
      CountPositive(active, false, k);
      if FitsIn(Both()) {
        assert Load(active, pending, k) < 256;
      }
    }

    // ---------------------------------------------------------------- runs

    /** An active or pending TBF uses slot k. */
    ghost predicate InUse(k: int)
      reads this`active, this`pending
    {
      (exists t :: t in active && k in t.slots) || exists r :: r in pending && k in r.tbf.slots
    }

    /** What the callback was told last about a slot is whether a TBF uses it. */
    lemma SignalTellsUse(k: int)
      requires CountersOk() && FitsIn(Both()) && Knows({}) && 0 <= k < SLOTS
      ensures LastSignal(log, k) <==> InUse(k)
    {
      assert SlotCounted(pdch[..][k], active, pending, k);
      FittingCounters(pdch[k], active, pending, k);
      CountPositive(active, true, k);
      CountPositive(active, false, k);
      CountPositive(Bare(pending), true, k);
      CountPositive(Bare(pending), false, k);
      BareContents(k);
    }

    lemma BareContents(k: int)
      ensures (exists t :: t in Bare(pending) && k in t.slots) <==> exists r :: r in pending && k in r.tbf.slots
    {
      if t :| t in Bare(pending) && k in t.slots {
        var i :| 0 <= i < |pending| && Bare(pending)[i] == t;
        assert pending[i] in pending;
      }
      if r :| r in pending && k in r.tbf.slots {
        var i :| 0 <= i < |pending| && pending[i] == r;
        assert Bare(pending)[i] in Bare(pending);
      }
    }

    /** Serves requests and blocks. As long as fewer than 256 entries use each slot, no
        assertion fails, every counter is the number of its entries, and the callback knows
        of every slot whether it is used; as long as the TFIs of the active TBFs are
        distinct and kept, the masks hold exactly them. */
    method Serve(events: seq<Event>) returns (ok: bool)
      requires Valid()
      requires forall e, k :: e in events && e.Config? && k in e.slots ==> 0 <= k < SLOTS
      modifies this`active, this`pending, this`log, pdch
      ensures ok ==> Valid() && Both() == Play(old(Both()), events, reached)
      ensures old(FitsThroughout(Both(), events, reached)) ==> ok && (old(Knows({})) ==> Knows({}))
      ensures old(FitsThroughout(Both(), events, reached) && Knows({})) ==>
        forall k :: 0 <= k < SLOTS ==> (LastSignal(log, k) <==> InUse(k))
      ensures ok && old(MasksOk()) && old(KeptThroughout(Both(), events, reached)) ==> MasksOk()
    {
      var i := 0;
      ok := true;
      while i < |events|
        invariant 0 <= i <= |events| && Valid()
        invariant Play(Both(), events[i..], reached) == Play(old(Both()), events, reached)
        invariant old(FitsThroughout(Both(), events, reached)) ==>
          FitsThroughout(Both(), events[i..], reached) && (old(Knows({})) ==> Knows({}))
        invariant old(MasksOk()) && old(KeptThroughout(Both(), events, reached)) ==>
          KeptThroughout(Both(), events[i..], reached) && MasksOk()
      {
        assert events[i..][1..] == events[i + 1..];
        ok := ServeOne(events[i]);
        if !ok {
          return;
        }
        i := i + 1;
      }
      TellsUse();
    }

    lemma TellsUse()
      requires CountersOk()
      ensures FitsIn(Both()) && Knows({}) ==> forall k :: 0 <= k < SLOTS ==> (LastSignal(log, k) <==> InUse(k))
    {
      forall k | FitsIn(Both()) && Knows({}) && 0 <= k < SLOTS
        ensures LastSignal(log, k) <==> InUse(k)
      {
        SignalTellsUse(k);
      }
    }

    method ServeOne(e: Event) returns (ok: bool)
      requires Valid() && (e.Config? ==> forall k :: k in e.slots ==> 0 <= k < SLOTS)
      modifies this`active, this`pending, this`log, pdch
      ensures ok ==> Valid() && Both() == Step(old(Both()), e, reached)
      ensures old(FitsIn(Both())) ==> ok
      ensures old(FitsIn(Both())) && FitsIn(Both()) && old(Knows({})) ==> Knows({})
      ensures ok && old(MasksOk() && KeptBy(Both(), e, reached)) ==> MasksOk()
    {
      if e.Block? {
        ok := CheckPending(e.fn);
      } else {
        var rc;
        ok, rc := HandleConfig(e);
      }
    }
  }
}
