/** What the GPRS requests do to the lists of active and pending TBFs. */
module GprsLists {
  import opened GprsSlots

  const TDMA_FN_INVALID: nat := 0xffff_ffff

  /** Whether the first frame number is not before the second. */
  type Reached = (nat, nat) -> bool

  datatype Lists = Lists(active: seq<Tbf>, pending: seq<Request>)

  /** The place of the first TBF with a direction and reference, the length if there is none. */
  function Find(l: seq<Tbf>, uplink: bool, ref: nat): (i: nat)
    ensures i <= |l|
    ensures i < |l| ==> l[i].uplink == uplink && l[i].ref == ref
    ensures forall j :: 0 <= j < i ==> !(l[j].uplink == uplink && l[j].ref == ref)
  {
    if l == [] || (l[0].uplink == uplink && l[0].ref == ref) then 0 else 1 + Find(l[1..], uplink, ref)
  }

  /** An immediate request moves the TBF to other slots, or makes a new one. The TFI of a
      request for a TBF that exists is not used. */
  ghost function Configured(active: seq<Tbf>, t: Tbf): seq<Tbf>
  {
    var i := Find(active, t.uplink, t.ref);
    if i < |active| then active[i := active[i].(slots := t.slots)] else active + [t]
  }

  /** A pending TBF that becomes active replaces the one with its direction and reference. */
  ghost function Merged(active: seq<Tbf>, t: Tbf): seq<Tbf>
  {
    var i := Find(active, t.uplink, t.ref);
    if i < |active| then active[i := t] else active + [t]
  }

  ghost function Dropped<T>(l: seq<T>, i: nat): seq<T>
    requires i < |l|
  {
    l[..i] + l[i + 1..]
  }

  /** The lists after the pending TBFs from the i-th on whose frame was reached became active. */
  ghost function Promoted(l: Lists, i: nat, fn: nat, reached: Reached): Lists
    decreases |l.pending| - i
  {
    if i >= |l.pending| then l
    else if reached(fn, l.pending[i].startFn) then
      Promoted(Lists(Merged(l.active, l.pending[i].tbf), Dropped(l.pending, i)), i, fn, reached)
    else Promoted(l, i + 1, fn, reached)
  }

  /** The lists after a request for a TBF: with a start frame it becomes pending, without one
      it takes effect, and an empty slot mask ends the TBF. */
  ghost function Requested(l: Lists, t: Tbf, startFn: nat): Lists
  {
    if t.slots != {} then
      if startFn != TDMA_FN_INVALID then l.(pending := l.pending + [Request(t, startFn)])
      else l.(active := Configured(l.active, t))
    else
      var i := Find(l.active, t.uplink, t.ref);
      if i < |l.active| then l.(active := Dropped(l.active, i)) else l
  }

  // ------------------------------------------------------------------ invariants

  /** No two active TBFs have the same direction and reference. */
  ghost predicate Unique(active: seq<Tbf>)
  {
    forall i, j :: 0 <= i < j < |active| ==> !(active[i].uplink == active[j].uplink && active[i].ref == active[j].ref)
  }

  /** Active downlink TBFs that share a slot have different TFIs. */
  ghost predicate DistinctTfis(active: seq<Tbf>)
  {
    forall i, j :: 0 <= i < |active| && 0 <= j < |active| && i != j && !active[i].uplink && !active[j].uplink ==>
      active[i].tfi != active[j].tfi || active[i].slots !! active[j].slots
  }

  /** A downlink TBF keeps its TFI when it becomes t. */
  ghost predicate KeepsTfi(active: seq<Tbf>, t: Tbf)
  {
    var i := Find(active, t.uplink, t.ref);
    !t.uplink && i < |active| ==> t.tfi == active[i].tfi
  }

  /** Whenever a pending TBF becomes active, the TFIs of the active ones are distinct, and the
      TBF keeps the one it has. */
  ghost predicate Kept(l: Lists, i: nat, fn: nat, reached: Reached)
    decreases |l.pending| - i
  {
    i < |l.pending| ==>
      if reached(fn, l.pending[i].startFn) then
        && DistinctTfis(l.active) && KeepsTfi(l.active, l.pending[i].tbf)
        && Kept(Lists(Merged(l.active, l.pending[i].tbf), Dropped(l.pending, i)), i, fn, reached)
      else Kept(l, i + 1, fn, reached)
  }

  ghost predicate FitsIn(l: Lists)
  {
    Fits(l.active, l.pending)
  }

  /** One pending TBF becomes active: no slot gets more entries, and no entry is new. */
  lemma MergedKeeps(l: Lists, i: nat, m: Lists)
    requires i < |l.pending| && m == Lists(Merged(l.active, l.pending[i].tbf), Dropped(l.pending, i))
    requires Unique(l.active)
    ensures FitsIn(l) ==> FitsIn(m)
    ensures Unique(m.active)
  {
    var t := l.pending[i].tbf;
    forall k | 0 <= k < SLOTS
      ensures Load(m.active, m.pending, k) <= Load(l.active, l.pending, k)
    {
      MergedLoad(l, i, k);
    }
  }

  lemma DroppedFits(l: Lists, i: nat)
    requires i < |l.pending| && FitsIn(l)
    ensures FitsIn(l.(pending := Dropped(l.pending, i)))
  {
    BareAt(l.pending, i);
    forall k | 0 <= k < SLOTS
      ensures Load(l.active, Dropped(l.pending, i), k) <= Load(l.active, l.pending, k)
    {
      CountAt(Bare(l.pending), i, true, k);
      CountAt(Bare(l.pending), i, false, k);
    }
  }

  lemma MergedLoad(l: Lists, i: nat, k: int)
    requires i < |l.pending|
    ensures Load(Merged(l.active, l.pending[i].tbf), Dropped(l.pending, i), k) <= Load(l.active, l.pending, k)
  {
    MergedCount(l, i, true, k);
    MergedCount(l, i, false, k);
  }

  lemma MergedCount(l: Lists, i: nat, uplink: bool, k: int)
    requires i < |l.pending|
    ensures Count(Merged(l.active, l.pending[i].tbf), uplink, k) + Count(Bare(Dropped(l.pending, i)), uplink, k)
         <= Count(l.active, uplink, k) + Count(Bare(l.pending), uplink, k)
  {
    var t := l.pending[i].tbf;
    BareAt(l.pending, i);
    CountAt(Bare(l.pending), i, uplink, k);
    var j := Find(l.active, t.uplink, t.ref);
    if j < |l.active| {
      CountReplaced(l.active, j, t, uplink, k);
    } else {
      CountAppended(l.active, t, uplink, k);
    }
  }

  lemma {:induction false} PromotedKeeps(l: Lists, i: nat, fn: nat, reached: Reached)
    requires Unique(l.active)
    ensures var m := Promoted(l, i, fn, reached);
      (FitsIn(l) ==> FitsIn(m)) && Unique(m.active)
    decreases |l.pending| - i
  {
    if i < |l.pending| {
      if reached(fn, l.pending[i].startFn) {
        var m := Lists(Merged(l.active, l.pending[i].tbf), Dropped(l.pending, i));
        MergedKeeps(l, i, m);
        PromotedKeeps(m, i, fn, reached);
      } else {
        PromotedKeeps(l, i + 1, fn, reached);
      }
    }
  }

  /** No pending TBF whose frame was reached stays pending, the others stay in their order. */
  lemma {:induction false} PromotedPending(l: Lists, i: nat, fn: nat, reached: Reached)
    requires i <= |l.pending|
    ensures Promoted(l, i, fn, reached).pending == l.pending[..i] + StillPending(l.pending[i..], fn, reached)
    decreases |l.pending| - i
  {
    if i < |l.pending| {
      if reached(fn, l.pending[i].startFn) {
        var p := Dropped(l.pending, i);
        PromotedPending(Lists(Merged(l.active, l.pending[i].tbf), p), i, fn, reached);
        assert p[..i] == l.pending[..i] && p[i..] == l.pending[i..][1..];
      } else {
        PromotedPending(l, i + 1, fn, reached);
        assert l.pending[i + 1..] == l.pending[i..][1..];
        assert l.pending[..i + 1] == l.pending[..i] + [l.pending[i]];
      }
    }
  }

  ghost function StillPending(p: seq<Request>, fn: nat, reached: Reached): seq<Request>
  {
    if p == [] then []
    else (if reached(fn, p[0].startFn) then [] else [p[0]]) + StillPending(p[1..], fn, reached)
  }

  /** Every entry of the lists after a request was there before, or is the request's. */
  lemma RequestedKeepsUnique(l: Lists, t: Tbf, startFn: nat)
    requires Unique(l.active)
    ensures Unique(Requested(l, t, startFn).active)
  {
  }

  // ------------------------------------------------------------------ TFI masks

  /** Unregistering and updating keep a slot's mask right, as long as the active TBFs that
      share slots have different TFIs. */
  lemma MaskUnregistered(active: seq<Tbf>, i: nat, k: int)
    requires i < |active| && DistinctTfis(active)
    ensures Tfis(Dropped(active, i), k)
      == Tfis(active, k) - if k in active[i].slots && !active[i].uplink then {active[i].tfi} else {}
  {
    if k in active[i].slots && !active[i].uplink {
      assert !Shared(active, i, k);
      TfisUnlinked(active, i, k);
    } else {
      Replaced(active, i, active[i], k);
      assert active[i := active[i]] == active;
    }
  }

  lemma MaskUpdated(active: seq<Tbf>, i: nat, slots: set<int>, k: int, p: Pdch)
    requires i < |active| && DistinctTfis(active)
    requires p.tfis == Tfis(active, k) && (k in active[i].slots && k !in slots ==> Used(p, active[i]) > 0)
    ensures Updated(p, active[i], slots, k).tfis == Tfis(active[i := active[i].(slots := slots)], k)
  {
    var t := active[i];
    Replaced(active, i, t, k);
    assert active[i := t] == active;
    if t.uplink {
      Replaced(active, i, t.(slots := slots), k);
    } else {
      if k in t.slots && k !in slots {
        assert !Shared(active, i, k);
      }
      TfisUpdated(active, i, slots, k, Updated(p, t, slots, k).tfis);
    }
  }

  /** An active downlink TBF other than the i-th has the TFI on slot k. */
  ghost predicate OtherHas(active: seq<Tbf>, i: nat, k: int, tfi: nat)
  {
    exists j :: 0 <= j < |active| && j != i && !active[j].uplink && k in active[j].slots && active[j].tfi == tfi
  }

  /** After an immediate downlink request its TFI is one of those on a slot it asked for if
      and only if the TBF is new, or has that TFI already, or another TBF on the slot has it. */
  lemma RequestedTfi(active: seq<Tbf>, t: Tbf, k: int)
    requires !t.uplink && k in t.slots
    ensures var i := Find(active, false, t.ref);
      t.tfi in Tfis(Configured(active, t), k) <==>
        i == |active| || t.tfi == active[i].tfi || OtherHas(active, i, k, t.tfi)
  {
    var i := Find(active, false, t.ref);
    if i < |active| {
      var m := active[i := active[i].(slots := t.slots)];
      if OtherHas(active, i, k, t.tfi) {
        var j :| 0 <= j < |active| && j != i && !active[j].uplink && k in active[j].slots && active[j].tfi == t.tfi;
        assert m[j] == active[j];
      }
      if t.tfi == active[i].tfi {
        assert m[i].tfi == t.tfi && k in m[i].slots && !m[i].uplink;
      }
      if t.tfi in Tfis(m, k) {
        var j :| 0 <= j < |m| && !m[j].uplink && k in m[j].slots && m[j].tfi == t.tfi;
        assert j != i ==> m[j] == active[j];
      }
    } else {
      TfisLinked(active, t, k);
    }
  }

  // ------------------------------------------------------------------ counterexamples

  /** Two downlink TBFs with TFI 5 on slot 0: when the first ends, its TFI is taken away from
      the second as well. */
  lemma SharedTfiIsLost(a: Tbf, b: Tbf)
    requires a == Tbf(false, 0, {0}, 5) && b == Tbf(false, 1, {0}, 5)
    ensures Tfis([a, b], 0) - {5} == {} && Tfis(Dropped([a, b], 0), 0) == {5}
  {
    var l, m := [a, b], Dropped([a, b], 0);
    assert m == [b];
    assert m[0] == b;
    assert forall x :: x in Tfis(l, 0) ==> x == 5;
  }

  /** A pending change of TFI from 5 to 6 leaves the mask of slot 0 with 5. */
  lemma ChangedTfiIsLost(a: Tbf, p: Pdch)
    requires a == Tbf(false, 0, {0}, 5) && p.tfis == Tfis([a], 0)
    ensures Merged([a], a.(tfi := 6)) == [a.(tfi := 6)]
    ensures Updated(p, a, a.slots, 0).tfis == {5} && Tfis([a.(tfi := 6)], 0) == {6}
  {
    assert [a][0] == a && [a.(tfi := 6)][0].tfi == 6;
  }

  /** Uplink TBFs 0 to n - 1 on slot 0. */
  ghost function Full(n: nat): (l: seq<Tbf>)
    ensures |l| == n && forall i :: 0 <= i < n ==> l[i] == Tbf(true, i, {0}, 0)
  {
    if n == 0 then [] else Full(n - 1) + [Tbf(true, n - 1, {0}, 0)]
  }

  lemma {:induction false} FullCount(n: nat)
    ensures Count(Full(n), true, 0) == n
  {
    if n > 0 {
      FullCount(n - 1);
      CountAppended(Full(n - 1), Tbf(true, n - 1, {0}, 0), true, 0);
    }
  }

  /** The 256th TBF on a slot turns its counter to zero: the assertion at the end of any of
      them fails. */
  lemma FullSlotFails(p: Pdch, n: nat, l: seq<Tbf>)
    requires n == 256 && l == Full(n) && SlotCounted(p, l, [], 0)
    ensures Unique(l) && forall i :: 0 <= i < n ==> Used(p, l[i]) == 0
  {
    FullCount(n);
  }

  // ------------------------------------------------------------------ runs

  /** A request for a TBF, none when its message is too short, or a block at a frame. */
  datatype Event =
    | Config(uplink: bool, ref: nat, slots: set<int>, tfi: nat, startFn: nat)
    | Malformed
    | Block(fn: nat)

  ghost function Step(l: Lists, e: Event, reached: Reached): Lists
  {
    match e
    case Config(uplink, ref, slots, tfi, startFn) =>
      if uplink then Requested(l, Tbf(true, ref, slots, 0), startFn)
      else if tfi > 31 then l
      else Requested(l, Tbf(false, ref, slots, tfi), startFn)
    case Malformed => l
    case Block(fn) => Promoted(l, 0, fn, reached)
  }

  ghost function Play(l: Lists, events: seq<Event>, reached: Reached): Lists
    decreases |events|
  {
    if events == [] then l else Play(Step(l, events[0], reached), events[1..], reached)
  }

  /** The entries fit after every event. */
  ghost predicate FitsThroughout(l: Lists, events: seq<Event>, reached: Reached)
    decreases |events|
  {
    FitsIn(l) && (events != [] ==> FitsThroughout(Step(l, events[0], reached), events[1..], reached))
  }

  /** What an event demands for the masks to stay right: that the TFIs of the active TBFs are
      distinct before a request, and whenever a pending TBF becomes active. */
  ghost predicate KeptBy(l: Lists, e: Event, reached: Reached)
  {
    match e
    case Config(_, _, _, _, _) => DistinctTfis(l.active)
    case Malformed => true
    case Block(fn) => Kept(l, 0, fn, reached)
  }

  ghost predicate KeptThroughout(l: Lists, events: seq<Event>, reached: Reached)
    decreases |events|
  {
    events != [] ==> KeptBy(l, events[0], reached) && KeptThroughout(Step(l, events[0], reached), events[1..], reached)
  }
}
