/** The entries and counters of the GPRS layer 1, and what it means for them to agree. */
module GprsSlots {

  const SLOTS: int := 8

  type byte = b: nat | b < 256

  /** A TBF: its direction, reference, timeslots and, for a downlink one, its TFI. A slot
      mask is the set of the slots whose bits are set. */
  datatype Tbf = Tbf(uplink: bool, ref: nat, slots: set<int>, tfi: nat)

  /** A TBF that becomes active at a frame. */
  datatype Request = Request(tbf: Tbf, startFn: nat)

  /** The state of one timeslot; the TFI mask is the set of the TFIs whose bits are set. */
  datatype Pdch = Pdch(ul: byte, dl: byte, tfis: set<nat>, pendingUl: byte, pendingDl: byte)

  /** A call of the timeslot callback. */
  datatype Signal = Signal(slot: int, active: bool)

  ghost predicate WellFormed(t: Tbf)
  {
    t.slots != {} && forall k :: k in t.slots ==> 0 <= k < SLOTS
  }

  function Use(p: Pdch): nat
  {
    p.ul + p.dl + p.pendingUl + p.pendingDl
  }

  function Inc(c: byte): byte
  {
    (c + 1) % 256
  }

  // ------------------------------------------------------------------ one slot

  function Linked(p: Pdch, t: Tbf): Pdch
  {
    if t.uplink then p.(ul := Inc(p.ul)) else p.(dl := Inc(p.dl), tfis := p.tfis + {t.tfi})
  }

  function Used(p: Pdch, t: Tbf): nat
  {
    if t.uplink then p.ul else p.dl
  }

  function Unlinked(p: Pdch, t: Tbf): Pdch
    requires Used(p, t) > 0
  {
    if t.uplink then p.(ul := p.ul - 1) else p.(dl := p.dl - 1, tfis := p.tfis - {t.tfi})
  }

  function Queued(p: Pdch, t: Tbf): Pdch
  {
    if t.uplink then p.(pendingUl := Inc(p.pendingUl)) else p.(pendingDl := Inc(p.pendingDl))
  }

  function UsedPending(p: Pdch, t: Tbf): nat
  {
    if t.uplink then p.pendingUl else p.pendingDl
  }

  function Unqueued(p: Pdch, t: Tbf): Pdch
    requires UsedPending(p, t) > 0
  {
    if t.uplink then p.(pendingUl := p.pendingUl - 1) else p.(pendingDl := p.pendingDl - 1)
  }

  // ------------------------------------------------------------------ entries

  /** How many entries of a direction use slot k. */
  ghost function Count(l: seq<Tbf>, uplink: bool, k: int): nat
  {
    if l == [] then 0 else
      (if l[0].uplink == uplink && k in l[0].slots then 1 else 0) + Count(l[1..], uplink, k)
  }

  ghost function Bare(l: seq<Request>): (r: seq<Tbf>)
    ensures |r| == |l| && forall i :: 0 <= i < |l| ==> r[i] == l[i].tbf
  {
    if l == [] then [] else [l[0].tbf] + Bare(l[1..])
  }

  ghost function Load(active: seq<Tbf>, pending: seq<Request>, k: int): nat
  {
    Count(active, true, k) + Count(active, false, k) + Count(Bare(pending), true, k) + Count(Bare(pending), false, k)
  }

  /** Fewer than 256 entries use each slot. */
  ghost predicate Fits(active: seq<Tbf>, pending: seq<Request>)
  {
    forall k :: 0 <= k < SLOTS ==> Load(active, pending, k) < 256
  }

  ghost predicate SlotCounted(p: Pdch, active: seq<Tbf>, pending: seq<Request>, k: int)
  {
    && p.ul == Count(active, true, k) % 256
    && p.dl == Count(active, false, k) % 256
    && p.pendingUl == Count(Bare(pending), true, k) % 256
    && p.pendingDl == Count(Bare(pending), false, k) % 256
  }

  /** Every counter is the number of entries it counts, in eight bits. */
  ghost predicate Counted(pd: seq<Pdch>, active: seq<Tbf>, pending: seq<Request>)
  {
    |pd| == SLOTS && forall k :: 0 <= k < SLOTS ==> SlotCounted(pd[k], active, pending, k)
  }

  lemma {:induction false} CountSplit(a: seq<Tbf>, b: seq<Tbf>, uplink: bool, k: int)
    ensures Count(a + b, uplink, k) == Count(a, uplink, k) + Count(b, uplink, k)
    decreases |a|
  {
    if a == [] {
      assert a + b == b;
    } else {
      assert (a + b)[1..] == a[1..] + b;
      CountSplit(a[1..], b, uplink, k);
    }
  }

  lemma {:induction false} CountPositive(l: seq<Tbf>, uplink: bool, k: int)
    ensures Count(l, uplink, k) > 0 <==> exists t :: t in l && t.uplink == uplink && k in t.slots
  {
    if l != [] {
      CountPositive(l[1..], uplink, k);
      assert forall t :: t in l <==> t == l[0] || t in l[1..];
    }
  }

  lemma CountAppended(l: seq<Tbf>, t: Tbf, uplink: bool, k: int)
    ensures Count(l + [t], uplink, k) == Count(l, uplink, k) + if t.uplink == uplink && k in t.slots then 1 else 0
  {
    CountSplit(l, [t], uplink, k);
  }

  /** One entry more or less. */
  lemma CountAt(l: seq<Tbf>, i: nat, uplink: bool, k: int)
    requires i < |l|
    ensures Count(l, uplink, k) == Count(l[..i] + l[i + 1..], uplink, k) + Count([l[i]], uplink, k)
  {
    assert l == l[..i] + ([l[i]] + l[i + 1..]);
    CountSplit(l[..i], [l[i]] + l[i + 1..], uplink, k);
    CountSplit([l[i]], l[i + 1..], uplink, k);
    CountSplit(l[..i], l[i + 1..], uplink, k);
  }

  lemma CountReplaced(l: seq<Tbf>, i: nat, t: Tbf, uplink: bool, k: int)
    requires i < |l|
    ensures Count(l[i := t], uplink, k) + Count([l[i]], uplink, k) == Count(l, uplink, k) + Count([t], uplink, k)
  {
    var m := l[i := t];
    assert m[..i] + m[i + 1..] == l[..i] + l[i + 1..];
    CountAt(l, i, uplink, k);
    CountAt(m, i, uplink, k);
  }

  lemma {:induction false} BareSplit(a: seq<Request>, b: seq<Request>)
    ensures Bare(a + b) == Bare(a) + Bare(b)
  {
  }

  lemma BareAppended(l: seq<Request>, r: Request)
    ensures Bare(l + [r]) == Bare(l) + [r.tbf]
  {
  }

  lemma BareAt(l: seq<Request>, i: nat)
    requires i < |l|
    ensures Bare(l[..i] + l[i + 1..]) == Bare(l)[..i] + Bare(l)[i + 1..]
  {
    BareSplit(l[..i], l[i + 1..]);
  }

  // ------------------------------------------------------------------ counters

  lemma SlotLinked(p: Pdch, active: seq<Tbf>, pending: seq<Request>, k: int, t: Tbf)
    requires SlotCounted(p, active, pending, k)
    ensures SlotCounted(if k in t.slots then Linked(p, t) else p, active + [t], pending, k)
  {
    CountAppended(active, t, true, k);
    CountAppended(active, t, false, k);
    CountMoved(p.ul, Count(active, true, k), Count(active + [t], true, k), false, t.uplink && k in t.slots);
    CountMoved(p.dl, Count(active, false, k), Count(active + [t], false, k), false, !t.uplink && k in t.slots);
  }

  lemma SlotUnlinked(p: Pdch, active: seq<Tbf>, pending: seq<Request>, k: int, i: nat)
    requires i < |active| && SlotCounted(p, active, pending, k)
    requires k in active[i].slots ==> Used(p, active[i]) > 0
    ensures SlotCounted(if k in active[i].slots then Unlinked(p, active[i]) else p,
                        active[..i] + active[i + 1..], pending, k)
  {
    var t, m := active[i], active[..i] + active[i + 1..];
    CountAt(active, i, true, k);
    CountAt(active, i, false, k);
    CountMoved(p.ul, Count(active, true, k), Count(m, true, k), t.uplink && k in t.slots, false);
    CountMoved(p.dl, Count(active, false, k), Count(m, false, k), !t.uplink && k in t.slots, false);
  }

  /** What an update of the slots of an entry does to one timeslot. */
  function Updated(p: Pdch, t: Tbf, slots: set<int>, k: int): Pdch
    requires k in t.slots && k !in slots ==> Used(p, t) > 0
  {
    if k in t.slots <==> k in slots then p
    else if k in t.slots then Unlinked(p, t)
    else Linked(p, t)
  }

  lemma SlotUpdated(p: Pdch, active: seq<Tbf>, pending: seq<Request>, k: int, i: nat, slots: set<int>)
    requires i < |active| && SlotCounted(p, active, pending, k)
    requires k in active[i].slots && k !in slots ==> Used(p, active[i]) > 0
    ensures SlotCounted(Updated(p, active[i], slots, k), active[i := active[i].(slots := slots)], pending, k)
  {
    var t := active[i].(slots := slots);
    CountReplaced(active, i, t, true, k);
    CountReplaced(active, i, t, false, k);
    var was, now := k in active[i].slots, k in slots;
    CountMoved(p.ul, Count(active, true, k), Count(active[i := t], true, k), t.uplink && was, t.uplink && now);
    CountMoved(p.dl, Count(active, false, k), Count(active[i := t], false, k), !t.uplink && was, !t.uplink && now);
  }

  /** A counter follows its count when one entry comes or goes. */
  lemma CountMoved(c: byte, n: nat, n': nat, was: bool, now: bool)
    requires c == n % 256 && n' + (if was then 1 else 0) == n + (if now then 1 else 0)
    ensures was == now ==> c == n' % 256
    ensures now && !was ==> Inc(c) == n' % 256
    ensures was && !now && c > 0 ==> c - 1 == n' % 256
  {
  }

  lemma SlotQueued(p: Pdch, active: seq<Tbf>, pending: seq<Request>, k: int, r: Request)
    requires SlotCounted(p, active, pending, k)
    ensures SlotCounted(if k in r.tbf.slots then Queued(p, r.tbf) else p, active, pending + [r], k)
  {
    BareAppended(pending, r);
    CountAppended(Bare(pending), r.tbf, true, k);
    CountAppended(Bare(pending), r.tbf, false, k);
    var l, m, t := Bare(pending), Bare(pending + [r]), r.tbf;
    CountMoved(p.pendingUl, Count(l, true, k), Count(m, true, k), false, t.uplink && k in t.slots);
    CountMoved(p.pendingDl, Count(l, false, k), Count(m, false, k), false, !t.uplink && k in t.slots);
  }

  lemma SlotUnqueued(p: Pdch, active: seq<Tbf>, pending: seq<Request>, k: int, i: nat)
    requires i < |pending| && SlotCounted(p, active, pending, k)
    requires k in pending[i].tbf.slots ==> UsedPending(p, pending[i].tbf) > 0
    ensures SlotCounted(if k in pending[i].tbf.slots then Unqueued(p, pending[i].tbf) else p,
                        active, pending[..i] + pending[i + 1..], k)
  {
    BareAt(pending, i);
    var l, m, t := Bare(pending), Bare(pending[..i] + pending[i + 1..]), pending[i].tbf;
    CountAt(l, i, true, k);
    CountAt(l, i, false, k);
    CountMoved(p.pendingUl, Count(l, true, k), Count(m, true, k), t.uplink && k in t.slots, false);
    CountMoved(p.pendingDl, Count(l, false, k), Count(m, false, k), !t.uplink && k in t.slots, false);
  }

  lemma InRange(c: byte, n: nat)
    requires c == n % 256 && n < 256
    ensures c == n
  {
  }

  /** While the entries fit, the counters are the counts and none that is needed is zero. */
  lemma FittingCounters(p: Pdch, active: seq<Tbf>, pending: seq<Request>, k: int)
    requires SlotCounted(p, active, pending, k) && Load(active, pending, k) < 256
    ensures Use(p) == Load(active, pending, k)
    ensures forall i :: 0 <= i < |active| && k in active[i].slots ==> Used(p, active[i]) > 0
    ensures forall i :: 0 <= i < |pending| && k in pending[i].tbf.slots ==> UsedPending(p, pending[i].tbf) > 0
  {
    InRange(p.ul, Count(active, true, k));
    InRange(p.dl, Count(active, false, k));
    InRange(p.pendingUl, Count(Bare(pending), true, k));
    InRange(p.pendingDl, Count(Bare(pending), false, k));
    forall i | 0 <= i < |active| && k in active[i].slots
      ensures Used(p, active[i]) > 0
    {
      CountAt(active, i, active[i].uplink, k);
    }
    forall i | 0 <= i < |pending| && k in pending[i].tbf.slots
      ensures UsedPending(p, pending[i].tbf) > 0
    {
      CountAt(Bare(pending), i, pending[i].tbf.uplink, k);
    }
  }

  /** While the entries still fit with one more, its counters do not overflow. */
  lemma RoomToLink(p: Pdch, active: seq<Tbf>, pending: seq<Request>, k: int, t: Tbf)
    requires SlotCounted(p, active, pending, k) && k in t.slots
    requires Load(active + [t], pending, k) < 256
    ensures Used(p, t) < 255
  {
    CountAppended(active, t, t.uplink, k);
  }

  lemma RoomToUpdate(p: Pdch, active: seq<Tbf>, pending: seq<Request>, k: int, i: nat, slots: set<int>)
    requires i < |active| && SlotCounted(p, active, pending, k) && k in slots && k !in active[i].slots
    requires Load(active[i := active[i].(slots := slots)], pending, k) < 256
    ensures Used(p, active[i]) < 255
  {
    CountReplaced(active, i, active[i].(slots := slots), active[i].uplink, k);
  }

  lemma RoomToQueue(p: Pdch, active: seq<Tbf>, pending: seq<Request>, k: int, r: Request)
    requires SlotCounted(p, active, pending, k) && k in r.tbf.slots
    requires Load(active, pending + [r], k) < 256
    ensures UsedPending(p, r.tbf) < 255
  {
    BareAppended(pending, r);
    CountAppended(Bare(pending), r.tbf, r.tbf.uplink, k);
  }

  // ------------------------------------------------------------------ the callback

  /** The last value signalled for slot k; a slot starts inactive. */
  ghost function LastSignal(log: seq<Signal>, k: int): bool
  {
    if log == [] then false
    else if log[|log| - 1].slot == k then log[|log| - 1].active
    else LastSignal(log[..|log| - 1], k)
  }

  /** No slot is signalled inactive twice in a row, or before it was signalled active. */
  ghost predicate Quiet(log: seq<Signal>)
  {
    log == [] ||
    var n := |log| - 1;
    Quiet(log[..n]) && (!log[n].active ==> LastSignal(log[..n], log[n].slot))
  }

  /** The callback knows of every slot whether it is used; a loose slot may be unused though
      it was signalled active. */
  ghost predicate Told(log: seq<Signal>, pd: seq<Pdch>, loose: set<int>)
  {
    && |pd| == SLOTS && Quiet(log)
    && forall k :: 0 <= k < SLOTS ==>
      && (Use(pd[k]) > 0 ==> LastSignal(log, k))
      && (k !in loose && LastSignal(log, k) ==> Use(pd[k]) > 0)
  }

  lemma Signalled(log: seq<Signal>, s: Signal)
    ensures forall k :: LastSignal(log + [s], k) == if k == s.slot then s.active else LastSignal(log, k)
    ensures Quiet(log + [s]) <==> Quiet(log) && (!s.active ==> LastSignal(log, s.slot))
  {
    assert (log + [s])[..|log|] == log;
  }

  // ------------------------------------------------------------------ TFIs

  /** The TFIs of the active downlink TBFs on slot k. */
  ghost function Tfis(active: seq<Tbf>, k: int): set<nat>
  {
    set i | 0 <= i < |active| && !active[i].uplink && k in active[i].slots :: active[i].tfi
  }

  /** Another downlink TBF on slot k has the TFI of the i-th. */
  ghost predicate Shared(active: seq<Tbf>, i: nat, k: int)
    requires i < |active|
  {
    exists j :: 0 <= j < |active| && j != i && !active[j].uplink && k in active[j].slots && active[j].tfi == active[i].tfi
  }

  lemma TfisLinked(active: seq<Tbf>, t: Tbf, k: int)
    ensures Tfis(active + [t], k) == Tfis(active, k) + if !t.uplink && k in t.slots then {t.tfi} else {}
  {
    var m := active + [t];
    assert forall i :: 0 <= i < |active| ==> m[i] == active[i];
    assert m[|active|] == t;
    forall x | x in Tfis(active, k)
      ensures x in Tfis(m, k)
    {
      var i :| 0 <= i < |active| && !active[i].uplink && k in active[i].slots && active[i].tfi == x;
      assert m[i].tfi == x;
    }
  }

  /** Taking a TBF's TFI out of a slot's mask leaves the right mask if and only if no other
      TBF on the slot has that TFI. */
  lemma TfisUnlinked(active: seq<Tbf>, i: nat, k: int)
    requires i < |active| && !active[i].uplink && k in active[i].slots
    ensures Tfis(active[..i] + active[i + 1..], k) == Tfis(active, k) - {active[i].tfi} <==> !Shared(active, i, k)
  {
    var m := active[..i] + active[i + 1..];
    assert forall j :: 0 <= j < |m| ==> m[j] == active[if j < i then j else j + 1];
    assert forall j :: 0 <= j < |active| && j != i ==> active[j] == m[if j < i then j else j - 1];
    if Shared(active, i, k) {
      assert active[i].tfi in Tfis(m, k);
    } else {
      forall x | x in Tfis(active, k) && x != active[i].tfi
        ensures x in Tfis(m, k)
      {
        var j :| 0 <= j < |active| && !active[j].uplink && k in active[j].slots && active[j].tfi == x;
        assert m[if j < i then j else j - 1].tfi == x;
      }
    }
  }

  /** What an update of the slots of a downlink TBF makes of the mask of slot k is right if
      and only if it does not take the TFI away from another TBF. */
  lemma TfisUpdated(active: seq<Tbf>, i: nat, slots: set<int>, k: int, mask: set<nat>)
    requires i < |active| && !active[i].uplink
    requires mask ==
      if k in active[i].slots && k !in slots then Tfis(active, k) - {active[i].tfi}
      else if k in slots then Tfis(active, k) + {active[i].tfi}
      else Tfis(active, k)
    ensures mask == Tfis(active[i := active[i].(slots := slots)], k)
      <==> !(k in active[i].slots && k !in slots && Shared(active, i, k))
  {
    var t := active[i].(slots := slots);
    var m := active[i := t];
    var without := active[..i] + active[i + 1..];
    Replaced(active, i, t, k);
    Replaced(active, i, active[i], k);
    assert active[i := active[i]] == active;
    if k in active[i].slots && k !in slots {
      TfisUnlinked(active, i, k);
    }
  }

  /** The TFIs after the i-th entry was replaced. */
  lemma Replaced(active: seq<Tbf>, i: nat, t: Tbf, k: int)
    requires i < |active|
    ensures Tfis(active[i := t], k) == Tfis(active[..i] + active[i + 1..], k) + if !t.uplink && k in t.slots then {t.tfi} else {}
  {
    var m, w := active[i := t], active[..i] + active[i + 1..];
    assert forall j :: 0 <= j < |w| ==> w[j] == m[if j < i then j else j + 1];
    assert forall j :: 0 <= j < |m| && j != i ==> m[j] == w[if j < i then j else j - 1];
    forall x | x in Tfis(w, k)
      ensures x in Tfis(m, k)
    {
      var j :| 0 <= j < |w| && !w[j].uplink && k in w[j].slots && w[j].tfi == x;
      assert m[if j < i then j else j + 1].tfi == x;
    }
    if !t.uplink && k in t.slots {
      assert m[i].tfi in Tfis(m, k);
    }
  }

  /** Giving the i-th TBF another TFI leaves the mask of a slot of its right if and only if
      the TFI is the same, or other TBFs on the slot have both the old one and the new one. */
  lemma TfisRetagged(active: seq<Tbf>, i: nat, tfi: nat, k: int)
    requires i < |active| && !active[i].uplink && k in active[i].slots
    ensures Tfis(active[i := active[i].(tfi := tfi)], k) == Tfis(active, k)
      <==> tfi == active[i].tfi || (Shared(active, i, k) && tfi in Tfis(active, k))
  {
    Replaced(active, i, active[i].(tfi := tfi), k);
    Replaced(active, i, active[i], k);
    assert active[i := active[i]] == active;
    TfisUnlinked(active, i, k);
    var w := Tfis(active[..i] + active[i + 1..], k);
    assert Tfis(active, k) == w + {active[i].tfi};
    assert Shared(active, i, k) <==> active[i].tfi in w by {
      if active[i].tfi in w {
        assert w != Tfis(active, k) - {active[i].tfi};
      }
    }
  }
}
