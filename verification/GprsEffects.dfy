/** What requests and blocks make of the TBFs, seen from outside: which TBF a direction and
    reference name afterwards, and that the others stay as they were. */
module GprsEffects {
  import opened Options
  import opened GprsSlots
  import opened GprsLists

  ghost predicate Named(t: Tbf, uplink: bool, ref: nat)
  {
    t.uplink == uplink && t.ref == ref
  }

  /** The TBFs with another direction or reference. */
  ghost function Others(l: seq<Tbf>, uplink: bool, ref: nat): seq<Tbf>
  {
    if l == [] then []
    else (if Named(l[0], uplink, ref) then [] else [l[0]]) + Others(l[1..], uplink, ref)
  }

  /** They do not depend on a TBF that is named. */
  lemma {:induction false} OthersAt(l: seq<Tbf>, i: nat, uplink: bool, ref: nat)
    requires i < |l| && Named(l[i], uplink, ref)
    ensures Others(Dropped(l, i), uplink, ref) == Others(l, uplink, ref)
    decreases i
  {
    if i == 0 {
      assert Dropped(l, 0) == l[1..];
    } else {
      OthersAt(l[1..], i - 1, uplink, ref);
      assert Dropped(l, i)[1..] == Dropped(l[1..], i - 1);
    }
  }

  // ------------------------------------------------------------------ the lists

  /** The list in which the TBF that t replaces was replaced, or to which t was added. */
  ghost function Put(active: seq<Tbf>, t: Tbf): seq<Tbf>
  {
    var i := Find(active, t.uplink, t.ref);
    if i < |active| then active[i := t] else active + [t]
  }

  lemma PutOthers(active: seq<Tbf>, t: Tbf)
    ensures Others(Put(active, t), t.uplink, t.ref) == Others(active, t.uplink, t.ref)
  {
    var i, m := Find(active, t.uplink, t.ref), Put(active, t);
    OthersAt(m, i, t.uplink, t.ref);
    if i < |active| {
      OthersAt(active, i, t.uplink, t.ref);
      assert Dropped(m, i) == Dropped(active, i);
    } else {
      assert Dropped(m, i) == active;
    }
  }

  /** It holds t, nothing else with its direction and reference, and everything else. */
  lemma PutContents(active: seq<Tbf>, t: Tbf, u: Tbf)
    requires Unique(active)
    ensures u in Put(active, t) <==> if Named(u, t.uplink, t.ref) then u == t else u in active
  {
    var i, m := Find(active, t.uplink, t.ref), Put(active, t);
    assert m[i] == t;
    if u in m {
      var j :| 0 <= j < |m| && m[j] == u;
      assert j != i ==> active[j] == u && !Named(active[j], t.uplink, t.ref);
    }
    if u in active {
      var j :| 0 <= j < |active| && active[j] == u;
      assert j != i ==> m[j] == u;
    }
  }

  /** The list without its i-th TBF. */
  lemma DroppedContents(active: seq<Tbf>, i: nat, u: Tbf)
    requires Unique(active) && i < |active|
    ensures u in Dropped(active, i) <==> u in active && !Named(u, active[i].uplink, active[i].ref)
  {
    var m := Dropped(active, i);
    if u in m {
      var j :| 0 <= j < |m| && m[j] == u;
      assert active[if j < i then j else j + 1] == u;
    }
    if u in active && !Named(u, active[i].uplink, active[i].ref) {
      var j :| 0 <= j < |active| && active[j] == u;
      assert m[if j < i then j else j - 1] == u;
    }
  }

  // ------------------------------------------------------------------ requests

  /** A request the handlers carry out: its TFI, if it carries one, has five bits. */
  ghost predicate Accepted(e: Event)
  {
    e.Config? && (e.uplink || e.tfi <= 31)
  }

  /** The TFI of a TBF that a request makes. */
  ghost function FreshTfi(e: Event): nat
    requires e.Config?
  {
    if e.uplink then 0 else e.tfi
  }

  /** The active TBF that is named. */
  ghost function Holder(active: seq<Tbf>, uplink: bool, ref: nat): Option<Tbf>
  {
    var i := Find(active, uplink, ref);
    if i < |active| then Some(active[i]) else None
  }

  lemma HolderIs(active: seq<Tbf>, uplink: bool, ref: nat, w: Tbf)
    requires Unique(active)
    ensures Holder(active, uplink, ref) == Some(w) <==> w in active && Named(w, uplink, ref)
    ensures Holder(active, uplink, ref) == None ==> forall v :: v in active ==> !Named(v, uplink, ref)
  {
    var i := Find(active, uplink, ref);
    if w in active && Named(w, uplink, ref) {
      var j :| 0 <= j < |active| && active[j] == w;
      assert i == j;
    }
  }

  /** After a request that takes effect at once, the TBF it names uses exactly the slots asked
      for, and has the TFI it had before, if there was one; the others stay as they were. */
  lemma RequestTakesEffect(l: Lists, e: Event, reached: Reached, u: Tbf)
    requires Unique(l.active) && Accepted(e) && e.slots != {} && e.startFn == TDMA_FN_INVALID
    ensures var m, was := Step(l, e, reached), Holder(l.active, e.uplink, e.ref);
      && m.pending == l.pending
      && Others(m.active, e.uplink, e.ref) == Others(l.active, e.uplink, e.ref)
      && (Named(u, e.uplink, e.ref) ==>
            (u in m.active <==> u.slots == e.slots && u.tfi == if was.Some? then was.value.tfi else FreshTfi(e)))
  {
    var was := Holder(l.active, e.uplink, e.ref);
    var t := Tbf(e.uplink, e.ref, e.slots, if was.Some? then was.value.tfi else FreshTfi(e));
    assert Step(l, e, reached).active == Put(l.active, t);
    PutOthers(l.active, t);
    PutContents(l.active, t, u);
  }

  /** A request with a start frame is queued, and the active TBFs stay. */
  lemma RequestWaits(l: Lists, e: Event, reached: Reached)
    requires Accepted(e) && e.slots != {} && e.startFn != TDMA_FN_INVALID
    ensures var m := Step(l, e, reached);
      && m.active == l.active
      && |m.pending| == |l.pending| + 1 && m.pending[..|l.pending|] == l.pending
      && var r := m.pending[|l.pending|];
         && Named(r.tbf, e.uplink, e.ref) && r.tbf.slots == e.slots && r.tbf.tfi == FreshTfi(e) && r.startFn == e.startFn
  {
  }

  /** A request without slots ends the TBF it names, and that one only. */
  lemma RequestEnds(l: Lists, e: Event, reached: Reached, u: Tbf)
    requires Unique(l.active) && Accepted(e) && e.slots == {}
    ensures var m := Step(l, e, reached);
      && m.pending == l.pending
      && Others(m.active, e.uplink, e.ref) == Others(l.active, e.uplink, e.ref)
      && (u in m.active <==> u in l.active && !Named(u, e.uplink, e.ref))
  {
    var i := Find(l.active, e.uplink, e.ref);
    if i < |l.active| {
      OthersAt(l.active, i, e.uplink, e.ref);
      DroppedContents(l.active, i, u);
    }
  }

  // ------------------------------------------------------------------ start frames

  /** The last of the requests whose frame was reached for the TBF that is named. */
  ghost function LastReached(p: seq<Request>, fn: nat, reached: Reached, uplink: bool, ref: nat): Option<Tbf>
  {
    if p == [] then None
    else if LastReached(p[1..], fn, reached, uplink, ref).Some? then LastReached(p[1..], fn, reached, uplink, ref)
    else if reached(fn, p[0].startFn) && Named(p[0].tbf, uplink, ref) then Some(p[0].tbf)
    else None
  }

  /** After a block, a TBF is active as the last request says whose frame was reached; without
      such a request it stays as it was. */
  lemma {:induction false} PromotedActive(l: Lists, i: nat, fn: nat, reached: Reached, u: Tbf)
    requires Unique(l.active) && i <= |l.pending|
    ensures u in Promoted(l, i, fn, reached).active <==>
      match LastReached(l.pending[i..], fn, reached, u.uplink, u.ref)
      case None => u in l.active
      case Some(t) => u == t
    decreases |l.pending| - i
  {
    if i < |l.pending| {
      var r := l.pending[i];
      if reached(fn, r.startFn) {
        var m := Lists(Merged(l.active, r.tbf), Dropped(l.pending, i));
        MergedKeeps(l, i, m);
        assert m.active == Put(l.active, r.tbf);
        PutContents(l.active, r.tbf, u);
        PromotedActive(m, i, fn, reached, u);
        assert m.pending[i..] == l.pending[i..][1..];
      } else {
        PromotedActive(l, i + 1, fn, reached, u);
        assert l.pending[i + 1..] == l.pending[i..][1..];
      }
    }
  }
}
