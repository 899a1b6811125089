/** The timer queue as a value: a list of timers with their timeouts, and what adding,
    deleting and firing mean on it. */
module TimerList {
  import opened Options
  import opened RbTree

  type Timer = Node

  datatype Entry = Entry(timer: Timer, timeout: int)

  ghost predicate Sorted(l: seq<Entry>)
  {
    forall i, j :: 0 <= i < j < |l| ==> l[i].timeout <= l[j].timeout
  }

  ghost predicate Distinct(l: seq<Entry>)
  {
    forall i, j :: 0 <= i < j < |l| ==> l[i].timer != l[j].timer
  }

  /** A new entry goes before the first later one: after all entries with its timeout. */
  ghost function Insert(l: seq<Entry>, e: Entry): (r: seq<Entry>)
  {
    if l == [] then [e]
    else if e.timeout < l[0].timeout then [e] + l
    else [l[0]] + Insert(l[1..], e)
  }

  ghost function Remove(l: seq<Entry>, t: Timer): (r: seq<Entry>)
  {
    if l == [] then []
    else if l[0].timer == t then l[1..]
    else [l[0]] + Remove(l[1..], t)
  }

  lemma {:induction false} InsertAt(l: seq<Entry>, e: Entry, k: nat)
    requires k <= |l|
    requires forall i :: 0 <= i < k ==> l[i].timeout <= e.timeout
    requires k < |l| ==> e.timeout < l[k].timeout
    ensures Insert(l, e) == l[..k] + [e] + l[k..]
  {
    if k > 0 {
      InsertAt(l[1..], e, k - 1);
      assert l[..k] == [l[0]] + l[1..][..k - 1];
    }
  }

  lemma {:induction false} RemoveAt(l: seq<Entry>, t: Timer, k: nat)
    requires k < |l| && l[k].timer == t
    requires forall i :: 0 <= i < k ==> l[i].timer != t
    ensures Remove(l, t) == l[..k] + l[k + 1..]
  {
    if k > 0 {
      RemoveAt(l[1..], t, k - 1);
      assert l[..k] == [l[0]] + l[1..][..k - 1];
    }
  }

  lemma {:induction false} RemoveAbsent(l: seq<Entry>, t: Timer)
    requires forall i :: 0 <= i < |l| ==> l[i].timer != t
    ensures Remove(l, t) == l
    decreases |l|
  {
    if l != [] {
      RemoveAbsent(l[1..], t);
    }
  }

  /** Changing the timeout of an entry before it is removed changes nothing. */
  lemma {:induction false} RemoveRetimed(l: seq<Entry>, m: seq<Entry>, t: Timer)
    requires |l| == |m| && Distinct(l)
    requires forall i :: 0 <= i < |l| ==> m[i].timer == l[i].timer && (l[i].timer != t ==> m[i] == l[i])
    ensures Remove(m, t) == Remove(l, t)
    decreases |l|
  {
    if l != [] {
      if l[0].timer == t {
        assert forall i :: 0 < i < |l| ==> l[i].timer != t;
        assert l[1..] == m[1..];
      } else {
        RemoveRetimed(l[1..], m[1..], t);
      }
    }
  }

  // ------------------------------------------------------------------ operations

  /** What a user of the timers may do. Scheduling sets the timeout and adds the timer,
      taking it out first when it is active. */
  datatype Op = Delete(timer: Timer) | Schedule(timer: Timer, timeout: int)

  ghost function Apply(l: seq<Entry>, op: Op): seq<Entry>
  {
    match op
    case Delete(t) => Remove(l, t)
    case Schedule(t, at) => Insert(Remove(l, t), Entry(t, at))
  }

  ghost function ApplyAll(l: seq<Entry>, ops: seq<Op>): seq<Entry>
    decreases |ops|
  {
    if ops == [] then l else ApplyAll(Apply(l, ops[0]), ops[1..])
  }

  // ------------------------------------------------------------------ firing

  /** How many entries at the head of a sorted list are not after `now`. */
  ghost function ExpiredCount(l: seq<Entry>, now: int): (k: nat)
    ensures k <= |l|
    ensures forall i :: 0 <= i < k ==> l[i].timeout <= now
    ensures k < |l| ==> l[k].timeout > now
  {
    if l == [] || l[0].timeout > now then 0 else 1 + ExpiredCount(l[1..], now)
  }

  lemma {:induction false} CountIs(l: seq<Entry>, now: int, k: nat)
    requires k <= |l|
    requires forall i :: 0 <= i < k ==> l[i].timeout <= now
    requires k < |l| ==> l[k].timeout > now
    ensures ExpiredCount(l, now) == k
  {
    if k > 0 {
      CountIs(l[1..], now, k - 1);
    }
  }

  ghost function Reversed(l: seq<Entry>): (r: seq<Timer>)
    ensures |r| == |l|
    ensures forall i :: 0 <= i < |l| ==> r[i] == l[|l| - 1 - i].timer
  {
    if l == [] then [] else [l[|l| - 1].timer] + Reversed(l[..|l| - 1])
  }

  lemma ReversedStep(l: seq<Entry>, i: nat)
    requires i < |l|
    ensures Reversed(l[..i + 1]) == [l[i].timer] + Reversed(l[..i])
  {
    assert l[..i + 1][..i] == l[..i];
  }

  /** The timers to evict, in the order in which they are fired: the latest timeout first. */
  ghost function Eviction(l: seq<Entry>, now: int): seq<Timer>
  {
    Reversed(l[..ExpiredCount(l, now)])
  }

  function Dropped(evict: seq<Timer>, t: Timer): (r: seq<Timer>)
    ensures |r| <= |evict|
    ensures forall u :: u in r ==> u in evict && u != t
    ensures forall u :: u in evict && u != t ==> u in r
  {
    if evict == [] then []
    else if evict[0] == t then Dropped(evict[1..], t)
    else [evict[0]] + Dropped(evict[1..], t)
  }

  lemma DroppedFirst(evict: seq<Timer>)
    requires evict != []
    ensures Dropped(evict, evict[0]) == Dropped(evict[1..], evict[0])
    ensures |Dropped(evict, evict[0])| < |evict|
  {
  }

  /** What a callback's operations leave on the eviction list. */
  ghost function DroppedAll(evict: seq<Timer>, ops: seq<Op>): (r: seq<Timer>)
    ensures |r| <= |evict|
    ensures forall u :: u in r ==> u in evict
    decreases |ops|
  {
    if ops == [] then evict else DroppedAll(Dropped(evict, ops[0].timer), ops[1..])
  }

  /** The script of the n-th callback; a callback without a script does nothing. */
  function Script(scripts: seq<seq<Op>>, n: nat): seq<Op>
  {
    if n < |scripts| then scripts[n] else []
  }

  /** The timers fired, when the n-th and later callbacks are still to come. */
  ghost function Fired(evict: seq<Timer>, scripts: seq<seq<Op>>, n: nat): (r: seq<Timer>)
    decreases |evict|
  {
    if evict == [] then [] else
      var rest := Dropped(evict[1..], evict[0]);
      [evict[0]] + Fired(DroppedAll(rest, Script(scripts, n)), scripts, n + 1)
  }

  /** The queue after the firing. */
  ghost function AfterFiring(l: seq<Entry>, evict: seq<Timer>, scripts: seq<seq<Op>>, n: nat): seq<Entry>
    decreases |evict|
  {
    if evict == [] then l else
      var rest := Dropped(evict[1..], evict[0]);
      AfterFiring(ApplyAll(Remove(l, evict[0]), Script(scripts, n)),
                  DroppedAll(rest, Script(scripts, n)), scripts, n + 1)
  }

  lemma FiringStep(l: seq<Entry>, evict: seq<Timer>, scripts: seq<seq<Op>>, n: nat)
    requires evict != []
    ensures var t := evict[0];
      var rest := DroppedAll(Dropped(evict[1..], t), Script(scripts, n));
      && Fired(evict, scripts, n) == [t] + Fired(rest, scripts, n + 1)
      && AfterFiring(l, evict, scripts, n)
         == AfterFiring(ApplyAll(Remove(l, t), Script(scripts, n)), rest, scripts, n + 1)
  {
  }

  // ------------------------------------------------------------------ properties

  /** In a sorted list the new entry goes between the entries not after it and the later
      ones: the list stays sorted, and entries with equal timeouts stay in insertion order. */
  lemma InsertPlace(l: seq<Entry>, e: Entry) returns (k: nat)
    requires Sorted(l)
    ensures k <= |l| && Insert(l, e) == l[..k] + [e] + l[k..]
    ensures forall i :: 0 <= i < |l| ==> (i < k <==> l[i].timeout <= e.timeout)
    ensures Sorted(Insert(l, e))
  {
    k := ExpiredCount(l, e.timeout);
    InsertAt(l, e, k);
    assert k < |l| ==> forall i :: k <= i < |l| ==> l[k].timeout <= l[i].timeout;
    BetweenIsSorted(l[..k], e, l[k..]);
  }

  lemma BetweenIsSorted(a: seq<Entry>, e: Entry, b: seq<Entry>)
    requires Sorted(a) && Sorted(b)
    requires forall i :: 0 <= i < |a| ==> a[i].timeout <= e.timeout
    requires forall i :: 0 <= i < |b| ==> e.timeout <= b[i].timeout
    ensures Sorted(a + [e] + b)
  {
  }

  lemma {:induction false} RemoveKeepsSorted(l: seq<Entry>, t: Timer)
    requires Sorted(l)
    ensures Sorted(Remove(l, t))
    ensures forall x :: x in Remove(l, t) ==> x in l
    decreases |l|
  {
    if l != [] && l[0].timer != t {
      RemoveKeepsSorted(l[1..], t);
      forall j | 0 <= j < |Remove(l[1..], t)|
        ensures l[0].timeout <= Remove(l[1..], t)[j].timeout
      {
        assert Remove(l[1..], t)[j] in l[1..];
      }
    }
  }

  lemma {:induction false} RunKeepsSorted(l: seq<Entry>, ops: seq<Op>)
    requires Sorted(l)
    ensures Sorted(ApplyAll(l, ops))
    decreases |ops|
  {
    if ops != [] {
      match ops[0] {
        case Delete(t) => RemoveKeepsSorted(l, t);
        case Schedule(t, at) =>
          RemoveKeepsSorted(l, t);
          var k := InsertPlace(Remove(l, t), Entry(t, at));
      }
      RunKeepsSorted(Apply(l, ops[0]), ops[1..]);
    }
  }

  lemma {:induction false} InsertedContents(l: seq<Entry>, e: Entry, x: Entry)
    ensures x in Insert(l, e) <==> x in l || x == e
    decreases |l|
  {
    if l != [] {
      InsertedContents(l[1..], e, x);
    }
  }

  lemma {:induction false} RemovedContents(l: seq<Entry>, t: Timer, x: Entry)
    requires Distinct(l)
    ensures x in Remove(l, t) <==> x in l && x.timer != t
    decreases |l|
  {
    if l != [] && l[0].timer != t {
      RemovedContents(l[1..], t, x);
    }
  }

  lemma {:induction false} RemoveKeepsDistinct(l: seq<Entry>, t: Timer)
    requires Distinct(l)
    ensures Distinct(Remove(l, t))
    decreases |l|
  {
    if l != [] && l[0].timer != t {
      RemoveKeepsDistinct(l[1..], t);
      forall j | 0 <= j < |Remove(l[1..], t)|
        ensures Remove(l[1..], t)[j].timer != l[0].timer
      {
        RemovedContents(l[1..], t, Remove(l[1..], t)[j]);
      }
    }
  }

  /** A timer that was scheduled has exactly one entry, at its new timeout, whether or not it
      was queued before; the other entries stay in their order. */
  lemma Scheduled(l: seq<Entry>, t: Timer, at: int)
    requires Distinct(l)
    ensures var r := Apply(l, Op.Schedule(t, at));
      && Distinct(r) && Entry(t, at) in r
      && (forall x :: x in r && x.timer == t ==> x == Entry(t, at))
      && Remove(r, t) == Remove(l, t)
  {
    var m, e := Remove(l, t), Entry(t, at);
    RemoveKeepsDistinct(l, t);
    forall i | 0 <= i < |m|
      ensures m[i].timer != t
    {
      RemovedContents(l, t, m[i]);
    }
    var k := ExpiredCount(m, at);
    InsertAt(m, e, k);
    OneMore(m, e, k, m[..k] + [e] + m[k..]);
  }

  lemma OneMore(m: seq<Entry>, e: Entry, k: nat, r: seq<Entry>)
    requires k <= |m| && r == m[..k] + [e] + m[k..]
    requires Distinct(m) && forall i :: 0 <= i < |m| ==> m[i].timer != e.timer
    ensures Distinct(r) && e in r && (forall x :: x in r && x.timer == e.timer ==> x == e)
    ensures Remove(r, e.timer) == m
  {
    assert r[k] == e;
    RemoveAt(r, e.timer, k);
    assert r[..k] == m[..k] && r[k + 1..] == m[k..] && m == m[..k] + m[k..];
    forall i, j | 0 <= i < j < |r|
      ensures r[i].timer != r[j].timer
    {
      OneOf(m, e, k, r, i);
      OneOf(m, e, k, r, j);
    }
  }

  lemma OneOf(m: seq<Entry>, e: Entry, k: nat, r: seq<Entry>, i: nat)
    requires k <= |m| && r == m[..k] + [e] + m[k..] && i < |r|
    ensures r[i] == if i < k then m[i] else if i == k then e else m[i - 1]
  {
  }

  lemma ApplyKeepsDistinct(l: seq<Entry>, op: Op)
    requires Distinct(l)
    ensures Distinct(Apply(l, op))
  {
    match op {
      case Delete(t) => RemoveKeepsDistinct(l, t);
      case Schedule(t, at) => Scheduled(l, t, at);
    }
  }

  /** The last of the operations on a timer. */
  ghost function LastOn(ops: seq<Op>, t: Timer): (r: Option<Op>)
    ensures r.Some? ==> r.value in ops && r.value.timer == t
    decreases |ops|
  {
    if ops == [] then None
    else if LastOn(ops[1..], t).Some? then LastOn(ops[1..], t)
    else if ops[0].timer == t then Some(ops[0])
    else None
  }

  /** The entries of a timer after its last operation: none when it was deleted, the timeout
      it was scheduled for, or what there was when there was no operation on it. */
  ghost predicate Decided(l: seq<Entry>, last: Option<Op>, x: Entry)
  {
    match last
    case None => x in l
    case Some(Delete(_)) => false
    case Some(Schedule(_, at)) => x.timeout == at
  }

  /** Over any run the last operation on a timer decides whether it is queued, and when it is
      due. */
  lemma {:induction false} LastOperationDecides(l: seq<Entry>, ops: seq<Op>, x: Entry)
    requires Distinct(l)
    ensures x in ApplyAll(l, ops) <==> Decided(l, LastOn(ops, x.timer), x)
    ensures Distinct(ApplyAll(l, ops))
    decreases |ops|
  {
    if ops != [] {
      ApplyKeepsDistinct(l, ops[0]);
      LastOperationDecides(Apply(l, ops[0]), ops[1..], x);
      OperationDecides(l, ops[0], x);
    }
  }

  lemma OperationDecides(l: seq<Entry>, op: Op, x: Entry)
    requires Distinct(l)
    ensures x in Apply(l, op) <==> if x.timer == op.timer then Decided(l, Some(op), x) else x in l
  {
    RemovedContents(l, op.timer, x);
    match op {
      case Delete(t) =>
      case Schedule(t, at) => InsertedContents(Remove(l, t), Entry(t, at), x);
    }
  }

  /** What an update that fires f does to the queue: each timer is taken out, and then its
      callback runs. */
  ghost function Performed(f: seq<Timer>, scripts: seq<seq<Op>>, n: nat): seq<Op>
    decreases |f|
  {
    if f == [] then [] else [Delete(f[0])] + Script(scripts, n) + Performed(f[1..], scripts, n + 1)
  }

  /** The queue after an update is that after a run of operations. */
  lemma {:induction false} FiringIsRun(l: seq<Entry>, evict: seq<Timer>, scripts: seq<seq<Op>>, n: nat)
    ensures AfterFiring(l, evict, scripts, n) == ApplyAll(l, Performed(Fired(evict, scripts, n), scripts, n))
    decreases |evict|
  {
    if evict != [] {
      var t, script := evict[0], Script(scripts, n);
      var rest := DroppedAll(Dropped(evict[1..], t), script);
      var later := Performed(Fired(rest, scripts, n + 1), scripts, n + 1);
      FiringIsRun(ApplyAll(Remove(l, t), script), rest, scripts, n + 1);
      assert Fired(evict, scripts, n)[1..] == Fired(rest, scripts, n + 1);
      ApplyAllSplit(l, [Delete(t)], script + later);
      ApplyAllSplit(Remove(l, t), script, later);
      assert [Delete(t)] + script + later == [Delete(t)] + (script + later);
      assert ApplyAll(l, [Delete(t)]) == Remove(l, t);
    }
  }

  lemma {:induction false} ApplyAllSplit(l: seq<Entry>, a: seq<Op>, b: seq<Op>)
    ensures ApplyAll(l, a + b) == ApplyAll(ApplyAll(l, a), b)
    decreases |a|
  {
    if a == [] {
      assert a + b == b;
    } else {
      assert (a + b)[1..] == a[1..] + b;
      ApplyAllSplit(Apply(l, a[0]), a[1..], b);
    }
  }

  /** A timer that fires is queued afterwards only if a callback scheduled it again from its
      own on, and then for the time of the last schedule. */
  lemma FiredIsRequeuedOnly(l: seq<Entry>, evict: seq<Timer>, scripts: seq<seq<Op>>, x: Entry)
    requires Distinct(l) && x.timer in Fired(evict, scripts, 0)
    ensures var ops := Performed(Fired(evict, scripts, 0), scripts, 0);
      x in AfterFiring(l, evict, scripts, 0) <==> LastOn(ops, x.timer) == Some(Op.Schedule(x.timer, x.timeout))
  {
    var f := Fired(evict, scripts, 0);
    FiringIsRun(l, evict, scripts, 0);
    LastOperationDecides(l, Performed(f, scripts, 0), x);
    DeletesFired(f, scripts, 0, x.timer);
    LastOnExists(Performed(f, scripts, 0), x.timer);
  }

  lemma {:induction false} DeletesFired(f: seq<Timer>, scripts: seq<seq<Op>>, n: nat, t: Timer)
    requires t in f
    ensures Delete(t) in Performed(f, scripts, n)
    decreases |f|
  {
    if f[0] == t {
      assert Performed(f, scripts, n)[0] == Delete(t);
    } else {
      DeletesFired(f[1..], scripts, n + 1, t);
    }
  }

  lemma {:induction false} LastOnExists(ops: seq<Op>, t: Timer)
    requires exists i :: 0 <= i < |ops| && ops[i].timer == t
    ensures LastOn(ops, t).Some?
    decreases |ops|
  {
    if ops[0].timer != t {
      LastOnExists(ops[1..], t);
    }
  }

  /** The timers fire in the order of the eviction list, whatever the callbacks do. */
  lemma {:induction false} FiredInOrder(evict: seq<Timer>, scripts: seq<seq<Op>>, n: nat, t: Timer, u: Timer)
    requires Before(Fired(evict, scripts, n), t, u)
    ensures Before(evict, t, u)
    decreases |evict|
  {
    if evict != [] {
      var rest := Dropped(evict[1..], evict[0]);
      var left := DroppedAll(rest, Script(scripts, n));
      var g := Fired(left, scripts, n + 1);
      if t == evict[0] && u in g {
        FiredOnce(left, scripts, n + 1);
      } else {
        FiredInOrder(left, scripts, n + 1, t, u);
        DroppedAllInOrder(rest, Script(scripts, n), t, u);
        DroppedInOrder(evict[1..], evict[0], t, u);
      }
    }
  }

  /** There is t, and u after it. */
  ghost predicate Before(s: seq<Timer>, t: Timer, u: Timer)
  {
    s != [] && ((s[0] == t && u in s[1..]) || Before(s[1..], t, u))
  }

  lemma {:induction false} DroppedInOrder(evict: seq<Timer>, d: Timer, t: Timer, u: Timer)
    requires Before(Dropped(evict, d), t, u)
    ensures Before(evict, t, u)
    decreases |evict|
  {
    if evict[0] == d || !(evict[0] == t && u in Dropped(evict[1..], d)) {
      DroppedInOrder(evict[1..], d, t, u);
    }
  }

  lemma {:induction false} DroppedAllInOrder(evict: seq<Timer>, ops: seq<Op>, t: Timer, u: Timer)
    requires Before(DroppedAll(evict, ops), t, u)
    ensures Before(evict, t, u)
    decreases |ops|
  {
    if ops != [] {
      DroppedAllInOrder(Dropped(evict, ops[0].timer), ops[1..], t, u);
      DroppedInOrder(evict, ops[0].timer, t, u);
    }
  }

  /** No timer is fired twice, and only timers of the eviction list are fired. */
  lemma {:induction false} FiredOnce(evict: seq<Timer>, scripts: seq<seq<Op>>, n: nat)
    ensures forall t :: t in Fired(evict, scripts, n) ==> t in evict
    ensures forall i, j :: 0 <= i < j < |Fired(evict, scripts, n)| ==> Fired(evict, scripts, n)[i] != Fired(evict, scripts, n)[j]
    decreases |evict|
  {
    if evict != [] {
      var rest := DroppedAll(Dropped(evict[1..], evict[0]), Script(scripts, n));
      FiredOnce(rest, scripts, n + 1);
      assert evict[0] !in rest;
    }
  }

  /** The n-th callback deletes or reschedules t. */
  ghost predicate Touches(scripts: seq<seq<Op>>, n: nat, t: Timer)
  {
    exists i :: 0 <= i < |Script(scripts, n)| && Script(scripts, n)[i].timer == t
  }

  lemma {:induction false} DroppedUnlessTouched(evict: seq<Timer>, ops: seq<Op>, t: Timer)
    ensures t in DroppedAll(evict, ops) <==> t in evict && forall i :: 0 <= i < |ops| ==> ops[i].timer != t
    decreases |ops|
  {
    if ops != [] {
      DroppedUnlessTouched(Dropped(evict, ops[0].timer), ops[1..], t);
      assert forall i :: 0 < i < |ops| ==> ops[i] == ops[1..][i - 1];
    }
  }

  /** An expired timer fires unless the callback of a timer fired before it touched it. */
  lemma {:induction false} FiresUnlessTouched(evict: seq<Timer>, scripts: seq<seq<Op>>, n: nat, t: Timer)
    requires t in evict
    ensures var f := Fired(evict, scripts, n);
      && (t !in f ==> exists m :: n <= m < n + |f| && Touches(scripts, m, t))
      && (forall k, m :: 0 <= k < |f| && f[k] == t && n <= m < n + k ==> !Touches(scripts, m, t))
    decreases |evict|
  {
    var rest := Dropped(evict[1..], evict[0]);
    var left := DroppedAll(rest, Script(scripts, n));
    var f, g := Fired(evict, scripts, n), Fired(left, scripts, n + 1);
    assert f == [evict[0]] + g;
    if t == evict[0] {
      FiredOnce(evict, scripts, n);
      assert forall k :: 0 < k < |f| ==> f[k] != f[0];
    } else {
      DroppedUnlessTouched(rest, Script(scripts, n), t);
      if t in left {
        FiresUnlessTouched(left, scripts, n + 1, t);
        forall k, m | 0 <= k < |f| && f[k] == t && n <= m < n + k
          ensures !Touches(scripts, m, t)
        {
          assert g[k - 1] == t;
        }
      } else {
        assert Touches(scripts, n, t);
        FiredOnce(left, scripts, n + 1);
      }
    }
  }

  /** The n-th callback leaves the timers of `evict` alone. */
  ghost predicate Harmless(evict: seq<Timer>, scripts: seq<seq<Op>>)
  {
    forall i, j :: 0 <= i < |scripts| && 0 <= j < |scripts[i]| ==> scripts[i][j].timer !in evict
  }

  lemma {:induction false} DropsNothing(evict: seq<Timer>, t: Timer)
    requires t !in evict
    ensures Dropped(evict, t) == evict
    decreases |evict|
  {
    if evict != [] {
      DropsNothing(evict[1..], t);
    }
  }

  lemma {:induction false} DropsNothingAll(evict: seq<Timer>, ops: seq<Op>)
    requires forall j :: 0 <= j < |ops| ==> ops[j].timer !in evict
    ensures DroppedAll(evict, ops) == evict
    decreases |ops|
  {
    if ops != [] {
      DropsNothing(evict, ops[0].timer);
      DropsNothingAll(evict, ops[1..]);
    }
  }

  /** Callbacks that leave the expired timers alone let every one of them fire. */
  lemma {:induction false} HarmlessFiresAll(evict: seq<Timer>, scripts: seq<seq<Op>>, n: nat)
    requires Harmless(evict, scripts)
    requires forall i, j :: 0 <= i < j < |evict| ==> evict[i] != evict[j]
    ensures Fired(evict, scripts, n) == evict
    decreases |evict|
  {
    if evict != [] {
      var rest := evict[1..];
      HarmlessToRest(evict, scripts, rest, n);
      HarmlessFiresAll(rest, scripts, n + 1);
    }
  }

  lemma HarmlessToRest(evict: seq<Timer>, scripts: seq<seq<Op>>, rest: seq<Timer>, n: nat)
    requires evict != [] && rest == evict[1..] && Harmless(evict, scripts)
    requires forall i, j :: 0 <= i < j < |evict| ==> evict[i] != evict[j]
    ensures Harmless(rest, scripts) && DroppedAll(Dropped(rest, evict[0]), Script(scripts, n)) == rest
  {
    DropsNothing(rest, evict[0]);
    DropsNothingAll(rest, Script(scripts, n));
  }

  /** In a sorted list the entries at the head that have expired are all that have. */
  lemma EvictionIsExpired(l: seq<Entry>, now: int, i: nat)
    requires Sorted(l) && Distinct(l) && i < |l|
    ensures l[i].timer in Eviction(l, now) <==> l[i].timeout <= now
  {
    var k := ExpiredCount(l, now);
    if i < k {
      assert Eviction(l, now)[k - 1 - i] == l[i].timer;
    } else {
      assert l[k].timeout <= l[i].timeout;
      forall j | 0 <= j < k
        ensures Eviction(l, now)[j] != l[i].timer
      {
        assert Eviction(l, now)[j] == l[..k][k - 1 - j].timer;
      }
    }
  }

  lemma EvictionContents(l: seq<Entry>, now: int, due: seq<Timer>)
    requires Sorted(l) && Distinct(l) && due == Eviction(l, now)
    ensures forall i, j :: 0 <= i < j < |due| ==> due[i] != due[j]
    ensures forall i :: 0 <= i < |l| ==> (l[i].timer in due <==> l[i].timeout <= now)
    ensures |due| <= |l| && forall i :: 0 <= i < |due| ==> due[i] == l[|due| - 1 - i].timer
  {
    forall i | 0 <= i < |l|
      ensures l[i].timer in due <==> l[i].timeout <= now
    {
      EvictionIsExpired(l, now, i);
    }
  }

  /** An update fires no timer twice, and only timers that had expired; when no callback
      touches an expired timer it fires all of them, in the reverse of the queue's order. */
  lemma UpdateFires(l: seq<Entry>, now: int, scripts: seq<seq<Op>>, due: seq<Timer>, f: seq<Timer>)
    requires Sorted(l) && Distinct(l)
    requires due == Eviction(l, now) && f == Fired(due, scripts, 0)
    ensures forall i, j :: 0 <= i < j < |f| ==> f[i] != f[j]
    ensures forall i :: 0 <= i < |l| && l[i].timer in f ==> l[i].timeout <= now
    ensures Harmless(due, scripts) ==>
      && (forall i :: 0 <= i < |l| ==> (l[i].timer in f <==> l[i].timeout <= now))
      && |f| <= |l| && (forall i :: 0 <= i < |f| ==> f[i] == l[|f| - 1 - i].timer)
  {
    EvictionContents(l, now, due);
    FiredOnce(due, scripts, 0);
    if Harmless(due, scripts) {
      HarmlessFiresAll(due, scripts, 0);
    }
  }
}
