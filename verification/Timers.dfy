/** The timer queue: a red-black tree of timers ordered by timeout, and the eviction list of
    the update in progress. */
module Timers {
  import opened RbTree
  import opened TimerList
  import opened Options

  // the seconds of a timer that is never due, in the unit of the timeouts
  const NEVER: int := 0x7FFF_FFFF_FFFF_FFFF * 1_000_000

  /** The timers of a sequence with their timeouts. */
  ghost function Entries(s: seq<Timer>): (l: seq<Entry>)
    reads s`timeout
    ensures |l| == |s| && forall i :: 0 <= i < |s| ==> l[i] == Entry(s[i], s[i].timeout)
  {
    if s == [] then [] else
      var n := |s| - 1;
      Entries(s[..n]) + [Entry(s[n], s[n].timeout)]
  }

  lemma EntriesWithout(s: seq<Timer>, k: nat)
    requires k < |s|
    requires forall i, j :: 0 <= i < j < |s| ==> s[i] != s[j]
    ensures Entries(Tree.Without(s, k)) == Remove(Entries(s), s[k])
  {
    RemoveAt(Entries(s), s[k], k);
    EntriesOfWithout(s, Entries(s), k);
  }

  lemma EntriesOfWithout(s: seq<Timer>, l: seq<Entry>, k: nat)
    requires |l| == |s| && (forall i :: 0 <= i < |s| ==> l[i] == Entry(s[i], s[i].timeout)) && k < |s|
    ensures Entries(Tree.Without(s, k)) == l[..k] + l[k + 1..]
  {
    var w := Tree.Without(s, k);
    forall i | 0 <= i < |w|
      ensures (l[..k] + l[k + 1..])[i] == Entry(w[i], w[i].timeout)
    {
      assert w[i] == s[if i < k then i else i + 1];
    }
  }

  lemma EntriesWith(s: seq<Timer>, k: nat, t: Timer, w: seq<Timer>)
    requires k <= |s| && w == s[..k] + [t] + s[k..]
    requires forall i :: 0 <= i < k ==> s[i].timeout <= t.timeout
    requires k < |s| ==> t.timeout < s[k].timeout
    ensures Entries(w) == Insert(Entries(s), Entry(t, t.timeout))
  {
    InsertAt(Entries(s), Entry(t, t.timeout), k);
    EntriesOfWith(s, w, Entries(s), k, t);
  }

  lemma EntriesOfWith(s: seq<Timer>, w: seq<Timer>, l: seq<Entry>, k: nat, t: Timer)
    requires |l| == |s| && (forall i :: 0 <= i < |s| ==> l[i] == Entry(s[i], s[i].timeout)) && k <= |s|
    requires w == s[..k] + [t] + s[k..]
    ensures Entries(w) == l[..k] + [Entry(t, t.timeout)] + l[k..]
  {
    var m := l[..k] + [Entry(t, t.timeout)] + l[k..];
    forall i | 0 <= i < |w|
      ensures m[i] == Entry(w[i], w[i].timeout)
    {
      assert i < k ==> w[i] == s[i];
      assert i > k ==> w[i] == s[i - 1];
    }
  }

  class TimerQueue {
    const tree: Tree
    // the timers taken out of the queue next, first one first; empty outside an update
    var evict: seq<Timer>

    // every timer the callers own: those outside the queue are inactive
    ghost var known: set<Timer>

    ghost predicate Tracked()
      reads this, tree, tree.nodes`left, tree.nodes`right, tree.nodes`parent, tree.nodes`red
      reads tree.nodes`pos, tree.nodes`lo, tree.nodes`hi, tree.nodes`bh, known`active
    {
      && tree.Valid()
      && tree.nodes <= known
      && (forall t :: t in known ==> (t.active <==> t in tree.nodes))
      && (forall t :: t in evict ==> t in tree.nodes)
    }

    /** Tracked, except that `timer` is outside the tree whether active or not. */
    ghost predicate TrackedExcept(timer: Timer)
      reads this, tree, tree.nodes`left, tree.nodes`right, tree.nodes`parent, tree.nodes`red
      reads tree.nodes`pos, tree.nodes`lo, tree.nodes`hi, tree.nodes`bh, known`active
    {
      && tree.Valid()
      && tree.nodes <= known
      && timer !in tree.nodes
      && (forall t :: t in known && t != timer ==> (t.active <==> t in tree.nodes))
      && (forall t :: t in evict ==> t in tree.nodes)
    }

    /** The queue as a list. */
    ghost function View(): (l: seq<Entry>)
      reads this, tree, tree.order`timeout
    {
      Entries(tree.order)
    }

    ghost predicate Valid()
      reads this, tree, tree.nodes, tree.order, known
    {
      Tracked() && Sorted(View())
    }

    constructor ()
      ensures Valid() && View() == [] && known == {} && evict == []
      ensures fresh(tree)
    {
      tree := new Tree();
      evict, known := [], {};
    }

    /** Deletes a timer; nothing happens to an inactive one. */
    method Del(timer: Timer)
      requires Tracked() && timer in known
      modifies this`evict, tree, known`left, known`right, known`parent, known`red, known`active
      modifies known`pos, known`lo, known`hi, known`bh
      ensures Tracked()
      ensures View() == Remove(old(View()), timer)
      ensures evict == Dropped(old(evict), timer)
      ensures !timer.active
    {
      OrderIsDistinct();
      if timer.active {
        EntriesWithout(tree.order, timer.pos);
        Deactivate(timer);
      } else {
        RemoveAbsent(View(), timer);
        DropsNothing(evict, timer);
      }
    }

    method Deactivate(timer: Timer)
      requires Tracked() && timer in tree.nodes && timer.active
      modifies this`evict, tree, known`left, known`right, known`parent, known`red, known`active
      modifies known`pos, known`lo, known`hi, known`bh
      ensures Tracked()
      ensures tree.order == Tree.Without(old(tree.order), old(timer.pos))
      ensures evict == Dropped(old(evict), timer)
      ensures !timer.active
    {
      timer.active := false;
      tree.Erase(timer);
      evict := Dropped(evict, timer);
    }

    /** Adds a timer, taking it out first when it is active: it goes after every timer that
        is not later. Its timeout may have been changed while it was in the queue. */
    method Add(timer: Timer)
      requires Tracked() && timer in known && Sorted(Remove(View(), timer))
      modifies this`evict, tree, known`left, known`right, known`parent, known`red, known`active
      modifies known`pos, known`lo, known`hi, known`bh
      ensures Valid()
      ensures View() == Insert(Remove(old(View()), timer), Entry(timer, timer.timeout))
      ensures evict == Dropped(old(evict), timer)
      ensures timer.active
    {
      Del(timer);
      Activate(timer);
      AddTimer(timer);
      var k := InsertPlace(old(Remove(View(), timer)), Entry(timer, timer.timeout));
    }

    method Activate(timer: Timer)
      requires Tracked() && timer in known && !timer.active
      modifies timer`active
      ensures TrackedExcept(timer) && timer.active
    {
      timer.active := true;
    }

    method AddTimer(timer: Timer)
      requires TrackedExcept(timer) && timer.active && timer in known
      requires Sorted(View())
      modifies tree, known`left, known`right, known`parent, known`red
      modifies known`pos, known`lo, known`hi, known`bh
      ensures Tracked()
      ensures View() == Insert(old(View()), Entry(timer, timer.timeout))
    {
      var parent, toRight := FindSlot(timer);
      SlotIsPlace(timer, parent, toRight);
      Link(timer, parent, toRight);
    }

    /** The timer's place in the list is the place of a slot between the timers that are not
        later and the later ones. */
    lemma SlotIsPlace(timer: Timer, parent: Node?, toRight: bool)
      requires 0 <= tree.Slot(parent, toRight) <= |tree.order|
      requires forall i :: 0 <= i < tree.Slot(parent, toRight) ==> tree.order[i].timeout <= timer.timeout
      requires forall i :: tree.Slot(parent, toRight) <= i < |tree.order| ==> timer.timeout < tree.order[i].timeout
      ensures var k := tree.Slot(parent, toRight);
        Entries(tree.order[..k] + [timer] + tree.order[k..]) == Insert(View(), Entry(timer, timer.timeout))
    {
      var k := tree.Slot(parent, toRight);
      EntriesWith(tree.order, k, timer, tree.order[..k] + [timer] + tree.order[k..]);
    }

    method Link(timer: Timer, parent: Node?, toRight: bool)
      requires TrackedExcept(timer) && timer.active && timer in known
      requires parent == null ==> tree.root == null
      requires parent != null ==> parent in tree.nodes && (if toRight then parent.right else parent.left) == null
      modifies tree, known`left, known`right, known`parent, known`red
      modifies known`pos, known`lo, known`hi, known`bh
      ensures Tracked()
      ensures 0 <= old(tree.Slot(parent, toRight)) <= |old(tree.order)|
      ensures var k := old(tree.Slot(parent, toRight));
        tree.order == old(tree.order)[..k] + [timer] + old(tree.order)[k..]
    {
      tree.LinkNode(timer, parent, toRight);
      tree.InsertColor(timer);
    }

    /** The empty child slot after every timer that is not later than `timer`. */
    method FindSlot(timer: Timer) returns (parent: Node?, toRight: bool)
      requires tree.Valid() && Sorted(View())
      ensures parent == null ==> tree.root == null
      ensures parent != null ==> parent in tree.nodes && (if toRight then parent.right else parent.left) == null
      ensures var k := tree.Slot(parent, toRight);
        && 0 <= k <= |tree.order|
        && (forall i :: 0 <= i < k ==> tree.order[i].timeout <= timer.timeout)
        && (forall i :: k <= i < |tree.order| ==> timer.timeout < tree.order[i].timeout)
    {
      var n := tree.root;
      parent, toRight := null, false;
      ghost var lo, hi := 0, |tree.order|;
      ghost var l := View();
      assert n != null ==> tree.Linked(n);
      while n != null
        invariant n == null ==> lo == hi == tree.Slot(parent, toRight)
        invariant n != null ==> n in tree.nodes && n.lo == lo && n.hi == hi
        invariant parent == null ==> n == tree.root
        invariant parent != null ==>
          parent in tree.nodes && (if toRight then parent.right else parent.left) == n
        invariant 0 <= lo <= hi <= |tree.order|
        invariant forall i :: 0 <= i < lo ==> l[i].timeout <= timer.timeout
        invariant forall i :: hi <= i < |tree.order| ==> timer.timeout < l[i].timeout
        decreases hi - lo
      {
        assert tree.Linked(n) && l[n.pos].timeout == n.timeout;
        parent := n;
        if timer.timeout < n.timeout {
          n, toRight, hi := n.left, false, n.pos;
        } else {
          n, toRight, lo := n.right, true, n.pos + 1;
        }
      }
    }

    /** Sets the time at which a timer expires, which may move it within the queue. */
    method Schedule(timer: Timer, timeout: int)
      requires Valid() && timer in known
      modifies this`evict, tree, known`left, known`right, known`parent, known`red, known`active
      modifies known`pos, known`lo, known`hi, known`bh, timer`timeout
      ensures Valid()
      ensures View() == Apply(old(View()), Op.Schedule(timer, timeout))
      ensures evict == Dropped(old(evict), timer)
      ensures timer.active && timer.timeout == timeout
      ensures forall x :: x in View() && x.timer == timer <==> x == Entry(timer, timeout)
      ensures Remove(View(), timer) == Remove(old(View()), timer)
    {
      RemoveKeepsSorted(View(), timer);
      OrderIsDistinct();
      ghost var l := View();
      Scheduled(l, timer, timeout);
      timer.timeout := timeout;
      RemoveRetimed(l, View(), timer);
      Add(timer);
    }

    /** A new timer, not in the queue. */
    method NewTimer() returns (timer: Timer)
      requires Valid()
      modifies this`known
      ensures Valid() && fresh(timer) && known == old(known) + {timer}
      ensures View() == old(View()) && evict == old(evict)
    {
      timer := new Node();
      known := known + {timer};
    }

    ghost predicate Knows(ops: seq<Op>)
      reads this`known
    {
      forall i :: 0 <= i < |ops| ==> ops[i].timer in known
    }

    /** What a callback does to the timers. */
    method Perform(ops: seq<Op>)
      requires Valid() && Knows(ops)
      modifies this`evict, tree, known`left, known`right, known`parent, known`red, known`active
      modifies known`pos, known`lo, known`hi, known`bh, known`timeout
      ensures Valid()
      ensures View() == ApplyAll(old(View()), ops)
      ensures evict == DroppedAll(old(evict), ops)
    {
      var i := 0;
      while i < |ops|
        invariant 0 <= i <= |ops| && Valid()
        invariant ApplyAll(View(), ops[i..]) == ApplyAll(old(View()), ops)
        invariant DroppedAll(evict, ops[i..]) == DroppedAll(old(evict), ops)
      {
        assert ops[i..][0] == ops[i] && ops[i..][1..] == ops[i + 1..];
        PerformOne(ops[i]);
        i := i + 1;
      }
    }

    method PerformOne(op: Op)
      requires Valid() && op.timer in known
      modifies this`evict, tree, known`left, known`right, known`parent, known`red, known`active
      modifies known`pos, known`lo, known`hi, known`bh, known`timeout
      ensures Valid()
      ensures View() == Apply(old(View()), op)
      ensures evict == Dropped(old(evict), op.timer)
    {
      match op {
        case Delete(t) =>
          RemoveKeepsSorted(View(), t);
          Del(t);
        case Schedule(t, at) =>
          Schedule(t, at);
      }
    }

    /** Fires the timers that are not after `now`; the n-th callback performs the n-th
        script. Returns whether a timer was fired. */
    method Update(now: int, scripts: seq<seq<Op>>) returns (work: bool, ghost fired: seq<Timer>)
      requires Valid() && (forall i :: 0 <= i < |scripts| ==> Knows(scripts[i]))
      modifies this`evict, tree, known`left, known`right, known`parent, known`red, known`active
      modifies known`pos, known`lo, known`hi, known`bh, known`timeout
      ensures Valid() && evict == []
      ensures fired == Fired(Eviction(old(View()), now), scripts, 0)
      ensures View() == AfterFiring(old(View()), Eviction(old(View()), now), scripts, 0)
      ensures work == (fired != [])
    {
      CollectExpired(now);
      work, fired := FireAll(scripts);
    }

    method FireAll(scripts: seq<seq<Op>>) returns (work: bool, ghost fired: seq<Timer>)
      requires Valid() && (forall i :: 0 <= i < |scripts| ==> Knows(scripts[i]))
      modifies this`evict, tree, known`left, known`right, known`parent, known`red, known`active
      modifies known`pos, known`lo, known`hi, known`bh, known`timeout
      ensures Valid() && evict == []
      ensures fired == Fired(old(evict), scripts, 0)
      ensures View() == AfterFiring(old(View()), old(evict), scripts, 0)
      ensures work == (fired != [])
    {
      work, fired := false, [];
      ghost var total, last := Fired(evict, scripts, 0), AfterFiring(View(), evict, scripts, 0);
      var n := 0;
      while evict != []
        invariant Valid() && n == |fired| && work == (fired != [])
        invariant fired + Fired(evict, scripts, n) == total
        invariant AfterFiring(View(), evict, scripts, n) == last
        decreases |evict|
      {
        ghost var f := Fired(evict, scripts, n);
        var timer := FireFirst(scripts, n);
        Regrouped(fired, timer, Fired(evict, scripts, n + 1), f);
        fired := fired + [timer];
        work, n := true, n + 1;
      }
    }

    static lemma Regrouped(a: seq<Timer>, t: Timer, b: seq<Timer>, f: seq<Timer>)
      requires f == [t] + b
      ensures a + [t] + b == a + f
    {
    }

    method CollectExpired(now: int)
      requires Valid()
      modifies this`evict
      ensures Valid() && evict == Eviction(View(), now)
    {
      ExpiredAreQueued(View(), now);
      evict := Expired(now);
    }

    /** The expired timers, each in front of the earlier ones. */
    method Expired(now: int) returns (due: seq<Timer>)
      requires tree.Valid()
      ensures due == Eviction(View(), now)
    {
      due := [];
      var node := tree.First();
      ghost var i, l, s := 0, View(), tree.order;
      while node != null && node.timeout <= now
        invariant 0 <= i <= |s| && node == (if i < |s| then s[i] else null)
        invariant due == Reversed(l[..i])
        invariant forall j :: 0 <= j < i ==> l[j].timeout <= now
        decreases |s| - i
      {
        ReversedStep(l, i);
        due := [node] + due;
        node := NextTimer(node, i);
        i := i + 1;
      }
      CountIs(l, now, i);
    }

    lemma ExpiredAreQueued(l: seq<Entry>, now: int)
      requires tree.Valid() && l == View()
      ensures forall t :: t in Eviction(l, now) ==> t in tree.nodes
    {
    }

    /** The timer after the one at place i, none after the last. */
    method NextTimer(node: Timer, ghost i: nat) returns (next: Node?)
      requires tree.Valid() && i < |tree.order| && node == tree.order[i]
      ensures next == if i + 1 == |tree.order| then null else tree.order[i + 1]
    {
      next := tree.NextOf(node);
    }

    /** Takes the first timer of the eviction list out of the queue and calls it back. */
    method FireFirst(scripts: seq<seq<Op>>, n: nat) returns (timer: Timer)
      requires Valid() && evict != [] && (forall i :: 0 <= i < |scripts| ==> Knows(scripts[i]))
      modifies this`evict, tree, known`left, known`right, known`parent, known`red, known`active
      modifies known`pos, known`lo, known`hi, known`bh, known`timeout
      ensures Valid() && |evict| < |old(evict)|
      ensures Fired(old(evict), scripts, n) == [timer] + Fired(evict, scripts, n + 1)
      ensures AfterFiring(old(View()), old(evict), scripts, n) == AfterFiring(View(), evict, scripts, n + 1)
    {
      FiringStep(View(), evict, scripts, n);
      timer := evict[0];
      RemoveKeepsSorted(View(), timer);
      Del(timer);
      DroppedFirst(old(evict));
      Perform(Script(scripts, n));
    }

    /** The time to wait until the earliest timer, at least zero; none when there is no timer
        or the earliest one is never due. */
    method Prepare(now: int) returns (nearest: Option<int>)
      requires Valid()
      ensures nearest.None? <==> View() == [] || View()[0].timeout >= NEVER
      ensures nearest.Some? ==>
        && nearest.value >= 0
        && (forall e :: e in View() ==> now + nearest.value <= e.timeout || e.timeout <= now)
        && (nearest.value == 0 <==> exists e :: e in View() && e.timeout <= now)
        && (nearest.value > 0 ==> exists e :: e in View() && e.timeout == now + nearest.value)
    {
      OrderIsDistinct();
      var node := tree.First();
      ghost var l := View();
      if node == null || node.timeout >= NEVER {
        return None;
      }
      assert l[0] in l;
      nearest := Some(if node.timeout > now then node.timeout - now else 0);
    }

    /** The number of timers in the queue. */
    method Check() returns (n: nat)
      requires Valid()
      ensures n == |View()| == |tree.nodes|
    {
      n := 0;
      var node := tree.First();
      while node != null
        invariant n <= |tree.order| && node == (if n < |tree.order| then tree.order[n] else null)
        decreases |tree.order| - n
      {
        node := NextTimer(node, n);
        n := n + 1;
      }
      OrderIsDistinct();
      Counted(tree.order, tree.nodes);
    }

    static lemma {:induction false} Counted(s: seq<Timer>, all: set<Timer>)
      requires forall i, j :: 0 <= i < j < |s| ==> s[i] != s[j]
      requires forall t :: t in all <==> t in s
      ensures |all| == |s|
      decreases |s|
    {
      if s != [] {
        Counted(s[1..], all - {s[0]});
      } else {
        assert all == {};
      }
    }

    lemma OrderIsDistinct()
      requires tree.Valid()
      ensures forall i, j :: 0 <= i < j < |tree.order| ==> tree.order[i] != tree.order[j]
      ensures forall t :: t in tree.nodes ==> 0 <= t.pos < |tree.order| && tree.order[t.pos] == t
      ensures forall i :: 0 <= i < |tree.order| ==> tree.order[i] in tree.nodes
    {
      forall t | t in tree.nodes
        ensures 0 <= t.pos < |tree.order| && tree.order[t.pos] == t
      {
        assert tree.Linked(t);
      }
      forall i, j | 0 <= i < j < |tree.order|
        ensures tree.order[i] != tree.order[j]
      {
        assert tree.order[i].pos == i && tree.order[j].pos == j;
      }
    }
  }
}
