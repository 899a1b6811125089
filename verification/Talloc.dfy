/** The ownership hierarchy of the allocator: chunks own the chunks in their child lists, and
    only the first child of a list points to its parent. */
module Talloc {

  const MAX_TALLOC_SIZE: nat := 0x1000_0000

  /** What the destructor of a chunk answers, if it has one. */
  datatype Destructor = NoDestructor | Accepts | Refuses

  class Chunk {
    var next: Chunk?
    var prev: Chunk?
    var parent: Chunk?
    var child: Chunk?
    var destructor: Destructor
    var size: nat
    // the chunk is being freed
    var loop: bool

    // the chunk that owns this one, the chunks it owns, and itself with its owners
    ghost var owner: Chunk?
    ghost var kids: seq<Chunk>
    ghost var up: set<Chunk>

    constructor (size: nat)
      ensures next == prev == parent == child == null && owner == null && kids == [] && up == {this}
      ensures destructor == NoDestructor && !loop && this.size == size
    {
      next, prev, parent, child := null, null, null, null;
      destructor, loop, this.size := NoDestructor, false, size;
      owner, kids, up := null, [], {this};
    }
  }

  /** A state that is looked back at: the chunks, their owners, and what is to be freed. */
  datatype Past = Past(chunks: set<Chunk>, owner: map<Chunk, Chunk?>, up: map<Chunk, set<Chunk>>, freed: set<Chunk>)

  /** A child is freed while the children of a chunk of owner o are. */
  datatype Round = Round(tc: Chunk, child: Chunk, o: Chunk?, heir: Chunk?, past: Past)

  /** The i-th chunk of a list, none outside it. */
  ghost function At(l: seq<Chunk>, i: int): Chunk?
  {
    if 0 <= i < |l| then l[i] else null
  }

  /** A list without a chunk. */
  ghost function Minus(l: seq<Chunk>, c: Chunk): seq<Chunk>
  {
    if l == [] then [] else if l[0] == c then l[1..] else [l[0]] + Minus(l[1..], c)
  }

  lemma {:induction false} MinusAt(l: seq<Chunk>, k: nat)
    requires k < |l| && forall i :: 0 <= i < k ==> l[i] != l[k]
    ensures Minus(l, l[k]) == l[..k] + l[k + 1..]
    decreases |l|
  {
    if k > 0 {
      MinusAt(l[1..], k - 1);
      assert l[..k] == [l[0]] + l[1..][..k - 1];
    }
  }

  /** The first list ends the second one. */
  ghost predicate Ends(a: seq<Chunk>, b: seq<Chunk>)
  {
    |a| <= |b| && b[|b| - |a|..] == a
  }

  class Heap {
    var nullContext: Chunk?
    ghost var chunks: set<Chunk>

    // ---------------------------------------------------------------- structure

    /** The children of c are linked in order, and the first one alone points to c. */
    ghost predicate ListOk(c: Chunk)
      reads this`chunks, chunks`child, chunks`kids, chunks`owner, chunks`prev, chunks`next, chunks`parent
    {
      && c in chunks
      && c.child == At(c.kids, 0)
      && (forall i, j :: 0 <= i < j < |c.kids| ==> c.kids[i] != c.kids[j])
      && (forall i :: 0 <= i < |c.kids| ==> c.kids[i] in chunks && c.kids[i].owner == c)
      && (forall i {:trigger LinkAt(c, c.kids, i)} :: 0 <= i < |c.kids| ==> LinkAt(c, c.kids, i))
    }

    /** The links of the i-th chunk of the list of o. */
    ghost predicate LinkAt(o: Chunk, l: seq<Chunk>, i: int)
      requires 0 <= i < |l|
      reads l`prev, l`next, l`parent
    {
      l[i].prev == At(l, i - 1) && l[i].next == At(l, i + 1) && l[i].parent == if i == 0 then o else null
    }

    /** A chunk is in the list of its owner; without one it is in no list. The links of a
        chunk that is being freed are not looked at. */
    ghost predicate OwnerOk(c: Chunk)
      reads this`chunks, chunks`kids, chunks`owner, chunks`prev, chunks`next, chunks`parent, chunks`loop
    {
      && c in chunks
      && (c.owner != null ==> c.owner in chunks && c in c.owner.kids && !c.loop)
      && (c.owner == null && !c.loop ==> c.prev == c.next == c.parent == null)
    }

    /** Ownership has no cycles. */
    ghost predicate UpOk(c: Chunk)
      reads this`chunks, chunks`owner, chunks`up
    {
      && c in chunks
      && (c.owner == null ==> c.up == {c})
      && (c.owner != null ==> c.owner in chunks && c !in c.owner.up && c.up == c.owner.up + {c})
    }

    ghost predicate Lists()
      reads this`chunks, chunks`child, chunks`kids, chunks`owner, chunks`prev, chunks`next, chunks`parent
    {
      forall c {:trigger ListOk(c)} :: c in chunks ==> ListOk(c)
    }

    ghost predicate Owners(s: set<Chunk>)
      reads this`chunks, chunks`kids, chunks`owner, chunks`prev, chunks`next, chunks`parent, chunks`loop
    {
      forall c {:trigger OwnerOk(c)} :: c in s ==> OwnerOk(c)
    }

    ghost predicate Ups()
      reads this`chunks, chunks`owner, chunks`up
    {
      forall c {:trigger UpOk(c)} :: c in chunks ==> UpOk(c)
    }

    /** The chunks are a forest of well-linked lists. */
    ghost predicate Sound()
      reads this`chunks, chunks
    {
      Lists() && Owners(chunks) && Ups()
    }

    /** And the null context, if there is one, is one of them. */
    ghost predicate Valid()
      reads this, chunks
    {
      Sound() && (nullContext != null ==> nullContext in chunks)
    }

    constructor ()
      ensures Valid() && chunks == {} && nullContext == null
    {
      nullContext, chunks := null, {};
    }

    /** The owner of a chunk, found by walking to the head of its list. */
    method ParentChunk(c: Chunk?) returns (p: Chunk?)
      requires Lists() && Owners(chunks) && (c != null ==> c in chunks && !c.loop)
      ensures p == if c == null then null else c.owner
    {
      if c == null {
        return null;
      }
      var tc := c;
      assert OwnerOk(tc);
      ghost var o, i := c.owner, 0;
      if o != null {
        assert ListOk(o);
        i :| 0 <= i < |o.kids| && o.kids[i] == tc;
      }
      while tc.prev != null
        invariant o == null ==> tc == c && tc.prev == tc.parent == null
        invariant o != null ==> o in chunks && ListOk(o) && 0 <= i < |o.kids| && o.kids[i] == tc
        decreases i
      {
        assert o != null ==> LinkAt(o, o.kids, i);
        tc := tc.prev;
        i := i - 1;
      }
      assert o != null ==> LinkAt(o, o.kids, i);
      p := tc.parent;
    }

    /** The owners of an owner are owners, and no chunk owns itself. */
    lemma {:induction false} UpSmaller(x: Chunk, y: Chunk)
      requires Ups() && x in chunks && y in x.up
      ensures y in chunks && y.up <= x.up && (y != x ==> x !in y.up)
      decreases |x.up|
    {
      assert UpOk(x);
      if y != x {
        assert |x.owner.up| < |x.up|;
        UpSmaller(x.owner, y);
      }
    }

    // ---------------------------------------------------------------- linking

    /** The links that a chunk taken off a list keeps: they still lead to its old owner. */
    ghost predicate Stale(c: Chunk, o: Chunk?)
      reads this`chunks, chunks`owner, chunks`loop, c`parent, c`prev
    {
      || (o == null && c.parent == null && c.prev == null)
      || (o != null && c.parent == o && c.prev == null)
      || (o != null && c.parent == null && c.prev != null && c.prev in chunks && c.prev.owner == o && !c.prev.loop)
    }

    /** Takes a chunk off the list of its owner. */
    method Unlink(tc: Chunk)
      requires Lists() && Owners(chunks) && Ups() && tc in chunks && !tc.loop
      modifies chunks`next, chunks`prev, chunks`parent, chunks`child, chunks`owner, chunks`kids, chunks`up
      ensures Lists() && Owners(chunks - {tc}) && Ups() && tc.owner == null && Stale(tc, old(tc.owner))
      ensures forall x :: x in chunks && x != tc ==> x.owner == old(x.owner)
      ensures forall x :: x in chunks && x != old(tc.owner) ==> x.kids == old(x.kids)
      ensures old(tc.owner) != null ==> old(tc.owner).kids == Minus(old(tc.owner.kids), tc)
      ensures forall x :: x in chunks ==>
        x.up == if tc in old(x.up) then old(x.up) - old(tc.up) + {tc} else old(x.up)
      ensures forall x :: x in chunks && x.loop ==> x.prev == old(x.prev) && x.parent == old(x.parent)
    {
      forall x | x in tc.up
        ensures x in chunks && x.up <= tc.up && (x != tc ==> tc !in x.up)
      {
        UpSmaller(tc, x);
      }
      Relink(tc);
      ghost var above := tc.up;
      forall x | x in chunks && tc in x.up { x.up := x.up - above + {tc}; }
      forall x {:trigger UpOk(x)} | x in chunks
        ensures UpOk(x)
      {
        assert old(UpOk(x));
      }
    }

    method Relink(tc: Chunk)
      requires Lists() && Owners(chunks) && tc in chunks && !tc.loop
      modifies chunks`next, chunks`prev, chunks`parent, chunks`child, chunks`owner, chunks`kids
      ensures Lists() && Owners(chunks - {tc}) && tc.owner == null && Stale(tc, old(tc.owner))
      ensures forall x :: x in chunks && x != tc ==> x.owner == old(x.owner)
      ensures forall x :: x in chunks && x != old(tc.owner) ==> x.kids == old(x.kids)
      ensures old(tc.owner) != null ==> old(tc.owner).kids == Minus(old(tc.owner.kids), tc)
      ensures forall x :: x in chunks && x.loop ==> x.prev == old(x.prev) && x.parent == old(x.parent)
    {
      assert OwnerOk(tc);
      ghost var o, k, l := tc.owner, 0, [];
      if o != null {
        assert ListOk(o);
        l := o.kids;
        k :| 0 <= k < |l| && l[k] == tc;
        if k > 0 { assert OwnerOk(l[k - 1]); }
      }
      NotLooping(l);
      CutOut(tc, o, l, k);
      forall c {:trigger ListOk(c)} | c in chunks && c != o
        ensures ListOk(c)
      {
        ListKept(c, l, tc);
      }
      OwnersKept(tc, o);
    }

    method CutOut(tc: Chunk, ghost o: Chunk?, ghost l: seq<Chunk>, ghost k: nat)
      requires tc in chunks && tc.owner == o
      requires o == null ==> tc.parent == tc.prev == tc.next == null && l == []
      requires o != null ==> ListOk(o) && l == o.kids && k < |l| && l[k] == tc
      modifies chunks`next, chunks`prev, chunks`parent, chunks`child, chunks`owner, chunks`kids
      ensures tc.owner == null && (o == null ==> tc.parent == null && tc.prev == null)
      ensures o != null ==> ListOk(o) && o.kids == Minus(l, tc) && forall x :: x in l && x != tc ==> x in o.kids
      ensures o != null ==> if k == 0 then tc.parent == o && tc.prev == null else tc.parent == null && tc.prev == l[k - 1]
      ensures forall x :: x in chunks && x !in l ==> x.prev == old(x.prev) && x.next == old(x.next) && x.parent == old(x.parent)
      ensures forall x :: x in chunks && x != o ==> x.child == old(x.child) && x.kids == old(x.kids)
      ensures forall x :: x in chunks && x != tc ==> x.owner == old(x.owner)
    {
      Cut(tc, o, l, k);
      if o != null {
        MinusAt(l, k);
        o.kids, tc.owner := l[..k] + l[k + 1..], null;
        Closed(o, l, k);
      }
    }

    /** Taking a chunk off the list of o leaves the other chunks in their lists. */
    twostate lemma OwnersKept(tc: Chunk, new o: Chunk?)
      requires tc in old(chunks) && chunks == old(chunks) && old(Owners(chunks))
      requires forall x :: x in chunks && x != tc ==> x.owner == old(x.owner)
      requires forall x :: x in chunks && x != o ==> x.kids == old(x.kids)
      requires o != null ==> o in chunks && forall x :: x in old(o.kids) && x != tc ==> x in o.kids
      requires forall x :: x in chunks ==> x.loop == old(x.loop)
      requires forall x :: x in chunks && x != tc && x.owner == null && !x.loop ==>
        x.prev == old(x.prev) && x.next == old(x.next) && x.parent == old(x.parent)
      ensures Owners(chunks - {tc})
    {
      forall c {:trigger OwnerOk(c)} | c in chunks && c != tc
        ensures OwnerOk(c)
      {
        assert old(OwnerOk(c));
      }
    }

    /** Other lists are not changed by changing the links of one list. */
    twostate lemma ListKept(c: Chunk, new l: seq<Chunk>, new tc: Chunk)
      requires c in old(chunks) && chunks == old(chunks) && old(ListOk(c))
      requires c.kids == old(c.kids) && c.child == old(c.child)
      requires tc !in c.kids
      requires forall x :: x in l ==> x !in c.kids
      requires forall x :: x in chunks && x !in l ==> x.prev == old(x.prev) && x.next == old(x.next) && x.parent == old(x.parent)
      requires forall x :: x in chunks && x != tc ==> x.owner == old(x.owner)
      ensures ListOk(c)
    {
      forall i {:trigger LinkAt(c, c.kids, i)} | 0 <= i < |c.kids|
        ensures LinkAt(c, c.kids, i)
      {
        assert old(LinkAt(c, c.kids, i));
      }
    }

    /** Takes the k-th chunk of a list out of the links of its siblings. */
    method Cut(tc: Chunk, ghost o: Chunk?, ghost l: seq<Chunk>, ghost k: nat)
      requires tc in chunks
      requires o == null ==> tc.parent == tc.prev == tc.next == null && l == []
      requires o != null ==> ListOk(o) && l == o.kids && k < |l| && l[k] == tc
      modifies chunks`next, chunks`prev, chunks`parent, chunks`child
      ensures o == null ==> tc.parent == null && tc.prev == null
      ensures o != null ==> o.child == At(l, if k == 0 then 1 else 0)
      ensures o != null ==> if k == 0 then tc.parent == o && tc.prev == null else tc.parent == null && tc.prev == l[k - 1]
      ensures forall i {:trigger ClosedUp(o, l, k, i)} :: 0 <= i < |l| && i != k ==> ClosedUp(o, l, k, i)
      ensures forall x :: x in chunks && x !in l ==> x.prev == old(x.prev) && x.next == old(x.next) && x.parent == old(x.parent)
      ensures forall x :: x in chunks && x != o ==> x.child == old(x.child)
    {
      if o != null {
        assert LinkAt(o, l, k);
      }
      if tc.parent != null {
        tc.parent.child := tc.next;
        if tc.parent.child != null {
          tc.parent.child.prev := null;
        }
        tc.next, tc.prev := null, null;
        if tc.parent.child != null {
          tc.parent.child.parent := tc.parent;
        }
      } else {
        if tc.prev != null { tc.prev.next := tc.next; }
        if tc.next != null { tc.next.prev := tc.prev; }
      }
      forall i {:trigger ClosedUp(o, l, k, i)} | 0 <= i < |l| && i != k
        ensures ClosedUp(o, l, k, i)
      {
        assert old(LinkAt(o, l, i));
      }
    }

    /** The i-th chunk of a list is linked past the k-th. */
    ghost predicate ClosedUp(o: Chunk?, l: seq<Chunk>, k: nat, i: nat)
      requires i < |l|
      reads l`prev, l`next, l`parent
    {
      && l[i].prev == At(l, if i == k + 1 then k - 1 else i - 1)
      && l[i].next == At(l, if i == k - 1 then k + 1 else i + 1)
      && l[i].parent == if i == (if k == 0 then 1 else 0) then o else null
    }

    lemma Closed(o: Chunk, l: seq<Chunk>, k: nat)
      requires o in chunks && k < |l| && o.kids == l[..k] + l[k + 1..]
      requires forall i, j :: 0 <= i < j < |l| ==> l[i] != l[j]
      requires o.child == At(l, if k == 0 then 1 else 0)
      requires forall i :: 0 <= i < |l| && i != k ==> l[i] in chunks && l[i].owner == o
      requires forall i {:trigger ClosedUp(o, l, k, i)} :: 0 <= i < |l| && i != k ==> ClosedUp(o, l, k, i)
      ensures ListOk(o) && forall i :: 0 <= i < |l| && i != k ==> l[i] in o.kids
    {
      var m := o.kids;
      forall i {:trigger LinkAt(o, m, i)} | 0 <= i < |m|
        ensures LinkAt(o, m, i)
      {
        assert ClosedUp(o, l, k, if i < k then i else i + 1);
      }
      forall i | 0 <= i < |l| && i != k
        ensures l[i] in m
      {
        assert m[if i < k then i else i - 1] == l[i];
      }
    }

    /** Puts a chunk without an owner in front of the list of p. */
    method LinkFront(tc: Chunk, p: Chunk)
      requires Lists() && Owners(chunks - {tc}) && Ups()
      requires tc in chunks && tc.owner == null && !tc.loop && p in chunks && tc !in p.up
      modifies chunks`next, chunks`prev, chunks`parent, chunks`child, chunks`owner, chunks`kids, chunks`up
      ensures Lists() && Owners(chunks) && Ups() && tc.owner == p
      ensures forall x :: x in chunks && x != tc ==> x.owner == old(x.owner)
      ensures forall x :: x in chunks && x != p ==> x.kids == old(x.kids)
      ensures p.kids == [tc] + old(p.kids)
      ensures forall x :: x in chunks ==> x.up == if tc in old(x.up) then old(x.up) + old(p.up) else old(x.up)
      ensures forall x :: x in chunks && x.loop ==> x.prev == old(x.prev) && x.parent == old(x.parent)
    {
      forall x | x in p.up
        ensures x in chunks && x.up <= p.up && (x != p ==> p !in x.up)
      {
        UpSmaller(p, x);
      }
      assert UpOk(p) && p in p.up;
      LinkHead(tc, p);
      ghost var above := p.up;
      forall x | x in chunks && tc in x.up { x.up := x.up + above; }
      forall x {:trigger UpOk(x)} | x in chunks
        ensures UpOk(x)
      {
        assert old(UpOk(x));
      }
    }

    method LinkHead(tc: Chunk, p: Chunk)
      requires Lists() && Owners(chunks - {tc})
      requires tc in chunks && tc.owner == null && !tc.loop && p in chunks && p != tc
      modifies chunks`next, chunks`prev, chunks`parent, chunks`child, chunks`owner, chunks`kids
      ensures Lists() && Owners(chunks) && tc.owner == p
      ensures forall x :: x in chunks && x != tc ==> x.owner == old(x.owner)
      ensures forall x :: x in chunks && x != p ==> x.kids == old(x.kids)
      ensures p.kids == [tc] + old(p.kids)
      ensures forall x :: x in chunks && x.loop ==> x.prev == old(x.prev) && x.parent == old(x.parent)
    {
      assert ListOk(p);
      ghost var l := p.kids;
      NotLooping(l);
      Push(tc, p, l);
      p.kids, tc.owner := [tc] + l, p;
      Opened(tc, p, l);
      forall c {:trigger ListOk(c)} | c in chunks && c != p
        ensures ListOk(c)
      {
        assert old(ListOk(c));
        ListKept(c, [tc] + l, tc);
      }
      forall c {:trigger OwnerOk(c)} | c in chunks
        ensures OwnerOk(c)
      {
        assert c != tc ==> old(OwnerOk(c));
      }
    }

    /** No chunk of a list is being freed. */
    lemma NotLooping(l: seq<Chunk>)
      requires forall x {:trigger x in l} :: x in l ==> x in chunks && x.owner != null && OwnerOk(x)
      ensures forall x :: x in l ==> !x.loop
    {
      forall x | x in l
        ensures !x.loop
      {
        assert OwnerOk(x);
      }
    }

    method Push(tc: Chunk, p: Chunk, ghost l: seq<Chunk>)
      requires tc in chunks && p in chunks && ListOk(p) && l == p.kids && tc !in l
      modifies chunks`next, chunks`prev, chunks`parent, chunks`child
      ensures p.child == tc && tc.prev == null && tc.next == At(l, 0) && tc.parent == p
      ensures forall i {:trigger OpenedUp(tc, l, i)} :: 0 <= i < |l| ==> OpenedUp(tc, l, i)
      ensures forall x :: x in chunks && x !in l && x != tc ==>
        x.prev == old(x.prev) && x.next == old(x.next) && x.parent == old(x.parent)
      ensures forall x :: x in chunks && x != p ==> x.child == old(x.child)
    {
      tc.parent := p;
      if p.child != null {
        p.child.parent := null;
      }
      if p.child == null {
        p.child := tc;
        tc.next, tc.prev := null, null;
      } else {
        p.child.prev := tc;
        tc.next, tc.prev := p.child, null;
        p.child := tc;
      }
      forall i {:trigger OpenedUp(tc, l, i)} | 0 <= i < |l|
        ensures OpenedUp(tc, l, i)
      {
        assert old(LinkAt(p, l, i));
      }
    }

    /** The i-th chunk of a list is linked behind a new first one. */
    ghost predicate OpenedUp(tc: Chunk, l: seq<Chunk>, i: nat)
      requires i < |l|
      reads l`prev, l`next, l`parent
    {
      l[i].prev == (if i == 0 then tc else At(l, i - 1)) && l[i].next == At(l, i + 1) && l[i].parent == null
    }

    lemma Opened(tc: Chunk, p: Chunk, l: seq<Chunk>)
      requires p in chunks && p.kids == [tc] + l && tc in chunks && tc.owner == p && tc !in l
      requires forall i, j :: 0 <= i < j < |l| ==> l[i] != l[j]
      requires p.child == tc && tc.prev == null && tc.next == At(l, 0) && tc.parent == p
      requires forall i :: 0 <= i < |l| ==> l[i] in chunks && l[i].owner == p
      requires forall i {:trigger OpenedUp(tc, l, i)} :: 0 <= i < |l| ==> OpenedUp(tc, l, i)
      ensures ListOk(p)
    {
      var m := p.kids;
      forall i {:trigger LinkAt(p, m, i)} | 0 <= i < |m|
        ensures LinkAt(p, m, i)
      {
        if i > 0 {
          assert OpenedUp(tc, l, i - 1);
        }
      }
    }

    // ---------------------------------------------------------------- allocation

    /** Allocates a chunk as the first child of a context, or of the null context, if any. */
    method Alloc(context: Chunk?, size: nat, haveMemory: bool) returns (c: Chunk?)
      requires Valid() && (context != null ==> context in chunks)
      modifies this`chunks, chunks`next, chunks`prev, chunks`parent, chunks`child, chunks`owner, chunks`kids, chunks`up
      ensures Valid()
      ensures c == null <==> size >= MAX_TALLOC_SIZE || !haveMemory
      ensures c == null ==> chunks == old(chunks) && unchanged(chunks)
      ensures c != null ==> fresh(c) && chunks == old(chunks) + {c} && c.size == size && c.kids == []
      ensures c != null ==> !c.loop && c.destructor.NoDestructor?
      ensures c != null ==> c.owner == if context != null then context else nullContext
      ensures c != null ==> forall x :: x in old(chunks) ==>
        && x.owner == old(x.owner) && x.up == old(x.up)
        && x.kids == if x == c.owner then [c] + old(x.kids) else old(x.kids)
    {
      var parent := if context == null then nullContext else context;
      if size >= MAX_TALLOC_SIZE || !haveMemory {
        return null;
      }
      var tc := new Chunk(size);
      AddLoose(tc);
      if parent != null {
        LinkFront(tc, parent);
      }
      c := tc;
    }

    /** A new chunk is on no list. */
    ghost method AddLoose(tc: Chunk)
      requires Valid() && tc !in chunks && tc.owner == null && tc.kids == [] && tc.up == {tc} && !tc.loop
      requires tc.next == tc.prev == tc.parent == tc.child == null
      requires forall x :: x in chunks ==> tc !in x.up
      modifies this`chunks
      ensures Valid() && chunks == old(chunks) + {tc}
    {
      chunks := chunks + {tc};
      forall c {:trigger ListOk(c)} | c in chunks
        ensures ListOk(c)
      {
        assert c != tc ==> old(ListOk(c));
        forall i {:trigger LinkAt(c, c.kids, i)} | 0 <= i < |c.kids|
          ensures LinkAt(c, c.kids, i)
        {
          assert old(LinkAt(c, c.kids, i));
        }
      }
      forall c {:trigger OwnerOk(c)} | c in chunks
        ensures OwnerOk(c)
      {
        assert c != tc ==> old(OwnerOk(c));
      }
      forall c {:trigger UpOk(c)} | c in chunks
        ensures UpOk(c)
      {
        assert c != tc ==> old(UpOk(c));
      }
    }

    // ---------------------------------------------------------------- reparenting

    /** The context a chunk moves to: the null context, if there is one, stands for none. */
    function Context(ctx: Chunk?): Chunk?
      reads this`nullContext
    {
      if ctx == null then nullContext else ctx
    }

    ghost function UpOf(c: Chunk?): set<Chunk>
      reads (if c == null then {} else {c})`up
    {
      if c == null then {} else c.up
    }

    /** Moves a chunk with everything below it to another context that is not below it. */
    method Steal(ctx: Chunk?, tc: Chunk)
      requires Sound() && tc in chunks && !tc.loop
      requires Context(ctx) != null ==> Context(ctx) in chunks && (Context(ctx) != tc ==> tc !in Context(ctx).up)
      modifies chunks`next, chunks`prev, chunks`parent, chunks`child, chunks`owner, chunks`kids, chunks`up
      ensures Sound() && (old(Valid()) ==> Valid())
      ensures tc.owner == if Context(ctx) == tc then old(tc.owner) else Context(ctx)
      ensures forall x :: x in chunks && x != tc ==> x.owner == old(x.owner)
      ensures forall x :: x in chunks && x != old(tc.owner) && x != Context(ctx) ==> x.kids == old(x.kids)
      ensures old(tc.owner) != null && old(tc.owner) != Context(ctx) && Context(ctx) != tc ==>
        old(tc.owner).kids == Minus(old(tc.owner.kids), tc)
      ensures Context(ctx) != null && old(tc.owner) != Context(ctx) && Context(ctx) != tc ==>
        Context(ctx).kids == [tc] + old(Context(ctx).kids)
      ensures old(tc.owner) != null && old(tc.owner) == Context(ctx) ==>
        old(tc.owner).kids == [tc] + Minus(old(tc.owner.kids), tc)
      ensures Context(ctx) != tc ==> forall x :: x in chunks ==>
        x.up == if tc in old(x.up) then old(x.up) - old(tc.up) + {tc} + old(UpOf(Context(ctx))) else old(x.up)
      ensures forall x :: x in chunks && x.loop ==> x.prev == old(x.prev) && x.parent == old(x.parent)
      ensures old(tc.parent) != null && old(tc.parent) == Context(ctx) ==> unchanged(chunks)
    {
      var newTc := if ctx == null then nullContext else ctx;
      assert OwnerOk(tc) && UpOk(tc);
      if newTc == null {
        Unlink(tc);
        ClearLinks(tc);
        return;
      }
      if tc == newTc {
        return;
      }
      ParentIsOwner(tc);
      if tc.parent == newTc {
        StayedUp(tc, newTc);
        assert ListOk(newTc);
        return;
      }
      Unlink(tc);
      LinkFront(tc, newTc);
    }

    method ClearLinks(tc: Chunk)
      requires Lists() && Owners(chunks - {tc}) && Ups() && tc in chunks && tc.owner == null
      modifies tc`parent, tc`next, tc`prev
      ensures Lists() && Owners(chunks)  && Ups()
    {
      tc.parent, tc.next, tc.prev := null, null, null;
      forall c {:trigger ListOk(c)} | c in chunks
        ensures ListOk(c)
      {
        assert old(ListOk(c));
        forall i {:trigger LinkAt(c, c.kids, i)} | 0 <= i < |c.kids|
          ensures LinkAt(c, c.kids, i)
        {
          assert old(LinkAt(c, c.kids, i));
        }
      }
      forall c {:trigger OwnerOk(c)} | c in chunks
        ensures OwnerOk(c)
      {
        assert c != tc ==> old(OwnerOk(c));
      }
    }

    lemma ParentIsOwner(tc: Chunk)
      requires Lists() && Owners(chunks) && tc in chunks && !tc.loop
      ensures tc.parent != null ==> tc.parent == tc.owner && tc.owner in chunks && tc.owner.kids != [] && tc.owner.kids[0] == tc
    {
      assert OwnerOk(tc);
      if tc.owner != null {
        assert ListOk(tc.owner);
        var i :| 0 <= i < |tc.owner.kids| && tc.owner.kids[i] == tc;
        assert LinkAt(tc.owner, tc.owner.kids, i);
      }
    }

    lemma StayedUp(tc: Chunk, p: Chunk)
      requires Ups() && tc in chunks && tc.owner == p
      ensures forall x :: x in chunks && tc in x.up ==> x.up == x.up - tc.up + {tc} + p.up
    {
      assert UpOk(tc);
      forall x | x in chunks && tc in x.up
        ensures x.up == x.up - tc.up + {tc} + p.up
      {
        UpSmaller(x, tc);
      }
    }

    // ---------------------------------------------------------------- freeing

    /** A chunk and everything below it. */
    ghost function Sub(c: Chunk): set<Chunk>
      reads this`chunks, chunks`up
    {
      set x | x in chunks && c in x.up
    }

    /** What is freed with c: the chunks below it down to the first ones that refuse. */
    ghost function Freed(c: Chunk): set<Chunk>
      requires c in chunks && Ups()
      reads this`chunks, chunks`owner, chunks`up, chunks`destructor
    {
      set x | x in chunks && c in x.up && Willing(c, x)
    }

    /** Nothing below c refuses, down to x. */
    ghost predicate Willing(c: Chunk, x: Chunk)
      requires c in chunks && x in chunks && Ups()
      reads this`chunks, chunks`owner, chunks`up, chunks`destructor
    {
      forall y :: y in x.up && y !in c.up ==> y in chunks && !y.destructor.Refuses?
    }

    /** Everything below a chunk is freed with it if and only if nothing below it refuses. */
    lemma FreesAll(c: Chunk)
      requires Sound() && c in chunks
      ensures Freed(c) == Sub(c) <==> forall y :: y in Sub(c) && y != c ==> !y.destructor.Refuses?
    {
      assert UpOk(c);
      forall y | y in Sub(c)
        ensures y in y.up && (y != c ==> y !in c.up)
        ensures forall z :: z in y.up && z !in c.up ==> z in Sub(c)
      {
        assert UpOk(y);
        UpSmaller(y, c);
        forall z | z in y.up && z !in c.up
          ensures z in Sub(c)
        {
          UpSmaller(y, z);
          Comparable(y, z, c);
        }
      }
    }

    /** Of two owners of a chunk one owns the other. */
    lemma {:induction false} Comparable(x: Chunk, y: Chunk, z: Chunk)
      requires Ups() && x in chunks && y in x.up && z in x.up
      ensures y in chunks && z in chunks && (z in y.up || y in z.up)
      decreases |x.up|
    {
      assert UpOk(x);
      UpSmaller(x, y);
      UpSmaller(x, z);
      if x != y && x != z {
        Comparable(x.owner, y, z);
      }
    }

    /** A chunk that refuses keeps everything below it alive. */
    lemma SubtreeSurvives(c: Chunk, y: Chunk, x: Chunk)
      requires Sound() && c in chunks && y in Sub(c) && y != c && y.destructor.Refuses? && x in Sub(y)
      ensures x in Sub(c) && x !in Freed(c)
    {
      UpSmaller(x, y);
      UpSmaller(y, c);
    }

    /** And a chunk below c survives only in this way: it is freed with c if and only if neither
        it nor a chunk between the two refuses. */
    lemma SurvivesIff(c: Chunk, x: Chunk)
      requires Sound() && c in chunks && x in Sub(c)
      ensures x !in Freed(c) <==> exists y :: y in Sub(c) && y != c && y.destructor.Refuses? && x in Sub(y)
    {
      if x !in Freed(c) {
        var y :| y in x.up && y !in c.up && !(y in chunks && !y.destructor.Refuses?);
        UpSmaller(x, y);
        Comparable(x, y, c);
        assert UpOk(c);
        assert y in Sub(c) && x in Sub(y);
      }
      if y :| y in Sub(c) && y != c && y.destructor.Refuses? && x in Sub(y) {
        SubtreeSurvives(c, y, x);
      }
    }

    /** Who gets the chunks that refuse when a chunk of owner o is freed. */
    ghost function Heir(o: Chunk?): Chunk?
      reads this`nullContext
    {
      if o == null then nullContext else o
    }

    /** Nothing below a chunk refuses. */
    ghost predicate NoneRefuses(c: Chunk)
      reads this`chunks, chunks`up, chunks`destructor
    {
      forall y :: y in Sub(c) && y != c ==> !y.destructor.Refuses?
    }

    /** A chunk whose children are being freed: it is off the list of its owner o. */
    ghost predicate Detached(tc: Chunk, o: Chunk?)
      reads this`chunks, chunks
    {
      && tc in chunks && tc.loop && tc.owner == null && Stale(tc, o)
      && (o != null ==> o in chunks && tc !in o.up)
    }

    /** The chunk h gets what refuses: the heir, unless the heir is below the chunk itself and
        nothing refuses. */
    ghost predicate Inherits(tc: Chunk, o: Chunk?, h: Chunk?)
      reads this, chunks
    {
      && (h == Heir(o) || (h == null && NoneRefuses(tc)))
      && (h != null ==> h in chunks && tc !in h.up)
    }

    /** The freeing of a chunk comes to an end: what refuses does not come back to it. */
    ghost predicate Ending(tc: Chunk)
      requires tc in chunks
      reads this, chunks
    {
      || tc.loop || tc.destructor.Refuses? || NoneRefuses(tc)
      || (Heir(tc.owner) != null ==> Heir(tc.owner) in chunks && tc !in Heir(tc.owner).up)
    }

    /** The chunks that are left keep their flags, and those being freed their links. */
    twostate predicate FlagsKept()
      reads this, chunks
    {
      && chunks <= old(chunks)
      && forall x :: x in chunks ==>
          && x.loop == old(x.loop) && x.destructor == old(x.destructor)
          && (x.loop ==> x.prev == old(x.prev) && x.parent == old(x.parent))
    }

    /** Calls the destructor of a chunk and frees the chunk, unless it refuses, with everything
        below it down to the first chunks that refuse. These survive with everything below
        them and move to the owner of the chunk, or to the null context. */
    method Free(tc: Chunk) returns (rc: int)
      requires Sound() && tc in chunks && Ending(tc)
      modifies this`chunks, chunks`next, chunks`prev, chunks`parent, chunks`child, chunks`destructor, chunks`loop
      modifies chunks`owner, chunks`kids, chunks`up
      ensures Sound() && FlagsKept()
      ensures rc == if !old(tc.loop) && old(tc.destructor).Refuses? then -1 else 0
      ensures old(tc.loop) || rc == -1 ==> chunks == old(chunks) && unchanged(chunks)
      ensures !old(tc.loop) && rc == 0 ==>
        && chunks == old(chunks) - old(Freed(tc))
        && (forall x :: x in chunks ==>
             x.owner == if old(x.owner) in old(Freed(tc)) then old(Heir(tc.owner)) else old(x.owner))
        && (forall x :: x in chunks && old(x.owner) in old(Freed(tc)) ==>
             x.owner == if old(tc.owner) != null then old(tc.owner) else nullContext)
        && (forall x :: x in chunks && x != old(Heir(tc.owner)) ==> x.kids == old(x.kids))
        && (forall x :: x in chunks ==>
             x.up == if tc in old(x.up) then old(x.up) - old(Freed(tc)) - old(tc.up) + old(UpOf(Heir(tc.owner))) else old(x.up))
        && (old(Heir(tc.owner)) != null && old(Heir(tc.owner)) in chunks ==>
             Ends(if old(tc.owner) != null then Minus(old(tc.owner.kids), tc) else old(nullContext.kids), old(Heir(tc.owner)).kids))
      decreases |Sub(tc)|, 2, 0
    {
      if tc.loop {
        return 0;
      }
      if !tc.destructor.NoDestructor? {
        if tc.destructor.Refuses? {
          return -1;
        }
      }
      ghost var h := Heir(tc.owner);
      if h != null && !(h in chunks && tc !in h.up) {
        h := null;
      }
      if h != Heir(tc.owner) {
        NoneLeft(tc);
      }
      FreeWilling(tc, h);
      rc := 0;
    }

    /** When nothing below tc refuses, no chunk that is left is below tc, or owned by one. */
    lemma NoneLeft(tc: Chunk)
      requires Sound() && tc in chunks && NoneRefuses(tc)
      ensures Freed(tc) == Sub(tc)
      ensures forall x :: x in chunks && (tc in x.up || x.owner in Freed(tc)) ==> x in Freed(tc)
    {
      FreesAll(tc);
      forall x | x in chunks && x.owner in Sub(tc)
        ensures x in Sub(tc)
      {
        assert UpOk(x);
      }
    }

    /** Frees a chunk whose destructor accepts; h gets what refuses below it. */
    method FreeWilling(tc: Chunk, ghost h: Chunk?)
      requires Sound() && tc in chunks && !tc.loop && !tc.destructor.Refuses? && Inherits(tc, tc.owner, h)
      modifies this`chunks, chunks`next, chunks`prev, chunks`parent, chunks`child, chunks`destructor, chunks`loop
      modifies chunks`owner, chunks`kids, chunks`up
      ensures Sound() && FlagsKept() && chunks == old(chunks) - old(Freed(tc))
      ensures forall x :: x in chunks ==>
        && x.owner == (if old(x.owner) in old(Freed(tc)) then h else old(x.owner))
        && x.up == (if tc in old(x.up) then old(x.up) - old(Freed(tc)) - old(tc.up) + old(UpOf(h)) else old(x.up))
      ensures forall x :: x in chunks && x != h && x != old(tc.owner) ==> x.kids == old(x.kids)
      ensures h != null ==> Ends(if h == old(tc.owner) then Minus(old(h.kids), tc) else old(h.kids), h.kids)
      decreases |Sub(tc)|, 1, 1
    {
      ghost var o := tc.owner;
      assert UpOk(tc) && tc in Freed(tc);
      TakeOff(tc);
      assert UpOf(h) == old(UpOf(h)) && Inherits(tc, o, h);
      assert h != null ==> h.kids == if h == o then Minus(old(h.kids), tc) else old(h.kids);
      FreeChildren(tc, o, h);
      Release(tc);
    }

    /** Clears the destructor of a chunk and takes it off its owner's list. */
    method TakeOff(tc: Chunk)
      requires Sound() && tc in chunks && !tc.loop && !tc.destructor.Refuses?
      modifies chunks`next, chunks`prev, chunks`parent, chunks`child, chunks`destructor, chunks`loop
      modifies chunks`owner, chunks`kids, chunks`up
      ensures Sound() && Detached(tc, old(tc.owner)) && Sub(tc) == old(Sub(tc)) && Freed(tc) == old(Freed(tc))
      ensures forall x :: x in chunks && x != tc ==>
        && x.owner == old(x.owner) && x.loop == old(x.loop) && x.destructor == old(x.destructor)
        && (x.loop ==> x.prev == old(x.prev) && x.parent == old(x.parent))
      ensures forall x :: x in chunks ==> x.up == if tc in old(x.up) then old(x.up) - old(tc.up) + {tc} else old(x.up)
      ensures forall x :: x in chunks && x != old(tc.owner) ==> x.kids == old(x.kids)
      ensures old(tc.owner) != null ==> old(tc.owner).kids == Minus(old(tc.owner.kids), tc)
    {
      assert UpOk(tc);
      tc.destructor := NoDestructor;
      Unlink(tc);
      label Off:
      tc.loop := true;
      forall c {:trigger OwnerOk(c)} | c in chunks
        ensures OwnerOk(c)
      {
        assert c != tc ==> old@Off(OwnerOk(c));
      }
    }

    method FreeChildren(tc: Chunk, ghost o: Chunk?, ghost h: Chunk?)
      requires Sound() && Detached(tc, o) && Inherits(tc, o, h)
      modifies this`chunks, chunks`next, chunks`prev, chunks`parent, chunks`child, chunks`destructor, chunks`loop
      modifies chunks`owner, chunks`kids, chunks`up
      ensures Sound() && Detached(tc, o) && FlagsKept() && tc.kids == []
      ensures chunks == old(chunks) - (old(Freed(tc)) - {tc})
      ensures forall x :: x in chunks && x != tc ==>
        && x.owner == (if old(x.owner) in old(Freed(tc)) then h else old(x.owner))
        && x.up == (if tc in old(x.up) then old(x.up) - old(Freed(tc)) + old(UpOf(h)) else old(x.up))
      ensures forall x :: x in chunks && x != tc && x != h ==> x.kids == old(x.kids)
      ensures h != null ==> Ends(old(h.kids), h.kids)
      decreases |Sub(tc)|, 1, 0
    {
      ghost var b := Past(chunks, map x | x in chunks :: x.owner, map x | x in chunks :: x.up, Freed(tc));
      ghost var below := Sub(tc);
      NothingFreed(tc, h, b);
      while tc.child != null
        invariant Sound() && Detached(tc, o) && Inherits(tc, o, h) && FlagsKept() && Partly(tc, h, b) && Sub(tc) <= below
        invariant forall x :: x in chunks && x != tc && x != h ==> x.kids == old(x.kids)
        invariant h != null ==> Ends(old(h.kids), h.kids)
        decreases |Sub(tc)|
      {
        NotLarger(Sub(tc), below);
        ghost var before := Sub(tc);
        FreeNext(tc, o, h, b);
        Smaller(Sub(tc), before);
      }
      AllFreed(tc, h, b);
      if h != null {
        assert UpOk(tc) && h != tc;
        assert UpPartly(h, tc, h, b, b.chunks - chunks);
      }
    }

    /** The state while the children of tc are freed: part of what is to be freed is gone, and
        the rest of it is still below tc; what survives is where it was, or on its way to the
        heir. */
    ghost predicate Partly(tc: Chunk, h: Chunk?, b: Past)
      requires Sound() && tc in chunks
      reads this`chunks, chunks, h
    {
      var gone := b.chunks - chunks;
      && chunks <= b.chunks && gone <= b.freed - {tc}
      && Freed(tc) == b.freed - gone
      && forall x :: x in chunks && x != tc ==>
          && x in b.owner && x in b.up
          && OwnerPartly(x, tc, h, b, gone) && UpPartly(x, tc, h, b, gone)
    }

    ghost predicate OwnerPartly(x: Chunk, tc: Chunk, h: Chunk?, b: Past, gone: set<Chunk>)
      requires x in b.owner
      reads x`owner
    {
      || x.owner == b.owner[x]
      || ((b.owner[x] == tc || b.owner[x] in gone) && (x.owner == tc || x.owner == h))
    }

    ghost predicate UpPartly(x: Chunk, tc: Chunk, h: Chunk?, b: Past, gone: set<Chunk>)
      requires x in b.up
      reads x`up, (if h == null then {} else {h})`up
    {
      x.up == if tc !in b.up[x] then b.up[x]
              else if tc in x.up then b.up[x] - gone
              else b.up[x] - gone - {tc} + UpOf(h)
    }

    lemma NothingFreed(tc: Chunk, h: Chunk?, b: Past)
      requires Sound() && tc in chunks
      requires b == Past(chunks, map x | x in chunks :: x.owner, map x | x in chunks :: x.up, Freed(tc))
      ensures Partly(tc, h, b)
    {
    }

    method FreeNext(tc: Chunk, ghost o: Chunk?, ghost h: Chunk?, ghost b: Past)
      requires Sound() && Detached(tc, o) && Inherits(tc, o, h) && Partly(tc, h, b) && tc.child != null
      modifies this`chunks, chunks`next, chunks`prev, chunks`parent, chunks`child, chunks`destructor, chunks`loop
      modifies chunks`owner, chunks`kids, chunks`up
      ensures Sound() && Detached(tc, o) && Inherits(tc, o, h) && FlagsKept() && Partly(tc, h, b)
      ensures forall x :: x in chunks && x != tc && x != h ==> x.kids == old(x.kids)
      ensures h != null ==> Ends(old(h.kids), h.kids)
      ensures Sub(tc) < old(Sub(tc))
      decreases |Sub(tc)|, 0, 1
    {
      assert ListOk(tc);
      var child := tc.child;
      assert child == tc.kids[0] && LinkAt(tc, tc.kids, 0) && child.owner == tc;
      assert OwnerOk(child) && UpOk(tc) && UpOk(child);
      BelowHead(tc, child, o);
      BelowOthers(tc, child, h);
      KnownBelow(tc, child, o);
      ghost var refuses := child.destructor.Refuses?;
      assert child in Sub(tc);
      ghost var below := Sub(tc);
      label Before:
      FreeHead(tc, child, o);
      assert Sub(tc) <= below && child in below && child !in Sub(tc);
      if refuses {
        PartlyAfterMove@Before(Round(tc, child, o, h, b));
      } else {
        PartlyAfterFree@Before(Round(tc, child, o, h, b));
      }
    }

    lemma AllFreed(tc: Chunk, h: Chunk?, b: Past)
      requires Sound() && tc in chunks && tc.owner == null && Partly(tc, h, b) && tc.child == null
      ensures tc.kids == [] && b.chunks - chunks == b.freed - {tc}
      ensures forall x :: x in chunks && x != tc ==>
        && x.owner == (if b.owner[x] in b.freed then h else b.owner[x])
        && x.up == if tc in b.up[x] then b.up[x] - b.freed + UpOf(h) else b.up[x]
    {
      assert ListOk(tc) && UpOk(tc) && OwnerOk(tc);
      forall x | x in chunks && x != tc
        ensures tc !in x.up && x.owner != tc && (x.owner != null ==> x.owner in chunks)
      {
        assert OwnerOk(x);
        if tc in x.up {
          HasChild(tc, x);
        }
      }
      assert Freed(tc) == {tc};
    }

    /** A chunk that another one is below has a child. */
    lemma {:induction false} HasChild(tc: Chunk, x: Chunk)
      requires Sound() && tc in chunks && x in chunks && x != tc && tc in x.up
      ensures tc.kids != []
      decreases |x.up|
    {
      assert UpOk(x) && OwnerOk(x);
      if x.owner != tc {
        HasChild(tc, x.owner);
      }
    }

    /** What chunks are below tells what is freed with a child of tc. */
    ghost predicate Known(tc: Chunk, child: Chunk)
      requires Sound() && tc in chunks && child in chunks
      reads this, chunks
    {
      && child.up == {child, tc} && tc.up == {tc} && child != tc
      && (forall x :: x in chunks ==> x in x.up && x.up <= chunks)
      && (forall x :: x in chunks && child in x.up ==> tc in x.up)
      && (forall x, z :: x in chunks && z in x.up && z in Freed(child) ==> child in x.up)
    }

    lemma KnownBelow(tc: Chunk, child: Chunk, o: Chunk?)
      requires Sound() && Detached(tc, o) && child in chunks && child.owner == tc
      ensures Known(tc, child)
    {
      BelowHead(tc, child, o);
      forall x | x in chunks
        ensures x in x.up && x.up <= chunks
      {
        assert UpOk(x);
        forall z | z in x.up
          ensures z in chunks
        {
          UpSmaller(x, z);
        }
      }
      forall x, z | x in chunks && z in x.up && z in Freed(child)
        ensures child in x.up
      {
        UpSmaller(x, z);
      }
    }

    /** After a child was freed, the rest of what is to be freed is below tc. */
    twostate lemma RestAfterFree(tc: Chunk, new child: Chunk)
      requires old(Sound()) && Sound() && FlagsKept()
      requires tc in old(chunks) && tc in chunks && child in old(chunks) && old(Known(tc, child)) && tc.up == {tc}
      requires !old(child.destructor.Refuses?) && chunks == old(chunks) - old(Freed(child))
      requires forall x :: x in chunks ==> x.up == if child in old(x.up) then old(x.up) - old(Freed(child)) else old(x.up)
      ensures old(Freed(child)) <= old(Freed(tc)) && Freed(tc) == old(Freed(tc)) - old(Freed(child))
    {
      forall x | x in old(Freed(child))
        ensures x in old(Freed(tc))
      {
      }
      forall x | x in chunks && child in old(x.up)
        ensures x !in Freed(tc) && x !in old(Freed(tc))
      {
        var y :| y in old(x.up) && y !in old(child.up) && old(y.destructor.Refuses?);
        assert y !in old(Freed(child));
        assert y in x.up;
      }
    }

    twostate lemma PartlyAfterFree(r: Round)
      requires old(Sound() && r.tc in chunks && Partly(r.tc, r.heir, r.past)) && Sound() && r.tc in chunks && FlagsKept()
      requires r.child in old(chunks) && old(Known(r.tc, r.child)) && r.tc.up == {r.tc}
      requires old(r.child.owner) == r.tc && !old(r.child.destructor.Refuses?) && chunks == old(chunks) - old(Freed(r.child))
      requires forall x :: x in chunks ==> x.owner == if old(x.owner) in old(Freed(r.child)) then r.tc else old(x.owner)
      requires forall x :: x in chunks ==> x.up == if r.child in old(x.up) then old(x.up) - old(Freed(r.child)) else old(x.up)
      requires r.heir != null ==> r.heir in chunks && r.heir in old(chunks) && r.child !in old(UpOf(r.heir))
      ensures Partly(r.tc, r.heir, r.past)
    {
      RestAfterFree(r.tc, r.child);
      var gone := r.past.chunks - chunks;
      assert gone == old(r.past.chunks - chunks) + old(Freed(r.child));
      forall x | x in chunks && x != r.tc
        ensures x in r.past.owner && x in r.past.up
        ensures OwnerPartly(x, r.tc, r.heir, r.past, gone) && UpPartly(x, r.tc, r.heir, r.past, gone)
      {
        var was := old(r.past.chunks - chunks);
        assert old(OwnerPartly(x, r.tc, r.heir, r.past, was)) && old(UpPartly(x, r.tc, r.heir, r.past, was));
        assert r.child !in old(x.up) ==> old(x.up) !! old(Freed(r.child));
      }
    }

    twostate lemma PartlyAfterMove(r: Round)
      requires old(Sound() && r.tc in chunks && Partly(r.tc, r.heir, r.past)) && Sound() && r.tc in chunks && FlagsKept()
      requires r.child in old(chunks) && old(Known(r.tc, r.child)) && r.tc.up == {r.tc}
      requires old(r.child.owner) == r.tc && old(r.child.destructor.Refuses?) && chunks == old(chunks)
      requires forall x :: x in chunks ==> x.owner == if x == r.child then r.heir else old(x.owner)
      requires forall x :: x in chunks ==>
        x.up == if r.child in old(x.up) then old(x.up) - {r.tc} + old(UpOf(r.heir)) else old(x.up)
      requires r.heir != null ==> r.heir in chunks && r.heir in old(chunks) && r.child !in old(UpOf(r.heir))
      requires r.heir != null ==> r.tc !in r.heir.up
      ensures Partly(r.tc, r.heir, r.past)
    {
      var gone := r.past.chunks - chunks;
      forall x | x in chunks
        ensures x in Freed(r.tc) <==> x in old(Freed(r.tc))
      {
      }
      forall x | x in chunks && x != r.tc
        ensures x in r.past.owner && x in r.past.up
        ensures OwnerPartly(x, r.tc, r.heir, r.past, gone) && UpPartly(x, r.tc, r.heir, r.past, gone)
      {
        assert old(OwnerPartly(x, r.tc, r.heir, r.past, gone)) && old(UpPartly(x, r.tc, r.heir, r.past, gone));
      }
    }

    /** One round of freeing children: frees the first child, or passes it on when it refuses.
        When the heir is the chunk itself, that changes nothing. */
    method FreeHead(tc: Chunk, child: Chunk, ghost o: Chunk?)
      requires Sound() && Detached(tc, o) && child in chunks && child.owner == tc && !child.loop && child.parent == tc
      requires child.destructor.Refuses? && Heir(o) != null ==> Heir(o) in chunks && (Heir(o) == tc || tc !in Heir(o).up)
      modifies this`chunks, chunks`next, chunks`prev, chunks`parent, chunks`child, chunks`destructor, chunks`loop
      modifies chunks`owner, chunks`kids, chunks`up
      ensures Sound() && Detached(tc, o) && FlagsKept()
      ensures old(child.destructor.Refuses?) ==>
        && chunks == old(chunks)
        && (Heir(o) == tc ==> unchanged(chunks))
        && (Heir(o) != tc ==> Moved(child, tc, Heir(o)))
      ensures !old(child.destructor.Refuses?) ==>
        && chunks == old(chunks) - old(Freed(child))
        && (forall x :: x in chunks ==> x.owner == if old(x.owner) in old(Freed(child)) then tc else old(x.owner))
        && (forall x :: x in chunks ==> x.up == if child in old(x.up) then old(x.up) - old(Freed(child)) else old(x.up))
        && (forall x :: x in chunks && x != tc ==> x.kids == old(x.kids))
      ensures tc.up == {tc}
      decreases |Sub(tc)|, 0, 0
    {
      BelowHead(tc, child, o);
      SubsShrink(tc, child);
      var newParent := nullContext;
      var rc := Free(child);
      assert UpOk(tc);
      if rc == -1 {
        PassOn(tc, child, newParent, o);
      }
    }

    /** A child of tc with everything below it was moved to h. */
    twostate predicate Moved(child: Chunk, new tc: Chunk, new h: Chunk?)
      reads this, chunks, h
    {
      && chunks == old(chunks)
      && (forall x :: x in chunks ==> x.owner == if x == child then h else old(x.owner))
      && (forall x :: x in chunks ==> x.up == if child in old(x.up) then old(x.up) - {tc} + UpOf(h) else old(x.up))
      && (forall x :: x in chunks && x != tc && x != h ==> x.kids == old(x.kids))
      && (h != null ==> h in old(chunks) && Ends(old(h.kids), h.kids) && h.up == old(h.up))
    }

    /** Moves a child that refused to the heir. */
    method PassOn(tc: Chunk, child: Chunk, nullParent: Chunk?, ghost o: Chunk?)
      requires Sound() && Detached(tc, o) && child in chunks && child.owner == tc && !child.loop && child.parent == tc
      requires nullParent == nullContext
      requires Heir(o) != null ==> Heir(o) in chunks && (Heir(o) == tc || tc !in Heir(o).up)
      modifies chunks`next, chunks`prev, chunks`parent, chunks`child, chunks`owner, chunks`kids, chunks`up
      ensures Sound() && Detached(tc, o) && FlagsKept()
      ensures Heir(o) == tc ==> unchanged(chunks)
      ensures Heir(o) != tc ==> Moved(child, tc, Heir(o))
    {
      BelowHead(tc, child, o);
      BelowOthers(tc, child, if Heir(o) == tc then null else Heir(o));
      var newParent := nullParent;
      var p := DetachedParent(tc, o);
      if p != null {
        newParent := p;
      }
      Steal(newParent, child);
    }

    lemma SubsShrink(tc: Chunk, child: Chunk)
      requires tc in chunks && Sub(child) < Sub(tc)
      ensures |Sub(child)| < |Sub(tc)|
    {
      Smaller(Sub(child), Sub(tc));
    }

    static lemma Smaller(a: set<Chunk>, b: set<Chunk>)
      requires a < b
      ensures |a| < |b|
    {
      var x :| x in b && x !in a;
      assert a <= b - {x};
      NotLarger(a, b - {x});
    }

    static lemma {:induction false} NotLarger(a: set<Chunk>, b: set<Chunk>)
      requires a <= b
      ensures |a| <= |b|
    {
      if a != {} {
        var x :| x in a;
        NotLarger(a - {x}, b - {x});
      }
    }

    // ---------------------------------------------------------------- the null context

    /** Makes a null context, unless there is one. */
    method EnableNullTracking(haveMemory: bool)
      requires Valid()
      modifies this, chunks`next, chunks`prev, chunks`parent, chunks`child, chunks`owner, chunks`kids, chunks`up
      ensures Valid()
      ensures old(nullContext) != null ==> nullContext == old(nullContext) && chunks == old(chunks)
      ensures old(nullContext) == null && !haveMemory ==> nullContext == null && chunks == old(chunks)
      ensures old(nullContext) == null && haveMemory ==>
        && nullContext != null && fresh(nullContext) && chunks == old(chunks) + {nullContext}
        && nullContext.owner == null && nullContext.kids == []
        && !nullContext.loop && nullContext.destructor.NoDestructor?
      ensures forall x :: x in old(chunks) ==> x.owner == old(x.owner) && x.kids == old(x.kids) && x.up == old(x.up)
    {
      if nullContext == null {
        nullContext := Alloc(null, 0, haveMemory);
      }
    }

    /** Frees the null context and forgets it. Everything below it is freed. */
    method DisableNullTracking()
      requires Valid() && (nullContext != null ==> Ending(nullContext))
      modifies this, chunks`next, chunks`prev, chunks`parent, chunks`child, chunks`destructor, chunks`loop
      modifies chunks`owner, chunks`kids, chunks`up
      ensures Valid() && nullContext == null && FlagsKept()
      ensures old(nullContext) != null && !old(nullContext.loop) && !old(nullContext.destructor.Refuses?) ==>
        chunks == old(chunks) - old(Freed(nullContext))
      ensures old(nullContext) != null && !old(nullContext.loop) && !old(nullContext.destructor.Refuses?) ==>
        old(NoneRefuses(nullContext)) ==> chunks == old(chunks) - old(Sub(nullContext))
    {
      if nullContext != null {
        FreesAll(nullContext);
        var rc := Free(nullContext);
      }
      nullContext := null;
    }

    /** A root that is the null context is freed to the end if and only if it refuses itself
        or nothing below it does. */
    lemma NullContextEnds()
      requires Valid() && nullContext != null && nullContext.owner == null && !nullContext.loop
      ensures Ending(nullContext) <==> nullContext.destructor.Refuses? || NoneRefuses(nullContext)
    {
      assert UpOk(nullContext);
    }

    /** The null context is being freed and something below it refuses, at any depth. */
    ghost predicate Stuck()
      reads this, chunks
    {
      && Sound() && nullContext != null && Detached(nullContext, null)
      && exists y :: y in Sub(nullContext) && y != nullContext && y.destructor.Refuses?
    }

    /** Such a null context has a child left to free. */
    lemma StuckHasChild()
      requires Stuck()
      ensures nullContext.child != null
    {
      var y :| y in Sub(nullContext) && y != nullContext && y.destructor.Refuses?;
      HasChild(nullContext, y);
      assert ListOk(nullContext);
    }

    /** A round of freeing its children leaves something below it that refuses. */
    method StuckRound()
      requires Stuck()
      modifies this`chunks, chunks`next, chunks`prev, chunks`parent, chunks`child, chunks`destructor, chunks`loop
      modifies chunks`owner, chunks`kids, chunks`up
      ensures Stuck() && nullContext.child != null && chunks <= old(chunks)
    {
      StuckHasChild();
      ghost var tc := nullContext;
      assert ListOk(tc);
      var child := nullContext.child;
      assert child == tc.kids[0] && LinkAt(tc, tc.kids, 0) && child.owner == tc;
      assert OwnerOk(child);
      ghost var y :| y in Sub(tc) && y != tc && y.destructor.Refuses?;
      BelowHead(tc, child, null);
      UpSmaller(y, y) by {
        assert UpOk(y);
      }
      FreeHead(nullContext, child, null);
      assert y in Sub(nullContext);
      StuckHasChild();
    }

    /** The freeing of a null context with something below it that refuses has no end: after
        any number of rounds there is a child left. */
    method StuckForEver(n: nat)
      requires Valid() && nullContext != null && nullContext.owner == null
      requires !nullContext.loop && !nullContext.destructor.Refuses? && !NoneRefuses(nullContext)
      modifies this`chunks, chunks`next, chunks`prev, chunks`parent, chunks`child, chunks`destructor, chunks`loop
      modifies chunks`owner, chunks`kids, chunks`up
      ensures Stuck() && nullContext.child != null
    {
      assert UpOk(nullContext);
      TakeOff(nullContext);
      StuckHasChild();
      for i := 0 to n
        invariant Stuck() && nullContext.child != null && chunks <= old(chunks)
      {
        StuckRound();
      }
    }

    /** A hierarchy in which that happens: the null context with one child that refuses. */
    static method StuckExample(n: nat) returns (h: Heap)
      ensures fresh(h) && h.Stuck() && h.nullContext.child != null
    {
      h := new Heap();
      h.EnableNullTracking(true);
      var c := h.Alloc(null, 1, true);
      c.destructor := Refuses;
      assert h.OwnerOk(c) && h.UpOk(c) && h.UpOk(h.nullContext);
      assert c in h.Sub(h.nullContext) && c != h.nullContext;
      h.StuckForEver(n);
    }

    /** The owner that a chunk off its list had. */
    method DetachedParent(tc: Chunk, ghost o: Chunk?) returns (p: Chunk?)
      requires Lists() && Owners(chunks) && Stale(tc, o)
      ensures p == o
    {
      if tc.prev == null {
        return tc.parent;
      }
      p := ParentChunk(tc.prev);
    }

    /** The chunks below a child of a chunk whose children are being freed. */
    lemma BelowHead(tc: Chunk, child: Chunk, o: Chunk?)
      requires Ups() && Detached(tc, o) && child in chunks && child.owner == tc
      ensures child.up == {child, tc} && child != tc && tc.up == {tc}
      ensures forall x :: x in chunks && child in x.up ==> tc in x.up
      ensures Sub(child) < Sub(tc) && child in Freed(child)
      ensures o != null ==> child !in o.up && o !in Freed(child)
      ensures o != null && tc.prev != null ==> tc.prev !in Freed(child) && tc.prev != child
    {
      assert UpOk(tc) && UpOk(child);
      forall x | x in chunks && child in x.up
        ensures tc in x.up
      {
        UpSmaller(x, child);
      }
      assert tc in Sub(tc) && tc !in Sub(child);
      if o != null && tc.prev != null {
        assert UpOk(tc.prev);
      }
    }

    /** A chunk that is not below tc is not below a child of tc. */
    lemma BelowOthers(tc: Chunk, child: Chunk, h: Chunk?)
      requires Ups() && tc in chunks && child in chunks && child.owner == tc
      requires h != null ==> h in chunks && tc !in h.up
      ensures h != null ==> child !in h.up && h !in Freed(child)
    {
      assert UpOk(tc) && UpOk(child);
      if h != null && child in h.up {
        UpSmaller(h, child);
      }
    }

    /** Gives the memory of a chunk back. */
    ghost method Release(tc: Chunk)
      requires Sound() && tc in chunks && tc.owner == null && tc.kids == []
      modifies this`chunks
      ensures Sound() && chunks == old(chunks) - {tc}
    {
      chunks := chunks - {tc};
      forall c {:trigger ListOk(c)} | c in chunks
        ensures ListOk(c)
      {
        assert old(ListOk(c));
        forall i {:trigger LinkAt(c, c.kids, i)} | 0 <= i < |c.kids|
          ensures LinkAt(c, c.kids, i)
        {
          assert old(LinkAt(c, c.kids, i));
        }
      }
      forall c {:trigger OwnerOk(c)} | c in chunks
        ensures OwnerOk(c)
      {
        assert old(OwnerOk(c));
      }
      forall c {:trigger UpOk(c)} | c in chunks
        ensures UpOk(c)
      {
        assert old(UpOk(c)) && old(OwnerOk(c));
      }
    }
  }
}
