/** Frame numbers, which wrap at the hyperframe, and the frames of a logical channel. */
module Tdma {
  import opened Mframe
  import opened Remainders

  type Fn = n: nat | n < HYPERFRAME

  /** A frame of a channel and the burst of a block that it carries. */
  datatype Key = Key(fn: Fn, bid: nat)

  function FnAdd(fn: Fn, n: nat): Fn
  {
    Rem(fn + n, HYPERFRAME)
  }

  /** The frames elapsed since the last one, negative when fn is before it. */
  function Elapsed(fn: Fn, last: Fn): int
  {
    var elapsed := fn - last;
    if elapsed >= HYPERFRAME / 2 then elapsed - HYPERFRAME
    else if elapsed < -(HYPERFRAME / 2) then elapsed + HYPERFRAME
    else elapsed
  }

  /** The elapsed frames are what has to be added to the last frame number, in either
      direction whatever is nearer. */
  lemma ElapsedIsCyclic(fn: Fn, last: Fn)
    ensures var e := Elapsed(fn, last);
      && -(HYPERFRAME / 2) <= e < HYPERFRAME / 2
      && (e >= 0 ==> fn == FnAdd(last, e))
      && (e < 0 ==> last == FnAdd(fn, -e))
  {
    var e := Elapsed(fn, last);
    if e >= 0 {
      FnAddWraps(last, e);
    } else {
      FnAddWraps(fn, -e);
    }
  }

  lemma ElapsedOf(last: Fn, d: nat)
    requires d < HYPERFRAME / 2
    ensures Elapsed(FnAdd(last, d), last) == d
  {
    FnAddWraps(last, d);
  }

  lemma FnAddWraps(fn: Fn, n: nat)
    requires n < HYPERFRAME
    ensures FnAdd(fn, n) == if fn + n < HYPERFRAME then fn + n else fn + n - HYPERFRAME
  {
    if fn + n >= HYPERFRAME {
      assert Rem(fn + n - HYPERFRAME, HYPERFRAME) == fn + n - HYPERFRAME;
    }
  }

  lemma FnAddAdd(fn: Fn, a: nat, b: nat)
    ensures FnAdd(FnAdd(fn, a), b) == FnAdd(fn, a + b)
  {
    RemAdd(fn + a, b, HYPERFRAME);
  }

  lemma FnAddNone(fn: Fn)
    ensures FnAdd(fn, 0) == fn
  {
  }

  predicate Periodic(mf: Multiframe)
  {
    mf.period == 51 || mf.period == 102 || mf.period == 104
  }

  /** The layouts whose frames are modelled are fit for the channels with blocks. */
  lemma LayoutsAreFit(i: nat, c: Chan)
    requires i == 1 || i == 2 || i == 18
    requires HasBlocks(c)
    ensures var mf := LayoutAt(i);
      Periodic(mf) && BlocksOfFour(mf.frames, mf.period, c)
  {
    if i == 1 {
      BcchBlocks(c);
    } else if i == 2 {
      BcchSdcch4Blocks(c);
    } else {
      PdchBlocks(c);
    }
  }

  function FrameOf(mf: Multiframe, fn: Fn): Frame
    requires Periodic(mf)
  {
    mf.frames(Rem(fn, mf.period))
  }

  /** The frames of channel c among the n frames after fn. */
  ghost function Between(mf: Multiframe, c: Chan, fn: Fn, n: nat): (r: seq<Key>)
    requires Periodic(mf)
    ensures |r| <= n
  {
    if n == 0 then [] else
      var g := FnAdd(fn, n);
      Between(mf, c, fn, n - 1) + if FrameOf(mf, g).dlChan == c then [Key(g, FrameOf(mf, g).dlBid)] else []
  }

  lemma BetweenStep(mf: Multiframe, c: Chan, fn: Fn, n: nat)
    requires Periodic(mf)
    ensures var g := FnAdd(fn, n + 1);
      Between(mf, c, fn, n + 1)
        == Between(mf, c, fn, n) + if FrameOf(mf, g).dlChan == c then [Key(g, FrameOf(mf, g).dlBid)] else []
  {
  }

  /** Each frame among them adds its key at the end, if it is one of the channel, and nothing
      otherwise; the keys of earlier frames come first. */
  lemma {:induction false} BetweenAt(mf: Multiframe, c: Chan, fn: Fn, d: nat, n: nat)
    requires Periodic(mf) && 0 < d <= n
    ensures var g := (fn + d) % HYPERFRAME;
      var f, before, after := mf.frames(g % mf.period), Between(mf, c, fn, d - 1), Between(mf, c, fn, d);
      && after == before + (if f.dlChan == c then [Key(g, f.dlBid)] else [])
      && after <= Between(mf, c, fn, n)
    decreases n
  {
    if d < n {
      BetweenAt(mf, c, fn, d, n - 1);
    }
    RemIsMod(fn + d, HYPERFRAME);
    RemIsMod((fn + d) % HYPERFRAME, mf.period);
  }

  lemma {:induction false} BetweenAdd(mf: Multiframe, c: Chan, fn: Fn, a: nat, b: nat)
    requires Periodic(mf)
    ensures Between(mf, c, fn, a + b) == Between(mf, c, fn, a) + Between(mf, c, FnAdd(fn, a), b)
    decreases b
  {
    if b > 0 {
      BetweenAdd(mf, c, fn, a, b - 1);
      FnAddAdd(fn, a, b);
    }
  }

  /** The place in the multiframe moves on by one with every frame, across the wrap as well. */
  lemma NextPlace(mf: Multiframe, fn: Fn)
    requires Periodic(mf)
    ensures Rem(FnAdd(fn, 1), mf.period) == Next(Rem(fn, mf.period), mf.period)
  {
    NextRem(fn, HYPERFRAME, mf.period);
  }

  lemma NextRem(fn: nat, h: nat, period: nat)
    requires fn < h && period > 0 && h % period == 0
    ensures Rem(Rem(fn + 1, h), period) == Next(Rem(fn, period), period)
  {
    RemNext(fn, period);
    if fn + 1 == h {
      RemIsMod(fn + 1, period);
    }
  }

  function NextBurst(bid: nat): nat
  {
    if bid < 3 then bid + 1 else 0
  }

  /** The i-th burst number is the one after the burst number before it. */
  ghost predicate NextAt(keys: seq<Key>, i: int)
    requires 0 < i < |keys|
  {
    keys[i].bid == NextBurst(keys[i - 1].bid)
  }

  ghost predicate Cyclic(keys: seq<Key>)
  {
    forall i {:trigger NextAt(keys, i)} :: 0 < i < |keys| ==> NextAt(keys, i)
  }

  /** From a frame of the channel on, the burst numbers of its frames run cyclically. */
  lemma {:induction false} BetweenIsCyclic(mf: Multiframe, c: Chan, fn: Fn, n: nat, keys: seq<Key>)
    requires Periodic(mf) && BlocksOfFour(mf.frames, mf.period, c) && FrameOf(mf, fn).dlChan == c
    requires keys == [Key(fn, FrameOf(mf, fn).dlBid)] + Between(mf, c, fn, n)
    ensures Cyclic(keys) && EndsAs(keys, c, FrameOf(mf, FnAdd(fn, n)))
    decreases n
  {
    if n == 0 {
      FnAddNone(fn);
    } else {
      var first := [Key(fn, FrameOf(mf, fn).dlBid)];
      var before := first + Between(mf, c, fn, n - 1);
      BetweenIsCyclic(mf, c, fn, n - 1, before);
      KeysStep(mf, c, fn, n - 1, first);
      FnAddAdd(fn, n - 1, 1);
      OneFrameOn(mf, c, FnAdd(fn, n - 1), FnAdd(fn, n), before, keys);
    }
  }

  lemma OneFrameOn(mf: Multiframe, c: Chan, g: Fn, h: Fn, before: seq<Key>, keys: seq<Key>)
    requires Periodic(mf) && BlocksOfFour(mf.frames, mf.period, c) && h == FnAdd(g, 1)
    requires Cyclic(before) && EndsAs(before, c, FrameOf(mf, g))
    requires keys == before + if FrameOf(mf, h).dlChan == c then [Key(h, FrameOf(mf, h).dlBid)] else []
    ensures Cyclic(keys) && EndsAs(keys, c, FrameOf(mf, h))
  {
    Neighbours(mf, c, g);
    CyclicStep(c, before, keys, FrameOf(mf, g), FrameOf(mf, h), h);
  }

  lemma KeysStep(mf: Multiframe, c: Chan, fn: Fn, n: nat, first: seq<Key>)
    requires Periodic(mf)
    ensures var g := FnAdd(fn, n + 1);
      first + Between(mf, c, fn, n + 1)
        == first + Between(mf, c, fn, n) + if FrameOf(mf, g).dlChan == c then [Key(g, FrameOf(mf, g).dlBid)] else []
  {
    BetweenStep(mf, c, fn, n);
  }

  /** The last key is that of frame f, or of a last burst when f is of another channel. */
  ghost predicate EndsAs(keys: seq<Key>, c: Chan, f: Frame)
  {
    keys != [] && keys[|keys| - 1].bid == if f.dlChan == c then f.dlBid else 3
  }

  ghost predicate Follows(c: Chan, f: Frame, h: Frame)
  {
    && (f.dlChan == c ==> f.dlBid < 4) && (h.dlChan == c ==> h.dlBid < 4)
    && (f.dlChan == c && f.dlBid < 3 ==> h.dlChan == c && h.dlBid == f.dlBid + 1)
    && (h.dlChan == c && h.dlBid > 0 ==> f.dlChan == c && f.dlBid == h.dlBid - 1)
  }

  lemma CyclicStep(c: Chan, before: seq<Key>, keys: seq<Key>, f: Frame, h: Frame, fn: Fn)
    requires Cyclic(before) && EndsAs(before, c, f) && Follows(c, f, h)
    requires keys == before + if h.dlChan == c then [Key(fn, h.dlBid)] else []
    ensures Cyclic(keys) && EndsAs(keys, c, h)
  {
    forall i {:trigger NextAt(keys, i)} | 0 < i < |keys|
      ensures NextAt(keys, i)
    {
      assert i < |before| ==> NextAt(before, i);
    }
  }

  /** The frame after a burst 0, 1 or 2 has the next burst, and so backwards. */
  lemma Neighbours(mf: Multiframe, c: Chan, g: Fn)
    requires Periodic(mf) && BlocksOfFour(mf.frames, mf.period, c)
    ensures Follows(c, FrameOf(mf, g), FrameOf(mf, FnAdd(g, 1)))
  {
    NextPlace(mf, g);
    NeighboursAt(mf.frames, mf.period, c, Rem(g, mf.period));
  }

  lemma NeighboursAt(frames: Frames, period: nat, c: Chan, o: nat)
    requires o < period && BlocksOfFour(frames, period, c)
    ensures Follows(c, frames(o), frames(Next(o, period)))
  {
    if frames(o).dlChan == c {
      assert InBlock(frames, period, c, o);
    }
    if frames(Next(o, period)).dlChan == c {
      assert InBlock(frames, period, c, Next(o, period));
    }
  }
}
