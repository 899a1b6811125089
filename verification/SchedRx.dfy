/** Reception on a logical channel: the substitution of lost frames, and the assembly of
    blocks of four bursts. */
module SchedRx {
  import opened Mframe
  import opened Tdma
  import opened Remainders
  import opened Meas
  import opened Sequences

  const EAGAIN: int := 11
  const EIO: int := 5
  const EALREADY: int := 114

  // the numbers of frames are unsigned longs
  const WRAP: nat := 0x1_0000_0000_0000_0000

  const BURST_LEN: nat := 444

  /** The soft bits of a burst, with room for an 8PSK one. */
  type Burst = b: seq<int> | |b| == BURST_LEN witness Zeros(BURST_LEN)

  /** A received burst; its soft bits are already decrypted. */
  datatype BurstInd = BurstInd(fn: Fn, bid: nat, toa256: int16, rssi: int8, burst: Burst)

  /** The four bursts handed to the decoder, whether all of them are of this block, and the
      frame number that is reported. */
  datatype Block = Block(fn: nat, complete: bool, bursts: seq<seq<int>>)

  /** The two data halves of a burst, between the tail and training bits. */
  function Payload(burst: Burst): seq<int>
  {
    burst[3..61] + burst[87..145]
  }

  /** What the handler gets for a lost frame. */
  function Dummy(k: Key): BurstInd
  {
    BurstInd(k.fn, k.bid, 0, -120, Zeros(BURST_LEN))
  }

  ghost function Dummies(keys: seq<Key>): (r: seq<BurstInd>)
    ensures |r| == |keys|
  {
    if keys == [] then [] else Dummies(keys[..|keys| - 1]) + [Dummy(keys[|keys| - 1])]
  }

  lemma DummiesAppended(keys: seq<Key>, k: Key)
    ensures Dummies(keys + [k]) == Dummies(keys) + [Dummy(k)]
  {
    assert (keys + [k])[..|keys|] == keys;
  }

  // ------------------------------------------------------------------ block assembly

  /** The calls from the first burst 0 on. */
  ghost function Aligned(calls: seq<BurstInd>): (r: seq<BurstInd>)
    ensures r != [] ==> calls != [] && r[|r| - 1] == calls[|calls| - 1]
  {
    if calls == [] then [] else
      var n := |calls| - 1;
      var a := Aligned(calls[..n]);
      if a == [] && calls[n].bid != 0 then [] else a + [calls[n]]
  }

  lemma AlignedAppended(calls: seq<BurstInd>, x: BurstInd)
    ensures Aligned(calls + [x]) == if Aligned(calls) == [] && x.bid != 0 then [] else Aligned(calls) + [x]
  {
    assert (calls + [x])[..|calls|] == calls;
  }

  /** The data bits of the last burst with a number. */
  ghost function Buffered(a: seq<BurstInd>, bid: nat): seq<int>
  {
    if a == [] then [] else
      var n := |a| - 1;
      if a[n].bid == bid then Payload(a[n].burst) else Buffered(a[..n], bid)
  }

  ghost function Buffer(a: seq<BurstInd>): seq<seq<int>>
  {
    [Buffered(a, 0), Buffered(a, 1), Buffered(a, 2), Buffered(a, 3)]
  }

  /** The burst numbers that came since the last burst 3. */
  ghost function Open(a: seq<BurstInd>): set<nat>
  {
    if a == [] then {} else
      var n := |a| - 1;
      if a[n].bid == 3 then {} else Open(a[..n]) + {a[n].bid}
  }

  const BLOCK: set<nat> := {0, 1, 2, 3}

  /** The frame number of the fourth last burst, zero when there are fewer. */
  ghost function FourthLast(a: seq<BurstInd>): nat
  {
    if |a| >= 4 then a[|a| - 4].fn else 0
  }

  /** The blocks handed to the decoder: one with every burst 3, made of the last burst of each
      number. It is complete when all four came since the last burst 3. */
  ghost function Emitted(a: seq<BurstInd>): seq<Block>
  {
    if a == [] then [] else
      var n := |a| - 1;
      Emitted(a[..n])
        + if a[n].bid == 3 then [Block(FourthLast(a), Open(a[..n]) + {3} == BLOCK, Buffer(a))] else []
  }

  lemma OneBurst(a: seq<BurstInd>, x: BurstInd)
    requires x.bid < 4
    ensures Buffer(a + [x]) == Buffer(a)[x.bid := Payload(x.burst)]
    ensures Open(a + [x]) == if x.bid == 3 then {} else Open(a) + {x.bid}
    ensures Emitted(a + [x]) == Emitted(a)
      + if x.bid == 3 then [Block(FourthLast(a + [x]), Open(a) + {3} == BLOCK, Buffer(a + [x]))] else []
  {
    assert (a + [x])[..|a|] == a;
  }

  // ------------------------------------------------------------------ bursts in order

  /** The i-th burst is the one after the burst before it. */
  ghost predicate OrderAt(calls: seq<BurstInd>, i: int)
    requires 0 < i < |calls|
  {
    calls[i].bid == NextBurst(calls[i - 1].bid)
  }

  ghost predicate InOrder(calls: seq<BurstInd>)
  {
    forall i {:trigger OrderAt(calls, i)} :: 0 < i < |calls| ==> OrderAt(calls, i)
  }

  /** The b-th block of calls that begin with a burst 0 and run in order. */
  ghost function BlockAt(a: seq<BurstInd>, b: nat): Block
    requires 4 * b + 3 < |a|
  {
    Block(a[4 * b].fn, true,
          [Payload(a[4 * b].burst), Payload(a[4 * b + 1].burst), Payload(a[4 * b + 2].burst), Payload(a[4 * b + 3].burst)])
  }

  /** The blocks are the fours of the bursts: complete, in their place, and reported with the
      frame number of their burst 0. */
  ghost predicate InPlace(a: seq<BurstInd>, blocks: seq<Block>)
  {
    && |blocks| == |a| / 4
    && forall b {:trigger PlacedAt(a, blocks, b)} :: 0 <= b < |blocks| ==> PlacedAt(a, blocks, b)
  }

  ghost predicate PlacedAt(a: seq<BurstInd>, blocks: seq<Block>, b: nat)
    requires b < |blocks| && 4 * b + 3 < |a|
  {
    blocks[b] == BlockAt(a, b)
  }

  /** Bursts 0 to 3 over and over. */
  ghost predicate Counts(a: seq<BurstInd>)
  {
    forall i :: 0 <= i < |a| ==> a[i].bid == i % 4
  }

  /** While bursts run in order, every block is complete and in its place. */
  lemma OrderFillsBlocks(calls: seq<BurstInd>)
    requires InOrder(calls)
    ensures Counts(Aligned(calls)) && InPlace(Aligned(calls), Emitted(Aligned(calls)))
  {
    AlignedCounts(calls);
    CountsFillBlocks(Aligned(calls));
  }

  lemma {:induction false} AlignedCounts(calls: seq<BurstInd>)
    requires InOrder(calls)
    ensures Counts(Aligned(calls))
    decreases |calls|
  {
    if calls != [] {
      var n := |calls| - 1;
      var p, a := calls[..n], Aligned(calls[..n]);
      forall i {:trigger OrderAt(p, i)} | 0 < i < n
        ensures OrderAt(p, i)
      {
        assert OrderAt(calls, i);
      }
      AlignedCounts(p);
      if a != [] {
        assert OrderAt(calls, n) && a[|a| - 1].bid == (|a| - 1) % 4;
      }
    }
  }

  lemma {:induction false} CountsFillBlocks(a: seq<BurstInd>)
    requires Counts(a)
    ensures InPlace(a, Emitted(a))
    decreases |a|
  {
    if |a| % 4 != 0 {
      var p := a[..|a| - 1];
      CountsFillBlocks(p);
      assert Emitted(a) == Emitted(p);
      SameBlocks(a, p, Emitted(p));
    } else if a != [] {
      var k := |a| / 4 - 1;
      var s := a[..4 * k];
      CountsFillBlocks(s);
      BidsAt(a, k);
      LastFour(a, s, k);
      OneMoreBlock(a, s, Emitted(s), Emitted(a));
    }
  }

  lemma BidsAt(a: seq<BurstInd>, k: nat)
    requires Counts(a) && 4 * k + 3 < |a|
    ensures a[4 * k].bid == 0 && a[4 * k + 1].bid == 1 && a[4 * k + 2].bid == 2 && a[4 * k + 3].bid == 3
    ensures k > 0 ==> a[4 * k - 1].bid == 3
  {
  }

  lemma LastFour(a: seq<BurstInd>, s: seq<BurstInd>, k: nat)
    requires |a| == 4 * k + 4 && s == a[..4 * k] && (k > 0 ==> a[4 * k - 1].bid == 3)
    requires a[4 * k].bid == 0 && a[4 * k + 1].bid == 1 && a[4 * k + 2].bid == 2 && a[4 * k + 3].bid == 3
    ensures Emitted(a) == Emitted(s) + [BlockAt(a, k)]
  {
    var w, x, y, z := a[4 * k], a[4 * k + 1], a[4 * k + 2], a[4 * k + 3];
    assert k > 0 ==> s[|s| - 1].bid == 3;
    assert a == s + [w] + [x] + [y] + [z];
    FourBursts(s, w, x, y, z);
  }

  lemma SameBlocks(a: seq<BurstInd>, p: seq<BurstInd>, e: seq<Block>)
    requires |a| % 4 != 0 && p == a[..|a| - 1] && InPlace(p, e)
    ensures InPlace(a, e)
  {
    forall b {:trigger PlacedAt(a, e, b)} | 0 <= b < |e|
      ensures PlacedAt(a, e, b)
    {
      assert PlacedAt(p, e, b);
    }
  }

  lemma OneMoreBlock(a: seq<BurstInd>, s: seq<BurstInd>, e: seq<Block>, f: seq<Block>)
    requires |a| == |s| + 4 && s == a[..|s|] && |s| % 4 == 0 && InPlace(s, e)
    requires f == e + [BlockAt(a, |s| / 4)]
    ensures InPlace(a, f)
  {
    forall b {:trigger PlacedAt(a, f, b)} | 0 <= b < |f|
      ensures PlacedAt(a, f, b)
    {
      assert b < |e| ==> PlacedAt(s, e, b);
    }
  }

  /** The four bursts of a block. */
  lemma FourBursts(s: seq<BurstInd>, w: BurstInd, x: BurstInd, y: BurstInd, z: BurstInd)
    requires w.bid == 0 && x.bid == 1 && y.bid == 2 && z.bid == 3 && Open(s) == {}
    ensures Emitted(s + [w] + [x] + [y] + [z])
      == Emitted(s) + [Block(w.fn, true, [Payload(w.burst), Payload(x.burst), Payload(y.burst), Payload(z.burst)])]
  {
    var p := s + [w];
    var q := p + [x];
    var a := q + [y];
    OneBurst(s, w);
    OneBurst(p, x);
    OneBurst(q, y);
    OneBurst(a, z);
    assert (a + [z])[|a| - 3] == w;
    assert {} + {0} + {1} + {2} + {3} == BLOCK;
    AllStored(Buffer(s), Payload(w.burst), Payload(x.burst), Payload(y.burst), Payload(z.burst));
  }

  lemma AllStored(b: seq<seq<int>>, w: seq<int>, x: seq<int>, y: seq<int>, z: seq<int>)
    requires |b| == 4
    ensures b[0 := w][1 := x][2 := y][3 := z] == [w, x, y, z]
  {
  }

  // ------------------------------------------------------------------ the handler

  /** A mask is the set of its bits that are set; a shift by four loses the highest of 32. */
  function ShiftedByFour(mask: set<nat>): (r: set<nat>)
    ensures forall j :: j in r <==> j >= 4 && j < 32 && j - 4 in mask
  {
    set j | j in mask && j < 28 :: j + 4
  }

  /** The measurements are those of the bursts. */
  ghost predicate Measured(pushed: seq<MeasSet>, a: seq<BurstInd>)
  {
    && |pushed| == |a|
    && forall i :: 0 <= i < |a| ==> pushed[i] == MeasSet(a[i].fn, a[i].toa256, a[i].rssi)
  }

  lemma FirstOfBlock(pushed: seq<MeasSet>, a: seq<BurstInd>, x: BurstInd)
    requires Measured(pushed, a)
    ensures var p := pushed + [MeasSet(x.fn, x.toa256, x.rssi)];
      Measured(p, a + [x]) && Recent(p, 3).fn == FourthLast(a + [x])
  {
  }

  /** Blocks of a channel, as they are assembled. */
  class Assembler {
    const hist: MeasHist
    const rxBursts: array<seq<int>>
    var mask: set<nat>

    // the blocks handed to the decoder, and the calls of the handler
    var blocks: seq<Block>
    ghost var calls: seq<BurstInd>

    /** The state is that after the calls from the first burst 0 on. */
    ghost predicate Valid()
      reads this, hist, hist.buf, rxBursts
    {
      forall a {:trigger Holds(a)} :: a == Aligned(calls) ==> Holds(a)
    }

    /** What the state is after bursts a that begin with a burst 0. */
    ghost predicate Holds(a: seq<BurstInd>)
      reads this`mask, this`blocks, hist, hist.buf, rxBursts
    {
      && hist.Valid() && rxBursts.Length == 4
      && Measured(hist.pushed, a)
      && (mask == {} <==> a == []) && mask * BLOCK == Open(a)
      && (forall j {:trigger HoldsAt(a, j)} :: 0 <= j < 4 ==> HoldsAt(a, j))
      && blocks == Emitted(a)
    }

    ghost predicate HoldsAt(a: seq<BurstInd>, j: nat)
      requires j < rxBursts.Length
      reads rxBursts
    {
      rxBursts[j] == Buffered(a, j)
    }

    constructor ()
      ensures Valid() && calls == [] && blocks == []
      ensures fresh(hist) && fresh(hist.buf) && fresh(rxBursts)
    {
      hist := new MeasHist();
      rxBursts := new seq<int>[4](_ => []);
      mask, blocks, calls := {}, [], [];
    }

    /** Handles one burst. */
    method RxData(bi: BurstInd)
      requires Valid() && bi.bid < 4
      modifies this, hist, hist.buf, rxBursts
      ensures Valid() && calls == old(calls) + [bi]
    {
      ghost var a := Aligned(calls);
      assert Holds(a);
      AlignedAppended(calls, bi);
      calls := calls + [bi];
      if mask == {} && bi.bid != 0 {
        return;
      }
      Take(bi, a, a + [bi]);
    }

    /** Takes one burst after bursts a. */
    method Take(bi: BurstInd, ghost a: seq<BurstInd>, ghost b: seq<BurstInd>)
      requires Holds(a) && bi.bid < 4 && b == a + [bi]
      modifies this`mask, this`blocks, hist, hist.buf, rxBursts
      ensures Holds(b)
    {
      HeldBuffer(a);
      OneBurst(a, bi);
      Collect(bi, a, Open(a));
      HoldsBuffer(b);
    }

    lemma HeldBuffer(a: seq<BurstInd>)
      requires Holds(a)
      ensures rxBursts[..] == Buffer(a)
    {
      assert HoldsAt(a, 0) && HoldsAt(a, 1) && HoldsAt(a, 2) && HoldsAt(a, 3);
    }

    lemma HoldsBuffer(a: seq<BurstInd>)
      requires rxBursts.Length == 4 && rxBursts[..] == Buffer(a)
      ensures forall j {:trigger HoldsAt(a, j)} :: 0 <= j < 4 ==> HoldsAt(a, j)
    {
      forall j {:trigger HoldsAt(a, j)} | 0 <= j < 4
        ensures HoldsAt(a, j)
      {
        assert rxBursts[..][j] == Buffer(a)[j];
      }
    }

    method Collect(bi: BurstInd, ghost a: seq<BurstInd>, ghost open: set<nat>)
      requires hist.Valid() && Measured(hist.pushed, a) && rxBursts.Length == 4
      requires mask * BLOCK == open && bi.bid < 4
      modifies this`mask, this`blocks, hist, hist.buf, rxBursts
      ensures hist.Valid() && Measured(hist.pushed, a + [bi])
      ensures mask != {} && mask * BLOCK == if bi.bid == 3 then {} else open + {bi.bid}
      ensures rxBursts[..] == old(rxBursts[..])[bi.bid := Payload(bi.burst)]
      ensures blocks == old(blocks)
        + if bi.bid == 3 then [Block(FourthLast(a + [bi]), open + {3} == BLOCK, rxBursts[..])] else []
    {
      FirstOfBlock(hist.pushed, a, bi);
      Store(bi);
      if bi.bid == 3 {
        Emit();
      } else {
        assert blocks + [] == blocks;
      }
    }

    /** Keeps the measurements and the data bits of a burst. */
    method Store(bi: BurstInd)
      requires hist.Valid() && rxBursts.Length == 4 && bi.bid < 4
      modifies this`mask, hist, hist.buf, rxBursts
      ensures hist.Valid() && hist.pushed == old(hist.pushed) + [MeasSet(bi.fn, bi.toa256, bi.rssi)]
      ensures rxBursts[..] == old(rxBursts[..])[bi.bid := Payload(bi.burst)]
      ensures mask == old(mask) + {bi.bid}
    {
      mask := mask + {bi.bid};
      hist.Push(MeasSet(bi.fn, bi.toa256, bi.rssi));
      rxBursts[bi.bid] := Payload(bi.burst);
    }

    /** Hands the four bursts to the decoder. */
    method Emit()
      requires hist.Valid() && hist.pushed != [] && rxBursts.Length == 4 && 3 in mask
      modifies this`mask, this`blocks
      ensures blocks == old(blocks) + [Block(Recent(hist.pushed, 3).fn, old(mask) * BLOCK == BLOCK, rxBursts[..])]
      ensures mask * BLOCK == {} && mask != {}
    {
      var ok, avg := hist.Average(4);
      var complete := mask * BLOCK == BLOCK;
      mask := ShiftedByFour(mask);
      assert 7 in mask;
      blocks := blocks + [Block(avg.fn, complete, rxBursts[..])];
    }
  }

  // ------------------------------------------------------------------ lost frames

  /** The frames that are made up for before a burst of frame fn is handled, if a frame was
      seen. */
  ghost function LostKeys(mf: Multiframe, c: Chan, seen: bool, last: Fn, fn: Fn): seq<Key>
    requires Periodic(mf)
  {
    var e := Elapsed(fn, last);
    if seen && 0 < e <= mf.period then Between(mf, c, last, e - 1) else []
  }

  ghost function LostBursts(mf: Multiframe, c: Chan, seen: bool, last: Fn, fn: Fn): seq<BurstInd>
    requires Periodic(mf)
  {
    Dummies(LostKeys(mf, c, seen, last, fn))
  }

  /** The last frame processed after the frames of some keys. */
  ghost function LastFn(keys: seq<Key>, last: Fn): Fn
  {
    if keys == [] then last else keys[|keys| - 1].fn
  }

  /** A counter of frames after n more. */
  function Wrapped(count: nat, n: nat): nat
  {
    (count + n) % WRAP
  }

  lemma WrappedOnce(count: nat, n: nat)
    requires count < WRAP
    ensures Wrapped(count, 0) == count && Wrapped(Wrapped(count, n), 1) == Wrapped(count, n + 1)
  {
  }

  function WithBid(mf: Multiframe, bi: BurstInd): BurstInd
    requires Periodic(mf)
  {
    bi.(bid := FrameOf(mf, bi.fn).dlBid)
  }

  // ------------------------------------------------------------------ runs

  /** The i-th burst is later than the one before it, by at most a multiframe. */
  ghost predicate TimelyAt(mf: Multiframe, bis: seq<BurstInd>, i: int)
    requires 0 < i < |bis|
  {
    0 < Elapsed(bis[i].fn, bis[i - 1].fn) <= mf.period
  }

  ghost predicate InTime(mf: Multiframe, bis: seq<BurstInd>)
  {
    forall i {:trigger TimelyAt(mf, bis, i)} :: 0 < i < |bis| ==> TimelyAt(mf, bis, i)
  }

  ghost predicate OfChannel(mf: Multiframe, c: Chan, bis: seq<BurstInd>)
    requires Periodic(mf)
  {
    forall i :: 0 <= i < |bis| ==> FrameOf(mf, bis[i].fn).dlChan == c
  }

  /** What the handler gets when bursts arrive: the bursts, and dummies for the lost ones. */
  ghost function Expected(mf: Multiframe, c: Chan, bis: seq<BurstInd>): seq<BurstInd>
    requires Periodic(mf)
  {
    if bis == [] then [] else
      var n := |bis| - 1;
      Expected(mf, c, bis[..n])
        + (if n == 0 then [] else LostBursts(mf, c, true, bis[n - 1].fn, bis[n].fn))
        + [WithBid(mf, bis[n])]
  }

  /** The frames that elapse from the first burst to the last. */
  ghost function Total(bis: seq<BurstInd>): int
  {
    if |bis| <= 1 then 0 else
      var n := |bis| - 1;
      Total(bis[..n]) + Elapsed(bis[n].fn, bis[n - 1].fn)
  }

  ghost predicate Keyed(calls: seq<BurstInd>, keys: seq<Key>)
  {
    && |calls| == |keys|
    && forall i :: 0 <= i < |calls| ==> calls[i].fn == keys[i].fn && calls[i].bid == keys[i].bid
  }

  lemma {:induction false} DummiesKeyed(keys: seq<Key>)
    ensures Keyed(Dummies(keys), keys)
    decreases |keys|
  {
    if keys != [] {
      DummiesKeyed(keys[..|keys| - 1]);
    }
  }

  lemma PrefixInTime(mf: Multiframe, bis: seq<BurstInd>, n: nat)
    requires InTime(mf, bis) && n <= |bis|
    ensures InTime(mf, bis[..n])
  {
    forall i {:trigger TimelyAt(mf, bis[..n], i)} | 0 < i < n
      ensures TimelyAt(mf, bis[..n], i)
    {
      assert TimelyAt(mf, bis, i);
    }
  }

  /** The handler is called once for every frame of the channel from the first burst to the
      last, in order. */
  lemma EveryFrameOnce(mf: Multiframe, c: Chan, bis: seq<BurstInd>, calls: seq<BurstInd>, t: int)
    requires Periodic(mf) && bis != [] && InTime(mf, bis) && OfChannel(mf, c, bis)
    requires calls == Expected(mf, c, bis) && t == Total(bis)
    ensures t >= 0 && bis[|bis| - 1].fn == FnAdd(bis[0].fn, t)
    ensures Keyed(calls, [Key(bis[0].fn, FrameOf(mf, bis[0].fn).dlBid)] + Between(mf, c, bis[0].fn, t))
  {
    FramesFrom(mf, c, bis, bis[0].fn, bis[|bis| - 1].fn, calls, t);
  }

  lemma {:induction false} FramesFrom(mf: Multiframe, c: Chan, bis: seq<BurstInd>, first: Fn, last: Fn,
                                      calls: seq<BurstInd>, t: int)
    requires Periodic(mf) && InTime(mf, bis) && OfChannel(mf, c, bis)
    requires bis != [] && bis[0].fn == first && bis[|bis| - 1].fn == last
    requires calls == Expected(mf, c, bis) && t == Total(bis)
    ensures t >= 0 && last == FnAdd(first, t)
    ensures Keyed(calls, [Key(first, FrameOf(mf, first).dlBid)] + Between(mf, c, first, t))
    decreases |bis|
  {
    var n := |bis| - 1;
    var p := bis[..n];
    var before, pt := Expected(mf, c, p), Total(p);
    ExpectedStep(mf, c, bis, n, p);
    if n == 0 {
      OnlyFrame(mf, c, bis[0], before, calls);
    } else {
      PrefixInTime(mf, bis, n);
      FramesFrom(mf, c, p, first, bis[n - 1].fn, before, pt);
      assert TimelyAt(mf, bis, n);
      OneMore(mf, c, first, before, pt, bis[n - 1].fn, bis[n], calls, t);
    }
  }

  lemma OnlyFrame(mf: Multiframe, c: Chan, x: BurstInd, before: seq<BurstInd>, calls: seq<BurstInd>)
    requires Periodic(mf) && before == [] && calls == before + [] + [WithBid(mf, x)]
    ensures x.fn == FnAdd(x.fn, 0)
    ensures Keyed(calls, [Key(x.fn, FrameOf(mf, x.fn).dlBid)] + Between(mf, c, x.fn, 0))
  {
    FnAddNone(x.fn);
  }

  lemma OneMore(mf: Multiframe, c: Chan, first: Fn, before: seq<BurstInd>, pt: nat, last: Fn, x: BurstInd,
                calls: seq<BurstInd>, t: int)
    requires Periodic(mf) && last == FnAdd(first, pt) && FrameOf(mf, x.fn).dlChan == c
    requires Keyed(before, [Key(first, FrameOf(mf, first).dlBid)] + Between(mf, c, first, pt))
    requires 0 < Elapsed(x.fn, last) <= mf.period && t == pt + Elapsed(x.fn, last)
    requires calls == before + LostBursts(mf, c, true, last, x.fn) + [WithBid(mf, x)]
    ensures x.fn == FnAdd(first, t)
    ensures Keyed(calls, [Key(first, FrameOf(mf, first).dlBid)] + Between(mf, c, first, t))
  {
    var e := Elapsed(x.fn, last);
    ElapsedIsCyclic(x.fn, last);
    FnAddAdd(first, pt, e);
    var lost, k := Between(mf, c, last, e - 1), Key(x.fn, FrameOf(mf, x.fn).dlBid);
    FramesStep(mf, c, first, pt, last, e, lost, k);
    DummiesKeyed(lost);
    KeyedStep(before, [Key(first, FrameOf(mf, first).dlBid)], Between(mf, c, first, pt), Dummies(lost), lost, WithBid(mf, x), k);
  }

  lemma ExpectedStep(mf: Multiframe, c: Chan, bis: seq<BurstInd>, i: nat, p: seq<BurstInd>)
    requires Periodic(mf) && i + 1 == |bis| && p == bis[..i]
    ensures Expected(mf, c, bis)
      == Expected(mf, c, p) + (if i == 0 then [] else LostBursts(mf, c, true, bis[i - 1].fn, bis[i].fn)) + [WithBid(mf, bis[i])]
    ensures i > 0 ==> Total(bis) == Total(p) + Elapsed(bis[i].fn, bis[i - 1].fn)
  {
  }

  lemma FramesStep(mf: Multiframe, c: Chan, first: Fn, t: nat, last: Fn, e: nat, lost: seq<Key>, k: Key)
    requires Periodic(mf) && last == FnAdd(first, t) && e > 0 && k.fn == FnAdd(last, e)
    requires lost == Between(mf, c, last, e - 1)
    requires FrameOf(mf, k.fn).dlChan == c && FrameOf(mf, k.fn).dlBid == k.bid
    ensures Between(mf, c, first, t + e) == Between(mf, c, first, t) + (lost + [k])
  {
    BetweenAdd(mf, c, first, t, e);
    BetweenStep(mf, c, last, e - 1);
  }

  lemma KeyedStep(a: seq<BurstInd>, first: seq<Key>, ka: seq<Key>, b: seq<BurstInd>, kb: seq<Key>, x: BurstInd, k: Key)
    requires Keyed(a, first + ka) && Keyed(b, kb) && x.fn == k.fn && x.bid == k.bid
    ensures Keyed(a + b + [x], first + (ka + (kb + [k])))
  {
    assert first + (ka + (kb + [k])) == first + ka + kb + [k];
  }

  /** So the bursts run in order. */
  lemma ExpectedInOrder(mf: Multiframe, c: Chan, bis: seq<BurstInd>)
    requires Periodic(mf) && BlocksOfFour(mf.frames, mf.period, c)
    requires InTime(mf, bis) && OfChannel(mf, c, bis)
    ensures InOrder(Expected(mf, c, bis))
  {
    if bis != [] {
      var calls, t := Expected(mf, c, bis), Total(bis);
      EveryFrameOnce(mf, c, bis, calls, t);
      var keys := [Key(bis[0].fn, FrameOf(mf, bis[0].fn).dlBid)] + Between(mf, c, bis[0].fn, t);
      BetweenIsCyclic(mf, c, bis[0].fn, t, keys);
      OrderOfKeys(calls, keys);
    } else {
      assert Expected(mf, c, bis) == [];
    }
  }

  lemma ExpectedNext(mf: Multiframe, c: Chan, bis: seq<BurstInd>, i: nat, last: Fn, seen: bool)
    requires Periodic(mf) && BlocksOfFour(mf.frames, mf.period, c)
    requires InTime(mf, bis) && OfChannel(mf, c, bis) && i < |bis|
    requires seen == (i > 0) && (seen ==> last == bis[i - 1].fn)
    ensures Expected(mf, c, bis[..i + 1])
      == Expected(mf, c, bis[..i]) + LostBursts(mf, c, seen, last, bis[i].fn) + [WithBid(mf, bis[i])]
    ensures InOrder(Expected(mf, c, bis[..i + 1]))
    ensures seen ==> Elapsed(bis[i].fn, last) > 0
  {
    var p := bis[..i + 1];
    PrefixInTime(mf, bis, i + 1);
    ExpectedInOrder(mf, c, p);
    assert p[..i] == bis[..i];
    ExpectedStep(mf, c, p, i, p[..i]);
    if i > 0 {
      assert TimelyAt(mf, bis, i);
    } else {
      assert LostBursts(mf, c, seen, last, bis[i].fn) == [];
    }
  }

  lemma OrderOfKeys(calls: seq<BurstInd>, keys: seq<Key>)
    requires Keyed(calls, keys) && Cyclic(keys)
    ensures InOrder(calls)
  {
    forall i {:trigger OrderAt(calls, i)} | 0 < i < |calls|
      ensures OrderAt(calls, i)
    {
      assert NextAt(keys, i);
    }
  }

  class Lchan {
    const mf: Multiframe
    const chan: Chan
    const rx: Assembler
    var active: bool
    var lastProc: Fn
    var numProc: nat
    var numLost: nat

    ghost predicate Valid()
      reads this, rx, rx.hist, rx.hist.buf, rx.rxBursts
    {
      && Periodic(mf) && BlocksOfFour(mf.frames, mf.period, chan)
      && rx.Valid() && numProc < WRAP && numLost < WRAP
    }

    constructor (mf: Multiframe, chan: Chan)
      requires Periodic(mf) && BlocksOfFour(mf.frames, mf.period, chan)
      ensures Valid() && this.mf == mf && this.chan == chan
      ensures rx.calls == [] && active && numProc == 0
      ensures fresh(rx) && fresh(rx.hist) && fresh(rx.hist.buf) && fresh(rx.rxBursts)
    {
      this.mf, this.chan := mf, chan;
      rx := new Assembler();
      active, lastProc, numProc, numLost := true, 0, 0, 0;
    }

    /** Calls the handler for every frame of the channel that was lost before frame fn. */
    method SubstFrameLoss(fn: Fn) returns (rc: int)
      requires Valid()
      modifies this`lastProc, this`numProc, this`numLost, rx, rx.hist, rx.hist.buf, rx.rxBursts
      ensures Valid()
      ensures rc == -EALREADY <==> old(numProc) > 0 && Elapsed(fn, old(lastProc)) < 0
      ensures rc == -EAGAIN <==> old(numProc) == 0
      ensures rc == -EIO <==> old(numProc) > 0 && (Elapsed(fn, old(lastProc)) == 0 || Elapsed(fn, old(lastProc)) > mf.period)
      ensures rc == 0 || rc == -EALREADY || rc == -EAGAIN || rc == -EIO
      ensures var lost := LostKeys(mf, chan, old(numProc) > 0, old(lastProc), fn);
        && lastProc == LastFn(lost, old(lastProc))
        && numProc == Wrapped(old(numProc), |lost|) && numLost == Wrapped(old(numLost), |lost|)
      ensures rx.calls == old(rx.calls) + LostBursts(mf, chan, old(numProc) > 0, old(lastProc), fn)
    {
      WrappedOnce(numLost, 0);
      WrappedOnce(numProc, 0);
      assert rx.calls + Dummies([]) == rx.calls;
      if numProc == 0 {
        return -EAGAIN;
      }
      var elapsed := Elapsed(fn, lastProc);
      if elapsed < 0 {
        return -EALREADY;
      }
      if elapsed > mf.period || elapsed == 0 {
        return -EIO;
      }
      SubstituteFrames(elapsed - 1);
      rc := 0;
    }

    /** Calls the handler for every frame of the channel among the next n frames. */
    method SubstituteFrames(n: nat)
      requires Valid()
      modifies this`lastProc, this`numProc, this`numLost, rx, rx.hist, rx.hist.buf, rx.rxBursts
      ensures Valid()
      ensures rx.calls == old(rx.calls) + Dummies(Between(mf, chan, old(lastProc), n))
      ensures var lost := Between(mf, chan, old(lastProc), n);
        && lastProc == LastFn(lost, old(lastProc))
        && numProc == Wrapped(old(numProc), |lost|) && numLost == Wrapped(old(numLost), |lost|)
    {
      ghost var last, base, procs, lost := lastProc, rx.calls, numProc, numLost;
      WrappedOnce(procs, 0);
      WrappedOnce(lost, 0);
      var cur, i := lastProc, 0;
      while i < n
        invariant 0 <= i <= n && Valid() && cur == FnAdd(last, i)
        invariant rx.calls == base + Dummies(Between(mf, chan, last, i))
        invariant Counted(Between(mf, chan, last, i), last, procs, lost)
      {
        cur := NextFrame(cur, last, i, base, procs, lost);
        i := i + 1;
      }
    }

    /** The frames of some keys were processed, and counted as lost. */
    ghost predicate Counted(keys: seq<Key>, last: Fn, procs: nat, lost: nat)
      reads this`lastProc, this`numProc, this`numLost
    {
      && lastProc == LastFn(keys, last)
      && numProc == Wrapped(procs, |keys|) && numLost == Wrapped(lost, |keys|)
    }

    method NextFrame(fn: Fn, ghost last: Fn, ghost i: nat, ghost base: seq<BurstInd>, ghost procs: nat, ghost lost: nat)
      returns (cur: Fn)
      requires Valid() && fn == FnAdd(last, i) && rx.calls == base + Dummies(Between(mf, chan, last, i))
      requires procs < WRAP && lost < WRAP && Counted(Between(mf, chan, last, i), last, procs, lost)
      modifies this`lastProc, this`numProc, this`numLost, rx, rx.hist, rx.hist.buf, rx.rxBursts
      ensures Valid() && cur == FnAdd(last, i + 1)
      ensures rx.calls == base + Dummies(Between(mf, chan, last, i + 1))
      ensures Counted(Between(mf, chan, last, i + 1), last, procs, lost)
    {
      cur := FnAdd(fn, 1);
      FnAddAdd(last, i, 1);
      BetweenStep(mf, chan, last, i);
      OneFrame(cur, Between(mf, chan, last, i), Between(mf, chan, last, i + 1), last, base, procs, lost);
    }

    /** Substitutes a frame, if it is one of the channel. */
    method OneFrame(cur: Fn, ghost before: seq<Key>, ghost after: seq<Key>, ghost last: Fn, ghost base: seq<BurstInd>,
                    ghost procs: nat, ghost lost: nat)
      requires Valid() && rx.calls == base + Dummies(before) && Counted(before, last, procs, lost)
      requires after == before + if FrameOf(mf, cur).dlChan == chan then [Key(cur, FrameOf(mf, cur).dlBid)] else []
      requires procs < WRAP && lost < WRAP
      modifies this`lastProc, this`numProc, this`numLost, rx, rx.hist, rx.hist.buf, rx.rxBursts
      ensures Valid() && rx.calls == base + Dummies(after) && Counted(after, last, procs, lost)
    {
      if FrameOf(mf, cur).dlChan == chan {
        DummiesAppended(before, Key(cur, FrameOf(mf, cur).dlBid));
        WrappedOnce(lost, |before|);
        WrappedOnce(procs, |before|);
        Substitute(cur);
      } else {
        assert after == before;
      }
    }

    method Substitute(fn: Fn)
      requires Valid() && FrameOf(mf, fn).dlChan == chan
      modifies this`lastProc, this`numProc, this`numLost, rx, rx.hist, rx.hist.buf, rx.rxBursts
      ensures Valid() && lastProc == fn && numProc == Wrapped(old(numProc), 1) && numLost == Wrapped(old(numLost), 1)
      ensures rx.calls == old(rx.calls) + [Dummy(Key(fn, FrameOf(mf, fn).dlBid))]
    {
      BidIsBurst(fn);
      rx.RxData(Dummy(Key(fn, FrameOf(mf, fn).dlBid)));
      lastProc, numProc, numLost := fn, Wrapped(numProc, 1), Wrapped(numLost, 1);
    }

    lemma BidIsBurst(fn: Fn)
      requires Valid() && FrameOf(mf, fn).dlChan == chan
      ensures FrameOf(mf, fn).dlBid < 4
    {
      assert InBlock(mf.frames, mf.period, chan, Rem(fn, mf.period));
    }

    /** Handles a received burst of the channel. A burst older than the last one is dropped,
        and changes nothing; otherwise the handler gets it after the lost frames. */
    method HandleRxBurst(bi: BurstInd) returns (rc: int)
      requires Valid() && FrameOf(mf, bi.fn).dlChan == chan
      modifies this`lastProc, this`numProc, this`numLost, rx, rx.hist, rx.hist.buf, rx.rxBursts
      ensures Valid() && (rc == 0 || rc == -EALREADY)
      ensures rc == -EALREADY <==> active && old(numProc) > 0 && Elapsed(bi.fn, old(lastProc)) < 0
      ensures active && rc == 0 ==>
        var n := Wrapped(old(numProc), |LostKeys(mf, chan, old(numProc) > 0, old(lastProc), bi.fn)| + 1);
        lastProc == bi.fn && numProc == if n == 0 then 1 else n
      ensures !active || rc != 0 ==> lastProc == old(lastProc) && numProc == old(numProc) && rx.calls == old(rx.calls)
      ensures numLost == if active then Wrapped(old(numLost), |LostKeys(mf, chan, old(numProc) > 0, old(lastProc), bi.fn)|)
                         else old(numLost)
      ensures active && rc == 0 ==>
        rx.calls == old(rx.calls) + LostBursts(mf, chan, old(numProc) > 0, old(lastProc), bi.fn) + [WithBid(mf, bi)]
    {
      if !active {
        return 0;
      }
      BidIsBurst(bi.fn);
      rc := SubstFrameLoss(bi.fn);
      if rc == -EALREADY {
        return;
      }
      WrappedOnce(old(numProc), |LostKeys(mf, chan, old(numProc) > 0, old(lastProc), bi.fn)|);
      rx.RxData(WithBid(mf, bi));
      lastProc := bi.fn;
      numProc := Wrapped(numProc, 1);
      if numProc == 0 {
        numProc := 1;
      }
      rc := 0;
    }

    /** The first i bursts were handled in time. */
    ghost predicate Caught(bis: seq<BurstInd>, i: nat)
      requires Periodic(mf) && i <= |bis|
      reads this, rx
    {
      && (forall e {:trigger CallsAre(e)} :: e == Expected(mf, chan, bis[..i]) ==> CallsAre(e))
      && if i == 0 then numProc == 0 else numProc > 0 && lastProc == bis[i - 1].fn
    }

    ghost predicate CallsAre(e: seq<BurstInd>)
      reads rx`calls
    {
      rx.calls == e
    }

    /** The first i bursts were received; when they all come in time, they were handled so. */
    ghost predicate Ready(bis: seq<BurstInd>, i: nat, timely: bool)
      reads this, rx, rx.hist, rx.hist.buf, rx.rxBursts
    {
      && Valid() && active && i <= |bis| && OfChannel(mf, chan, bis)
      && (timely ==> InTime(mf, bis) && Caught(bis, i))
    }

    method ReceiveNext(bis: seq<BurstInd>, i: nat, ghost timely: bool)
      requires Ready(bis, i, timely) && i < |bis|
      modifies this`lastProc, this`numProc, this`numLost, rx, rx.hist, rx.hist.buf, rx.rxBursts
      ensures Ready(bis, i + 1, timely)
    {
      if timely {
        ExpectedNext(mf, chan, bis, i, lastProc, numProc > 0);
        assert CallsAre(Expected(mf, chan, bis[..i]));
      }
      var rc := HandleRxBurst(bis[i]);
    }

    /** Receives bursts on a new channel. When they come in time, the handler gets every
        frame of the channel once and in order, and every block it hands on is made of the
        four bursts of one block and reported with the frame number of the first. */
    method ReceiveAll(bis: seq<BurstInd>)
      requires Valid() && active && numProc == 0 && rx.calls == []
      requires OfChannel(mf, chan, bis)
      modifies this`lastProc, this`numProc, this`numLost, rx, rx.hist, rx.hist.buf, rx.rxBursts
      ensures Valid()
      ensures InTime(mf, bis) ==>
        && rx.calls == Expected(mf, chan, bis) && InOrder(rx.calls)
        && Counts(Aligned(rx.calls)) && InPlace(Aligned(rx.calls), rx.blocks)
    {
      NoneCaught(bis);
      ghost var timely := InTime(mf, bis);
      ReceiveFrom(bis, 0, timely);
      if timely {
        AllCaught(bis);
      }
    }

    method ReceiveFrom(bis: seq<BurstInd>, i: nat, ghost timely: bool)
      requires Ready(bis, i, timely)
      modifies this`lastProc, this`numProc, this`numLost, rx, rx.hist, rx.hist.buf, rx.rxBursts
      ensures Ready(bis, |bis|, timely)
      decreases |bis| - i
    {
      if i < |bis| {
        ReceiveNext(bis, i, timely);
        ReceiveFrom(bis, i + 1, timely);
      }
    }

    lemma NoneCaught(bis: seq<BurstInd>)
      requires Periodic(mf) && numProc == 0 && rx.calls == []
      ensures Caught(bis, 0)
    {
      assert bis[..0] == [] && Expected(mf, chan, []) == [];
    }

    lemma AllCaught(bis: seq<BurstInd>)
      requires Valid() && OfChannel(mf, chan, bis) && InTime(mf, bis) && Caught(bis, |bis|)
      ensures rx.calls == Expected(mf, chan, bis) && InOrder(rx.calls)
        && Counts(Aligned(rx.calls)) && InPlace(Aligned(rx.calls), rx.blocks)
    {
      assert bis[..|bis|] == bis;
      assert CallsAre(Expected(mf, chan, bis));
      ExpectedInOrder(mf, chan, bis);
      OrderFillsBlocks(rx.calls);
      assert rx.Holds(Aligned(rx.calls));
    }
  }
}
