/** What the blocks are made of, whatever bursts come in: which bursts count, which bits are
    kept, and when a block is complete. */
module SchedBlocks {
  import opened Mframe
  import opened Tdma
  import opened Sequences
  import opened SchedRx

  /** The bursts that count are those from the first burst 0 on. */
  lemma {:induction false} AlignedFrom(calls: seq<BurstInd>, k: nat)
    requires k <= |calls| && forall i :: 0 <= i < k ==> calls[i].bid != 0
    requires k < |calls| ==> calls[k].bid == 0
    ensures Aligned(calls) == calls[k..]
    decreases |calls|
  {
    if calls != [] {
      var n := |calls| - 1;
      if k <= n {
        AlignedFrom(calls[..n], k);
        assert calls[k..] == calls[..n][k..] + [calls[n]];
      } else {
        AlignedFrom(calls[..n], n);
      }
    }
  }

  /** The bits kept for a number are those of the last burst with it. */
  lemma {:induction false} KeptFrom(a: seq<BurstInd>, bid: nat, i: nat)
    requires i < |a| && a[i].bid == bid && forall j :: i < j < |a| ==> a[j].bid != bid
    ensures Buffered(a, bid) == Payload(a[i].burst)
    decreases |a|
  {
    if i < |a| - 1 {
      KeptFrom(a[..|a| - 1], bid, i);
    }
  }

  /** The numbers that came since the last burst 3, which was before place k. */
  lemma {:induction false} OpenFrom(a: seq<BurstInd>, k: nat, bid: nat)
    requires k <= |a| && (k > 0 ==> a[k - 1].bid == 3) && forall j :: k <= j < |a| ==> a[j].bid != 3
    ensures bid in Open(a) <==> exists j :: k <= j < |a| && a[j].bid == bid
    decreases |a|
  {
    if k < |a| {
      var n := |a| - 1;
      OpenFrom(a[..n], k, bid);
      if bid in Open(a[..n]) {
        var j :| k <= j < n && a[..n][j].bid == bid;
        assert a[j].bid == bid;
      }
      if j :| k <= j < |a| && a[j].bid == bid {
        assert j < n ==> a[..n][j].bid == bid;
      }
    }
  }

  /** A burst 3 completes a block if and only if bursts 0, 1 and 2 came since the burst 3
      before it, which was before place k. */
  lemma CompleteIff(a: seq<BurstInd>, k: nat, z: BurstInd)
    requires k <= |a| && (k > 0 ==> a[k - 1].bid == 3) && z.bid == 3
    requires forall j :: k <= j < |a| ==> a[j].bid < 3
    ensures var e, n := Emitted(a + [z]), |Emitted(a)|;
      && |e| == n + 1 && e[..n] == Emitted(a)
      && e[n].fn == (if |a| >= 3 then a[|a| - 3].fn else 0)
      && (e[n].complete <==> Came(a, k, 0) && Came(a, k, 1) && Came(a, k, 2))
  {
    OneBurst(a, z);
    OpenFrom(a, k, 0);
    OpenFrom(a, k, 1);
    OpenFrom(a, k, 2);
    OpenBelow(a, k);
    assert Open(a) + {3} == BLOCK <==> 0 in Open(a) && 1 in Open(a) && 2 in Open(a);
  }

  /** A burst with the number came at place k or later. */
  ghost predicate Came(a: seq<BurstInd>, k: nat, bid: nat)
  {
    exists j :: k <= j < |a| && a[j].bid == bid
  }

  lemma {:induction false} OpenBelow(a: seq<BurstInd>, k: nat)
    requires k <= |a| && (k > 0 ==> a[k - 1].bid == 3) && forall j :: k <= j < |a| ==> a[j].bid < 3
    ensures forall b :: b in Open(a) ==> b < 3
    decreases |a|
  {
    if k < |a| {
      OpenBelow(a[..|a| - 1], k);
    }
  }

  /** When burst 1 of a block was lost and not made up for, the block is incomplete, and holds
      in its place the bits of the burst 1 before. */
  lemma MissingBurst(s: seq<BurstInd>, w: BurstInd, y: BurstInd, z: BurstInd)
    requires w.bid == 0 && y.bid == 2 && z.bid == 3 && Open(s) == {}
    ensures var e := Emitted(s + [w] + [y] + [z]);
      && |e| == |Emitted(s)| + 1 && !e[|Emitted(s)|].complete
      && e[|Emitted(s)|].bursts == [Payload(w.burst), Buffered(s, 1), Payload(y.burst), Payload(z.burst)]
  {
    OneBurst(s, w);
    OneBurst(s + [w], y);
    OneBurst(s + [w] + [y], z);
    assert 1 !in {} + {0} + {2} + {3};
  }

  // ------------------------------------------------------------------ lost frames

  /** A lost frame gives the decoder unknown bits only. */
  lemma DummyIsUnknown(k: Key)
    ensures Payload(Dummy(k).burst) == Zeros(116)
  {
  }

  /** What the handler gets are bursts that were received, with the number their frame has in
      the layout, and dummies. */
  lemma {:induction false} ReceivedOrMadeUp(mf: Multiframe, c: Chan, bis: seq<BurstInd>, x: BurstInd)
    requires Periodic(mf) && x in Expected(mf, c, bis)
    ensures x == Dummy(Key(x.fn, x.bid)) || IsReceived(mf, bis, x)
    decreases |bis|
  {
    if bis != [] {
      var n := |bis| - 1;
      if x in Expected(mf, c, bis[..n]) {
        ReceivedOrMadeUp(mf, c, bis[..n], x);
        if IsReceived(mf, bis[..n], x) {
          var i :| 0 <= i < n && Numbered(mf, bis[..n][i], x);
          assert Numbered(mf, bis[i], x);
        }
      } else if x == WithBid(mf, bis[n]) {
        assert Numbered(mf, bis[n], x);
      } else {
        DummiesAre(LostKeys(mf, c, true, bis[n - 1].fn, bis[n].fn), x);
      }
    }
  }

  /** And no burst that was received is left out: the calls up to it are the last of those for
      the bursts up to it, which come first. */
  lemma {:induction false} ReceivedAt(mf: Multiframe, c: Chan, bis: seq<BurstInd>, i: nat,
                                      before: seq<BurstInd>, calls: seq<BurstInd>)
    requires Periodic(mf) && i < |bis|
    requires before == Expected(mf, c, bis[..i + 1]) && calls == Expected(mf, c, bis)
    ensures before <= calls && before != [] && Numbered(mf, bis[i], before[|before| - 1])
    decreases |bis|
  {
    var n := |bis| - 1;
    var p := bis[..n];
    LastCall(mf, c, bis, n, p, Expected(mf, c, p), calls);
    if i < n {
      assert p[..i + 1] == bis[..i + 1] && p[i] == bis[i];
      ReceivedAt(mf, c, p, i, before, Expected(mf, c, p));
    } else {
      assert bis[..i + 1] == bis;
    }
  }

  lemma LastCall(mf: Multiframe, c: Chan, bis: seq<BurstInd>, n: nat, p: seq<BurstInd>,
                 before: seq<BurstInd>, calls: seq<BurstInd>)
    requires Periodic(mf) && n + 1 == |bis| && p == bis[..n]
    requires before == Expected(mf, c, p) && calls == Expected(mf, c, bis)
    ensures before <= calls && calls != [] && Numbered(mf, bis[n], calls[|calls| - 1])
  {
    ExpectedStep(mf, c, bis, n, p);
    Ends(before, if n == 0 then [] else LostBursts(mf, c, true, bis[n - 1].fn, bis[n].fn), WithBid(mf, bis[n]), calls);
  }

  lemma Ends(a: seq<BurstInd>, b: seq<BurstInd>, z: BurstInd, e: seq<BurstInd>)
    requires e == a + b + [z]
    ensures a <= e && e != [] && e[|e| - 1] == z
  {
  }

  /** x is the burst, with the number its frame has in the layout. */
  ghost predicate Numbered(mf: Multiframe, bi: BurstInd, x: BurstInd)
    requires Periodic(mf)
  {
    x == bi.(bid := FrameOf(mf, bi.fn).dlBid)
  }

  ghost predicate IsReceived(mf: Multiframe, bis: seq<BurstInd>, x: BurstInd)
    requires Periodic(mf)
  {
    exists i :: 0 <= i < |bis| && Numbered(mf, bis[i], x)
  }

  lemma {:induction false} DummiesAre(keys: seq<Key>, x: BurstInd)
    requires x in Dummies(keys)
    ensures x == Dummy(Key(x.fn, x.bid))
    decreases |keys|
  {
    if keys != [] && x in Dummies(keys[..|keys| - 1]) {
      DummiesAre(keys[..|keys| - 1], x);
    }
  }
}
