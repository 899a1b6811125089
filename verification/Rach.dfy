/** When a random access burst is sent: the frame of the RACH slot that a request asks for. */
module Rach {
  import opened Mframe
  import opened Tdma
  import opened Remainders

  /** The RACH slots of a combined multiframe before frame k. */
  function T3ToRachComb(k: nat): nat
  {
    match k
    case 0 => 0
    case 1 => 0
    case 2 => 0
    case 3 => 0
    case 4 => 0
    case 5 => 1
    case 6 => 2
    case 7 => 2
    case 8 => 2
    case 9 => 2
    case 10 => 2
    case 11 => 2
    case 12 => 2
    case 13 => 2
    case 14 => 2
    case 15 => 3
    case 16 => 4
    case 17 => 5
    case 18 => 6
    case 19 => 7
    case 20 => 8
    case 21 => 9
    case 22 => 10
    case 23 => 11
    case 24 => 12
    case 25 => 13
    case 26 => 14
    case 27 => 15
    case 28 => 16
    case 29 => 17
    case 30 => 18
    case 31 => 19
    case 32 => 20
    case 33 => 21
    case 34 => 22
    case 35 => 23
    case 36 => 24
    case 37 => 25
    case 38 => 25
    case 39 => 25
    case 40 => 25
    case 41 => 25
    case 42 => 25
    case 43 => 25
    case 44 => 25
    case 45 => 25
    case 46 => 26
    case 47 => 27
    case 48 => 27
    case 49 => 27
    case _ => 27
  }

  /** The frame of the k-th RACH slot of a combined multiframe. */
  function RachToT3Comb(k: nat): nat
  {
    match k
    case 0 => 4
    case 1 => 5
    case 2 => 14
    case 3 => 15
    case 4 => 16
    case 5 => 17
    case 6 => 18
    case 7 => 19
    case 8 => 20
    case 9 => 21
    case 10 => 22
    case 11 => 23
    case 12 => 24
    case 13 => 25
    case 14 => 26
    case 15 => 27
    case 16 => 28
    case 17 => 29
    case 18 => 30
    case 19 => 31
    case 20 => 32
    case 21 => 33
    case 22 => 34
    case 23 => 35
    case 24 => 36
    case 25 => 45
    case _ => 46
  }

  function FnSub(fn: Fn, n: nat): Fn
    requires n <= HYPERFRAME
  {
    (fn + HYPERFRAME - n) % HYPERFRAME
  }

  // the RSL channel number of the RACH, used when the request has none
  const RSL_CHAN_RACH: nat := 0x88

  /** The frame and the timeslot of a request made at frame fn, which asks for the slot after
      `slots` others. The sum of slots is kept in 16 bits. */
  method RxRachReq(fn: Fn, chanNr: nat, combined: bool, slots: nat) returns (fnSched: nat, tn: nat)
    requires slots < 0x1_0000 && chanNr < 0x100
    ensures fnSched == if combined then Scheduled(fn, slots) else FnAdd(fn, slots)
    ensures tn == chanNr % 8
  {
    var offset, nr := slots, chanNr;
    if nr == 0 {
      nr := RSL_CHAN_RACH;
    }
    var t3 := fn % 51;
    if combined {
      offset := (offset + T3ToRachComb(t3)) % 0x1_0000;
      fnSched := FnSub(fn, t3);
      fnSched := fnSched + offset / 27 * 51;
      fnSched := fnSched + RachToT3Comb(offset % 27);
      fnSched := fnSched % HYPERFRAME;
    } else {
      fnSched := FnAdd(fn, offset);
    }
    tn := nr % 8;
  }

  function Scheduled(fn: Fn, slots: nat): Fn
  {
    FrameOfSlot(fn, (slots + T3ToRachComb(fn % 51)) % 0x1_0000)
  }

  /** The frame of the slot number `offset`, counted from the start of the multiframe. */
  function FrameOfSlot(fn: Fn, offset: nat): Fn
  {
    (FnSub(fn, fn % 51) + offset / 27 * 51 + RachToT3Comb(offset % 27)) % HYPERFRAME
  }

  // ------------------------------------------------------------------ rank and select

  /** A frame of the combined layout whose uplink is the RACH. */
  predicate IsRach(fn: nat)
  {
    FrameBcchSdcch4(fn % 102).ulChan == RACH
  }

  /** The RACH frames among the d frames from fn on. */
  ghost function RachFrames(fn: Fn, d: nat): nat
  {
    if d == 0 then 0 else RachFrames(fn, d - 1) + if IsRach(FnAdd(fn, d - 1)) then 1 else 0
  }

  /** The RACH frames before frame x, counted without a wrap. */
  ghost function Rank(x: nat): nat
  {
    if x == 0 then 0 else Rank(x - 1) + if RachPlace((x - 1) % 51) then 1 else 0
  }

  predicate RachPlace(k: nat)
  {
    k == 4 || k == 5 || 14 <= k <= 36 || k == 45 || k == 46
  }

  /** The places of the RACH are those of the uplink column of the layout. */
  lemma LayoutPlaces(o: nat)
    requires o < 102
    ensures FrameBcchSdcch4(o).ulChan == RACH <==> RachPlace(o % 51)
  {
  }

  lemma CountPlaces(k: nat)
    requires k < 51
    ensures T3ToRachComb(k) <= 27 && T3ToRachComb(0) == 0
    ensures if k < 50 then T3ToRachComb(k + 1) == T3ToRachComb(k) + (if RachPlace(k) then 1 else 0)
            else T3ToRachComb(k) == 27 && !RachPlace(k)
  {
  }

  lemma SelectPlaces(k: nat)
    requires k < 27
    ensures RachToT3Comb(k) < 51 && RachPlace(RachToT3Comb(k)) && T3ToRachComb(RachToT3Comb(k)) == k
  {
  }

  /** The table holds the ranks within a multiframe. */
  lemma {:induction false} RankIs(x: nat)
    ensures Rank(x) == 27 * (x / 51) + T3ToRachComb(x % 51)
  {
    if x == 0 {
      CountPlaces(0);
    } else {
      RankIs(x - 1);
      NextOf51(x - 1);
      CountPlaces((x - 1) % 51);
    }
  }

  lemma NextOf51(x: nat)
    ensures x % 51 < 50 ==> (x + 1) / 51 == x / 51 && (x + 1) % 51 == x % 51 + 1
    ensures x % 51 == 50 ==> (x + 1) / 51 == x / 51 + 1 && (x + 1) % 51 == 0
  {
  }

  lemma {:induction false} RankMonotone(a: nat, b: nat)
    requires a <= b
    ensures Rank(a) <= Rank(b)
    decreases b
  {
    if a < b {
      RankMonotone(a, b - 1);
    }
  }

  /** The RACH frames between two frames are the difference of their ranks, across the wrap
      as well. */
  lemma {:induction false} RachFramesAre(fn: Fn, d: nat)
    ensures RachFrames(fn, d) == Rank(fn + d) - Rank(fn)
  {
    if d > 0 {
      RachFramesAre(fn, d - 1);
      IsRachAt(fn, d - 1);
    }
  }

  lemma IsRachAt(fn: Fn, d: nat)
    ensures IsRach(FnAdd(fn, d)) <==> RachPlace((fn + d) % 51)
  {
    PlaceAt(fn, d);
    LayoutPlaces(FnAdd(fn, d) % 102);
  }

  lemma PlaceAt(fn: Fn, d: nat)
    ensures FnAdd(fn, d) % 102 % 51 == (fn + d) % 51
  {
    RemIsMod(fn + d, HYPERFRAME);
    SameRemainder((fn + d) / HYPERFRAME, (fn + d) % HYPERFRAME);
  }

  lemma SameRemainder(q: nat, r: nat)
    ensures r % 102 % 51 == (q * HYPERFRAME + r) % 51
  {
  }

  /** The d-th frame from fn on is a RACH frame with exactly `slots` RACH frames before it. */
  ghost predicate Chosen(fn: Fn, slots: nat, target: Fn, d: nat)
  {
    target == FnAdd(fn, d) && IsRach(target) && RachFrames(fn, d) == slots
  }

  ghost predicate Fits16(fn: Fn, slots: nat)
  {
    slots + T3ToRachComb(fn % 51) < 0x1_0000
  }

  /** The request gets the RACH slot it asks for if and only if the number of slots asked
      for and the slots gone in the multiframe fit into 16 bits together. */
  lemma ScheduledIsChosen(fn: Fn, slots: nat)
    requires slots < 0x1_0000
    ensures Fits16(fn, slots) <==> exists d: nat :: d < HYPERFRAME && Chosen(fn, slots, Scheduled(fn, slots), d)
  {
    if Fits16(fn, slots) {
      var d := ChosenWhenItFits(fn, slots, Scheduled(fn, slots));
    } else {
      forall d: nat | d < HYPERFRAME
        ensures !Chosen(fn, slots, Scheduled(fn, slots), d)
      {
        PastWhenItWraps(fn, slots, Scheduled(fn, slots), d);
      }
    }
  }

  lemma ChosenWhenItFits(fn: Fn, slots: nat, target: Fn) returns (d: nat)
    requires Fits16(fn, slots) && target == Scheduled(fn, slots)
    ensures d < HYPERFRAME && Chosen(fn, slots, target, d)
  {
    var x := Select(fn, slots);
    RankOrder(x, fn);
    d := x - fn;
    RemIsMod(fn + d, HYPERFRAME);
    RachFramesAre(fn, d);
    IsRachAt(fn, d);
  }

  /** When the sum of slots wraps, the frame is one of the current multiframe that has gone
      by: it is not reached before the whole hyperframe has passed. */
  lemma PastWhenItWraps(fn: Fn, slots: nat, target: Fn, d: nat)
    requires !Fits16(fn, slots) && slots < 0x1_0000 && target == Scheduled(fn, slots) && d < HYPERFRAME
    ensures !Chosen(fn, slots, target, d)
  {
    var x := Select(fn, slots);
    if target == FnAdd(fn, d) {
      Wrapped(fn, x, d);
      RachFramesAre(fn, d);
    }
  }

  /** The chosen frame, counted without a wrap. */
  lemma Select(fn: Fn, slots: nat) returns (x: nat)
    requires slots < 0x1_0000
    ensures Scheduled(fn, slots) == x % HYPERFRAME && RachPlace(x % 51)
    ensures Fits16(fn, slots) ==> Rank(x) == Rank(fn) + slots && x <= fn + 130_000
    ensures !Fits16(fn, slots) ==> x < fn && x / 51 == fn / 51
  {
    var before := T3ToRachComb(fn % 51);
    RankOfSlots(fn, before);
    x := SelectSlots(fn, slots, before);
  }

  lemma RankOfSlots(fn: Fn, before: nat)
    requires before == T3ToRachComb(fn % 51)
    ensures before <= 27 && Rank(fn) == 27 * (fn / 51) + before
  {
    CountPlaces(fn % 51);
    RankIs(fn);
  }

  lemma SelectSlots(fn: Fn, slots: nat, before: nat) returns (x: nat)
    requires slots < 0x1_0000 && before <= 27 && Rank(fn) == 27 * (fn / 51) + before
    ensures FrameOfSlot(fn, (slots + before) % 0x1_0000) == x % HYPERFRAME && RachPlace(x % 51)
    ensures slots + before < 0x1_0000 ==> Rank(x) == Rank(fn) + slots && x <= fn + 130_000
    ensures slots + before >= 0x1_0000 ==> x < fn && x / 51 == fn / 51
  {
    Sum16(slots + before);
    if slots + before < 0x1_0000 {
      x := SelectFrame(fn, slots + before);
    } else {
      x := SelectFrame(fn, slots + before - 0x1_0000);
      RankReflects(x, fn);
    }
  }

  lemma Sum16(n: nat)
    requires n < 0x2_0000
    ensures n % 0x1_0000 == if n < 0x1_0000 then n else n - 0x1_0000
  {
  }

  lemma SelectFrame(fn: Fn, offset: nat) returns (x: nat)
    requires offset < 0x1_0000
    ensures Rank(x) == 27 * (fn / 51) + offset && RachPlace(x % 51)
    ensures x <= fn + 130_000 && x / 51 >= fn / 51
    ensures FrameOfSlot(fn, offset) == x % HYPERFRAME
  {
    SelectPlaces(offset % 27);
    StartOfMultiframe(fn);
    var m, q, k := fn / 51, offset / 27, RachToT3Comb(offset % 27);
    x := 51 * (m + q) + k;
    InMultiframe(m + q, k);
    RankIs(x);
    assert FrameOfSlot(fn, offset) == (51 * m + q * 51 + k) % HYPERFRAME;
  }

  lemma StartOfMultiframe(fn: Fn)
    ensures FnSub(fn, fn % 51) == 51 * (fn / 51) == fn - fn % 51
  {
  }

  lemma InMultiframe(m: nat, k: nat)
    requires k < 51
    ensures (51 * m + k) / 51 == m && (51 * m + k) % 51 == k
  {
  }

  lemma RankOrder(x: nat, y: nat)
    requires RachPlace(x % 51)
    ensures x < y ==> Rank(x) < Rank(y)
  {
    if x < y {
      RankMonotone(x + 1, y);
    }
  }

  lemma RankReflects(x: nat, y: nat)
    ensures Rank(x) < Rank(y) ==> x < y
  {
    if x >= y {
      RankMonotone(y, x);
    }
  }

  lemma Wrapped(fn: Fn, x: nat, d: nat)
    requires x < fn && x / 51 == fn / 51 && d < HYPERFRAME && FnAdd(fn, d) == x % HYPERFRAME
    ensures Rank(fn + d) - Rank(fn) > 0x1_0000
  {
    RemIsMod(fn + d, HYPERFRAME);
    assert fn + d == x + HYPERFRAME;
    RankOfWrap(x);
    SameMultiframe(x, fn);
  }

  lemma RankOfWrap(x: nat)
    ensures Rank(x + HYPERFRAME) == Rank(x) + 27 * (HYPERFRAME / 51)
  {
    RankIs(x);
    RankIs(x + HYPERFRAME);
    PlusHyperframe(x);
  }

  lemma PlusHyperframe(x: nat)
    ensures (x + HYPERFRAME) / 51 == x / 51 + HYPERFRAME / 51 && (x + HYPERFRAME) % 51 == x % 51
  {
  }

  lemma SameMultiframe(x: nat, y: nat)
    requires x / 51 == y / 51
    ensures Rank(y) <= Rank(x) + 27
  {
    RankIs(x);
    RankIs(y);
    CountPlaces(y % 51);
  }

  /** A request at frame 50 for the slot after 65530 others gets frame 33, which is over. */
  lemma WrappedRequest(d: nat)
    requires d < HYPERFRAME
    ensures !Fits16(50, 65530) && Scheduled(50, 65530) == 33
    ensures !Chosen(50, 65530, 33, d)
  {
    PastWhenItWraps(50, 65530, 33, d);
  }
}
