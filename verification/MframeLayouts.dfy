/** The layouts as 3GPP TS 45.002 describes them, and the frame number as the three counters
    that it is made of. */
module MframeLayouts {
  import opened Mframe
  import opened Remainders

  // ------------------------------------------------------------------ the combined layout

  /** The place in one of the two 51-frame multiframes. */
  function InHalf(o: nat): (k: nat)
    requires o < 102
    ensures k == o % 51
  {
    if o < 51 then o else o - 51
  }

  /** The place in a group of ten frames. */
  function InTen(k: nat): (g: nat)
    requires k < 51
    ensures g == k % 10
  {
    if k < 10 then k else if k < 20 then k - 10 else if k < 30 then k - 20 else if k < 40 then k - 30
    else if k < 50 then k - 40 else 0
  }

  /** The downlink of a pair of 51-frame multiframes: FCCH and SCH open each group of ten
      frames. The SACCH of the first two subchannels is in the first one. */
  function CombinedChan(o: nat): Chan
    requires o < 102
  {
    var k, second := InHalf(o), o >= 51;
    if k == 50 then IDLE
    else if InTen(k) == 0 then FCCH
    else if InTen(k) == 1 then SCH
    else if k < 6 then BCCH
    else if k < 20 then CCCH
    else if k < 26 then SDCCH4_0
    else if k < 30 then SDCCH4_1
    else if k < 36 then SDCCH4_2
    else if k < 40 then SDCCH4_3
    else if k < 46 then if second then SACCH4_2 else SACCH4_0
    else if second then SACCH4_3 else SACCH4_1
  }

  /** Each block takes four frames, and each group of ten holds two after FCCH and SCH. */
  function BurstOf(k: nat): nat
    requires k < 51
  {
    var g := InTen(k);
    if k == 50 || g < 2 then 0 else if g < 6 then g - 2 else g - 6
  }

  predicate Dedicated(c: Chan)
  {
    || c.SDCCH4_0? || c.SDCCH4_1? || c.SDCCH4_2? || c.SDCCH4_3?
    || c.SACCH4_0? || c.SACCH4_1? || c.SACCH4_2? || c.SACCH4_3?
  }

  /** The uplink 15 frames after frame o: that of a dedicated channel is its downlink, and the
      other uplink frames are the RACH. */
  function UplinkAfter(o: nat): (Chan, nat)
    requires o < 102
  {
    if Dedicated(CombinedChan(o)) then (CombinedChan(o), BurstOf(InHalf(o))) else (RACH, 0)
  }

  function CombinedFrame(o: nat): Frame
    requires o < 102
  {
    var (ul, bid) := UplinkAfter(if o < 15 then o + 87 else o - 15);
    Frame(CombinedChan(o), BurstOf(InHalf(o)), ul, bid)
  }

  lemma CombinedIsPart0(o: nat)
    requires o < 20
    ensures BcchSdcch4Part0(o) == CombinedFrame(o)
  {
  }

  lemma CombinedIsPart1(o: nat)
    requires 20 <= o < 40
    ensures BcchSdcch4Part1(o) == CombinedFrame(o)
  {
  }

  lemma CombinedIsPart2(o: nat)
    requires 40 <= o < 51
    ensures BcchSdcch4Part2(o) == CombinedFrame(o)
  {
  }

  lemma CombinedIsPart3(o: nat)
    requires 51 <= o < 71
    ensures BcchSdcch4Part3(o) == CombinedFrame(o)
  {
  }

  lemma CombinedIsPart4(o: nat)
    requires 71 <= o < 91
    ensures BcchSdcch4Part4(o) == CombinedFrame(o)
  {
  }

  lemma CombinedIsPart5(o: nat)
    requires 91 <= o < 102
    ensures BcchSdcch4Part5(o) == CombinedFrame(o)
  {
  }

  /** The table of the combined layout is as described. */
  lemma CombinedIs(o: nat)
    requires o < 102
    ensures FrameBcchSdcch4(o) == CombinedFrame(o)
  {
    if o < 20 { CombinedIsPart0(o); }
    else if o < 40 { CombinedIsPart1(o); }
    else if o < 51 { CombinedIsPart2(o); }
    else if o < 71 { CombinedIsPart3(o); }
    else if o < 91 { CombinedIsPart4(o); }
    else { CombinedIsPart5(o); }
  }

  /** So a dedicated channel has its uplink, burst by burst, 15 frames after its downlink. */
  lemma UplinkFollows(o: nat)
    requires o < 102 && Dedicated(FrameBcchSdcch4(o).dlChan)
    ensures var f, g := FrameBcchSdcch4(o), FrameBcchSdcch4((o + 15) % 102);
      g.ulChan == f.dlChan && g.ulBid == f.dlBid
  {
    var u := (o + 15) % 102;
    CombinedIs(o);
    CombinedIs(u);
    UplinkOf(o, u, FrameBcchSdcch4(o), FrameBcchSdcch4(u));
  }

  lemma UplinkOf(o: nat, u: nat, f: Frame, g: Frame)
    requires o < 102 && u == (o + 15) % 102 && f == CombinedFrame(o) && g == CombinedFrame(u) && Dedicated(f.dlChan)
    ensures g.ulChan == f.dlChan && g.ulBid == f.dlBid
  {
    Back(o, u);
    UplinkIs(o, u, g);
  }

  lemma Back(o: nat, u: nat)
    requires o < 102 && u == (o + 15) % 102
    ensures u < 102 && o == if u < 15 then u + 87 else u - 15
  {
  }

  lemma UplinkIs(o: nat, u: nat, g: Frame)
    requires u < 102 && g == CombinedFrame(u) && o == if u < 15 then u + 87 else u - 15
    ensures (g.ulChan, g.ulBid) == UplinkAfter(o)
  {
  }

  // ------------------------------------------------------------------ the other two

  /** Without dedicated channels, the blocks after the BCCH are the CCCH. */
  function BcchFrame(o: nat): Frame
    requires o < 51
  {
    var c := if o == 50 then IDLE else if InTen(o) == 0 then FCCH else if InTen(o) == 1 then SCH
             else if o < 6 then BCCH else CCCH;
    Frame(c, BurstOf(o), RACH, 0)
  }

  lemma BcchIsPart0(o: nat)
    requires o < 20
    ensures BcchPart0(o) == BcchFrame(o)
  {
  }

  lemma BcchIsPart1(o: nat)
    requires 20 <= o < 40
    ensures BcchPart1(o) == BcchFrame(o)
  {
  }

  lemma BcchIsPart2(o: nat)
    requires 40 <= o < 51
    ensures BcchPart2(o) == BcchFrame(o)
  {
  }

  lemma BcchIs(o: nat)
    requires o < 51
    ensures FrameBcch(o) == BcchFrame(o)
  {
    if o < 20 { BcchIsPart0(o); }
    else if o < 40 { BcchIsPart1(o); }
    else { BcchIsPart2(o); }
  }

  /** In each 26 frames of the packet channel the 13th is the PTCCH, whose four bursts are spread
      over the multiframe, and the last is idle; the uplink is as the downlink. */
  function PdchFrame(o: nat): Frame
    requires o < 104
  {
    var k := o % 26;
    if k == 25 then Frame(IDLE, 0, IDLE, 0)
    else if k == 12 then Frame(PTCCH, o / 26, PTCCH, o / 26)
    else if k < 12 then Frame(PDTCH, k % 4, PDTCH, k % 4)
    else Frame(PDTCH, (k - 13) % 4, PDTCH, (k - 13) % 4)
  }

  lemma PdchIsPart0(o: nat)
    requires o < 26
    ensures PdchPart0(o) == PdchFrame(o)
  {
  }

  lemma PdchIsPart1(o: nat)
    requires 26 <= o < 52
    ensures PdchPart1(o) == PdchFrame(o)
  {
  }

  lemma PdchIsPart2(o: nat)
    requires 52 <= o < 78
    ensures PdchPart2(o) == PdchFrame(o)
  {
  }

  lemma PdchIsPart3(o: nat)
    requires 78 <= o < 104
    ensures PdchPart3(o) == PdchFrame(o)
  {
  }

  lemma PdchIs(o: nat)
    requires o < 104
    ensures FramePdch(o) == PdchFrame(o)
  {
    if o < 26 { PdchIsPart0(o); }
    else if o < 52 { PdchIsPart1(o); }
    else if o < 78 { PdchIsPart2(o); }
    else { PdchIsPart3(o); }
  }

  // ------------------------------------------------------------------ frame numbers

  /** The superframe of a frame number, and its places in the 26- and the 51-frame multiframe. */
  datatype GsmTime = GsmTime(t1: nat, t2: nat, t3: nat)

  function FnToGsmTime(fn: nat): GsmTime
  {
    GsmTime(fn / (26 * 51), fn % 26, fn % 51)
  }

  function GsmTimeToFn(t: GsmTime): nat
    requires t.t2 < 26
  {
    51 * ((t.t3 - t.t2 + 26) % 26) + t.t3 + 26 * 51 * t.t1
  }

  /** Every time with its places below their bounds is that of the frame number made of it; the
      superframes below 2048 are those of the hyperframe. */
  lemma TimeOfFn(t: GsmTime)
    requires t.t2 < 26 && t.t3 < 51
    ensures FnToGsmTime(GsmTimeToFn(t)) == t
    ensures GsmTimeToFn(t) < HYPERFRAME <==> t.t1 < 2048
  {
    var d, q := (t.t3 - t.t2 + 26) % 26, (t.t3 - t.t2 + 26) / 26;
    var fn := 51 * d + t.t3 + 1326 * t.t1;
    QuotientIs(fn, 1326, t.t1, 51 * d + t.t3);
    QuotientIs(fn, 26, 51 * t.t1 + 2 * d + q - 1, t.t2);
    QuotientIs(fn, 51, 26 * t.t1 + d, t.t3);
  }

  /** Every frame number is told by its time. */
  lemma FnOfTime(fn: nat)
    ensures GsmTimeToFn(FnToGsmTime(fn)) == fn
  {
    var t := FnToGsmTime(fn);
    TimeOfFn(t);
    SameTime(GsmTimeToFn(t), fn);
  }

  lemma SameTime(g: nat, h: nat)
    requires FnToGsmTime(g) == FnToGsmTime(h)
    ensures g == h
  {
    OnlyOne(g - h, g / 26 - h / 26, g / 51 - h / 51);
  }

  lemma OnlyOne(x: int, a: int, b: int)
    requires x == 26 * a == 51 * b && -1326 < x < 1326
    ensures x == 0
  {
    assert b == 26 * (2 * b - a);
    assert x == 1326 * (2 * b - a);
  }
}
