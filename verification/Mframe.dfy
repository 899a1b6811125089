/** The multiframes: which logical channel has which frame of a timeslot, and which burst of
    a block of that channel the frame carries. */
module Mframe {
  import opened Options

  datatype Chan =
    | IDLE | FCCH | SCH | BCCH | RACH | CCCH
    | SDCCH4_0 | SDCCH4_1 | SDCCH4_2 | SDCCH4_3
    | SACCH4_0 | SACCH4_1 | SACCH4_2 | SACCH4_3
    | PDTCH | PTCCH

  datatype Frame = Frame(dlChan: Chan, dlBid: nat, ulChan: Chan, ulBid: nat)

  const HYPERFRAME: nat := 26 * 51 * 2048

  /** The frames of a multiframe by their place in it. */
  type Frames = nat -> Frame

  /** The frames of the non-combined CCCH. */
  function FrameBcch(o: nat): Frame
  {
    if o < 20 then BcchPart0(o)
    else if o < 40 then BcchPart1(o)
    else BcchPart2(o)
  }

  function BcchPart0(o: nat): Frame
  {
    match o
    case 0 => Frame(FCCH, 0, RACH, 0)
    case 1 => Frame(SCH, 0, RACH, 0)
    case 2 => Frame(BCCH, 0, RACH, 0)
    case 3 => Frame(BCCH, 1, RACH, 0)
    case 4 => Frame(BCCH, 2, RACH, 0)
    case 5 => Frame(BCCH, 3, RACH, 0)
    case 6 => Frame(CCCH, 0, RACH, 0)
    case 7 => Frame(CCCH, 1, RACH, 0)
    case 8 => Frame(CCCH, 2, RACH, 0)
    case 9 => Frame(CCCH, 3, RACH, 0)
    case 10 => Frame(FCCH, 0, RACH, 0)
    case 11 => Frame(SCH, 0, RACH, 0)
    case 12 => Frame(CCCH, 0, RACH, 0)
    case 13 => Frame(CCCH, 1, RACH, 0)
    case 14 => Frame(CCCH, 2, RACH, 0)
    case 15 => Frame(CCCH, 3, RACH, 0)
    case 16 => Frame(CCCH, 0, RACH, 0)
    case 17 => Frame(CCCH, 1, RACH, 0)
    case 18 => Frame(CCCH, 2, RACH, 0)
    case _ => Frame(CCCH, 3, RACH, 0)
  }

  function BcchPart1(o: nat): Frame
  {
    match o
    case 20 => Frame(FCCH, 0, RACH, 0)
    case 21 => Frame(SCH, 0, RACH, 0)
    case 22 => Frame(CCCH, 0, RACH, 0)
    case 23 => Frame(CCCH, 1, RACH, 0)
    case 24 => Frame(CCCH, 2, RACH, 0)
    case 25 => Frame(CCCH, 3, RACH, 0)
    case 26 => Frame(CCCH, 0, RACH, 0)
    case 27 => Frame(CCCH, 1, RACH, 0)
    case 28 => Frame(CCCH, 2, RACH, 0)
    case 29 => Frame(CCCH, 3, RACH, 0)
    case 30 => Frame(FCCH, 0, RACH, 0)
    case 31 => Frame(SCH, 0, RACH, 0)
    case 32 => Frame(CCCH, 0, RACH, 0)
    case 33 => Frame(CCCH, 1, RACH, 0)
    case 34 => Frame(CCCH, 2, RACH, 0)
    case 35 => Frame(CCCH, 3, RACH, 0)
    case 36 => Frame(CCCH, 0, RACH, 0)
    case 37 => Frame(CCCH, 1, RACH, 0)
    case 38 => Frame(CCCH, 2, RACH, 0)
    case _ => Frame(CCCH, 3, RACH, 0)
  }

  function BcchPart2(o: nat): Frame
  {
    match o
    case 40 => Frame(FCCH, 0, RACH, 0)
    case 41 => Frame(SCH, 0, RACH, 0)
    case 42 => Frame(CCCH, 0, RACH, 0)
    case 43 => Frame(CCCH, 1, RACH, 0)
    case 44 => Frame(CCCH, 2, RACH, 0)
    case 45 => Frame(CCCH, 3, RACH, 0)
    case 46 => Frame(CCCH, 0, RACH, 0)
    case 47 => Frame(CCCH, 1, RACH, 0)
    case 48 => Frame(CCCH, 2, RACH, 0)
    case 49 => Frame(CCCH, 3, RACH, 0)
    case _ => Frame(IDLE, 0, RACH, 0)
  }

  /** The frames of the CCCH combined with SDCCH/4: two 51-frame multiframes. */
  function FrameBcchSdcch4(o: nat): Frame
  {
    if o < 20 then BcchSdcch4Part0(o)
    else if o < 40 then BcchSdcch4Part1(o)
    else if o < 51 then BcchSdcch4Part2(o)
    else if o < 71 then BcchSdcch4Part3(o)
    else if o < 91 then BcchSdcch4Part4(o)
    else BcchSdcch4Part5(o)
  }

  function BcchSdcch4Part0(o: nat): Frame
  {
    match o
    case 0 => Frame(FCCH, 0, SDCCH4_3, 0)
    case 1 => Frame(SCH, 0, SDCCH4_3, 1)
    case 2 => Frame(BCCH, 0, SDCCH4_3, 2)
    case 3 => Frame(BCCH, 1, SDCCH4_3, 3)
    case 4 => Frame(BCCH, 2, RACH, 0)
    case 5 => Frame(BCCH, 3, RACH, 0)
    case 6 => Frame(CCCH, 0, SACCH4_2, 0)
    case 7 => Frame(CCCH, 1, SACCH4_2, 1)
    case 8 => Frame(CCCH, 2, SACCH4_2, 2)
    case 9 => Frame(CCCH, 3, SACCH4_2, 3)
    case 10 => Frame(FCCH, 0, SACCH4_3, 0)
    case 11 => Frame(SCH, 0, SACCH4_3, 1)
    case 12 => Frame(CCCH, 0, SACCH4_3, 2)
    case 13 => Frame(CCCH, 1, SACCH4_3, 3)
    case 14 => Frame(CCCH, 2, RACH, 0)
    case 15 => Frame(CCCH, 3, RACH, 0)
    case 16 => Frame(CCCH, 0, RACH, 0)
    case 17 => Frame(CCCH, 1, RACH, 0)
    case 18 => Frame(CCCH, 2, RACH, 0)
    case _ => Frame(CCCH, 3, RACH, 0)
  }

  function BcchSdcch4Part1(o: nat): Frame
  {
    match o
    case 20 => Frame(FCCH, 0, RACH, 0)
    case 21 => Frame(SCH, 0, RACH, 0)
    case 22 => Frame(SDCCH4_0, 0, RACH, 0)
    case 23 => Frame(SDCCH4_0, 1, RACH, 0)
    case 24 => Frame(SDCCH4_0, 2, RACH, 0)
    case 25 => Frame(SDCCH4_0, 3, RACH, 0)
    case 26 => Frame(SDCCH4_1, 0, RACH, 0)
    case 27 => Frame(SDCCH4_1, 1, RACH, 0)
    case 28 => Frame(SDCCH4_1, 2, RACH, 0)
    case 29 => Frame(SDCCH4_1, 3, RACH, 0)
    case 30 => Frame(FCCH, 0, RACH, 0)
    case 31 => Frame(SCH, 0, RACH, 0)
    case 32 => Frame(SDCCH4_2, 0, RACH, 0)
    case 33 => Frame(SDCCH4_2, 1, RACH, 0)
    case 34 => Frame(SDCCH4_2, 2, RACH, 0)
    case 35 => Frame(SDCCH4_2, 3, RACH, 0)
    case 36 => Frame(SDCCH4_3, 0, RACH, 0)
    case 37 => Frame(SDCCH4_3, 1, SDCCH4_0, 0)
    case 38 => Frame(SDCCH4_3, 2, SDCCH4_0, 1)
    case _ => Frame(SDCCH4_3, 3, SDCCH4_0, 2)
  }

  function BcchSdcch4Part2(o: nat): Frame
  {
    match o
    case 40 => Frame(FCCH, 0, SDCCH4_0, 3)
    case 41 => Frame(SCH, 0, SDCCH4_1, 0)
    case 42 => Frame(SACCH4_0, 0, SDCCH4_1, 1)
    case 43 => Frame(SACCH4_0, 1, SDCCH4_1, 2)
    case 44 => Frame(SACCH4_0, 2, SDCCH4_1, 3)
    case 45 => Frame(SACCH4_0, 3, RACH, 0)
    case 46 => Frame(SACCH4_1, 0, RACH, 0)
    case 47 => Frame(SACCH4_1, 1, SDCCH4_2, 0)
    case 48 => Frame(SACCH4_1, 2, SDCCH4_2, 1)
    case 49 => Frame(SACCH4_1, 3, SDCCH4_2, 2)
    case _ => Frame(IDLE, 0, SDCCH4_2, 3)
  }

  function BcchSdcch4Part3(o: nat): Frame
  {
    match o
    case 51 => Frame(FCCH, 0, SDCCH4_3, 0)
    case 52 => Frame(SCH, 0, SDCCH4_3, 1)
    case 53 => Frame(BCCH, 0, SDCCH4_3, 2)
    case 54 => Frame(BCCH, 1, SDCCH4_3, 3)
    case 55 => Frame(BCCH, 2, RACH, 0)
    case 56 => Frame(BCCH, 3, RACH, 0)
    case 57 => Frame(CCCH, 0, SACCH4_0, 0)
    case 58 => Frame(CCCH, 1, SACCH4_0, 1)
    case 59 => Frame(CCCH, 2, SACCH4_0, 2)
    case 60 => Frame(CCCH, 3, SACCH4_0, 3)
    case 61 => Frame(FCCH, 0, SACCH4_1, 0)
    case 62 => Frame(SCH, 0, SACCH4_1, 1)
    case 63 => Frame(CCCH, 0, SACCH4_1, 2)
    case 64 => Frame(CCCH, 1, SACCH4_1, 3)
    case 65 => Frame(CCCH, 2, RACH, 0)
    case 66 => Frame(CCCH, 3, RACH, 0)
    case 67 => Frame(CCCH, 0, RACH, 0)
    case 68 => Frame(CCCH, 1, RACH, 0)
    case 69 => Frame(CCCH, 2, RACH, 0)
    case _ => Frame(CCCH, 3, RACH, 0)
  }

  function BcchSdcch4Part4(o: nat): Frame
  {
    match o
    case 71 => Frame(FCCH, 0, RACH, 0)
    case 72 => Frame(SCH, 0, RACH, 0)
    case 73 => Frame(SDCCH4_0, 0, RACH, 0)
    case 74 => Frame(SDCCH4_0, 1, RACH, 0)
    case 75 => Frame(SDCCH4_0, 2, RACH, 0)
    case 76 => Frame(SDCCH4_0, 3, RACH, 0)
    case 77 => Frame(SDCCH4_1, 0, RACH, 0)
    case 78 => Frame(SDCCH4_1, 1, RACH, 0)
    case 79 => Frame(SDCCH4_1, 2, RACH, 0)
    case 80 => Frame(SDCCH4_1, 3, RACH, 0)
    case 81 => Frame(FCCH, 0, RACH, 0)
    case 82 => Frame(SCH, 0, RACH, 0)
    case 83 => Frame(SDCCH4_2, 0, RACH, 0)
    case 84 => Frame(SDCCH4_2, 1, RACH, 0)
    case 85 => Frame(SDCCH4_2, 2, RACH, 0)
    case 86 => Frame(SDCCH4_2, 3, RACH, 0)
    case 87 => Frame(SDCCH4_3, 0, RACH, 0)
    case 88 => Frame(SDCCH4_3, 1, SDCCH4_0, 0)
    case 89 => Frame(SDCCH4_3, 2, SDCCH4_0, 1)
    case _ => Frame(SDCCH4_3, 3, SDCCH4_0, 2)
  }

  function BcchSdcch4Part5(o: nat): Frame
  {
    match o
    case 91 => Frame(FCCH, 0, SDCCH4_0, 3)
    case 92 => Frame(SCH, 0, SDCCH4_1, 0)
    case 93 => Frame(SACCH4_2, 0, SDCCH4_1, 1)
    case 94 => Frame(SACCH4_2, 1, SDCCH4_1, 2)
    case 95 => Frame(SACCH4_2, 2, SDCCH4_1, 3)
    case 96 => Frame(SACCH4_2, 3, RACH, 0)
    case 97 => Frame(SACCH4_3, 0, RACH, 0)
    case 98 => Frame(SACCH4_3, 1, SDCCH4_2, 0)
    case 99 => Frame(SACCH4_3, 2, SDCCH4_2, 1)
    case 100 => Frame(SACCH4_3, 3, SDCCH4_2, 2)
    case _ => Frame(IDLE, 0, SDCCH4_2, 3)
  }

  /** The frames of the packet data channel: four 26-frame multiframes. */
  function FramePdch(o: nat): Frame
  {
    if o < 26 then PdchPart0(o)
    else if o < 52 then PdchPart1(o)
    else if o < 78 then PdchPart2(o)
    else PdchPart3(o)
  }

  function PdchPart0(o: nat): Frame
  {
    match o
    case 0 => Frame(PDTCH, 0, PDTCH, 0)
    case 1 => Frame(PDTCH, 1, PDTCH, 1)
    case 2 => Frame(PDTCH, 2, PDTCH, 2)
    case 3 => Frame(PDTCH, 3, PDTCH, 3)
    case 4 => Frame(PDTCH, 0, PDTCH, 0)
    case 5 => Frame(PDTCH, 1, PDTCH, 1)
    case 6 => Frame(PDTCH, 2, PDTCH, 2)
    case 7 => Frame(PDTCH, 3, PDTCH, 3)
    case 8 => Frame(PDTCH, 0, PDTCH, 0)
    case 9 => Frame(PDTCH, 1, PDTCH, 1)
    case 10 => Frame(PDTCH, 2, PDTCH, 2)
    case 11 => Frame(PDTCH, 3, PDTCH, 3)
    case 12 => Frame(PTCCH, 0, PTCCH, 0)
    case 13 => Frame(PDTCH, 0, PDTCH, 0)
    case 14 => Frame(PDTCH, 1, PDTCH, 1)
    case 15 => Frame(PDTCH, 2, PDTCH, 2)
    case 16 => Frame(PDTCH, 3, PDTCH, 3)
    case 17 => Frame(PDTCH, 0, PDTCH, 0)
    case 18 => Frame(PDTCH, 1, PDTCH, 1)
    case 19 => Frame(PDTCH, 2, PDTCH, 2)
    case 20 => Frame(PDTCH, 3, PDTCH, 3)
    case 21 => Frame(PDTCH, 0, PDTCH, 0)
    case 22 => Frame(PDTCH, 1, PDTCH, 1)
    case 23 => Frame(PDTCH, 2, PDTCH, 2)
    case 24 => Frame(PDTCH, 3, PDTCH, 3)
    case _ => Frame(IDLE, 0, IDLE, 0)
  }

  function PdchPart1(o: nat): Frame
  {
    match o
    case 26 => Frame(PDTCH, 0, PDTCH, 0)
    case 27 => Frame(PDTCH, 1, PDTCH, 1)
    case 28 => Frame(PDTCH, 2, PDTCH, 2)
    case 29 => Frame(PDTCH, 3, PDTCH, 3)
    case 30 => Frame(PDTCH, 0, PDTCH, 0)
    case 31 => Frame(PDTCH, 1, PDTCH, 1)
    case 32 => Frame(PDTCH, 2, PDTCH, 2)
    case 33 => Frame(PDTCH, 3, PDTCH, 3)
    case 34 => Frame(PDTCH, 0, PDTCH, 0)
    case 35 => Frame(PDTCH, 1, PDTCH, 1)
    case 36 => Frame(PDTCH, 2, PDTCH, 2)
    case 37 => Frame(PDTCH, 3, PDTCH, 3)
    case 38 => Frame(PTCCH, 1, PTCCH, 1)
    case 39 => Frame(PDTCH, 0, PDTCH, 0)
    case 40 => Frame(PDTCH, 1, PDTCH, 1)
    case 41 => Frame(PDTCH, 2, PDTCH, 2)
    case 42 => Frame(PDTCH, 3, PDTCH, 3)
    case 43 => Frame(PDTCH, 0, PDTCH, 0)
    case 44 => Frame(PDTCH, 1, PDTCH, 1)
    case 45 => Frame(PDTCH, 2, PDTCH, 2)
    case 46 => Frame(PDTCH, 3, PDTCH, 3)
    case 47 => Frame(PDTCH, 0, PDTCH, 0)
    case 48 => Frame(PDTCH, 1, PDTCH, 1)
    case 49 => Frame(PDTCH, 2, PDTCH, 2)
    case 50 => Frame(PDTCH, 3, PDTCH, 3)
    case _ => Frame(IDLE, 0, IDLE, 0)
  }

  function PdchPart2(o: nat): Frame
  {
    match o
    case 52 => Frame(PDTCH, 0, PDTCH, 0)
    case 53 => Frame(PDTCH, 1, PDTCH, 1)
    case 54 => Frame(PDTCH, 2, PDTCH, 2)
    case 55 => Frame(PDTCH, 3, PDTCH, 3)
    case 56 => Frame(PDTCH, 0, PDTCH, 0)
    case 57 => Frame(PDTCH, 1, PDTCH, 1)
    case 58 => Frame(PDTCH, 2, PDTCH, 2)
    case 59 => Frame(PDTCH, 3, PDTCH, 3)
    case 60 => Frame(PDTCH, 0, PDTCH, 0)
    case 61 => Frame(PDTCH, 1, PDTCH, 1)
    case 62 => Frame(PDTCH, 2, PDTCH, 2)
    case 63 => Frame(PDTCH, 3, PDTCH, 3)
    case 64 => Frame(PTCCH, 2, PTCCH, 2)
    case 65 => Frame(PDTCH, 0, PDTCH, 0)
    case 66 => Frame(PDTCH, 1, PDTCH, 1)
    case 67 => Frame(PDTCH, 2, PDTCH, 2)
    case 68 => Frame(PDTCH, 3, PDTCH, 3)
    case 69 => Frame(PDTCH, 0, PDTCH, 0)
    case 70 => Frame(PDTCH, 1, PDTCH, 1)
    case 71 => Frame(PDTCH, 2, PDTCH, 2)
    case 72 => Frame(PDTCH, 3, PDTCH, 3)
    case 73 => Frame(PDTCH, 0, PDTCH, 0)
    case 74 => Frame(PDTCH, 1, PDTCH, 1)
    case 75 => Frame(PDTCH, 2, PDTCH, 2)
    case 76 => Frame(PDTCH, 3, PDTCH, 3)
    case _ => Frame(IDLE, 0, IDLE, 0)
  }

  function PdchPart3(o: nat): Frame
  {
    match o
    case 78 => Frame(PDTCH, 0, PDTCH, 0)
    case 79 => Frame(PDTCH, 1, PDTCH, 1)
    case 80 => Frame(PDTCH, 2, PDTCH, 2)
    case 81 => Frame(PDTCH, 3, PDTCH, 3)
    case 82 => Frame(PDTCH, 0, PDTCH, 0)
    case 83 => Frame(PDTCH, 1, PDTCH, 1)
    case 84 => Frame(PDTCH, 2, PDTCH, 2)
    case 85 => Frame(PDTCH, 3, PDTCH, 3)
    case 86 => Frame(PDTCH, 0, PDTCH, 0)
    case 87 => Frame(PDTCH, 1, PDTCH, 1)
    case 88 => Frame(PDTCH, 2, PDTCH, 2)
    case 89 => Frame(PDTCH, 3, PDTCH, 3)
    case 90 => Frame(PTCCH, 3, PTCCH, 3)
    case 91 => Frame(PDTCH, 0, PDTCH, 0)
    case 92 => Frame(PDTCH, 1, PDTCH, 1)
    case 93 => Frame(PDTCH, 2, PDTCH, 2)
    case 94 => Frame(PDTCH, 3, PDTCH, 3)
    case 95 => Frame(PDTCH, 0, PDTCH, 0)
    case 96 => Frame(PDTCH, 1, PDTCH, 1)
    case 97 => Frame(PDTCH, 2, PDTCH, 2)
    case 98 => Frame(PDTCH, 3, PDTCH, 3)
    case 99 => Frame(PDTCH, 0, PDTCH, 0)
    case 100 => Frame(PDTCH, 1, PDTCH, 1)
    case 101 => Frame(PDTCH, 2, PDTCH, 2)
    case 102 => Frame(PDTCH, 3, PDTCH, 3)
    case _ => Frame(IDLE, 0, IDLE, 0)
  }

  /** The frames of the other multiframes are not part of this model. */
  function OtherFrames(o: nat): Frame
  {
    Frame(IDLE, 0, IDLE, 0)
  }

  // ------------------------------------------------------------------ layouts

  datatype Config =
    | PCHAN_NONE | PCHAN_CCCH | PCHAN_CCCH_SDCCH4 | PCHAN_CCCH_SDCCH4_CBCH
    | PCHAN_SDCCH8_SACCH8C | PCHAN_SDCCH8_SACCH8C_CBCH | PCHAN_TCH_F | PCHAN_TCH_H | PCHAN_PDCH

  datatype Multiframe = Multiframe(config: Config, period: nat, slots: set<int>, frames: Frames)

  const ALL_SLOTS: set<int> := {0, 1, 2, 3, 4, 5, 6, 7}

  const LAYOUTS: nat := 19

  function LayoutAt(i: nat): Multiframe
  {
    match i
    case 0 => Multiframe(PCHAN_NONE, 0, ALL_SLOTS, OtherFrames)
    case 1 => Multiframe(PCHAN_CCCH, 51, ALL_SLOTS, FrameBcch)
    case 2 => Multiframe(PCHAN_CCCH_SDCCH4, 102, ALL_SLOTS, FrameBcchSdcch4)
    case 3 => Multiframe(PCHAN_CCCH_SDCCH4_CBCH, 102, ALL_SLOTS, OtherFrames)
    case 4 => Multiframe(PCHAN_SDCCH8_SACCH8C, 102, ALL_SLOTS, OtherFrames)
    case 5 => Multiframe(PCHAN_SDCCH8_SACCH8C_CBCH, 102, ALL_SLOTS, OtherFrames)
    case 6 => Multiframe(PCHAN_TCH_F, 104, {0}, OtherFrames)
    case 7 => Multiframe(PCHAN_TCH_F, 104, {1}, OtherFrames)
    case 8 => Multiframe(PCHAN_TCH_F, 104, {2}, OtherFrames)
    case 9 => Multiframe(PCHAN_TCH_F, 104, {3}, OtherFrames)
    case 10 => Multiframe(PCHAN_TCH_F, 104, {4}, OtherFrames)
    case 11 => Multiframe(PCHAN_TCH_F, 104, {5}, OtherFrames)
    case 12 => Multiframe(PCHAN_TCH_F, 104, {6}, OtherFrames)
    case 13 => Multiframe(PCHAN_TCH_F, 104, {7}, OtherFrames)
    case 14 => Multiframe(PCHAN_TCH_H, 104, {0, 1}, OtherFrames)
    case 15 => Multiframe(PCHAN_TCH_H, 104, {2, 3}, OtherFrames)
    case 16 => Multiframe(PCHAN_TCH_H, 104, {4, 5}, OtherFrames)
    case 17 => Multiframe(PCHAN_TCH_H, 104, {6, 7}, OtherFrames)
    case _ => Multiframe(PCHAN_PDCH, 104, ALL_SLOTS, FramePdch)
  }

  /** The layout of a channel combination on a timeslot. There is exactly one for every
      combination and timeslot. */
  method MframeLayout(config: Config, tn: int) returns (mf: Option<Multiframe>)
    ensures mf.None? <==> !(0 <= tn < 8)
    ensures mf.Some? ==> exists i: nat :: i < LAYOUTS && LayoutAt(i) == mf.value
    ensures mf.Some? ==> mf.value.config == config && tn in mf.value.slots
    ensures forall i: nat :: i < LAYOUTS && LayoutAt(i).config == config && tn in LayoutAt(i).slots ==> mf == Some(LayoutAt(i))
  {
    var i := 0;
    while i < LAYOUTS
      invariant i <= LAYOUTS
      invariant forall j: nat :: j < i ==> !(LayoutAt(j).config == config && tn in LayoutAt(j).slots)
    {
      if LayoutAt(i).config == config && tn in LayoutAt(i).slots {
        forall j: nat | j < LAYOUTS && LayoutAt(j).config == config && tn in LayoutAt(j).slots
          ensures j == i
        {
          LayoutsAreDisjoint(i, j, tn);
        }
        return Some(LayoutAt(i));
      }
      i := i + 1;
    }
    if 0 <= tn < 8 {
      LayoutExists(config, tn);
    }
    mf := None;
  }

  lemma LayoutsAreDisjoint(i: nat, j: nat, tn: int)
    requires i < LAYOUTS && j < LAYOUTS && LayoutAt(i).config == LayoutAt(j).config
    requires tn in LayoutAt(i).slots && tn in LayoutAt(j).slots
    ensures i == j && 0 <= tn < 8
  {
  }

  lemma LayoutExists(config: Config, tn: int)
    requires 0 <= tn < 8
    ensures exists i: nat :: i < LAYOUTS && LayoutAt(i).config == config && tn in LayoutAt(i).slots
  {
    var i := match config
      case PCHAN_NONE => 0
      case PCHAN_CCCH => 1
      case PCHAN_CCCH_SDCCH4 => 2
      case PCHAN_CCCH_SDCCH4_CBCH => 3
      case PCHAN_SDCCH8_SACCH8C => 4
      case PCHAN_SDCCH8_SACCH8C_CBCH => 5
      case PCHAN_TCH_F => 6 + tn
      case PCHAN_TCH_H => 14 + tn / 2
      case PCHAN_PDCH => 18;
    assert LayoutAt(i).config == config && tn in LayoutAt(i).slots;
  }

  /** A multiframe fits the hyperframe a whole number of times, so that a frame number tells
      the place in the multiframe across the wrap as well. */
  lemma PeriodDividesHyperframe(i: nat)
    requires 0 < i < LAYOUTS
    ensures LayoutAt(i).period > 0 && HYPERFRAME % LayoutAt(i).period == 0
    ensures LayoutAt(i).period <= 104
    ensures var mf := LayoutAt(i);
      mf.period % (if mf.config.PCHAN_TCH_F? || mf.config.PCHAN_TCH_H? || mf.config.PCHAN_PDCH? then 26 else 51) == 0
  {
  }

  // ------------------------------------------------------------------ blocks

  /** The bursts of a channel's blocks are on consecutive frames, numbered from 0 to 3. */
  ghost predicate BlocksOfFour(frames: Frames, period: nat, c: Chan)
  {
    forall o: nat {:trigger InBlock(frames, period, c, o)} :: o < period && frames(o).dlChan == c ==> InBlock(frames, period, c, o)
  }

  ghost predicate InBlock(frames: Frames, period: nat, c: Chan, o: nat)
  {
    var b := frames(o).dlBid;
    && b < 4
    && (b < 3 ==> o + 1 < period && frames(o + 1).dlChan == c && frames(o + 1).dlBid == b + 1)
    && (b > 0 ==> o > 0 && frames(o - 1).dlChan == c && frames(o - 1).dlBid == b - 1)
  }

  /** The channels of the tables whose blocks have four bursts on consecutive frames. */
  predicate HasBlocks(c: Chan)
  {
    !c.IDLE? && !c.FCCH? && !c.SCH? && !c.RACH? && !c.PTCCH?
  }

  /** Frame o of a part of a table is in a block whose bursts are numbered from 0 to 3. */
  ghost predicate Numbered(part: Frames, from: nat, to: nat, o: nat)
    requires from <= o < to
  {
    var f := part(o);
    && f.dlBid < 4
    && (f.dlBid < 3 ==> o + 1 < to && part(o + 1).dlChan == f.dlChan && part(o + 1).dlBid == f.dlBid + 1)
    && (f.dlBid > 0 ==> o > from && part(o - 1).dlChan == f.dlChan && part(o - 1).dlBid == f.dlBid - 1)
  }

  lemma BcchPart0Numbered(o: nat)
    requires o < 20 && HasBlocks(BcchPart0(o).dlChan)
    ensures Numbered(BcchPart0, 0, 20, o)
  {
  }

  lemma BcchPart1Numbered(o: nat)
    requires 20 <= o < 40 && HasBlocks(BcchPart1(o).dlChan)
    ensures Numbered(BcchPart1, 20, 40, o)
  {
  }

  lemma BcchPart2Numbered(o: nat)
    requires 40 <= o < 51 && HasBlocks(BcchPart2(o).dlChan)
    ensures Numbered(BcchPart2, 40, 51, o)
  {
  }

  lemma BcchBlocks(c: Chan)
    requires HasBlocks(c)
    ensures BlocksOfFour(FrameBcch, 51, c)
  {
    forall o: nat | o < 51 && FrameBcch(o).dlChan == c
      ensures InBlock(FrameBcch, 51, c, o)
    {
      if o < 20 { BcchPart0Numbered(o); }
      else if o < 40 { BcchPart1Numbered(o); }
      else { BcchPart2Numbered(o); }
    }
  }

  lemma BcchSdcch4Part0Numbered(o: nat)
    requires o < 20 && HasBlocks(BcchSdcch4Part0(o).dlChan)
    ensures Numbered(BcchSdcch4Part0, 0, 20, o)
  {
  }

  lemma BcchSdcch4Part1Numbered(o: nat)
    requires 20 <= o < 40 && HasBlocks(BcchSdcch4Part1(o).dlChan)
    ensures Numbered(BcchSdcch4Part1, 20, 40, o)
  {
  }

  lemma BcchSdcch4Part2Numbered(o: nat)
    requires 40 <= o < 51 && HasBlocks(BcchSdcch4Part2(o).dlChan)
    ensures Numbered(BcchSdcch4Part2, 40, 51, o)
  {
  }

  lemma BcchSdcch4Part3Numbered(o: nat)
    requires 51 <= o < 71 && HasBlocks(BcchSdcch4Part3(o).dlChan)
    ensures Numbered(BcchSdcch4Part3, 51, 71, o)
  {
  }

  lemma BcchSdcch4Part4Numbered(o: nat)
    requires 71 <= o < 91 && HasBlocks(BcchSdcch4Part4(o).dlChan)
    ensures Numbered(BcchSdcch4Part4, 71, 91, o)
  {
  }

  lemma BcchSdcch4Part5Numbered(o: nat)
    requires 91 <= o < 102 && HasBlocks(BcchSdcch4Part5(o).dlChan)
    ensures Numbered(BcchSdcch4Part5, 91, 102, o)
  {
  }

  lemma BcchSdcch4Blocks(c: Chan)
    requires HasBlocks(c)
    ensures BlocksOfFour(FrameBcchSdcch4, 102, c)
  {
    forall o: nat | o < 102 && FrameBcchSdcch4(o).dlChan == c
      ensures InBlock(FrameBcchSdcch4, 102, c, o)
    {
      if o < 20 { BcchSdcch4Part0Numbered(o); }
      else if o < 40 { BcchSdcch4Part1Numbered(o); }
      else if o < 51 { BcchSdcch4Part2Numbered(o); }
      else if o < 71 { BcchSdcch4Part3Numbered(o); }
      else if o < 91 { BcchSdcch4Part4Numbered(o); }
      else { BcchSdcch4Part5Numbered(o); }
    }
  }

  lemma PdchPart0Numbered(o: nat)
    requires o < 26 && HasBlocks(PdchPart0(o).dlChan)
    ensures Numbered(PdchPart0, 0, 26, o)
  {
  }

  lemma PdchPart1Numbered(o: nat)
    requires 26 <= o < 52 && HasBlocks(PdchPart1(o).dlChan)
    ensures Numbered(PdchPart1, 26, 52, o)
  {
  }

  lemma PdchPart2Numbered(o: nat)
    requires 52 <= o < 78 && HasBlocks(PdchPart2(o).dlChan)
    ensures Numbered(PdchPart2, 52, 78, o)
  {
  }

  lemma PdchPart3Numbered(o: nat)
    requires 78 <= o < 104 && HasBlocks(PdchPart3(o).dlChan)
    ensures Numbered(PdchPart3, 78, 104, o)
  {
  }

  lemma PdchBlocks(c: Chan)
    requires HasBlocks(c)
    ensures BlocksOfFour(FramePdch, 104, c)
  {
    forall o: nat | o < 104 && FramePdch(o).dlChan == c
      ensures InBlock(FramePdch, 104, c, o)
    {
      if o < 26 { PdchPart0Numbered(o); }
      else if o < 52 { PdchPart1Numbered(o); }
      else if o < 78 { PdchPart2Numbered(o); }
      else { PdchPart3Numbered(o); }
    }
  }
}
