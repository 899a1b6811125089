/** Transmission of a block in four bursts, and its way back through the receiver. */
module SchedTx {
  import opened Options
  import opened Sequences
  import opened ConvCode
  import opened ConvCorrection
  import opened SchedRx

  const ENOENT: int := 2
  const EINVAL: int := 22

  // the bits of a coded block, of its part in one burst, and of the training sequence
  const BLOCK_BITS: nat := 464
  const PART: nat := 116
  const TRAINING: nat := 26

  /** A normal burst: the two halves of a part around the training bits, between tail bits. */
  function NormalBurst(part: seq<ubit>, tsc: seq<ubit>): (burst: seq<ubit>)
    requires |part| == PART && |tsc| == TRAINING
    ensures |burst| == 148
  {
    Zeros(3) + part[..58] + tsc + part[58..] + Zeros(3)
  }

  /** The part of a coded block that goes into one of its bursts. */
  function Part(coded: seq<ubit>, bid: nat): (part: seq<ubit>)
    requires |coded| == BLOCK_BITS && bid < 4
    ensures |part| == PART
  {
    coded[bid * PART..(bid + 1) * PART]
  }

  // ------------------------------------------------------------------ the way back

  /** Where the i-th bit of a part is in the burst. */
  function Place(i: nat): nat
  {
    if i < 58 then 3 + i else 29 + i
  }

  /** The receiver takes each bit of a part from the place where it was sent. */
  lemma PayloadPlace(burst: Burst, part: seq<ubit>, tsc: seq<ubit>, i: nat)
    requires |part| == PART && |tsc| == TRAINING && i < PART
    ensures Place(i) < 148 && NormalBurst(part, tsc)[Place(i)] == part[i]
    ensures |Payload(burst)| == PART && Payload(burst)[i] == burst[Place(i)]
  {
  }

  /** The soft bits of an undisturbed burst are those that were sent. */
  ghost predicate Heard(burst: Burst, sent: seq<ubit>)
    requires |sent| == 148
  {
    forall i :: 0 <= i < 148 ==> burst[i] == SoftBit(sent[i])
  }

  ghost function SoftBits(bits: seq<ubit>): (r: seq<int>)
    ensures |r| == |bits| && forall i :: 0 <= i < |bits| ==> r[i] == SoftBit(bits[i])
  {
    if bits == [] then [] else SoftBits(bits[..|bits| - 1]) + [SoftBit(bits[|bits| - 1])]
  }

  /** So the payload of a burst that was heard is the part that was sent. */
  lemma PayloadIsPart(burst: Burst, part: seq<ubit>, tsc: seq<ubit>)
    requires |part| == PART && |tsc| == TRAINING && Heard(burst, NormalBurst(part, tsc))
    ensures Payload(burst) == SoftBits(part)
  {
    forall i | 0 <= i < PART
      ensures Payload(burst)[i] == SoftBits(part)[i]
    {
      PayloadPlace(burst, part, tsc, i);
    }
  }

  /** The four bursts that were received one after another are those of a coded block. */
  ghost predicate HeardBlock(a: seq<BurstInd>, b: nat, coded: seq<ubit>, tsc: seq<ubit>)
    requires 4 * b + 3 < |a| && |coded| == BLOCK_BITS && |tsc| == TRAINING
  {
    && Heard(a[4 * b].burst, NormalBurst(Part(coded, 0), tsc))
    && Heard(a[4 * b + 1].burst, NormalBurst(Part(coded, 1), tsc))
    && Heard(a[4 * b + 2].burst, NormalBurst(Part(coded, 2), tsc))
    && Heard(a[4 * b + 3].burst, NormalBurst(Part(coded, 3), tsc))
  }

  /** A block that is complete and in its place holds exactly the bits of the coded block that
      was sent in its bursts. */
  lemma BlockIsSent(a: seq<BurstInd>, blocks: seq<Block>, b: nat, coded: seq<ubit>, tsc: seq<ubit>)
    requires InPlace(a, blocks) && b < |blocks| && |coded| == BLOCK_BITS && |tsc| == TRAINING
    requires HeardBlock(a, b, coded, tsc)
    ensures var bursts := blocks[b].bursts;
      |bursts| == 4 && bursts[0] + bursts[1] + bursts[2] + bursts[3] == SoftBits(coded)
    ensures blocks[b].complete && blocks[b].fn == a[4 * b].fn
  {
    assert PlacedAt(a, blocks, b);
    PayloadIsPart(a[4 * b].burst, Part(coded, 0), tsc);
    PayloadIsPart(a[4 * b + 1].burst, Part(coded, 1), tsc);
    PayloadIsPart(a[4 * b + 2].burst, Part(coded, 2), tsc);
    PayloadIsPart(a[4 * b + 3].burst, Part(coded, 3), tsc);
    PartsTogether(coded);
  }

  lemma PartsTogether(coded: seq<ubit>)
    requires |coded| == BLOCK_BITS
    ensures SoftBits(Part(coded, 0)) + SoftBits(Part(coded, 1)) + SoftBits(Part(coded, 2)) + SoftBits(Part(coded, 3))
      == SoftBits(coded)
  {
    FourParts(coded);
    FourJoined(Part(coded, 0), Part(coded, 1), Part(coded, 2), Part(coded, 3));
  }

  lemma FourParts(coded: seq<ubit>)
    requires |coded| == BLOCK_BITS
    ensures Part(coded, 0) + Part(coded, 1) + Part(coded, 2) + Part(coded, 3) == coded
  {
  }

  lemma FourJoined(w: seq<ubit>, x: seq<ubit>, y: seq<ubit>, z: seq<ubit>)
    ensures SoftBits(w) + SoftBits(x) + SoftBits(y) + SoftBits(z) == SoftBits(w + x + y + z)
  {
    SoftBitsJoined(w, x);
    SoftBitsJoined(w + x, y);
    SoftBitsJoined(w + x + y, z);
  }

  lemma SoftBitsJoined(a: seq<ubit>, b: seq<ubit>)
    ensures SoftBits(a + b) == SoftBits(a) + SoftBits(b)
  {
  }

  // ------------------------------------------------------------------ the transmitter

  class Transmitter {
    const tsc: seq<ubit>
    var bursts: seq<ubit>
    var mask: set<nat>

    ghost predicate Valid()
      reads this
    {
      |tsc| == TRAINING && |bursts| == BLOCK_BITS
    }

    constructor (tsc: seq<ubit>)
      requires |tsc| == TRAINING
      ensures Valid() && this.tsc == tsc && mask == {}
    {
      this.tsc := tsc;
      bursts, mask := Zeros(BLOCK_BITS), {};
    }

    /** The next burst of a block. With burst 0 a new block is encoded: `coded` is what the
        encoder makes of it, none when it fails. The other bursts are sent only when burst 0 was. */
    method TxData(bid: nat, coded: Option<seq<ubit>>) returns (rc: int, burst: seq<ubit>)
      requires Valid() && bid < 4 && (coded.Some? ==> |coded.value| == BLOCK_BITS)
      modifies this
      ensures Valid()
      ensures rc == -ENOENT <==> bid > 0 && 0 !in old(mask)
      ensures rc == -EINVAL <==> bid == 0 && coded.None?
      ensures rc == 0 || rc == -ENOENT || rc == -EINVAL
      ensures bursts == if bid == 0 && coded.Some? then coded.value else old(bursts)
      ensures mask == if rc == -ENOENT then old(mask)
                      else (if bid == 0 then ShiftedByFour(old(mask)) else old(mask)) + if rc == 0 then {bid} else {}
      ensures rc == 0 ==> burst == NormalBurst(Part(bursts, bid), tsc)
    {
      burst := [];
      if bid > 0 {
        if 0 !in mask {
          return -ENOENT, [];
        }
      } else {
        mask := ShiftedByFour(mask);
        if coded.None? {
          return -EINVAL, [];
        }
        bursts := coded.value;
      }
      mask := mask + {bid};
      rc, burst := 0, NormalBurst(bursts[bid * 116..bid * 116 + 116], tsc);
    }
  }
}
