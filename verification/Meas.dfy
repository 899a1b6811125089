/** The history of measurements of a channel and their average. */
module Meas {
  import opened Mframe
  import opened Tdma
  import opened Remainders

  type int16 = x: int | -0x8000 <= x < 0x8000
  type int8 = x: int | -0x80 <= x < 0x80

  datatype MeasSet = MeasSet(fn: nat, toa256: int16, rssi: int8)

  const SIZE: int := 24
  const NO_MEAS: MeasSet := MeasSet(0, 0, 0)

  /** The i-th last of the measurements made, zeroes before the first. */
  function Recent(pushed: seq<MeasSet>, i: nat): MeasSet
  {
    if i < |pushed| then pushed[|pushed| - 1 - i] else NO_MEAS
  }

  function SumToa(pushed: seq<MeasSet>, n: nat): (s: int)
    ensures -0x8000 * n <= s <= 0x7fff * n
  {
    if n == 0 then 0 else SumToa(pushed, n - 1) + Recent(pushed, n - 1).toa256
  }

  function SumRssi(pushed: seq<MeasSet>, n: nat): (s: int)
    ensures -0x80 * n <= s <= 0x7f * n
  {
    if n == 0 then 0 else SumRssi(pushed, n - 1) + Recent(pushed, n - 1).rssi
  }

  /** The quotient of a sum by an unsigned count: the sum is taken modulo 2^32 first. */
  function Quotient(sum: int, n: nat): nat
    requires n > 0
  {
    sum % 0x1_0000_0000 / n
  }

  function ToInt16(x: nat): int16
  {
    if x % 0x1_0000 < 0x8000 then x % 0x1_0000 else x % 0x1_0000 - 0x1_0000
  }

  function ToInt8(x: nat): int8
  {
    if x % 0x100 < 0x80 then x % 0x100 else x % 0x100 - 0x100
  }

  /** The mean of n measurements, rounded down. */
  function Mean(sum: int, n: nat): int
    requires n > 0
  {
    sum / n
  }

  predicate PowerOfTwo(n: nat)
  {
    n == 1 || n == 2 || n == 4 || n == 8 || n == 16
  }

  /** The average of received levels is their mean if and only if their sum is not negative
      or their number is a power of two: the signed sum is divided as an unsigned number. */
  lemma RssiAverage(sum: int, n: nat)
    requires 0 < n <= SIZE && -0x80 * n <= sum < 0x80 * n
    ensures ToInt8(Quotient(sum, n)) == Mean(sum, n) <==> sum >= 0 || PowerOfTwo(n)
  {
    MeanBounds(sum, n, 0x80);
    if sum >= 0 {
      assert sum % MODULUS == sum;
      ToInt8Is(Quotient(sum, n), Mean(sum, n));
    } else {
      NegativeAverage(sum, n, Quotient(sum, n), Mean(sum, n));
    }
  }

  /** And so is the average of the times of arrival. */
  lemma ToaAverage(sum: int, n: nat)
    requires 0 < n <= SIZE && -0x8000 * n <= sum < 0x8000 * n
    ensures ToInt16(Quotient(sum, n)) == Mean(sum, n) <==> sum >= 0 || PowerOfTwo(n)
  {
    MeanBounds(sum, n, 0x8000);
    if sum >= 0 {
      assert sum % MODULUS == sum;
      ToInt16Is(Quotient(sum, n), Mean(sum, n));
    } else {
      NegativeAverage(sum, n, Quotient(sum, n), Mean(sum, n));
    }
  }

  lemma NegativeAverage(sum: int, n: nat, x: nat, m: int)
    requires 0 < n <= SIZE && -0x8000 * n <= sum < 0
    requires x == Quotient(sum, n) && m == Mean(sum, n) && -0x8000 <= m < 0
    ensures m >= -0x80 ==> (ToInt8(x) == m <==> PowerOfTwo(n))
    ensures ToInt16(x) == m <==> PowerOfTwo(n)
  {
    var carry := SplitQuotient(sum, n);
    QuotientEnds(n);
    LowEnd(MODULUS / n, m, carry, PowerOfTwo(n));
  }

  lemma LowEnd(q: nat, m: int, carry: int, power: bool)
    requires -0x8000 <= m < 0 && 0 <= carry <= 1 && q + m >= 0
    requires if power then q % 0x1_0000 == 0 && carry == 0 else 0 < q % 0x100 < 0xff
    ensures m >= -0x80 ==> (ToInt8(q + m + carry) == m <==> power)
    ensures ToInt16(q + m + carry) == m <==> power
  {
    var x := q + m + carry;
    assert x - m == q + carry;
    LowParts(q, carry);
    if m >= -0x80 {
      ToInt8Is(x, m);
    }
    ToInt16Is(x, m);
  }

  lemma LowParts(q: nat, carry: int)
    requires 0 <= carry <= 1
    ensures q % 0x1_0000 == 0 && carry == 0 ==> (q + carry) % 0x1_0000 == 0 && (q + carry) % 0x100 == 0
    ensures 0 < q % 0x100 < 0xff ==> (q + carry) % 0x100 != 0 && (q + carry) % 0x1_0000 != 0
  {
    LowByteOfWord(q + carry);
    if q % 0x100 < 0xff {
      assert (q + carry) % 0x100 == q % 0x100 + carry;
    }
  }

  lemma LowByteOfWord(a: nat)
    ensures a % 0x1_0000 == 0 ==> a % 0x100 == 0
  {
    if a % 0x1_0000 == 0 {
      QuotientIs(a, 0x100, 0x100 * (a / 0x1_0000), 0);
    }
  }

  const MODULUS: int := 0x1_0000_0000

  /** A negative sum adds the quotient of the modulus, and perhaps a carry, to the mean. */
  lemma SplitQuotient(sum: int, n: nat) returns (carry: int)
    requires 0 < n <= SIZE && -0x8000 * n <= sum < 0
    ensures 0 <= carry <= 1 && (MODULUS % n == 0 ==> carry == 0)
    ensures Quotient(sum, n) == MODULUS / n + Mean(sum, n) + carry
  {
    var d, r := MODULUS / n, MODULUS % n;
    var q, m := sum / n, sum % n;
    carry := if r + m >= n then 1 else 0;
    assert sum % MODULUS == sum + MODULUS;
    assert MODULUS == d * n + r && sum == q * n + m;
    assert sum + MODULUS == (d + q + carry) * n + (r + m - carry * n);
    QuotientIs(sum + MODULUS, n, d + q + carry, r + m - carry * n);
  }

  lemma MeanBounds(sum: int, n: nat, b: int)
    requires 0 < n <= SIZE && (b == 0x80 || b == 0x8000) && -b * n <= sum < b * n
    ensures -b <= Mean(sum, n) < b && (sum >= 0 <==> Mean(sum, n) >= 0)
  {
    if b == 0x80 {
      assert -0x80 * n <= sum < 0x80 * n;
    } else {
      assert -0x8000 * n <= sum < 0x8000 * n;
    }
  }

  /** The lowest bytes of the quotient of the modulus are zero for a power of two, and the
      lowest one is neither 0x00 nor 0xff for the other counts. */
  lemma QuotientEnds(n: nat)
    requires 0 < n <= SIZE
    ensures if PowerOfTwo(n) then MODULUS % n == 0 && MODULUS / n % 0x1_0000 == 0 else 0 < MODULUS / n % 0x100 < 0xff
  {
    var d := match n
      case 1 => 0x100000000
      case 2 => 0x80000000
      case 3 => 0x55555555
      case 4 => 0x40000000
      case 5 => 0x33333333
      case 6 => 0x2aaaaaaa
      case 7 => 0x24924924
      case 8 => 0x20000000
      case 9 => 0x1c71c71c
      case 10 => 0x19999999
      case 11 => 0x1745d174
      case 12 => 0x15555555
      case 13 => 0x13b13b13
      case 14 => 0x12492492
      case 15 => 0x11111111
      case 16 => 0x10000000
      case 17 => 0xf0f0f0f
      case 18 => 0xe38e38e
      case 19 => 0xd79435e
      case 20 => 0xccccccc
      case 21 => 0xc30c30c
      case 22 => 0xba2e8ba
      case 23 => 0xb21642c
      case _ => 0xaaaaaaa;
    QuotientIs(MODULUS, n, d, MODULUS - d * n);
  }

  lemma ToInt8Is(x: nat, m: int)
    requires -0x80 <= m < 0x80
    ensures ToInt8(x) == m <==> (x - m) % 0x100 == 0
  {
  }

  lemma ToInt16Is(x: nat, m: int)
    requires -0x8000 <= m < 0x8000
    ensures ToInt16(x) == m <==> (x - m) % 0x1_0000 == 0
  {
  }

  /** The sums are those of a window over the measurements: with one more measurement, its
      values come in and those of the n-th last go out. */
  lemma {:induction false} WindowSlides(pushed: seq<MeasSet>, m: MeasSet, n: nat)
    requires n > 0
    ensures SumToa(pushed + [m], n)
      == SumToa(pushed, n) + m.toa256 - if n <= |pushed| then pushed[|pushed| - n].toa256 else 0
    ensures SumRssi(pushed + [m], n)
      == SumRssi(pushed, n) + m.rssi - if n <= |pushed| then pushed[|pushed| - n].rssi else 0
  {
    if n > 1 {
      WindowSlides(pushed, m, n - 1);
      assert Recent(pushed + [m], n - 1) == Recent(pushed, n - 2);
    } else {
      assert SumToa(pushed, 0) == SumRssi(pushed, 0) == 0 == SumToa(pushed + [m], 0) == SumRssi(pushed + [m], 0);
    }
  }

  /** The times of arrival and the levels of some measurements, added up. */
  ghost function Total(s: seq<MeasSet>): (int, int)
  {
    if s == [] then (0, 0) else
      var (toa, rssi) := Total(s[1..]);
      (s[0].toa256 + toa, s[0].rssi + rssi)
  }

  /** They are the totals of the last n measurements. */
  lemma {:induction false} WindowIsTotal(pushed: seq<MeasSet>, n: nat)
    requires n <= |pushed|
    ensures (SumToa(pushed, n), SumRssi(pushed, n)) == Total(pushed[|pushed| - n..])
  {
    if n > 0 {
      WindowIsTotal(pushed, n - 1);
      assert pushed[|pushed| - n..][1..] == pushed[|pushed| - (n - 1)..];
    }
  }

  /** The average of four measurements that differ is the mean of their levels, and of their
      times of arrival; the frame number is that of the first. */
  lemma FourOnXcch(pushed: seq<MeasSet>)
    requires pushed == [MeasSet(7, 9, -50), MeasSet(0, 4, -60), MeasSet(1, 8, -70), MeasSet(2, 12, -80), MeasSet(3, 16, -90)]
    ensures SumToa(pushed, 4) == 40 && SumRssi(pushed, 4) == -300 && Recent(pushed, 3).fn == 0
    ensures ToInt16(Quotient(SumToa(pushed, 4), 4)) == 10 && ToInt8(Quotient(SumRssi(pushed, 4), 4)) == -75
  {
    assert SumToa(pushed, 1) == 16 && SumToa(pushed, 2) == 28 && SumToa(pushed, 3) == 36;
    assert SumRssi(pushed, 1) == -90 && SumRssi(pushed, 2) == -170 && SumRssi(pushed, 3) == -240;
  }

  /** Six measurements of -100, as TCH/H averages them, make +70. */
  lemma SixOnTchH(pushed: seq<MeasSet>, fn: nat)
    requires |pushed| == 6 && forall i :: 0 <= i < 6 ==> pushed[i] == MeasSet(fn, 0, -100)
    ensures SumRssi(pushed, 6) == -600 && Mean(SumRssi(pushed, 6), 6) == -100
    ensures ToInt8(Quotient(SumRssi(pushed, 6), 6)) == 70
  {
    assert SumRssi(pushed, 1) == -100;
    assert SumRssi(pushed, 2) == -200;
    assert SumRssi(pushed, 3) == -300;
    assert SumRssi(pushed, 4) == -400;
    assert SumRssi(pushed, 5) == -500;
  }

  // ------------------------------------------------------------------ the ring

  /** The measurements of a channel: a ring whose head is the last one, -1 before the first. */
  class MeasHist {
    const buf: array<MeasSet>
    var head: int

    // every measurement made
    ghost var pushed: seq<MeasSet>

    ghost predicate Valid()
      reads this, buf
    {
      && buf.Length == SIZE
      && -1 <= head < SIZE && (head == -1 <==> pushed == [])
      && (forall i :: 0 <= i < SIZE ==> buf[Back(head, i)] == Recent(pushed, i))
    }

    /** The place i steps before the head. */
    static function Back(head: int, i: int): int
    {
      if head < 0 then i else if i <= head then head - i else head - i + SIZE
    }

    constructor ()
      ensures Valid() && pushed == [] && fresh(buf)
    {
      buf := new MeasSet[SIZE](_ => NO_MEAS);
      head, pushed := -1, [];
    }

    /** Adds a measurement, in the place of the oldest when the ring is full. */
    method Push(m: MeasSet)
      requires Valid()
      modifies this`head, this`pushed, buf
      ensures Valid() && pushed == old(pushed) + [m]
    {
      var was := head;
      if head == SIZE - 1 || head == -1 {
        head := 0;
      } else {
        head := head + 1;
      }
      buf[head] := m;
      pushed := pushed + [m];
      forall i | 0 <= i < SIZE
        ensures buf[Back(head, i)] == Recent(pushed, i)
      {
        if i > 0 {
          var j := if was >= 0 then i - 1 else Back(head, i);
          assert Back(was, j) == Back(head, i);
          assert old(buf[Back(was, j)]) == Recent(old(pushed), j);
          assert Recent(pushed, i) == Recent(old(pushed), i - 1);
        }
      }
    }

    /** The average of the last n measurements, with the frame number of the first of them.
        Not ok is a failed assertion. */
    method Average(n: nat) returns (ok: bool, avg: MeasSet)
      requires Valid()
      ensures ok <==> 0 < n <= SIZE && pushed != []
      ensures ok ==> avg.fn == Recent(pushed, n - 1).fn
      ensures ok ==> avg.toa256 == ToInt16(Quotient(SumToa(pushed, n), n))
      ensures ok ==> avg.rssi == ToInt8(Quotient(SumRssi(pushed, n), n))
      ensures ok ==> (avg.toa256 == Mean(SumToa(pushed, n), n) <==> SumToa(pushed, n) >= 0 || PowerOfTwo(n))
      ensures ok ==> (avg.rssi == Mean(SumRssi(pushed, n), n) <==> SumRssi(pushed, n) >= 0 || PowerOfTwo(n))
    {
      if n == 0 || n > SIZE || head == -1 {
        return false, NO_MEAS;
      }
      var i, at, toaSum, rssiSum := 0, head, 0, 0;
      while true
        invariant 0 <= i < n && at == Back(head, i)
        invariant toaSum == SumToa(pushed, i) && rssiSum == SumRssi(pushed, i)
        decreases n - i
      {
        toaSum, rssiSum := toaSum + buf[at].toa256, rssiSum + buf[at].rssi;
        if i + 1 == n {
          break;
        }
        at := if at == 0 then SIZE - 1 else at - 1;
        i := i + 1;
      }
      ToaAverage(toaSum, n);
      RssiAverage(rssiSum, n);
      ok, avg := true, MeasSet(buf[at].fn, ToInt16(Quotient(toaSum, n)), ToInt8(Quotient(rssiSum, n)));
    }
  }
}
