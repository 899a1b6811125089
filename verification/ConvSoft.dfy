/** What the decoder makes of soft bits: the penalties lean by the confidence of each bit, so
    the message it returns is the one that correlates best with the reception. */
module ConvSoft {
  import opened Options
  import opened ConvCode
  import opened ConvTrellis
  import opened ConvTheorems
  import opened ConvCorrection
  import opened ConvRefusal

  // ------------------------------------------------------------------ one soft bit

  /** The penalties of the two bits differ by the soft bit, scaled by 508/512, and their sum
      is the scaled sum of the squared distances; each up to rounding. */
  lemma CostLeans(x: sbit)
    requires x != 0
    ensures -512 < 512 * (Cost(x, 1) - Cost(x, 0)) - 508 * x < 512
    ensures 2 * x * x + 31234 < 512 * (Cost(x, 0) + Cost(x, 1)) <= 2 * x * x + 32258
  {
    var a, b := x + 127, x - 127;
    assert a * a == x * x + 254 * x + 16129;
    assert b * b == x * x - 254 * x + 16129;
    Scaled(a * a);
    Scaled(b * b);
  }

  lemma Scaled(n: int)
    ensures 512 * (n / 512) <= n < 512 * (n / 512) + 512
  {
  }

  // ------------------------------------------------------------------ correlation

  /** A soft bit with the sign of the bit sent. */
  function Signed(x: sbit, bit: ubit): int
  {
    if bit == 1 then -1 * x else x
  }

  /** The sum of the soft bits, each with the sign of the bit sent: positive for 0. */
  ghost function Correlation(input: seq<sbit>, bits: seq<ubit>, n: nat): int
    requires n <= |bits| && n <= |input|
  {
    if n == 0 then 0 else
      Correlation(input, bits, n - 1) + Signed(input[n - 1], bits[n - 1])
  }

  /** The distances of two blocks differ as their correlations do, up to rounding in the
      places where the blocks differ. */
  lemma {:induction false} DistanceIsCorrelation(input: seq<sbit>, a: seq<ubit>, b: seq<ubit>, n: nat)
    requires n <= |a| && n <= |b| && n <= |input|
    ensures var d := 512 * (DistanceFirst(input, 0, a, n) - DistanceFirst(input, 0, b, n));
      var r := 254 * (Correlation(input, b, n) - Correlation(input, a, n));
      r - 511 * HammingFirst(a, b, n) <= d <= r + 511 * HammingFirst(a, b, n)
  {
    if n > 0 {
      DistanceIsCorrelation(input, a, b, n - 1);
      if input[n - 1] != 0 {
        CostLeans(input[n - 1]);
      }
    }
  }

  /** The correlation of a whole received block with the encoding of a message. */
  ghost function Match(c: Code, input: seq<sbit>, msg: seq<ubit>): int
    requires Decodable(c) && IsMessage(c, msg)
    requires |input| >= Rank(c, At(c, BlockSteps(c)))
  {
    StreamLength(c, 0, MessagePath(c, msg));
    Correlation(input, Encoded(c, msg), |Encoded(c, msg)|)
  }

  /** Soft decision: no message correlates better with the reception than the one returned,
      by more than two for each symbol in which their encodings differ. */
  lemma BestMatch(c: Code, input: seq<sbit>, msg: seq<ubit>, rv: int, m: seq<ubit>)
    requires Decodable(c) && |input| >= Rank(c, At(c, BlockSteps(c)))
    requires Decoded(c, input, msg, rv) && rv != -1 && IsMessage(c, m)
    ensures 254 * (Match(c, input, m) - Match(c, input, msg)) <= 511 * Apart(c, msg, m)
  {
    StreamLength(c, 0, MessagePath(c, m));
    StreamLength(c, 0, MessagePath(c, msg));
    assert Miss(c, input, msg) <= Miss(c, input, m);
    DistanceIsCorrelation(input, Encoded(c, msg), Encoded(c, m), |Encoded(c, m)|);
  }

  // ------------------------------------------------------------------ an example

  /** One bit, sent three times. */
  ghost predicate IsTriple(c: Code)
  {
    c == Code(3, 2, 1, Truncation, [[0, 7], [0, 7]], [[0, 1], [0, 1]], None, [], None)
  }

  lemma TripleIsDecodable(c: Code)
    requires IsTriple(c)
    ensures Decodable(c) && Rank(c, At(c, BlockSteps(c))) == 3
  {
    assert NumStates(c) == 2;
    AtIsProduct(c, 1);
    RankOfBlock(c);
  }

  lemma TripleEncodes(c: Code, b: ubit)
    requires IsTriple(c) && Decodable(c)
    ensures Encoded(c, [b]) == [b, b, b]
  {
    var m, n := [b], if b == 1 then 7 else 0;
    assert m[..0] == [] && DataPath(m[..0]) == [];
    assert DataPath(m) == [] + [Data(b)];
    var bits := SymbolBits(c, n);
    assert Stream(c, 0, []) == [] && Run(c, 0, []) == 0;
    StreamStep(c, 0, [], Data(b));
    assert bits == [OutBit(n, 2), OutBit(n, 1), OutBit(n, 0)];
    assert OutBit(7, 2) == OutBit(7, 1) == OutBit(7, 0) == 1;
    assert EmitFirst(c, 0, bits, 1) == [b];
    assert EmitFirst(c, 0, bits, 2) == [b, b];
    assert EmitFirst(c, 0, bits, 3) == [b, b, b];
  }

  lemma TripleMiss(c: Code, input: seq<sbit>, b: ubit)
    requires IsTriple(c) && Decodable(c) && input == [10, 10, -127]
    requires Rank(c, At(c, BlockSteps(c))) == 3
    ensures Miss(c, input, [b]) == if b == 1 then 72 else 178
  {
    TripleEncodes(c, b);
    assert Cost(10, 0) == 26 && Cost(10, 1) == 36 && Cost(-127, 0) == 126 && Cost(-127, 1) == 0;
    assert DistanceFirst(input, 0, [b, b, b], 1) == Cost(10, b);
    assert DistanceFirst(input, 0, [b, b, b], 2) == 2 * Cost(10, b);
  }

  /** Two weak symbols are outvoted by a strong one: the bit is 1, at distance 72. */
  lemma StrongOutvotesWeak(c: Code, input: seq<sbit>, msg: seq<ubit>, rv: int)
    requires IsTriple(c) && Decodable(c) && input == [10, 10, -127]
    requires Rank(c, At(c, BlockSteps(c))) == 3 && Decoded(c, input, msg, rv)
    ensures msg == [1] && rv == 72
    ensures Miss(c, input, [0]) == 178
  {
    TripleMiss(c, input, 0);
    TripleMiss(c, input, 1);
    NoWorseThan(c, input, msg, rv, [1]);
    OneBit(msg);
  }

  lemma NoWorseThan(c: Code, input: seq<sbit>, msg: seq<ubit>, rv: int, m: seq<ubit>)
    requires Decodable(c) && c.K <= 8 && |input| >= Rank(c, At(c, BlockSteps(c)))
    requires Decoded(c, input, msg, rv) && IsMessage(c, m)
    ensures rv != -1 && IsMessage(c, msg) && rv == Miss(c, input, msg) <= Miss(c, input, m)
  {
    NothingRefused(c, input, msg, rv);
  }

  lemma OneBit(msg: seq<ubit>)
    requires |msg| == 1
    ensures msg == [0] || msg == [1]
  {
  }
}
