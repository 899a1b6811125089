/** Error correction and properties of shift-register codes. */
module ConvCorrection {
  import opened Sequences
  import opened Options
  import opened ConvCode
  import opened ConvTrellis
  import opened ConvTheorems

  /** The soft value of a hard bit at full confidence. */
  function SoftBit(b: ubit): sbit
  {
    if b == 1 then -127 else 127
  }

  ghost function HammingFirst(a: seq<ubit>, b: seq<ubit>, n: nat): (r: nat)
    requires n <= |a| && n <= |b|
  {
    if n == 0 then 0 else HammingFirst(a, b, n - 1) + if a[n - 1] == b[n - 1] then 0 else 1
  }

  ghost function Hamming(a: seq<ubit>, b: seq<ubit>): nat
    requires |a| == |b|
  {
    HammingFirst(a, b, |a|)
  }

  ghost predicate SoftOf(input: seq<sbit>, hard: seq<ubit>)
  {
    |hard| <= |input| && forall i :: 0 <= i < |hard| ==> input[i] == SoftBit(hard[i])
  }

  lemma {:induction false} Triangle(a: seq<ubit>, b: seq<ubit>, c: seq<ubit>, n: nat)
    requires n <= |a| && n <= |b| && n <= |c|
    ensures HammingFirst(a, c, n) <= HammingFirst(b, a, n) + HammingFirst(b, c, n)
  {
    if n > 0 {
      Triangle(a, b, c, n - 1);
    }
  }

  /** On hard decisions the decoder's distance counts differing symbols, 126 for each. */
  lemma {:induction false} DistanceIsHamming(input: seq<sbit>, hard: seq<ubit>, bits: seq<ubit>, n: nat)
    requires SoftOf(input, hard) && n <= |hard| && n <= |bits|
    ensures DistanceFirst(input, 0, bits, n) == 126 * HammingFirst(hard, bits, n)
  {
    if n > 0 {
      DistanceIsHamming(input, hard, bits, n - 1);
      assert Cost(127, 0) == 0 && Cost(127, 1) == 126 && Cost(-127, 0) == 126 && Cost(-127, 1) == 0;
    }
  }

  /** The encoding of every other message differs from that of x in at least d transmitted
      symbols. */
  ghost predicate Isolated(c: Code, x: seq<ubit>, d: nat)
    requires Decodable(c) && IsMessage(c, x)
  {
    forall m :: IsMessage(c, m) && m != x ==> Apart(c, x, m) >= d
  }

  ghost function Apart(c: Code, m: seq<ubit>, m': seq<ubit>): nat
    requires Decodable(c) && IsMessage(c, m) && IsMessage(c, m')
  {
    StreamLength(c, 0, MessagePath(c, m));
    StreamLength(c, 0, MessagePath(c, m'));
    Hamming(Encoded(c, m), Encoded(c, m'))
  }

  /** How many symbols of the hard reception differ from the encoding of a message. */
  ghost function Flips(c: Code, hard: seq<ubit>, m: seq<ubit>): nat
    requires Decodable(c) && IsMessage(c, m) && |hard| == Rank(c, At(c, BlockSteps(c)))
  {
    StreamLength(c, 0, MessagePath(c, m));
    Hamming(hard, Encoded(c, m))
  }

  lemma MissIsFlips(c: Code, input: seq<sbit>, hard: seq<ubit>, m: seq<ubit>)
    requires Decodable(c) && IsMessage(c, m)
    requires |hard| == Rank(c, At(c, BlockSteps(c))) && SoftOf(input, hard)
    ensures Miss(c, input, m) == 126 * Flips(c, hard, m)
  {
    StreamLength(c, 0, MessagePath(c, m));
    DistanceIsHamming(input, hard, Encoded(c, m), |hard|);
  }

  /** Within half the code distance the sent message is the only nearest one. */
  lemma SentIsNearest(c: Code, d: nat, x: seq<ubit>, hard: seq<ubit>, input: seq<sbit>, m: seq<ubit>)
    requires Decodable(c) && IsMessage(c, x) && IsMessage(c, m) && Isolated(c, x, d)
    requires |hard| == Rank(c, At(c, BlockSteps(c))) && SoftOf(input, hard)
    requires 2 * Flips(c, hard, x) < d
    ensures m == x || Miss(c, input, x) < Miss(c, input, m)
  {
    MissIsFlips(c, input, hard, x);
    MissIsFlips(c, input, hard, m);
    if m != x {
      assert Apart(c, x, m) >= d;
      StreamLength(c, 0, MessagePath(c, x));
      StreamLength(c, 0, MessagePath(c, m));
      Triangle(Encoded(c, x), hard, Encoded(c, m), |hard|);
    }
  }

  /** Bounded error correction. Flip fewer symbols of the block sent for x than half its
      distance to the other blocks: the decoder returns x and 126 times the number of flips,
      except that a truncated message which leaves the encoder in state 255 is refused. */
  lemma BoundedErrorCorrection(c: Code, d: nat, x: seq<ubit>, hard: seq<ubit>, input: seq<sbit>,
                               msg: seq<ubit>, rv: int)
    requires Decodable(c) && IsMessage(c, x) && Isolated(c, x, d)
    requires |hard| == Rank(c, At(c, BlockSteps(c))) && SoftOf(input, hard)
    requires 2 * Flips(c, hard, x) < d
    requires Decoded(c, input, msg, rv)
    ensures rv == -1 <==> c.term == Truncation && FinalState(c, x) == 0xff
    ensures rv != -1 ==> msg == x && rv == 126 * Flips(c, hard, x)
  {
    forall m | IsMessage(c, m)
      ensures m == x || Miss(c, input, x) < Miss(c, input, m)
    {
      SentIsNearest(c, d, x, hard, input, m);
    }
    assert Nearest(c, input, x);
    assert forall m :: Nearest(c, input, m) ==> m == x;
    MissIsFlips(c, input, hard, x);
  }

  lemma {:induction false} NoFlips(a: seq<ubit>, n: nat)
    requires n <= |a|
    ensures HammingFirst(a, a, n) == 0
  {
    if n > 0 {
      NoFlips(a, n - 1);
    }
  }

  lemma Unharmed(c: Code, x: seq<ubit>, hard: seq<ubit>)
    requires Decodable(c) && IsMessage(c, x) && hard == Encoded(c, x)
    ensures |hard| == Rank(c, At(c, BlockSteps(c))) && Flips(c, hard, x) == 0
  {
    StreamLength(c, 0, MessagePath(c, x));
    NoFlips(hard, |hard|);
  }

  lemma OthersApart(c: Code, x: seq<ubit>)
    requires Decodable(c) && IsMessage(c, x)
    requires forall m :: IsMessage(c, m) && m != x ==> Encoded(c, m) != Encoded(c, x)
    ensures forall m :: IsMessage(c, m) && m != x ==> Apart(c, x, m) >= 1
  {
    forall m | IsMessage(c, m) && m != x
      ensures Apart(c, x, m) >= 1
    {
      DifferentBlocksDiffer(c, x, m);
    }
  }

  /** The round trip: an undisturbed block of an injective code decodes to what was encoded. */
  lemma RoundTrip(c: Code, x: seq<ubit>, input: seq<sbit>, msg: seq<ubit>, rv: int)
    requires Decodable(c) && IsMessage(c, x) && SoftOf(input, Encoded(c, x))
    requires |input| >= Rank(c, At(c, BlockSteps(c))) && Decoded(c, input, msg, rv)
    requires forall m :: IsMessage(c, m) && m != x ==> Encoded(c, m) != Encoded(c, x)
    ensures rv == -1 <==> c.term == Truncation && FinalState(c, x) == 0xff
    ensures rv != -1 ==> msg == x && rv == 0
  {
    var hard := Encoded(c, x);
    Unharmed(c, x, hard);
    OthersApart(c, x);
    BoundedErrorCorrection(c, 1, x, hard, input, msg, rv);
  }

  lemma DifferentBlocksDiffer(c: Code, x: seq<ubit>, m: seq<ubit>)
    requires Decodable(c) && IsMessage(c, x) && IsMessage(c, m) && Encoded(c, x) != Encoded(c, m)
    ensures Apart(c, x, m) >= 1
  {
    var a, b := Encoded(c, x), Encoded(c, m);
    StreamLength(c, 0, MessagePath(c, x));
    StreamLength(c, 0, MessagePath(c, m));
    assert a[..|a|] == a && b[..|b|] == b;
    if HammingFirst(a, b, |a|) == 0 {
      SameWhenNoFlips(a, b, |a|);
    }
  }

  lemma {:induction false} SameWhenNoFlips(a: seq<ubit>, b: seq<ubit>, n: nat)
    requires n <= |a| && n <= |b| && HammingFirst(a, b, n) == 0
    ensures a[..n] == b[..n]
  {
    if n > 0 {
      SameWhenNoFlips(a, b, n - 1);
      assert a[..n] == a[..n - 1] + [a[n - 1]] && b[..n] == b[..n - 1] + [b[n - 1]];
    }
  }

  // ------------------------------------------------------------------ shift registers

  /** Feed-forward tables: the state is the last K-1 input bits. */
  ghost predicate ShiftRegister(c: Code)
    requires ValidTables(c)
  {
    && c.nextTermOutput.None?
    && forall s :: 0 <= s < NumStates(c) ==>
         && c.nextState[s][0] == Shifted(s, 0, NumStates(c))
         && c.nextState[s][1] == Shifted(s, 1, NumStates(c))
  }

  /** A bit shifted into a register of n states: the oldest bit falls out. */
  function Shifted(s: nat, b: ubit, n: nat): int
  {
    if 2 * s + b < n then 2 * s + b else 2 * s + b - n
  }

  lemma {:induction false} DropOldestBit(w: seq<ubit>)
    requires |w| > 0
    ensures StateOfBits(w) == StateOfBits(w[1..]) + if w[0] == 1 then Pow2(|w| - 1) else 0
    decreases |w|
  {
    if |w| > 1 {
      var v := w[..|w| - 1];
      DropOldestBit(v);
      assert w[1..][..|w| - 2] == v[1..];
    } else {
      assert w[..0] == [];
    }
  }

  /** Shifting one bit in drops the oldest one. */
  lemma ShiftIn(w: seq<ubit>, b: ubit)
    requires |w| > 0
    ensures StateOfBits(w[1..] + [b]) == Shifted(StateOfBits(w), b, Pow2(|w|))
  {
    ShiftSum(w, b);
  }

  lemma ShiftSum(w: seq<ubit>, b: ubit)
    requires |w| > 0
    ensures 2 * StateOfBits(w) + b == StateOfBits(w[1..] + [b]) + if w[0] == 1 then Pow2(|w|) else 0
  {
    DropOldestBit(w);
    assert (w[1..] + [b])[..|w| - 1] == w[1..];
  }

  /** The register holds the last K-1 bits fed into it. */
  lemma {:induction false} RegisterHolds(c: Code, w: seq<ubit>, m: seq<ubit>)
    requires ValidTables(c) && ShiftRegister(c) && c.K >= 2 && |w| == c.K - 1
    ensures Run(c, StateOfBits(w), DataPath(m)) == StateOfBits(Window(w, m))
    decreases |m|
  {
    if m == [] {
      assert (w + m)[0..] == w;
    } else {
      RegisterHolds(c, w, m[..|m| - 1]);
      DataStep(c, StateOfBits(w), m);
      RegisterStep(c, Window(w, m[..|m| - 1]), m[|m| - 1]);
      WindowMoves(w, m);
    }
  }

  /** The last bits, as many as w has, of w followed by m. */
  ghost function Window(w: seq<ubit>, m: seq<ubit>): (v: seq<ubit>)
    ensures |v| == |w|
  {
    (w + m)[|m|..]
  }

  lemma WindowMoves(w: seq<ubit>, m: seq<ubit>)
    requires w != [] && m != []
    ensures Window(w, m) == Window(w, m[..|m| - 1])[1..] + [m[|m| - 1]]
  {
  }

  lemma ShiftTable(c: Code, s: nat, b: ubit)
    requires ValidTables(c) && ShiftRegister(c) && c.K >= 2 && s < Pow2(c.K - 1)
    ensures Next(c, s, Data(b)) == Shifted(s, b, Pow2(c.K - 1))
  {
  }

  lemma RegisterStep(c: Code, v: seq<ubit>, b: ubit)
    requires ValidTables(c) && ShiftRegister(c) && c.K >= 2 && |v| == c.K - 1
    ensures Next(c, StateOfBits(v), Data(b)) == StateOfBits(v[1..] + [b])
  {
    ShiftIn(v, b);
    ShiftTable(c, StateOfBits(v), b);
  }

  lemma DataStep(c: Code, s: nat, m: seq<ubit>)
    requires ValidTables(c) && s < NumStates(c) && m != []
    ensures Run(c, s, DataPath(m)) == Next(c, Run(c, s, DataPath(m[..|m| - 1])), Data(m[|m| - 1]))
  {
    assert DataPath(m)[..|m| - 1] == DataPath(m[..|m| - 1]);
  }

  /** Every state is the contents of some register. */
  lemma {:induction false} ContentsOf(s: nat, k: nat) returns (w: seq<ubit>)
    requires s < Pow2(k)
    ensures |w| == k && StateOfBits(w) == s
  {
    if k == 0 {
      w := [];
    } else {
      var v := ContentsOf(s / 2, k - 1);
      w := v + [s % 2];
      assert w[..k - 1] == v;
    }
  }

  /** The termination steps shift zeros in, through the termination tables if there are any:
      a code whose feedback is cancelled in this way may be flushed, too. */
  ghost predicate ShiftsZerosIn(c: Code)
    requires ValidTables(c)
  {
    forall s :: 0 <= s < NumStates(c) ==>
      Shifted(s, 0, NumStates(c)) == if c.nextTermOutput.Some? then c.nextTermState[s] else c.nextState[s][0]
  }

  /** After n termination steps the last n bits of the register are zero. */
  lemma {:induction false} ZerosFollow(c: Code, w: seq<ubit>, n: nat) returns (v: seq<ubit>)
    requires ValidTables(c) && ShiftsZerosIn(c) && c.K >= 2 && |w| == c.K - 1
    ensures |v| == |w| && Run(c, StateOfBits(w), TermPath(n)) == StateOfBits(v)
    ensures forall i :: |v| - n <= i < |v| && 0 <= i ==> v[i] == 0
  {
    if n == 0 {
      v := w;
    } else {
      var u := ZerosFollow(c, w, n - 1);
      v := u[1..] + [0];
      ZeroStep(c, u, v);
      TermStep(c, StateOfBits(w), n, StateOfBits(u), StateOfBits(v));
    }
  }

  lemma TermStep(c: Code, s: nat, n: nat, t: nat, t': nat)
    requires ValidTables(c) && s < NumStates(c) && n > 0
    requires t == Run(c, s, TermPath(n - 1)) && t' == Next(c, t, Term)
    ensures Run(c, s, TermPath(n)) == t'
  {
    assert TermPath(n)[..n - 1] == TermPath(n - 1);
  }

  lemma ZeroStep(c: Code, u: seq<ubit>, v: seq<ubit>)
    requires ValidTables(c) && ShiftsZerosIn(c) && c.K >= 2 && |u| == c.K - 1 && v == u[1..] + [0]
    ensures Next(c, StateOfBits(u), Term) == StateOfBits(v)
  {
    ShiftIn(u, 0);
  }

  lemma {:induction false} AllZero(v: seq<ubit>)
    requires forall i :: 0 <= i < |v| ==> v[i] == 0
    ensures StateOfBits(v) == 0
    decreases |v|
  {
    if v != [] {
      AllZero(v[..|v| - 1]);
    }
  }

  /** K-1 termination steps empty the register: such codes may be flushed. */
  lemma ShiftRegisterTerminates(c: Code)
    requires ValidTables(c) && ShiftsZerosIn(c) && c.K >= 2
    ensures TerminatesAtZero(c)
  {
    forall s | 0 <= s < NumStates(c)
      ensures FlushedState(c, s) == 0
    {
      FlushesToZero(c, s, c.K - 1);
    }
  }

  lemma FlushesToZero(c: Code, s: nat, k: nat)
    requires ValidTables(c) && ShiftsZerosIn(c) && k == c.K - 1 && k > 0 && s < NumStates(c)
    ensures FlushedState(c, s) == 0
  {
    var w := ContentsOf(s, k);
    var v := ZerosFollow(c, w, k);
    AllZero(v);
  }

  /** A tail-biting shift-register code ends in the state it starts in. */
  lemma TailBitingClosesTheLoop(c: Code, msg: seq<ubit>)
    requires Valid(c) && ShiftRegister(c) && c.K >= 2 && c.term == TailBiting && |msg| >= c.K - 1
    ensures Run(c, StartState(c, msg), MessagePath(c, msg)) == StartState(c, msg)
  {
    var w := msg[|msg| - (c.K - 1)..];
    RegisterHolds(c, w, msg);
    assert Window(w, msg) == w;
  }

  /** The state a truncated message ends in is its last K-1 bits. */
  lemma FinalStateIsTail(c: Code, msg: seq<ubit>)
    requires ValidTables(c) && ShiftRegister(c) && c.K >= 2 && |msg| >= c.K - 1
    ensures FinalState(c, msg) == StateOfBits(msg[|msg| - (c.K - 1)..])
  {
    AllZero(Zeros(c.K - 1));
    RegisterHolds(c, Zeros(c.K - 1), msg);
    assert (Zeros(c.K - 1) + msg)[|msg|..] == msg[|msg| - (c.K - 1)..];
  }

  // ------------------------------------------------------------------ the refused state

  /** The identity code with an eight-bit register, truncated after eight bits. */
  ghost predicate IsUncoded(c: Code)
  {
    && c.N == 1 && c.K == 9 && c.len == 8 && c.term == Truncation
    && c.puncture.None? && c.nextTermOutput.None?
    && |c.nextOutput| == |c.nextState| == NumStates(c) == 256
    && (forall s :: 0 <= s < 256 ==> c.nextOutput[s] == [0, 1])
    && (forall s :: 0 <= s < 256 ==> c.nextState[s] == [(2 * s) % 256, (2 * s + 1) % 256])
  }

  lemma UncodedExists() returns (c: Code)
    ensures IsUncoded(c)
  {
    assert Pow2(4) == 16 && Pow2(8) == 16 * Pow2(4);
    c := Code(1, 9, 8, Truncation,
              seq(256, s => [0, 1]), seq(256, s => [(2 * s) % 256, (2 * s + 1) % 256]),
              None, [], None);
  }

  lemma UncodedIsDecodable(c: Code)
    requires IsUncoded(c)
    ensures Decodable(c) && ShiftRegister(c)
  {
    AtIsProduct(c, 8);
  }

  lemma UncodedStep(c: Code, p: Path, b: ubit)
    requires IsUncoded(c) && ValidTables(c)
    ensures Stream(c, 0, p + [Data(b)]) == Stream(c, 0, p) + [b]
  {
    var s := Run(c, 0, p);
    var bits := SymbolBits(c, Output(c, s, Data(b)));
    assert c.nextOutput[s] == [0, 1];
    assert bits[0] == OutBit(b, 0) == b;
    assert EmitFirst(c, At(c, |p|), bits, 1) == EmitFirst(c, At(c, |p|), bits, 0) + [b];
    StreamStep(c, 0, p, Data(b));
  }

  lemma {:induction false} UncodedIsIdentity(c: Code, m: seq<ubit>, n: nat, p: Path)
    requires IsUncoded(c) && ValidTables(c) && n <= |m| && p == DataPath(m[..n])
    ensures Stream(c, 0, p) == m[..n]
  {
    if n > 0 {
      var q := DataPath(m[..n - 1]);
      UncodedIsIdentity(c, m, n - 1, q);
      DataPathStep(m, n - 1);
      UncodedStep(c, q, m[n - 1]);
    }
  }

  ghost function Ones(n: nat): (m: seq<ubit>)
    ensures |m| == n
    ensures StateOfBits(m) == Pow2(n) - 1
  {
    if n == 0 then [] else
      assert (Ones(n - 1) + [1])[..n - 1] == Ones(n - 1);
      Ones(n - 1) + [1]
  }

  /** The decoder refuses a block received without a single error when the message leaves a
      truncated code in state 255: eight ones, here, although they are at distance zero. */
  lemma RefusesAnUndisturbedBlock(c: Code, input: seq<sbit>, msg: seq<ubit>, rv: int)
    requires IsUncoded(c) && Decodable(c) && Rank(c, At(c, BlockSteps(c))) <= |input|
    requires SoftOf(input, Ones(8)) && Decoded(c, input, msg, rv)
    ensures rv == -1 && Nearest(c, input, Ones(8)) && Miss(c, input, Ones(8)) == 0
  {
    var x := Ones(8);
    UncodedIsDecodable(c);
    forall m | IsMessage(c, m)
      ensures Encoded(c, m) == m
    {
      assert m[..|m|] == m;
      UncodedIsIdentity(c, m, |m|, DataPath(m));
    }
    RoundTrip(c, x, input, msg, rv);
    FinalStateIsTail(c, x);
    assert x[0..] == x;
    NearestIsZero(c, input, x);
  }

  lemma NearestIsZero(c: Code, input: seq<sbit>, x: seq<ubit>)
    requires Decodable(c) && IsMessage(c, x) && Rank(c, At(c, BlockSteps(c))) <= |input|
    requires SoftOf(input, Encoded(c, x))
    ensures Miss(c, input, x) == 0 && Nearest(c, input, x)
  {
    StreamLength(c, 0, MessagePath(c, x));
    NoFlips(Encoded(c, x), |Encoded(c, x)|);
    MissIsFlips(c, input, Encoded(c, x), x);
  }
}
