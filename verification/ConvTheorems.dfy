/** What the decoder is for: the message it returns is the nearest one, and therefore the
    right one as long as fewer symbols than half the code distance were flipped. */
module ConvTheorems {
  import opened Sequences
  import opened ConvCode
  import opened ConvTrellis
  import opened ConvDecoder

  // ------------------------------------------------------------------ distance

  /** The penalty of receiving input[base..] where the first n of `bits` were sent. */
  ghost function DistanceFirst(input: seq<sbit>, base: nat, bits: seq<ubit>, n: nat): nat
    requires n <= |bits| && base + n <= |input|
  {
    if n == 0 then 0 else
      DistanceFirst(input, base, bits, n - 1) + Cost(input[base + n - 1], bits[n - 1])
  }

  /** The distance between a reception and the transmitted bits of a message. */
  ghost function Distance(input: seq<sbit>, bits: seq<ubit>): nat
    requires |bits| <= |input|
  {
    DistanceFirst(input, 0, bits, |bits|)
  }

  lemma {:induction false} DistanceAppend(input: seq<sbit>, base: nat, a: seq<ubit>, b: seq<ubit>, n: nat)
    requires n <= |b| && base + |a| + n <= |input|
    ensures DistanceFirst(input, base, a + b, |a| + n)
         == DistanceFirst(input, base, a, |a|) + DistanceFirst(input, base + |a|, b, n)
  {
    if n == 0 {
      DistancePrefix(input, base, a, b, |a|);
    } else {
      DistanceAppend(input, base, a, b, n - 1);
    }
  }

  lemma {:induction false} DistancePrefix(input: seq<sbit>, base: nat, a: seq<ubit>, b: seq<ubit>, n: nat)
    requires n <= |a| && base + n <= |input|
    ensures DistanceFirst(input, base, a + b, n) == DistanceFirst(input, base, a, n)
  {
    if n > 0 {
      DistancePrefix(input, base, a, b, n - 1);
    }
  }

  /** The metric of one output symbol is the distance over its surviving bits: punctured
      places are unknown to the decoder and cost nothing. */
  lemma {:induction false} SymbolDistance(c: Code, input: seq<sbit>, r0: nat, sym: seq<sbit>, out: nat, n: nat)
    requires n <= c.N == |sym| && IsSymbol(c, input, 0, r0, sym)
    requires Rank(c, r0 + n) <= |input|
    requires Rank(c, r0) + |EmitFirst(c, r0, SymbolBits(c, out), n)| == Rank(c, r0 + n)
    ensures SymMetric(c, out, sym, n)
         == DistanceFirst(input, Rank(c, r0), EmitFirst(c, r0, SymbolBits(c, out), n),
                          |EmitFirst(c, r0, SymbolBits(c, out), n)|)
  {
    if n > 0 {
      var bits := SymbolBits(c, out);
      EmitLength(c, r0, bits, n - 1);
      RankMonotone(c, r0 + n - 1, r0 + n);
      SymbolDistance(c, input, r0, sym, out, n - 1);
      assert sym[n - 1] == SoftAt(c, input, 0, r0 + n - 1);
      var e := EmitFirst(c, r0, bits, n - 1);
      if !Punctured(c, r0 + n - 1) {
        DistanceAppend(input, Rank(c, r0), e, [bits[n - 1]], 1);
      } else {
        assert e + [] == e;
      }
    }
  }

  lemma StepDistance(c: Code, input: seq<sbit>, t: nat, sym: seq<sbit>, out: nat, sent: seq<ubit>)
    requires |sym| == c.N && IsSymbol(c, input, 0, At(c, t), sym)
    requires |sent| == Rank(c, At(c, t)) && Rank(c, At(c, t + 1)) <= |input|
    ensures var e := Emit(c, At(c, t), SymbolBits(c, out));
            && |sent + e| == Rank(c, At(c, t + 1))
            && |sent| <= |input|
            && Distance(input, sent + e) == Distance(input, sent) + SymMetric(c, out, sym, c.N)
  {
    var e := Emit(c, At(c, t), SymbolBits(c, out));
    EmitLength(c, At(c, t), SymbolBits(c, out), c.N);
    SymbolDistance(c, input, At(c, t), sym, out, c.N);
    DistanceAppend(input, 0, sent, e, |e|);
  }

  ghost predicate SymbolsOf(c: Code, input: seq<sbit>, steps: seq<Step>)
  {
    forall t :: 0 <= t < |steps| ==> IsSymbol(c, input, 0, At(c, t), steps[t].sym)
  }

  /** The decoder's metric of a path is the distance to what the encoder emits on it. */
  lemma {:induction false} MetricIsDistance(c: Code, input: seq<sbit>, s: nat, p: Path, steps: seq<Step>)
    requires ValidTables(c) && s < NumStates(c)
    requires |p| == |steps| && ValidSteps(c, steps) && SymbolsOf(c, input, steps)
    requires Rank(c, At(c, |p|)) <= |input|
    ensures |Stream(c, s, p)| == Rank(c, At(c, |p|))
    ensures Metric(c, s, p, steps) == Distance(input, Stream(c, s, p))
    decreases |p|
  {
    if p != [] {
      var n := |p| - 1;
      RankSteps(c, n, n + 1);
      MetricIsDistance(c, input, s, p[..n], steps[..n]);
      StepDistance(c, input, n, steps[n].sym, Output(c, Run(c, s, p[..n]), p[n]), Stream(c, s, p[..n]));
    }
  }

  // ------------------------------------------------------------------ maximum likelihood

  /** What the all-in-one decoder demands: a flushed or truncated code whose flush steps end
      at zero, and a block short enough that no real metric reaches MAX_AE. */
  ghost predicate Decodable(c: Code)
  {
    && Valid(c)
    && c.term != TailBiting
    && (c.term == Flush ==> TerminatesAtZero(c))
    && 127 * At(c, BlockSteps(c)) < MAX_AE
  }

  ghost predicate IsMessage(c: Code, msg: seq<ubit>)
  {
    |msg| == c.len
  }

  /** The distance between a whole received block and the encoding of a message. */
  ghost function Miss(c: Code, input: seq<sbit>, msg: seq<ubit>): (r: nat)
    requires Decodable(c) && IsMessage(c, msg)
    requires |input| >= Rank(c, At(c, BlockSteps(c)))
  {
    StreamLength(c, 0, MessagePath(c, msg));
    Distance(input, Encoded(c, msg))
  }

  /** No message is closer to the reception. */
  ghost predicate Nearest(c: Code, input: seq<sbit>, msg: seq<ubit>)
    requires Decodable(c) && |input| >= Rank(c, At(c, BlockSteps(c)))
  {
    IsMessage(c, msg) && forall m :: IsMessage(c, m) ==> Miss(c, input, msg) <= Miss(c, input, m)
  }

  /** The state the encoder is in after the data bits. */
  ghost function FinalState(c: Code, msg: seq<ubit>): (r: nat)
    requires ValidTables(c)
    requires NumStates(c) > 0
  {
    Run(c, 0, DataPath(msg))
  }

  /** The decoder's view of one received block. */
  ghost predicate WholeBlock(c: Code, input: seq<sbit>, steps: seq<Step>)
    requires c.K >= 1
  {
    && |steps| == BlockSteps(c)
    && ValidSteps(c, steps)
    && SymbolsOf(c, input, steps)
    && forall t :: 0 <= t < |steps| ==> steps[t].flush == (t >= c.len)
  }

  lemma MessagePathAt(c: Code, msg: seq<ubit>, t: nat)
    requires c.K >= 1 && IsMessage(c, msg) && t < |MessagePath(c, msg)|
    ensures MessagePath(c, msg)[t] == if t < c.len then Data(msg[t]) else Term
  {
    if t < c.len {
      DataPathAt(msg, t);
    } else {
      TermPathAt(c.K - 1, t - c.len);
    }
  }

  lemma MessageIsLegal(c: Code, input: seq<sbit>, steps: seq<Step>, msg: seq<ubit>)
    requires c.K >= 1 && WholeBlock(c, input, steps) && IsMessage(c, msg)
    ensures Legal(MessagePath(c, msg), steps)
  {
    forall t | 0 <= t < |steps|
      ensures Allowed(steps[t], MessagePath(c, msg)[t])
    {
      MessagePathAt(c, msg, t);
    }
  }

  lemma LegalIsMessage(c: Code, input: seq<sbit>, steps: seq<Step>, p: Path, msg: seq<ubit>)
    requires c.K >= 1 && WholeBlock(c, input, steps) && IsMessage(c, msg)
    requires Legal(p, steps) && forall i :: 0 <= i < c.len ==> p[i] == Data(msg[i])
    ensures p == MessagePath(c, msg)
  {
    forall t | 0 <= t < |p|
      ensures p[t] == MessagePath(c, msg)[t]
    {
      MessagePathAt(c, msg, t);
      assert Allowed(steps[t], p[t]);
    }
  }

  /** The state a whole block ends in. */
  lemma EndOfBlock(c: Code, msg: seq<ubit>)
    requires Decodable(c)
    ensures Run(c, 0, MessagePath(c, msg)) == if c.term == Flush then 0 else FinalState(c, msg)
  {
    if c.term == Flush {
      RunAppend(c, 0, DataPath(msg), TermPath(c.K - 1));
      assert FlushedState(c, FinalState(c, msg)) == 0;
    }
  }

  /** Every message bounds the entry of the state it ends in. */
  lemma MessageBoundsRow(c: Code, input: seq<sbit>, steps: seq<Step>, rows: seq<seq<nat>>, hists: seq<seq<nat>>,
                         msg: seq<ubit>)
    requires Decodable(c) && IsMessage(c, msg)
    requires |input| >= Rank(c, At(c, BlockSteps(c))) && WholeBlock(c, input, steps)
    requires Trellis(c, steps, rows, hists) && rows[0] == StartRow(NumStates(c), 0)
    ensures rows[|steps|][Run(c, 0, MessagePath(c, msg))] <= Miss(c, input, msg) < MAX_AE
  {
    var p := MessagePath(c, msg);
    MessageIsLegal(c, input, steps, msg);
    RowIsLowerBound(c, steps, rows, hists, 0, p, |p|);
    assert p[..|p|] == p && steps[..|p|] == steps;
    MetricIsDistance(c, input, 0, p, steps);
  }

  /** The traced path of a reachable end state is the path of a message with that metric. */
  lemma TraceIsMessage(c: Code, input: seq<sbit>, steps: seq<Step>, rows: seq<seq<nat>>, hists: seq<seq<nat>>,
                       end: nat, msg: seq<ubit>)
    requires Decodable(c) && IsMessage(c, msg)
    requires |input| >= Rank(c, At(c, BlockSteps(c))) && WholeBlock(c, input, steps)
    requires Trellis(c, steps, rows, hists) && rows[0] == StartRow(NumStates(c), 0)
    requires end < NumStates(c) && rows[|steps|][end] < MAX_AE
    requires var p := Traced(c, steps, rows, hists, |steps|, end).1;
             forall i :: 0 <= i < c.len ==> p[i] == Data(msg[i])
    ensures Run(c, 0, MessagePath(c, msg)) == end
    ensures rows[|steps|][end] == Miss(c, input, msg)
  {
    var (s0, p) := Traced(c, steps, rows, hists, |steps|, end);
    TracedIsExact(c, steps, rows, hists, |steps|, end);
    assert steps[..|steps|] == steps;
    LegalIsMessage(c, input, steps, p, msg);
    assert s0 == 0;
    MetricIsDistance(c, input, 0, p, steps);
  }

  ghost function BitsOf(p: Path, n: nat): (msg: seq<ubit>)
    requires n <= |p| && forall i :: 0 <= i < n ==> p[i].Data?
    ensures |msg| == n && forall i :: 0 <= i < n ==> p[i] == Data(msg[i])
  {
    if n == 0 then [] else BitsOf(p, n - 1) + [p[n - 1].bit]
  }

  /** Each reachable end state is the end of a message at exactly that distance. */
  lemma MessageOfState(c: Code, input: seq<sbit>, steps: seq<Step>, rows: seq<seq<nat>>, hists: seq<seq<nat>>,
                       end: nat) returns (msg: seq<ubit>)
    requires Decodable(c)
    requires |input| >= Rank(c, At(c, BlockSteps(c))) && WholeBlock(c, input, steps)
    requires Trellis(c, steps, rows, hists) && rows[0] == StartRow(NumStates(c), 0)
    requires end < NumStates(c) && rows[|steps|][end] < MAX_AE
    ensures IsMessage(c, msg)
    ensures Run(c, 0, MessagePath(c, msg)) == end && Miss(c, input, msg) == rows[|steps|][end]
  {
    var p := Traced(c, steps, rows, hists, |steps|, end).1;
    TracedIsExact(c, steps, rows, hists, |steps|, end);
    forall i | 0 <= i < c.len
      ensures p[i].Data?
    {
      assert Allowed(steps[..|steps|][i], p[i]);
    }
    msg := BitsOf(p, c.len);
    TraceIsMessage(c, input, steps, rows, hists, end, msg);
  }

  /** In a flushed block, state zero is reachable and its traced message is nearest. */
  lemma FlushedBlock(c: Code, input: seq<sbit>, steps: seq<Step>, rows: seq<seq<nat>>, hists: seq<seq<nat>>)
    requires Decodable(c) && c.term == Flush
    requires |input| >= Rank(c, At(c, BlockSteps(c))) && WholeBlock(c, input, steps)
    requires Trellis(c, steps, rows, hists) && rows[0] == StartRow(NumStates(c), 0)
    ensures rows[|steps|][0] < MAX_AE
    ensures forall m :: IsMessage(c, m) ==> rows[|steps|][0] <= Miss(c, input, m)
  {
    forall m | IsMessage(c, m)
      ensures rows[|steps|][0] <= Miss(c, input, m) < MAX_AE
    {
      MessageBoundsRow(c, input, steps, rows, hists, m);
      EndOfBlock(c, m);
    }
    var zeros := Zeros(c.len);
    assert IsMessage(c, zeros);
  }

  /** In a truncated block, the first best end state bounds every message. */
  lemma TruncatedBlock(c: Code, input: seq<sbit>, steps: seq<Step>, rows: seq<seq<nat>>, hists: seq<seq<nat>>, end: nat)
    requires Decodable(c) && c.term == Truncation
    requires |input| >= Rank(c, At(c, BlockSteps(c))) && WholeBlock(c, input, steps)
    requires Trellis(c, steps, rows, hists) && rows[0] == StartRow(NumStates(c), 0)
    requires IsBest(rows[|steps|], end)
    ensures forall m :: IsMessage(c, m) ==> rows[|steps|][end] <= Miss(c, input, m)
  {
    forall m | IsMessage(c, m)
      ensures rows[|steps|][end] <= Miss(c, input, m)
    {
      MessageBoundsRow(c, input, steps, rows, hists, m);
    }
  }

  lemma {:induction false} BestExists(row: seq<nat>, n: nat) returns (q: nat)
    requires 0 < n <= |row| && exists s :: 0 <= s < n && row[s] < MAX_AE
    ensures IsBest(row[..n], q)
  {
    var s :| 0 <= s < n && row[s] < MAX_AE;
    if exists s' :: 0 <= s' < n - 1 && row[s'] < MAX_AE {
      q := BestExists(row, n - 1);
      assert forall k :: 0 <= k < n - 1 ==> row[..n - 1][k] == row[..n][k];
      if row[n - 1] < row[q] {
        q := n - 1;
      }
    } else {
      q := n - 1;
      assert forall k :: 0 <= k < n - 1 ==> row[..n][k] >= MAX_AE;
    }
  }

  lemma {:induction false} Pow2Monotone(i: nat, j: nat)
    requires i <= j
    ensures Pow2(i) <= Pow2(j)
  {
    if i < j {
      Pow2Monotone(i, j - 1);
    }
  }

  lemma StatesFitAnOctet(c: Code)
    requires Valid(c)
    ensures NumStates(c) <= 256
    ensures c.K <= 8 ==> NumStates(c) <= 128
  {
    Pow2Monotone(c.K - 1, 8);
    assert Pow2(4) == 16 && Pow2(7) == 8 * Pow2(4) && Pow2(8) == 256;
    if c.K <= 8 {
      Pow2Monotone(c.K - 1, 7);
    }
  }

  /** The decoder of a truncated block takes state 255 for "no state found": it finds a best
      state other than that one unless every nearest message ends in it. */
  lemma SentinelCollision(c: Code, input: seq<sbit>, steps: seq<Step>, rows: seq<seq<nat>>, hists: seq<seq<nat>>)
    requires Decodable(c) && c.term == Truncation
    requires |input| >= Rank(c, At(c, BlockSteps(c))) && WholeBlock(c, input, steps)
    requires Trellis(c, steps, rows, hists) && rows[0] == StartRow(NumStates(c), 0)
    ensures (forall q :: IsBest(rows[|steps|], q) ==> q == 0xff)
       <==> (forall m :: Nearest(c, input, m) ==> FinalState(c, m) == 0xff)
  {
    var row := rows[|steps|];
    if forall q :: IsBest(row, q) ==> q == 0xff {
      forall m | Nearest(c, input, m)
        ensures FinalState(c, m) == 0xff
      {
        MessageBoundsRow(c, input, steps, rows, hists, m);
        EndOfBlock(c, m);
        var q := BestExists(row, |row|);
        assert row[..|row|] == row;
        StatesFitAnOctet(c);
        var m' := MessageOfState(c, input, steps, rows, hists, q);
        assert Miss(c, input, m) <= Miss(c, input, m');
      }
    }
    if forall m :: Nearest(c, input, m) ==> FinalState(c, m) == 0xff {
      forall q | IsBest(row, q)
        ensures q == 0xff
      {
        TruncatedBlock(c, input, steps, rows, hists, q);
        var m := MessageOfState(c, input, steps, rows, hists, q);
        EndOfBlock(c, m);
        assert Nearest(c, input, m);
      }
    }
  }

  /** The decoder takes every best end state of a truncated block for "no state found". */
  ghost predicate Refused(c: Code, input: seq<sbit>)
    requires Decodable(c) && |input| >= Rank(c, At(c, BlockSteps(c)))
  {
    c.term == Truncation && forall m :: Nearest(c, input, m) ==> FinalState(c, m) == 0xff
  }

  /** What a call of the decoder returns: the error and the message, or -1 when every nearest
      message of a truncated code ends in state 255. */
  ghost predicate Decoded(c: Code, input: seq<sbit>, msg: seq<ubit>, rv: int)
    requires Decodable(c) && |input| >= Rank(c, At(c, BlockSteps(c)))
  {
    && (rv == -1 <==> Refused(c, input))
    && (rv != -1 ==> Nearest(c, input, msg) && rv == Miss(c, input, msg))
  }

  /** All-in-one decoding of one block. */
  method Decode(c: Code, input: seq<sbit>, output: array<ubit>) returns (rv: int)
    requires Decodable(c)
    requires |input| >= Rank(c, At(c, BlockSteps(c))) && output.Length >= c.len
    modifies output
    ensures Decoded(c, input, output[..c.len], rv)
  {
    var decoder := Receive(c, input);
    rv := TraceBlock(decoder, input, output);
  }

  /** Runs the trellis over one received block from state zero. */
  method Receive(c: Code, input: seq<sbit>) returns (decoder: Decoder)
    requires Decodable(c) && |input| >= Rank(c, At(c, BlockSteps(c)))
    ensures decoder.Valid() && decoder.code == c
    ensures decoder.oIdx == BlockSteps(c)
    ensures WholeBlock(c, input, decoder.steps)
    ensures decoder.rows[0] == StartRow(NumStates(c), 0)
  {
    decoder := new Decoder(c, 0, 0);
    RankSteps(c, c.len, BlockSteps(c));
    var l := decoder.Scan(input, 0, c.len, 0);
    ghost var data := decoder.steps;
    if c.term == Flush {
      var l' := decoder.Flush(input, l, 0);
    }
    BlockIsWhole(c, input, data, decoder.steps);
  }

  /** Picks the end state and writes the message. */
  method TraceBlock(decoder: Decoder, input: seq<sbit>, output: array<ubit>) returns (rv: int)
    requires Decodable(decoder.code) && decoder.Valid() && output.Length >= decoder.code.len
    requires |input| >= Rank(decoder.code, At(decoder.code, BlockSteps(decoder.code)))
    requires WholeBlock(decoder.code, input, decoder.steps)
    requires decoder.rows[0] == StartRow(NumStates(decoder.code), 0)
    modifies output
    ensures Decoded(decoder.code, input, output[..decoder.code.len], rv)
  {
    var c := decoder.code;
    ghost var end;
    if c.term == Flush {
      FlushedBlock(c, input, decoder.steps, decoder.rows, decoder.hists);
      rv, end := decoder.GetOutput(output, true, 0);
    } else {
      rv, end := decoder.GetOutput(output, false, -1);
    }
    assert decoder.oIdx - (if c.term == Flush then c.K - 1 else 0) == c.len;
    if rv != -1 {
      ghost var p := Traced(c, decoder.steps, decoder.rows, decoder.hists, decoder.oIdx, end).1;
      forall i | 0 <= i < c.len
        ensures p[i] == Data(output[..c.len][i])
      {
        assert decoder.BitOk(output, p, i) && !decoder.steps[i].flush;
      }
    }
    BlockIsDecoded(c, input, decoder.steps, decoder.rows, decoder.hists, output[..c.len], rv, end);
  }

  lemma BlockIsWhole(c: Code, input: seq<sbit>, data: seq<Step>, steps: seq<Step>)
    requires c.K >= 1 && ValidSteps(c, steps)
    requires |data| == c.len && Received(c, data, 0, c.len, false, input, 0)
    requires |steps| == BlockSteps(c) && steps[..c.len] == data
    requires Received(c, steps, c.len, |steps|, true, input, 0)
    ensures WholeBlock(c, input, steps)
  {
    forall t | 0 <= t < |steps|
      ensures steps[t].flush == (t >= c.len) && IsSymbol(c, input, 0, At(c, t), steps[t].sym)
    {
      if t < c.len {
        assert steps[t] == data[t];
      }
    }
  }

  lemma BlockIsDecoded(c: Code, input: seq<sbit>, steps: seq<Step>, rows: seq<seq<nat>>, hists: seq<seq<nat>>,
                       msg: seq<ubit>, rv: int, end: nat)
    requires Decodable(c) && IsMessage(c, msg)
    requires |input| >= Rank(c, At(c, BlockSteps(c))) && WholeBlock(c, input, steps)
    requires Trellis(c, steps, rows, hists) && rows[0] == StartRow(NumStates(c), 0)
    requires rv == -1 <==> c.term == Truncation && forall q :: IsBest(rows[|steps|], q) ==> q == 0xff
    requires rv != -1 ==>
      && (if c.term == Flush then end == 0 else IsBest(rows[|steps|], end))
      && end < NumStates(c) && rv == rows[|steps|][end] < MAX_AE
      && var p := Traced(c, steps, rows, hists, |steps|, end).1;
         forall i :: 0 <= i < c.len ==> p[i] == Data(msg[i])
    ensures Decoded(c, input, msg, rv)
  {
    if c.term == Truncation {
      SentinelCollision(c, input, steps, rows, hists);
    }
    if rv != -1 {
      TraceIsMessage(c, input, steps, rows, hists, end, msg);
      if c.term == Flush {
        FlushedBlock(c, input, steps, rows, hists);
      } else {
        TruncatedBlock(c, input, steps, rows, hists, end);
      }
    }
  }
}
