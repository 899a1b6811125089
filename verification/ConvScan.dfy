/** What a scan computes after any number of steps, and that it does not matter how the steps
    were cut into calls. */
module ConvScan {
  import opened ConvCode
  import opened ConvTrellis
  import opened ConvDecoder

  // ------------------------------------------------------------------ exactness

  /** A path the code allows, from the start state to q. */
  ghost predicate Reaches(c: Code, steps: seq<Step>, start: nat, p: Path, q: nat)
    requires ValidTables(c) && start < NumStates(c)
  {
    Legal(p, steps) && Run(c, start, p) == q
  }

  /** After any number of steps from a start state, the entry of a state is the least metric
      of all paths to it, and MAX_AE if and only if there is no path. */
  lemma RowIsMinimum(c: Code, steps: seq<Step>, rows: seq<seq<nat>>, hists: seq<seq<nat>>, start: nat, q: nat)
    requires ValidTables(c) && Trellis(c, steps, rows, hists)
    requires start < NumStates(c) && rows[0] == StartRow(NumStates(c), start) && q < NumStates(c)
    requires 127 * At(c, |steps|) < MAX_AE
    ensures rows[|steps|][q] == MAX_AE <==> forall p :: !Reaches(c, steps, start, p, q)
    ensures forall p :: Reaches(c, steps, start, p, q) ==> rows[|steps|][q] <= Metric(c, start, p, steps)
    ensures rows[|steps|][q] != MAX_AE ==>
      exists p :: Reaches(c, steps, start, p, q) && rows[|steps|][q] == Metric(c, start, p, steps)
  {
    forall p | Reaches(c, steps, start, p, q)
      ensures rows[|steps|][q] <= Metric(c, start, p, steps) < MAX_AE
    {
      RowIsLowerBound(c, steps, rows, hists, start, p, |p|);
      assert p[..|p|] == p && steps[..|p|] == steps;
    }
    RowIsBounded(c, steps, rows, hists, q);
    if rows[|steps|][q] < MAX_AE {
      var p := BestPath(c, steps, rows, hists, start, q);
    }
  }

  lemma RowIsBounded(c: Code, steps: seq<Step>, rows: seq<seq<nat>>, hists: seq<seq<nat>>, q: nat)
    requires ValidTables(c) && Trellis(c, steps, rows, hists) && q < NumStates(c)
    requires rows[0][q] <= MAX_AE
    ensures rows[|steps|][q] <= MAX_AE
  {
    var t := |steps|;
    if t > 0 {
      assert StepAt(c, steps, rows, hists, t - 1);
      assert Survivor(c, steps[t - 1], rows[t - 1], rows[t], hists[t - 1], q);
    }
  }

  lemma BestPath(c: Code, steps: seq<Step>, rows: seq<seq<nat>>, hists: seq<seq<nat>>, start: nat, q: nat)
    returns (p: Path)
    requires ValidTables(c) && Trellis(c, steps, rows, hists)
    requires start < NumStates(c) && rows[0] == StartRow(NumStates(c), start) && q < NumStates(c)
    requires rows[|steps|][q] < MAX_AE
    ensures Reaches(c, steps, start, p, q) && rows[|steps|][q] == Metric(c, start, p, steps)
  {
    TracedIsExact(c, steps, rows, hists, |steps|, q);
    assert steps[..|steps|] == steps;
    var (s0, path) := Traced(c, steps, rows, hists, |steps|, q);
    assert rows[0][s0] < MAX_AE;
    p := path;
  }

  // ------------------------------------------------------------------ chunks

  /** Steps read from a chunk of the input are steps read from the input. */
  lemma ChunkOfInput(c: Code, steps: seq<Step>, from: nat, to: nat, flush: bool, input: seq<sbit>, base: int, k: nat)
    requires from <= to <= |steps| && k <= |input| && ValidSteps(c, steps)
    requires base + Rank(c, At(c, from)) >= k
    requires Received(c, steps, from, to, flush, input[k..], base - k)
    ensures Received(c, steps, from, to, flush, input, base)
  {
    forall t | from <= t < to
      ensures steps[t].flush == flush && IsSymbol(c, input, base, At(c, t), steps[t].sym)
    {
      AtMonotone(c, from, t);
      forall j | 0 <= j < |steps[t].sym|
        ensures steps[t].sym[j] == SoftAt(c, input, base, At(c, t) + j)
      {
        RankMonotone(c, At(c, from), At(c, t) + j);
      }
    }
  }

  /** Two decoders of a code that started alike and read the same data steps and the same
      flush steps of an input are in the same state, however the steps were cut into calls:
      the same errors, and the same best path to every reachable state. */
  lemma ChunksAgree(a: Decoder, b: Decoder, data: nat, input: seq<sbit>, q: nat)
    requires a.Valid() && b.Valid() && a.code == b.code && a.oIdx == b.oIdx && a.rows[0] == b.rows[0]
    requires data <= a.oIdx
    requires Received(a.code, a.steps, 0, data, false, input, 0) && Received(b.code, b.steps, 0, data, false, input, 0)
    requires Received(a.code, a.steps, data, a.oIdx, true, input, 0) && Received(b.code, b.steps, data, b.oIdx, true, input, 0)
    requires q < a.nStates
    ensures a.ae[..] == b.ae[..] && a.pIdx == b.pIdx && a.steps == b.steps
    ensures a.ae[q] < MAX_AE ==>
      Traced(a.code, a.steps, a.rows, a.hists, a.oIdx, q) == Traced(b.code, b.steps, b.rows, b.hists, b.oIdx, q)
  {
    var c, n := a.code, a.oIdx;
    ReceivedIsDetermined(c, a.steps, b.steps, 0, data, false, input, 0);
    ReceivedIsDetermined(c, a.steps, b.steps, data, n, true, input, 0);
    assert a.steps == b.steps;
    RowsAreDetermined(c, a.steps, a.rows, a.hists, b.rows, b.hists, n);
    if a.ae[q] < MAX_AE {
      assert a.ae[q] == a.ae[..][q];
      TracedIsDetermined(c, a.steps, a.rows, a.hists, b.rows, b.hists, n, q);
    }
  }

  lemma {:induction false} TracedIsDetermined(c: Code, steps: seq<Step>, rows1: seq<seq<nat>>, hists1: seq<seq<nat>>,
                                              rows2: seq<seq<nat>>, hists2: seq<seq<nat>>, t: nat, q: nat)
    requires ValidTables(c) && Trellis(c, steps, rows1, hists1) && Trellis(c, steps, rows2, hists2)
    requires rows1[0] == rows2[0] && t < |rows1| && q < NumStates(c) && rows1[t][q] < MAX_AE
    ensures rows1[t] == rows2[t] && Traced(c, steps, rows1, hists1, t, q) == Traced(c, steps, rows2, hists2, t, q)
  {
    RowsAreDetermined(c, steps, rows1, hists1, rows2, hists2, t);
    if t > 0 {
      LastHop(c, steps, rows1, hists1, t, q);
      TracedIsDetermined(c, steps, rows1, hists1, rows2, hists2, t - 1, hists1[t - 1][q]);
    }
  }

  // ------------------------------------------------------------------ ties

  /** Nothing was received: every symbol is unknown. */
  ghost predicate Unknown(steps: seq<Step>)
  {
    forall t, j :: 0 <= t < |steps| && 0 <= j < |steps[t].sym| ==> steps[t].sym[j] == 0
  }

  /** Zeros keep the code in state zero, as in every code that is linear. */
  ghost predicate ZerosStay(c: Code)
    requires ValidTables(c)
  {
    c.nextState[0][0] == 0 && Next(c, 0, Term) == 0
  }

  lemma {:induction false} UnknownCostsNothing(c: Code, out: nat, sym: seq<sbit>, n: nat)
    requires n <= c.N == |sym| && forall j :: 0 <= j < n ==> sym[j] == 0
    ensures SymMetric(c, out, sym, n) == 0
  {
    if n > 0 {
      UnknownCostsNothing(c, out, sym, n - 1);
    }
  }

  /** The branch that zeros take. */
  ghost function ZeroBranch(flush: bool): Branch
  {
    if flush then Term else Data(0)
  }

  /** Of paths that are equally good the decoder keeps the one through the first state: when
      nothing was received, it stays in state zero. */
  lemma {:induction false} UnknownStaysAtZero(c: Code, steps: seq<Step>, rows: seq<seq<nat>>, hists: seq<seq<nat>>, t: nat)
    requires ValidTables(c) && Trellis(c, steps, rows, hists) && Unknown(steps) && ZerosStay(c)
    requires rows[0][0] == 0 && t < |rows|
    ensures rows[t][0] == 0 && (t > 0 ==> hists[t - 1][0] == 0)
  {
    if t > 0 {
      UnknownStaysAtZero(c, steps, rows, hists, t - 1);
      assert StepAt(c, steps, rows, hists, t - 1);
      ZeroStep(c, steps[t - 1], rows[t - 1], rows[t], hists[t - 1]);
    }
  }

  lemma ZeroStep(c: Code, st: Step, row: seq<nat>, next: seq<nat>, hist: seq<nat>)
    requires ValidTables(c) && ValidStep(c, st) && ZerosStay(c) && forall j :: 0 <= j < |st.sym| ==> st.sym[j] == 0
    requires |row| == |next| == |hist| == NumStates(c) && RowStep(c, st, row, next, hist) && row[0] == 0
    ensures next[0] == 0 && hist[0] == 0
  {
    var br := ZeroBranch(st.flush);
    UnknownCostsNothing(c, Output(c, 0, br), st.sym, c.N);
    assert Allowed(st, br) && Processed(0, br, NumStates(c), 0);
    assert Covers(c, st, row, next, 0, br);
    assert Survivor(c, st, row, next, hist, 0);
    assert Earliest(c, st, row, hist[0], 0, 0);
  }

  /** So a block of which nothing was received decodes to zeros, at error zero. */
  lemma {:induction false} UnknownTracesZeros(c: Code, steps: seq<Step>, rows: seq<seq<nat>>, hists: seq<seq<nat>>,
                                              t: nat, i: nat)
    requires ValidTables(c) && Trellis(c, steps, rows, hists) && Unknown(steps) && ZerosStay(c)
    requires rows[0][0] == 0 && i < t < |rows| && rows[t][0] < MAX_AE
    ensures Traced(c, steps, rows, hists, t, 0).1[i] == ZeroBranch(steps[i].flush)
    decreases t
  {
    UnknownStaysAtZero(c, steps, rows, hists, t);
    UnknownStaysAtZero(c, steps, rows, hists, t - 1);
    LastHop(c, steps, rows, hists, t, 0);
    if i < t - 1 {
      UnknownTracesZeros(c, steps, rows, hists, t - 1, i);
    }
  }

  lemma UnknownEndsAtZero(c: Code, steps: seq<Step>, rows: seq<seq<nat>>, hists: seq<seq<nat>>, end: nat)
    requires ValidTables(c) && Trellis(c, steps, rows, hists) && Unknown(steps) && ZerosStay(c)
    requires rows[0][0] == 0 && IsBest(rows[|steps|], end)
    ensures end == 0 && rows[|steps|][end] == 0
  {
    UnknownStaysAtZero(c, steps, rows, hists, |steps|);
  }
}
