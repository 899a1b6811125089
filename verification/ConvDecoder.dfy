/** The Viterbi decoder: two arrays of accumulated errors, a flat array of survivors, and a
    backward traceback, all updated in place. */
module ConvDecoder {
  import opened Options
  import opened ConvCode
  import opened ConvTrellis

  /** Where row i of a flat array with rows of n entries starts. */
  ghost function RowAt(n: nat, i: nat): nat
  {
    if i == 0 then 0 else RowAt(n, i - 1) + n
  }

  lemma {:induction false} RowAtIsProduct(n: nat, i: nat)
    ensures RowAt(n, i) == n * i
  {
    if i > 0 {
      RowAtIsProduct(n, i - 1);
    }
  }

  lemma {:induction false} RowAtMonotone(n: nat, i: nat, j: nat)
    requires i < j
    ensures RowAt(n, i) + n <= RowAt(n, j)
  {
    if i < j - 1 {
      RowAtMonotone(n, i, j - 1);
    }
  }

  /** The soft bit at trellis position r of a reception whose surviving bits start at
      input[base]: unknown where the code punctures, and past the end of the input. */
  ghost function SoftAt(c: Code, input: seq<sbit>, base: int, r: nat): sbit
  {
    if !Punctured(c, r) && 0 <= base + Rank(c, r) < |input| then input[base + Rank(c, r)] else 0
  }

  ghost predicate IsSymbol(c: Code, input: seq<sbit>, base: int, r0: nat, sym: seq<sbit>)
  {
    forall j :: 0 <= j < |sym| ==> sym[j] == SoftAt(c, input, base, r0 + j)
  }

  /** Steps from..to are the data (or flush) steps read from input, whose surviving bits
      start at input[base]. */
  ghost predicate Received(c: Code, steps: seq<Step>, from: nat, to: nat, flush: bool, input: seq<sbit>, base: int)
    requires to <= |steps|
  {
    forall t :: from <= t < to ==>
      steps[t].flush == flush && IsSymbol(c, input, base, At(c, t), steps[t].sym)
  }

  lemma ReceivedMore(c: Code, a: seq<Step>, b: seq<Step>, from: nat, flush: bool, input: seq<sbit>, base: int)
    requires |b| == |a| + 1 && b[..|a|] == a && from <= |a|
    requires Received(c, a, from, |a|, flush, input, base) && Received(c, b, |a|, |b|, flush, input, base)
    ensures Received(c, b, from, |b|, flush, input, base) && b[..from] == a[..from]
  {
    assert forall t :: 0 <= t < |a| ==> b[t] == a[t];
  }

  /** What two histories read from the same input is the same, however it was chunked. */
  lemma ReceivedIsDetermined(c: Code, a: seq<Step>, b: seq<Step>, from: nat, to: nat, flush: bool, input: seq<sbit>, base: int)
    requires from <= to <= |a| && to <= |b| && ValidSteps(c, a) && ValidSteps(c, b)
    requires Received(c, a, from, to, flush, input, base) && Received(c, b, from, to, flush, input, base)
    ensures forall t :: from <= t < to ==> a[t] == b[t]
  {
    forall t | from <= t < to
      ensures a[t] == b[t]
    {
      assert ValidStep(c, a[t]) && ValidStep(c, b[t]);
      assert a[t].sym == b[t].sym;
    }
  }

  /** The errors before the first step: zero where the decoder may start. */
  ghost function StartRow(n: nat, startState: int): (r: seq<nat>)
    ensures |r| == n
  {
    seq(n, s => if startState < 0 || s == startState then 0 else MAX_AE)
  }

  /** q is the first state of least error, and reachable. */
  ghost predicate IsBest(row: seq<nat>, q: nat)
  {
    && q < |row|
    && row[q] < MAX_AE
    && (forall s :: 0 <= s < q ==> row[q] < row[s])
    && (forall s :: q <= s < |row| ==> row[q] <= row[s])
  }

  class Decoder {
    const code: Code
    const nStates: nat
    const len: nat
    var oIdx: nat
    var pIdx: nat
    const ae: array<nat>
    const aeNext: array<nat>
    const stateHistory: array<nat>

    // the reception so far: its steps, the rows of accumulated errors, the survivors
    ghost var steps: seq<Step>
    ghost var rows: seq<seq<nat>>
    ghost var hists: seq<seq<nat>>

    ghost predicate Allocated()
    {
      && ConvCode.Valid(code)
      && nStates == NumStates(code)
      && ae.Length == aeNext.Length == nStates
      && stateHistory.Length == RowAt(nStates, len + code.K - 1)
      && ae != aeNext && ae != stateHistory && aeNext != stateHistory
    }

    ghost predicate Recorded()
      reads this, stateHistory
      requires Allocated()
    {
      && oIdx <= len + code.K - 1
      && pIdx == Cursor(code, At(code, oIdx))
      && |steps| == oIdx
      && Trellis(code, steps, rows, hists)
      && (forall t :: 0 <= t < oIdx ==> HistRow(t) == hists[t])
    }

    ghost function HistRow(t: nat): seq<nat>
      reads stateHistory
    {
      if RowAt(nStates, t) + nStates <= stateHistory.Length
      then stateHistory[RowAt(nStates, t)..RowAt(nStates, t) + nStates]
      else []
    }

    ghost predicate Valid()
      reads this, ae, stateHistory
    {
      && Allocated()
      && Recorded()
      && ae[..] == rows[oIdx]
    }

    /** Accumulates one branch into the next row. */
    method Relax(s: nat, state: nat, out: nat, inSym: seq<sbit>, ghost st: Step, ghost br: Branch)
      requires Allocated() && s < nStates && oIdx < len + code.K - 1
      requires st.sym == inSym && ValidStep(code, st) && Allowed(st, br)
      requires state == Next(code, s, br) && out == Output(code, s, br)
      requires |HistRow(oIdx)| == nStates
      requires PartialRow(code, st, ae[..], aeNext[..], HistRow(oIdx), s, if br.Data? then br.bit else 0)
      modifies aeNext, stateHistory
      ensures |HistRow(oIdx)| == nStates
      ensures PartialRow(code, st, ae[..], aeNext[..], HistRow(oIdx),
                         if br.Data? then s else s + 1, if br.Data? then br.bit + 1 else 0)
      ensures forall k :: 0 <= k < RowAt(nStates, oIdx) ==> stateHistory[k] == old(stateHistory[k])
    {
      var nae: nat := ae[s];
      for j := 0 to code.N
        invariant nae == ae[s] + SymMetric(code, out, inSym, j)
      {
        nae := nae + Cost(inSym[j], OutBit(out, code.N - 1 - j));
      }
      ghost var next, hist := aeNext[..], HistRow(oIdx);
      if aeNext[state] > nae {
        aeNext[state] := nae;
        RowAtIsProduct(nStates, oIdx);
        stateHistory[nStates * oIdx + state] := s;
        assert aeNext[..] == next[state := nae];
        assert HistRow(oIdx) == hist[state := s];
      }
      RelaxBranch(code, st, ae[..], next, hist, s, br, aeNext[..], HistRow(oIdx));
    }

    /** Reads one soft symbol from input[off] on, leaving punctured places unknown. */
    method ReadSymbol(input: seq<sbit>, off: nat, ghost base: int) returns (inSym: seq<sbit>, iIdx: nat)
      requires code.K >= 1 && ValidPunctures(code) && pIdx == Cursor(code, At(code, oIdx))
      requires off == base + Rank(code, At(code, oIdx))
      requires base + Rank(code, At(code, oIdx + 1)) <= |input|
      modifies this`pIdx
      ensures pIdx == Cursor(code, At(code, oIdx + 1))
      ensures iIdx == base + Rank(code, At(code, oIdx + 1))
      ensures |inSym| == code.N && IsSymbol(code, input, base, At(code, oIdx), inSym)
    {
      ghost var r0 := At(code, oIdx);
      iIdx := off;
      inSym := [];
      for j := 0 to code.N
        invariant |inSym| == j
        invariant pIdx == Cursor(code, r0 + j)
        invariant iIdx == base + Rank(code, r0 + j)
        invariant IsSymbol(code, input, base, r0, inSym)
      {
        RankMonotone(code, r0 + j + 1, r0 + code.N);
        var drop := Punctures(j);
        if drop {
          inSym := inSym + [0];
        } else {
          inSym := inSym + [input[iIdx]];
          iIdx := iIdx + 1;
        }
      }
    }

    /** Tells whether bit j of the current symbol is punctured and moves the cursor past it. */
    method Punctures(j: nat) returns (drop: bool)
      requires code.K >= 1 && ValidPunctures(code) && pIdx == Cursor(code, At(code, oIdx) + j)
      modifies this`pIdx
      ensures drop <==> Punctured(code, At(code, oIdx) + j)
      ensures pIdx == Cursor(code, At(code, oIdx) + j + 1)
    {
      drop := false;
      if code.puncture.Some? {
        var idx := oIdx * code.N + j;
        AtIsProduct(code, oIdx);
        CursorDecides(code, idx);
        if code.puncture.value[pIdx] == idx {
          pIdx := pIdx + 1;
          drop := true;
        }
      }
    }

    /** Marks every entry of the next row unreachable. */
    method ResetNext(ghost st: Step)
      requires Allocated() && ValidStep(code, st) && |HistRow(oIdx)| == nStates
      modifies aeNext
      ensures PartialRow(code, st, ae[..], aeNext[..], HistRow(oIdx), 0, 0)
    {
      for s := 0 to nStates
        invariant forall q :: 0 <= q < s ==> aeNext[q] == MAX_AE
      {
        aeNext[s] := MAX_AE;
      }
    }

    /** All branches of a data step, or the one flush branch of every state. */
    method ScanRow(inSym: seq<sbit>, flush: bool)
      requires Allocated() && oIdx < len + code.K - 1
      requires |inSym| == code.N && |HistRow(oIdx)| == nStates
      modifies aeNext, stateHistory
      ensures |HistRow(oIdx)| == nStates
      ensures RowStep(code, Step(flush, inSym), ae[..], aeNext[..], HistRow(oIdx))
      ensures forall k :: 0 <= k < RowAt(nStates, oIdx) ==> stateHistory[k] == old(stateHistory[k])
    {
      ghost var st := Step(flush, inSym);
      ResetNext(st);
      for s := 0 to nStates
        invariant |HistRow(oIdx)| == nStates
        invariant PartialRow(code, st, ae[..], aeNext[..], HistRow(oIdx), s, 0)
        invariant forall k :: 0 <= k < RowAt(nStates, oIdx) ==> stateHistory[k] == old(stateHistory[k])
      {
        if flush {
          var out, state;
          if code.nextTermOutput.Some? {
            out, state := code.nextTermOutput.value[s], code.nextTermState[s];
          } else {
            out, state := code.nextOutput[s][0], code.nextState[s][0];
          }
          Relax(s, state, out, inSym, st, Term);
        } else {
          for b := 0 to 2
            invariant |HistRow(oIdx)| == nStates
            invariant PartialRow(code, st, ae[..], aeNext[..], HistRow(oIdx), s, b)
            invariant forall k :: 0 <= k < RowAt(nStates, oIdx) ==> stateHistory[k] == old(stateHistory[k])
          {
            Relax(s, code.nextState[s][b], code.nextOutput[s][b], inSym, st, Data(b));
          }
        }
      }
    }

    /** One trellis step: read, relax, copy the new row, record. */
    method Advance(input: seq<sbit>, off: nat, flush: bool, ghost base: int) returns (iIdx: nat)
      requires Valid() && oIdx < len + code.K - 1
      requires off == base + Rank(code, At(code, oIdx))
      requires base + Rank(code, At(code, oIdx + 1)) <= |input|
      modifies this, ae, aeNext, stateHistory
      ensures Valid() && oIdx == old(oIdx) + 1
      ensures iIdx == base + Rank(code, At(code, oIdx))
      ensures |steps| == old(|steps|) + 1 && steps[..old(|steps|)] == old(steps)
      ensures Received(code, steps, old(oIdx), oIdx, flush, input, base)
      ensures rows[0] == old(rows[0])
    {
      var inSym;
      inSym, iIdx := ReadSymbol(input, off, base);
      Extend(inSym, flush);
    }

    /** Scans one symbol into the next row; the survivors so far stay. */
    method Extend(inSym: seq<sbit>, flush: bool)
      requires Allocated() && oIdx < len + code.K - 1 && ValidStep(code, Step(flush, inSym))
      requires pIdx == Cursor(code, At(code, oIdx + 1))
      requires |steps| == oIdx && Trellis(code, steps, rows, hists) && ae[..] == rows[oIdx]
      requires forall t :: 0 <= t < oIdx ==> HistRow(t) == hists[t]
      modifies this, ae, aeNext, stateHistory
      ensures Valid() && oIdx == old(oIdx) + 1 && pIdx == old(pIdx)
      ensures steps == old(steps) + [Step(flush, inSym)] && rows[0] == old(rows[0])
    {
      RowAtMonotone(nStates, oIdx, len + code.K - 1);
      ScanRow(inSym, flush);
      KeepsHistory();
      Commit(Step(flush, inSym));
    }

    /** Makes the next row the current one and records the step. */
    method Commit(ghost st: Step)
      requires Allocated() && oIdx < len + code.K - 1 && ValidStep(code, st)
      requires pIdx == Cursor(code, At(code, oIdx + 1))
      requires |steps| == oIdx && Trellis(code, steps, rows, hists) && ae[..] == rows[oIdx]
      requires forall t :: 0 <= t < oIdx ==> HistRow(t) == hists[t]
      requires |HistRow(oIdx)| == nStates
      requires RowStep(code, st, ae[..], aeNext[..], HistRow(oIdx))
      modifies this, ae
      ensures Valid() && oIdx == old(oIdx) + 1 && pIdx == old(pIdx)
      ensures steps == old(steps) + [st] && rows[0] == old(rows[0])
    {
      TrellisGrows(code, steps, rows, hists, st, aeNext[..], HistRow(oIdx));
      steps, rows, hists := steps + [st], rows + [aeNext[..]], hists + [HistRow(oIdx)];
      CopyRow();
      oIdx := oIdx + 1;
    }

    /** Survivors below the current row stay what they were when nothing below it changed. */
    twostate lemma KeepsHistory()
      requires Allocated()
      requires forall k :: 0 <= k < RowAt(nStates, oIdx) && k < stateHistory.Length ==> stateHistory[k] == old(stateHistory[k])
      ensures forall t :: 0 <= t < oIdx ==> HistRow(t) == old(HistRow(t))
    {
      forall t | 0 <= t < oIdx
        ensures HistRow(t) == old(HistRow(t))
      {
        RowAtMonotone(nStates, t, oIdx);
      }
    }

    method CopyRow()
      requires Allocated()
      modifies ae
      ensures ae[..] == aeNext[..]
    {
      for s := 0 to nStates
        invariant forall q :: 0 <= q < s ==> ae[q] == aeNext[q]
      {
        ae[s] := aeNext[s];
      }
    }

    constructor (c: Code, length: int, startState: int)
      requires ConvCode.Valid(c)
      ensures Valid() && code == c && len == (if length <= 0 then c.len else length)
      ensures fresh(ae) && fresh(aeNext) && fresh(stateHistory)
      ensures oIdx == 0 && rows == [StartRow(nStates, startState)]
    {
      var l := if length <= 0 then c.len else length;
      var n := NumStates(c);
      RowAtIsProduct(n, l + c.K - 1);
      code, nStates, len := c, n, l;
      ae := new nat[n];
      aeNext := new nat[n];
      stateHistory := new nat[n * (l + c.K - 1)];
      new;
      Reset(startState);
    }

    /** Back to the beginning of a block. A negative start state means "any". */
    method Reset(startState: int)
      requires Allocated()
      modifies this, ae
      ensures Valid() && oIdx == 0 && rows == [StartRow(nStates, startState)]
    {
      oIdx, pIdx := 0, 0;
      for i := 0 to nStates
        invariant oIdx == 0 && pIdx == 0
        invariant forall s :: 0 <= s < i ==> ae[s] == if startState < 0 || s == startState then 0 else MAX_AE
      {
        ae[i] := if startState < 0 || i == startState then 0 else MAX_AE;
      }
      steps, rows, hists := [], [ae[..]], [];
      assert ae[..] == StartRow(nStates, startState);
    }

    /** Runs n data steps on the input from input[off] on; returns the input consumed. */
    method Scan(input: seq<sbit>, off: nat, n: nat, ghost base: int) returns (iIdx: nat)
      requires Valid() && oIdx + n <= len + code.K - 1
      requires off == base + Rank(code, At(code, oIdx))
      requires base + Rank(code, At(code, oIdx + n)) <= |input|
      modifies this, ae, aeNext, stateHistory
      ensures Valid() && oIdx == old(oIdx) + n
      ensures iIdx + old(Rank(code, At(code, oIdx))) == Rank(code, At(code, oIdx))
      ensures steps[..old(oIdx)] == old(steps) && rows[0] == old(rows[0])
      ensures Received(code, steps, old(oIdx), oIdx, false, input, base)
    {
      var at := Steps(input, off, n, false, base);
      iIdx := at - off;
    }

    /** Runs the K-1 flush steps; returns the input consumed. */
    method Flush(input: seq<sbit>, off: nat, ghost base: int) returns (iIdx: nat)
      requires Valid() && oIdx + code.K - 1 <= len + code.K - 1
      requires off == base + Rank(code, At(code, oIdx))
      requires base + Rank(code, At(code, oIdx + code.K - 1)) <= |input|
      modifies this, ae, aeNext, stateHistory
      ensures Valid() && oIdx == old(oIdx) + code.K - 1
      ensures iIdx + old(Rank(code, At(code, oIdx))) == Rank(code, At(code, oIdx))
      ensures steps[..old(oIdx)] == old(steps) && rows[0] == old(rows[0])
      ensures Received(code, steps, old(oIdx), oIdx, true, input, base)
    {
      var at := Steps(input, off, code.K - 1, true, base);
      iIdx := at - off;
    }

    method Steps(input: seq<sbit>, off: nat, n: nat, flush: bool, ghost base: int) returns (at: nat)
      requires Valid() && oIdx + n <= len + code.K - 1
      requires off == base + Rank(code, At(code, oIdx))
      requires base + Rank(code, At(code, oIdx + n)) <= |input|
      modifies this, ae, aeNext, stateHistory
      ensures Valid() && oIdx == old(oIdx) + n
      ensures at == base + Rank(code, At(code, oIdx)) && off <= at
      ensures steps[..old(oIdx)] == old(steps) && rows[0] == old(rows[0])
      ensures Received(code, steps, old(oIdx), oIdx, flush, input, base)
    {
      at := off;
      ghost var o := oIdx;
      for i := 0 to n
        invariant Valid() && oIdx == o + i
        invariant at == base + Rank(code, At(code, oIdx)) && off <= at
        invariant steps[..o] == old(steps) && rows[0] == old(rows[0])
        invariant Received(code, steps, o, oIdx, flush, input, base)
      {
        RankSteps(code, oIdx, oIdx + 1);
        RankSteps(code, oIdx + 1, o + n);
        ghost var before := steps;
        at := Advance(input, at, flush, base);
        ReceivedMore(code, before, steps, o, flush, input, base);
      }
    }

    /** The first state of least error, or the octet 0xff when no reachable state is found. */
    method FindEnd() returns (minState: nat, minAe: nat)
      requires Valid()
      ensures minState == 0xff || (minState < nStates && ae[minState] == minAe)
      ensures minState != 0xff ==> IsBest(ae[..], minState)
      ensures minState == 0xff ==> forall q :: IsBest(ae[..], q) ==> q == 0xff
    {
      minAe, minState := MAX_AE, 0xff;
      ghost var found := false;
      for s := 0 to nStates
        invariant !found ==> minAe == MAX_AE && minState == 0xff && forall q :: 0 <= q < s ==> ae[q] >= MAX_AE
        invariant found ==>
          && minState < s && ae[minState] == minAe < MAX_AE
          && (forall q :: 0 <= q < minState ==> minAe < ae[q])
          && (forall q :: minState <= q < s ==> minAe <= ae[q])
      {
        if ae[s] < minAe {
          minAe, minState, found := ae[s], s, true;
        }
      }
    }

    /** The best path to state cur at time t begins the path `full`. */
    ghost predicate OnPath(full: Path, t: nat, cur: nat)
      requires ValidTables(code) && nStates == NumStates(code) && Trellis(code, steps, rows, hists)
      reads this`steps, this`rows, this`hists, this`oIdx
    {
      && t <= oIdx && t < |rows| && cur < nStates && rows[t][cur] < MAX_AE
      && Traced(code, steps, rows, hists, t, cur).1 <= full
    }

    /** The entry of the survivors that the traceback reads at time t > 0. */
    method Predecessor(t: nat, cur: nat, ghost full: Path) returns (prev: nat)
      requires Valid() && t > 0 && OnPath(full, t, cur)
      ensures prev < nStates && OnPath(full, t - 1, prev)
      ensures Next(code, prev, BranchTo(code, steps[t - 1].flush, prev, cur)) == cur
      ensures t <= |full| && full[t - 1] == BranchTo(code, steps[t - 1].flush, prev, cur)
    {
      LastHop(code, steps, rows, hists, t, cur);
      RowAtIsProduct(nStates, t - 1);
      RowAtMonotone(nStates, t - 1, len + code.K - 1);
      assert HistRow(t - 1)[cur] == hists[t - 1][cur];
      prev := stateHistory[nStates * (t - 1) + cur];
    }

    /** Follows the survivors back from the end state and writes the data bits found. */
    method GetOutput(output: array<ubit>, hasFlush: bool, endState: int)
        returns (rv: int, ghost end: nat)
      requires Valid() && output.Length + (if hasFlush then code.K - 1 else 0) >= oIdx
      requires hasFlush ==> oIdx >= code.K - 1
      requires endState >= 0 ==> endState < nStates && ae[endState] < MAX_AE
      modifies output
      ensures Valid() && rows == old(rows) && steps == old(steps) && hists == old(hists)
      ensures rv == -1 <==> endState < 0 && forall q :: IsBest(rows[oIdx], q) ==> q == 0xff
      ensures rv != -1 ==>
        && (if endState >= 0 then end == endState else IsBest(rows[oIdx], end))
        && end < nStates && rv == rows[oIdx][end] < MAX_AE
        && (forall i :: 0 <= i < oIdx - (if hasFlush then code.K - 1 else 0)
              ==> BitOk(output, Traced(code, steps, rows, hists, oIdx, end).1, i))
    {
      var minState: nat, minAe: nat;
      if endState < 0 {
        minState, minAe := FindEnd();
        if minState == 0xff {
          return -1, 0;
        }
      } else {
        minState, minAe := endState, ae[endState];
      }
      rv, end := minAe, minState;
      ghost var full := Traced(code, steps, rows, hists, oIdx, end).1;
      var n, cur := SkipFlush(minState, if hasFlush then code.K - 1 else 0, full);
      WriteData(output, n, cur, full);
    }

    /** No output for the termination steps. */
    method SkipFlush(end: nat, k: nat, ghost full: Path) returns (n: nat, cur: nat)
      requires Valid() && k <= oIdx && OnPath(full, oIdx, end)
      ensures n == oIdx - k && OnPath(full, n, cur)
    {
      n, cur := oIdx, end;
      var stop := n - k;
      while n > stop
        invariant stop <= n && OnPath(full, n, cur)
      {
        cur := Predecessor(n, cur, full);
        n := n - 1;
      }
    }

    /** One step of the traceback: writes the bit of the branch into state cur at time t. */
    method TraceBit(output: array<ubit>, t: nat, cur: nat, ghost full: Path, ghost data: nat) returns (prev: nat)
      requires Valid() && 0 < t <= data <= output.Length && OnPath(full, t, cur) && BitsOk(output, full, t, data)
      modifies output
      ensures Valid() && OnPath(full, t - 1, prev) && BitsOk(output, full, t - 1, data)
    {
      prev := Predecessor(t, cur, full);
      output[t - 1] := if code.nextState[prev][0] == cur then 0 else 1;
      forall i {:trigger BitOk(output, full, i)} | t - 1 <= i < data
        ensures BitOk(output, full, i)
      {
        assert i >= t ==> old(BitOk(output, full, i));
      }
    }

    /** Bit k of the output agrees with the path. */
    ghost predicate BitOk(output: array<ubit>, full: Path, k: nat)
      reads this`steps, output
    {
      k < |full| && k < output.Length && k < |steps| && (!steps[k].flush ==> full[k] == Data(output[k]))
    }

    ghost predicate BitsOk(output: array<ubit>, full: Path, from: nat, to: nat)
      reads this`steps, output
    {
      forall i {:trigger BitOk(output, full, i)} :: from <= i < to ==> BitOk(output, full, i)
    }

    /** Generates the data bits backward from state `last` at time `data`. */
    method WriteData(output: array<ubit>, data: nat, last: nat, ghost full: Path)
      requires Valid() && data <= output.Length && OnPath(full, data, last)
      modifies output
      ensures Valid() && BitsOk(output, full, 0, data)
    {
      var n: nat, cur := data, last;
      while n > 0
        invariant n <= data && Valid() && OnPath(full, n, cur) && BitsOk(output, full, n, data)
      {
        cur := TraceBit(output, n, cur, full, data);
        n := n - 1;
      }
    }
  }
}
