/** Soft-decision metrics over the trellis, and what a row of accumulated errors with its
    survivors says about the paths of the trellis. */
module ConvTrellis {
  import opened ConvCode

  /** Larger than every real path metric: the mark of an unreachable state. */
  const MAX_AE: nat := 0x00ffffff

  /** The penalty of receiving `x` where `bit` was sent: the scaled squared distance to the
      bit's nominal value, nothing for an unknown symbol. */
  function Cost(x: sbit, bit: ubit): (r: nat)
    ensures r <= 127
  {
    if x == 0 then 0 else
      var e := x - (if bit == 1 then -127 else 127);
      SquareBound(e);
      (e * e) / 512
  }

  lemma SquareBound(e: int)
    requires -255 <= e <= 255
    ensures 0 <= e * e <= 65025
  {
    var a := if e < 0 then -e else e;
    assert e * e == a * a;
    Scale(a, 255, a);
  }

  lemma Scale(x: int, y: int, z: int)
    requires 0 <= x <= y && 0 <= z
    ensures 0 <= x * z <= y * z
  {
  }

  /** One step of a reception: the soft symbol, and whether it belongs to the flush phase. */
  datatype Step = Step(flush: bool, sym: seq<sbit>)

  /** The penalty of the first n bits of an output symbol. */
  ghost function SymMetric(c: Code, out: nat, sym: seq<sbit>, n: nat): (r: nat)
    requires n <= c.N == |sym|
    ensures r <= 127 * n
  {
    if n == 0 then 0 else SymMetric(c, out, sym, n - 1) + Cost(sym[n - 1], OutBit(out, c.N - n))
  }

  ghost predicate ValidStep(c: Code, st: Step)
  {
    |st.sym| == c.N
  }

  ghost predicate ValidSteps(c: Code, steps: seq<Step>)
  {
    forall i :: 0 <= i < |steps| ==> ValidStep(c, steps[i])
  }

  ghost predicate Allowed(st: Step, br: Branch)
  {
    br.Term? == st.flush
  }

  ghost function EdgeMetric(c: Code, st: Step, s: nat, br: Branch): (r: nat)
    requires ValidTables(c) && s < NumStates(c) && ValidStep(c, st)
    ensures r <= 127 * c.N
  {
    SymMetric(c, Output(c, s, br), st.sym, c.N)
  }

  // ------------------------------------------------------------------ paths

  ghost predicate Legal(p: Path, steps: seq<Step>)
  {
    |p| == |steps| && forall i :: 0 <= i < |p| ==> Allowed(steps[i], p[i])
  }

  /** The accumulated penalty of a path against a reception. */
  ghost function Metric(c: Code, s: nat, p: Path, steps: seq<Step>): (r: nat)
    requires ValidTables(c) && s < NumStates(c)
    requires |p| == |steps| && ValidSteps(c, steps)
    ensures r <= 127 * At(c, |p|)
    decreases |p|
  {
    if p == [] then 0 else
      var n := |p| - 1;
      Metric(c, s, p[..n], steps[..n]) + EdgeMetric(c, steps[n], Run(c, s, p[..n]), p[n])
  }

  lemma PathStep(c: Code, s: nat, p: Path, br: Branch, steps: seq<Step>)
    requires ValidTables(c) && s < NumStates(c)
    requires |p| < |steps| && ValidSteps(c, steps)
    ensures Run(c, s, p + [br]) == Next(c, Run(c, s, p), br)
    ensures Metric(c, s, p + [br], steps[..|p| + 1])
         == Metric(c, s, p, steps[..|p|]) + EdgeMetric(c, steps[|p|], Run(c, s, p), br)
    ensures Legal(p, steps[..|p|]) && Allowed(steps[|p|], br) ==> Legal(p + [br], steps[..|p| + 1])
  {
    assert (p + [br])[..|p|] == p;
    assert steps[..|p| + 1][..|p|] == steps[..|p|];
  }

  // ------------------------------------------------------------------ rows

  /** The branch that leads from s to q, read off the tables the way the traceback does. */
  function BranchTo(c: Code, flush: bool, s: nat, q: nat): Branch
    requires ValidTables(c) && s < NumStates(c)
  {
    if flush then Term else if c.nextState[s][0] == q then Data(0) else Data(1)
  }

  /** Entry q of the new row is unreachable, or it is the old entry of its recorded
      predecessor plus the metric of the branch between the two. Among equally good
      predecessors the first one is recorded. */
  ghost predicate Survivor(c: Code, st: Step, row: seq<nat>, next: seq<nat>, hist: seq<nat>, q: nat)
    requires ValidTables(c) && ValidStep(c, st)
    requires |row| == |next| == |hist| == NumStates(c) && q < NumStates(c)
  {
    && next[q] <= MAX_AE
    && (next[q] < MAX_AE ==>
          var s := hist[q];
          && s < NumStates(c)
          && var br := BranchTo(c, st.flush, s, q);
          && Next(c, s, br) == q
          && next[q] == row[s] + EdgeMetric(c, st, s, br)
          && Earliest(c, st, row, s, q, next[q]))
  }

  /** Every state before s reaches q only at a greater error. */
  ghost predicate Earliest(c: Code, st: Step, row: seq<nat>, s: nat, q: nat, best: nat)
    requires ValidTables(c) && ValidStep(c, st)
    requires |row| == NumStates(c) && s < NumStates(c)
  {
    forall s', br :: 0 <= s' < s && Allowed(st, br) && Next(c, s', br) == q
      ==> best < row[s'] + EdgeMetric(c, st, s', br)
  }

  /** The entry a branch leads to is no worse than that branch. */
  ghost predicate Covers(c: Code, st: Step, row: seq<nat>, next: seq<nat>, s: nat, br: Branch)
    requires ValidTables(c) && ValidStep(c, st)
    requires |row| == |next| == NumStates(c) && s < NumStates(c)
  {
    next[Next(c, s, br)] <= row[s] + EdgeMetric(c, st, s, br)
  }

  /** A branch the scan has processed when it is about to take bit b out of state s. */
  ghost predicate Processed(s': nat, br: Branch, s: nat, b: nat)
  {
    s' < s || (s' == s && br.Data? && br.bit < b)
  }

  ghost predicate PartialRow(c: Code, st: Step, row: seq<nat>, next: seq<nat>, hist: seq<nat>, s: nat, b: nat)
    requires ValidTables(c) && ValidStep(c, st)
    requires |row| == |next| == |hist| == NumStates(c)
  {
    && (forall s', br :: 0 <= s' < NumStates(c) && Allowed(st, br) && Processed(s', br, s, b)
          ==> Covers(c, st, row, next, s', br))
    && (forall q :: 0 <= q < NumStates(c) ==> Survivor(c, st, row, next, hist, q))
  }

  /** The new row holds the least extension of the old row over all branches. */
  ghost predicate RowStep(c: Code, st: Step, row: seq<nat>, next: seq<nat>, hist: seq<nat>)
    requires ValidTables(c) && ValidStep(c, st)
    requires |row| == |next| == |hist| == NumStates(c)
  {
    PartialRow(c, st, row, next, hist, NumStates(c), 0)
  }

  lemma SelectsEarliest(c: Code, st: Step, row: seq<nat>, next: seq<nat>, hist: seq<nat>, s: nat, br: Branch)
    requires ValidTables(c) && ValidStep(c, st)
    requires |row| == |next| == |hist| == NumStates(c) && s < NumStates(c)
    requires PartialRow(c, st, row, next, hist, s, if br.Data? then br.bit else 0)
    requires next[Next(c, s, br)] > row[s] + EdgeMetric(c, st, s, br)
    ensures Earliest(c, st, row, s, Next(c, s, br), row[s] + EdgeMetric(c, st, s, br))
  {
    forall s1, br1 | 0 <= s1 < s && Allowed(st, br1) && Next(c, s1, br1) == Next(c, s, br)
      ensures row[s] + EdgeMetric(c, st, s, br) < row[s1] + EdgeMetric(c, st, s1, br1)
    {
      assert Processed(s1, br1, s, if br.Data? then br.bit else 0);
      assert Covers(c, st, row, next, s1, br1);
    }
  }

  /** Add, compare, select for one branch. */
  lemma RelaxBranch(c: Code, st: Step, row: seq<nat>, next: seq<nat>, hist: seq<nat>, s: nat, br: Branch,
                    next': seq<nat>, hist': seq<nat>)
    requires ValidTables(c) && ValidStep(c, st)
    requires |row| == |next| == |hist| == NumStates(c) && s < NumStates(c)
    requires Allowed(st, br)
    requires PartialRow(c, st, row, next, hist, s, if br.Data? then br.bit else 0)
    requires var q, nae := Next(c, s, br), row[s] + EdgeMetric(c, st, s, br);
             if next[q] > nae then next' == next[q := nae] && hist' == hist[q := s]
             else next' == next && hist' == hist
    ensures PartialRow(c, st, row, next', hist', if br.Data? then s else s + 1, if br.Data? then br.bit + 1 else 0)
  {
    var q, nae := Next(c, s, br), row[s] + EdgeMetric(c, st, s, br);
    forall s1, br1 | 0 <= s1 < NumStates(c) && Allowed(st, br1)
                     && Processed(s1, br1, if br.Data? then s else s + 1, if br.Data? then br.bit + 1 else 0)
      ensures Covers(c, st, row, next', s1, br1)
    {
      if s1 == s && br1 == br {
      } else {
        assert Processed(s1, br1, s, if br.Data? then br.bit else 0);
        assert Covers(c, st, row, next, s1, br1);
      }
    }
    forall q1 | 0 <= q1 < NumStates(c)
      ensures Survivor(c, st, row, next', hist', q1)
    {
      assert Survivor(c, st, row, next, hist, q1);
      assert BranchTo(c, st.flush, s, q) == br;
      if q1 == q && next[q] > nae {
        SelectsEarliest(c, st, row, next, hist, s, br);
      }
    }
  }

  /** A step determines the new row and, at its reachable entries, the survivors. */
  lemma RowStepIsFunctional(c: Code, st: Step, row: seq<nat>, next1: seq<nat>, hist1: seq<nat>,
                            next2: seq<nat>, hist2: seq<nat>)
    requires ValidTables(c) && ValidStep(c, st)
    requires |row| == |next1| == |hist1| == |next2| == |hist2| == NumStates(c)
    requires RowStep(c, st, row, next1, hist1) && RowStep(c, st, row, next2, hist2)
    ensures next1 == next2
    ensures forall q :: 0 <= q < NumStates(c) && next1[q] < MAX_AE ==> hist1[q] == hist2[q]
  {
    forall q | 0 <= q < NumStates(c)
      ensures next1[q] == next2[q]
      ensures next1[q] < MAX_AE ==> hist1[q] == hist2[q]
    {
      NoWorse(c, st, row, next1, hist1, next2, hist2, q);
      NoWorse(c, st, row, next2, hist2, next1, hist1, q);
      assert Survivor(c, st, row, next1, hist1, q);
      assert Survivor(c, st, row, next2, hist2, q);
      if next1[q] < MAX_AE {
        var s1, s2 := hist1[q], hist2[q];
        assert Allowed(st, BranchTo(c, st.flush, s1, q)) && Allowed(st, BranchTo(c, st.flush, s2, q));
        assert s1 == s2;
      }
    }
  }

  lemma NoWorse(c: Code, st: Step, row: seq<nat>, next1: seq<nat>, hist1: seq<nat>,
                next2: seq<nat>, hist2: seq<nat>, q: nat)
    requires ValidTables(c) && ValidStep(c, st)
    requires |row| == |next1| == |hist1| == |next2| == |hist2| == NumStates(c)
    requires RowStep(c, st, row, next1, hist1) && RowStep(c, st, row, next2, hist2)
    requires q < NumStates(c)
    ensures next1[q] <= next2[q]
  {
    assert Survivor(c, st, row, next1, hist1, q);
    assert Survivor(c, st, row, next2, hist2, q);
    if next2[q] < MAX_AE {
      var s := hist2[q];
      var br := BranchTo(c, st.flush, s, q);
      assert Allowed(st, br) && Processed(s, br, NumStates(c), 0);
      assert Covers(c, st, row, next1, s, br);
    }
  }

  /** Step t takes row t to row t + 1 with survivors t. */
  ghost predicate StepAt(c: Code, steps: seq<Step>, rows: seq<seq<nat>>, hists: seq<seq<nat>>, t: nat)
    requires ValidTables(c) && ValidSteps(c, steps)
    requires t < |steps| && t < |hists| && t + 1 < |rows|
    requires |rows[t]| == |rows[t + 1]| == |hists[t]| == NumStates(c)
  {
    RowStep(c, steps[t], rows[t], rows[t + 1], hists[t])
  }

  /** A recorded reception: rows of accumulated errors, one more than steps, with the
      survivors between successive rows. */
  ghost predicate Trellis(c: Code, steps: seq<Step>, rows: seq<seq<nat>>, hists: seq<seq<nat>>)
    requires ValidTables(c)
  {
    && |rows| == |steps| + 1 == |hists| + 1
    && ValidSteps(c, steps)
    && (forall t :: 0 <= t < |rows| ==> |rows[t]| == NumStates(c))
    && (forall t :: 0 <= t < |hists| ==> |hists[t]| == NumStates(c))
    && (forall t {:trigger StepAt(c, steps, rows, hists, t)} :: 0 <= t < |steps| ==> StepAt(c, steps, rows, hists, t))
  }

  /** The same steps from the same start give the same rows, however they were chunked. */
  lemma {:induction false} RowsAreDetermined(c: Code, steps: seq<Step>, rows1: seq<seq<nat>>, hists1: seq<seq<nat>>,
                                             rows2: seq<seq<nat>>, hists2: seq<seq<nat>>, t: nat)
    requires ValidTables(c) && Trellis(c, steps, rows1, hists1) && Trellis(c, steps, rows2, hists2)
    requires rows1[0] == rows2[0] && t < |rows1|
    ensures rows1[t] == rows2[t]
    ensures t > 0 ==> forall q :: 0 <= q < NumStates(c) && rows1[t][q] < MAX_AE ==> hists1[t - 1][q] == hists2[t - 1][q]
  {
    if t > 0 {
      RowsAreDetermined(c, steps, rows1, hists1, rows2, hists2, t - 1);
      assert StepAt(c, steps, rows1, hists1, t - 1) && StepAt(c, steps, rows2, hists2, t - 1);
      RowStepIsFunctional(c, steps[t - 1], rows1[t - 1], rows1[t], hists1[t - 1], rows2[t], hists2[t - 1]);
    }
  }

  lemma TrellisGrows(c: Code, steps: seq<Step>, rows: seq<seq<nat>>, hists: seq<seq<nat>>,
                     st: Step, row: seq<nat>, hist: seq<nat>)
    requires ValidTables(c) && Trellis(c, steps, rows, hists)
    requires ValidStep(c, st) && |row| == |hist| == NumStates(c)
    requires RowStep(c, st, rows[|steps|], row, hist)
    ensures Trellis(c, steps + [st], rows + [row], hists + [hist])
  {
    var n, steps', rows', hists' := |steps|, steps + [st], rows + [row], hists + [hist];
    forall t {:trigger StepAt(c, steps', rows', hists', t)} | 0 <= t <= n
      ensures StepAt(c, steps', rows', hists', t)
    {
      assert t < n ==> StepAt(c, steps, rows, hists, t);
    }
  }

  /** No path beats the entry of the row it reaches. */
  lemma {:induction false} RowIsLowerBound(c: Code, steps: seq<Step>, rows: seq<seq<nat>>, hists: seq<seq<nat>>,
                                           s: nat, p: Path, t: nat)
    requires ValidTables(c) && Trellis(c, steps, rows, hists)
    requires s < NumStates(c) && Legal(p, steps) && t <= |p|
    ensures rows[t][Run(c, s, p[..t])] <= rows[0][s] + Metric(c, s, p[..t], steps[..t])
  {
    if t > 0 {
      RowIsLowerBound(c, steps, rows, hists, s, p, t - 1);
      assert p[..t][..t - 1] == p[..t - 1] && steps[..t][..t - 1] == steps[..t - 1];
      assert StepAt(c, steps, rows, hists, t - 1);
      var s1 := Run(c, s, p[..t - 1]);
      assert Allowed(steps[t - 1], p[t - 1]);
      assert Processed(s1, p[t - 1], NumStates(c), 0);
      assert Covers(c, steps[t - 1], rows[t - 1], rows[t], s1, p[t - 1]);
    }
  }

  /** The last branch on the best path to a reachable state. */
  lemma LastHop(c: Code, steps: seq<Step>, rows: seq<seq<nat>>, hists: seq<seq<nat>>, t: nat, q: nat)
    requires ValidTables(c) && Trellis(c, steps, rows, hists)
    requires 0 < t < |rows| && q < NumStates(c) && rows[t][q] < MAX_AE
    ensures var s := hists[t - 1][q];
            && s < NumStates(c)
            && var br := BranchTo(c, steps[t - 1].flush, s, q);
            && Next(c, s, br) == q
            && rows[t][q] == rows[t - 1][s] + EdgeMetric(c, steps[t - 1], s, br)
  {
    assert StepAt(c, steps, rows, hists, t - 1);
    assert Survivor(c, steps[t - 1], rows[t - 1], rows[t], hists[t - 1], q);
  }

  /** The path the survivors spell, followed back from state q at time t. */
  ghost function Traced(c: Code, steps: seq<Step>, rows: seq<seq<nat>>, hists: seq<seq<nat>>, t: nat, q: nat)
      : (r: (nat, Path))
    requires ValidTables(c) && Trellis(c, steps, rows, hists)
    requires t < |rows| && q < NumStates(c) && rows[t][q] < MAX_AE
    ensures |r.1| == t
    ensures r.0 < NumStates(c)
  {
    if t == 0 then (q, []) else
      LastHop(c, steps, rows, hists, t, q);
      var s := hists[t - 1][q];
      var (s0, p) := Traced(c, steps, rows, hists, t - 1, s);
      (s0, p + [BranchTo(c, steps[t - 1].flush, s, q)])
  }

  /** Following the survivors back from a reachable state gives a legal path to that state
      whose metric is the state's entry. */
  lemma {:induction false} TracedIsExact(c: Code, steps: seq<Step>, rows: seq<seq<nat>>, hists: seq<seq<nat>>,
                                         t: nat, q: nat)
    requires ValidTables(c) && Trellis(c, steps, rows, hists)
    requires t < |rows| && q < NumStates(c) && rows[t][q] < MAX_AE
    ensures var (s0, p) := Traced(c, steps, rows, hists, t, q);
            && Legal(p, steps[..t])
            && Run(c, s0, p) == q
            && rows[t][q] == rows[0][s0] + Metric(c, s0, p, steps[..t])
  {
    if t > 0 {
      LastHop(c, steps, rows, hists, t, q);
      var s := hists[t - 1][q];
      var (s0, p0) := Traced(c, steps, rows, hists, t - 1, s);
      TracedIsExact(c, steps, rows, hists, t - 1, s);
      PathStep(c, s0, p0, BranchTo(c, steps[t - 1].flush, s, q), steps);
    }
  }
}
