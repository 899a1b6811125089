/** What is sent, bit by bit: the bits of a symbol, the place of each bit in the stream, and
    when the stream tells messages apart. */
module ConvSymbols {
  import opened Options
  import opened ConvCode
  import opened Remainders

  // ------------------------------------------------------------------ one symbol

  /** The bits of a symbol, highest first, are those of its value below 2^N. */
  lemma {:induction false} SymbolValue(c: Code, out: nat)
    ensures StateOfBits(SymbolBits(c, out)) == out % Pow2(c.N)
    decreases c.N
  {
    if c.N == 0 {
      assert SymbolBits(c, out) == [];
    } else {
      var d := c.(N := c.N - 1);
      SymbolValue(d, out / 2);
      HighBits(c, d, out);
      LowestBit(out, Pow2(d.N));
    }
  }

  lemma HighBits(c: Code, d: Code, out: nat)
    requires c.N > 0 && d.N == c.N - 1
    ensures StateOfBits(SymbolBits(c, out)) == 2 * StateOfBits(SymbolBits(d, out / 2)) + out % 2
  {
    var bits, high := SymbolBits(c, out), SymbolBits(d, out / 2);
    forall j | 0 <= j < d.N
      ensures bits[j] == high[j]
    {
      assert OutBit(out, c.N - 1 - j) == OutBit(out / 2, d.N - 1 - j);
    }
    assert bits[..d.N] == high && bits[d.N] == OutBit(out, 0);
  }

  lemma LowestBit(out: nat, m: nat)
    requires m > 0
    ensures out % (2 * m) == 2 * (out / 2 % m) + out % 2
  {
    var q, r := out / 2 / m, out / 2 % m;
    assert out == 2 * (q * m + r) + out % 2;
    assert q * (2 * m) == 2 * (q * m);
    QuotientIs(out, 2 * m, q, 2 * r + out % 2);
  }

  /** Different symbols have different bits. */
  lemma SymbolsDiffer(c: Code, a: nat, b: nat) returns (j: nat)
    requires a % Pow2(c.N) != b % Pow2(c.N)
    ensures j < c.N && SymbolBits(c, a)[j] != SymbolBits(c, b)[j]
  {
    SymbolValue(c, a);
    SymbolValue(c, b);
    assert SymbolBits(c, a) != SymbolBits(c, b);
    j :| 0 <= j < c.N && SymbolBits(c, a)[j] != SymbolBits(c, b)[j];
  }

  // ------------------------------------------------------------------ the stream

  lemma {:induction false} EmitAt(c: Code, r0: nat, bits: seq<ubit>, n: nat, j: nat)
    requires j < n <= |bits| && !Punctured(c, r0 + j)
    ensures var k := Rank(c, r0 + j) - Rank(c, r0);
      0 <= k < |EmitFirst(c, r0, bits, n)| && EmitFirst(c, r0, bits, n)[k] == bits[j]
  {
    RankMonotone(c, r0, r0 + j);
    EmitLength(c, r0, bits, n - 1);
    if j < n - 1 {
      EmitAt(c, r0, bits, n - 1, j);
    }
  }

  /** Every bit that is not punctured stands in the stream at the rank of its position. */
  lemma {:induction false} StreamAt(c: Code, s: nat, p: Path, t: nat, j: nat)
    requires ValidTables(c) && s < NumStates(c)
    requires t < |p| && j < c.N && !Punctured(c, At(c, t) + j)
    ensures var k := Rank(c, At(c, t) + j);
      && k < |Stream(c, s, p)|
      && Stream(c, s, p)[k] == SymbolBits(c, Output(c, Run(c, s, p[..t]), p[t]))[j]
    decreases |p|
  {
    var n := |p| - 1;
    if t < n {
      StreamAt(c, s, p[..n], t, j);
      assert p[..n][..t] == p[..t];
      Earlier(Stream(c, s, p[..n]), Stream(c, s, p), Rank(c, At(c, t) + j));
    } else {
      LastSymbolAt(c, s, p, j);
    }
  }

  lemma Earlier(a: seq<ubit>, b: seq<ubit>, k: nat)
    requires a <= b && k < |a|
    ensures b[k] == a[k]
  {
  }

  lemma LastSymbolAt(c: Code, s: nat, p: Path, j: nat)
    requires ValidTables(c) && s < NumStates(c) && p != []
    requires var t := |p| - 1; j < c.N && !Punctured(c, At(c, t) + j)
    ensures var t := |p| - 1;
      var k := Rank(c, At(c, t) + j);
      && k < |Stream(c, s, p)|
      && Stream(c, s, p)[k] == SymbolBits(c, Output(c, Run(c, s, p[..t]), p[t]))[j]
  {
    var t := |p| - 1;
    var out := Output(c, Run(c, s, p[..t]), p[t]);
    StreamLength(c, s, p[..t]);
    EmittedAt(c, Stream(c, s, p[..t]), Emit(c, At(c, t), SymbolBits(c, out)), out, At(c, t), j);
  }

  lemma EmittedAt(c: Code, sent: seq<ubit>, e: seq<ubit>, out: nat, r0: nat, j: nat)
    requires j < c.N && !Punctured(c, r0 + j) && |sent| == Rank(c, r0) && e == Emit(c, r0, SymbolBits(c, out))
    ensures Rank(c, r0 + j) < |sent + e| && (sent + e)[Rank(c, r0 + j)] == SymbolBits(c, out)[j]
  {
    EmitAt(c, r0, SymbolBits(c, out), c.N, j);
  }

  // ------------------------------------------------------------------ telling messages apart

  /** In every step of the data the two branches out of a state differ in a bit that is sent. */
  ghost predicate TellsBranches(c: Code)
    requires ValidTables(c)
  {
    forall t, s :: 0 <= t < c.len && 0 <= s < NumStates(c) ==> BranchesDiffer(c, t, s)
  }

  ghost predicate BranchesDiffer(c: Code, t: nat, s: nat)
    requires ValidTables(c) && s < NumStates(c)
  {
    exists j :: 0 <= j < c.N && BitTells(c, t, s, j)
  }

  /** Bit j of what is sent when bit b leaves state s. */
  ghost function BitOf(c: Code, s: nat, b: ubit, j: nat): ubit
    requires ValidTables(c) && s < NumStates(c) && j < c.N
  {
    SymbolBits(c, c.nextOutput[s][b])[j]
  }

  /** Bit j of step t is sent, and tells the branches out of s apart. */
  ghost predicate BitTells(c: Code, t: nat, s: nat, j: nat)
    requires ValidTables(c) && s < NumStates(c) && j < c.N
  {
    !Punctured(c, At(c, t) + j) && BitOf(c, s, 0, j) != BitOf(c, s, 1, j)
  }

  /** Then messages that differ are sent as blocks that differ. */
  lemma MessagesDiffer(c: Code, x: seq<ubit>, m: seq<ubit>)
    requires Valid(c) && c.term != TailBiting && TellsBranches(c)
    requires |x| == |m| == c.len && x != m
    ensures Encoded(c, x) != Encoded(c, m)
  {
    var t := FirstDifference(x, m);
    var p, q := MessagePath(c, x), MessagePath(c, m);
    DataPathAt(x, t);
    DataPathAt(m, t);
    PathsAgree(c, x, m, t);
    StreamsDiffer(c, p, q, t);
  }

  lemma StreamsDiffer(c: Code, p: Path, q: Path, t: nat)
    requires ValidTables(c) && TellsBranches(c) && t < c.len
    requires t < |p| && t < |q| && p[..t] == q[..t] && p[t].Data? && q[t].Data? && p[t] != q[t]
    ensures Stream(c, 0, p) != Stream(c, 0, q)
  {
    var s := Run(c, 0, p[..t]);
    assert BranchesDiffer(c, t, s);
    var j :| 0 <= j < c.N && BitTells(c, t, s, j);
    assert BitTells(c, t, s, j);
    DataBitAt(c, p, t, j, s, p[t].bit, Stream(c, 0, p));
    DataBitAt(c, q, t, j, s, q[t].bit, Stream(c, 0, q));
    BitsTell(c, t, j, s, Stream(c, 0, p), Stream(c, 0, q), p[t].bit, q[t].bit);
  }

  /** Bit j of step t is that of bit b leaving state s. */
  ghost predicate SentAt(c: Code, sent: seq<ubit>, t: nat, j: nat, s: nat, b: ubit)
    requires ValidTables(c) && s < NumStates(c) && j < c.N
  {
    var k := Rank(c, At(c, t) + j);
    k < |sent| && sent[k] == BitOf(c, s, b, j)
  }

  lemma BitsTell(c: Code, t: nat, j: nat, s: nat, sent: seq<ubit>, sent': seq<ubit>, b: ubit, b': ubit)
    requires ValidTables(c) && s < NumStates(c) && j < c.N && BitTells(c, t, s, j) && b != b'
    requires SentAt(c, sent, t, j, s, b) && SentAt(c, sent', t, j, s, b')
    ensures sent != sent'
  {
    assert b == 0 || b' == 0;
  }

  lemma DataBitAt(c: Code, p: Path, t: nat, j: nat, s: nat, b: ubit, sent: seq<ubit>)
    requires ValidTables(c) && t < |p| && s == Run(c, 0, p[..t]) && p[t] == Data(b)
    requires s < NumStates(c) && j < c.N && BitTells(c, t, s, j) && sent == Stream(c, 0, p)
    ensures SentAt(c, sent, t, j, s, b)
  {
    StreamAt(c, 0, p, t, j);
  }

  lemma {:induction false} FirstDifference(x: seq<ubit>, m: seq<ubit>) returns (t: nat)
    requires |x| == |m| && x != m
    ensures t < |x| && x[t] != m[t] && x[..t] == m[..t]
    decreases |x|
  {
    var n := |x| - 1;
    if x[..n] == m[..n] {
      t := n;
      assert x == x[..n] + [x[n]] && m == m[..n] + [m[n]];
    } else {
      t := FirstDifference(x[..n], m[..n]);
      assert x[..n][..t] == x[..t] && m[..n][..t] == m[..t];
    }
  }

  lemma PathsAgree(c: Code, x: seq<ubit>, m: seq<ubit>, t: nat)
    requires c.K >= 1 && |x| == |m| && t <= |x| && x[..t] == m[..t]
    ensures MessagePath(c, x)[..t] == MessagePath(c, m)[..t]
  {
    forall i | 0 <= i < t
      ensures MessagePath(c, x)[i] == MessagePath(c, m)[i]
    {
      DataPathAt(x, i);
      DataPathAt(m, i);
      assert x[i] == x[..t][i] && m[i] == m[..t][i];
    }
  }

  /** An unpunctured code tells its messages apart when the two branches out of every state
      send different symbols. */
  lemma UnpuncturedTellsBranches(c: Code)
    requires ValidTables(c) && c.puncture.None?
    requires forall s :: 0 <= s < NumStates(c) ==> c.nextOutput[s][0] % Pow2(c.N) != c.nextOutput[s][1] % Pow2(c.N)
    ensures TellsBranches(c)
  {
    forall t, s | 0 <= t < c.len && 0 <= s < NumStates(c)
      ensures BranchesDiffer(c, t, s)
    {
      var j := SymbolsDiffer(c, c.nextOutput[s][0], c.nextOutput[s][1]);
      assert BitTells(c, t, s, j);
    }
  }

  // ------------------------------------------------------------------ termination tables

  lemma {:induction false} SameAt(c: Code, d: Code, i: nat)
    requires c.N == d.N
    ensures At(c, i) == At(d, i)
  {
    if i > 0 {
      SameAt(c, d, i - 1);
    }
  }

  lemma {:induction false} SameEmit(c: Code, d: Code, r0: nat, bits: seq<ubit>, n: nat)
    requires c.puncture == d.puncture && n <= |bits|
    ensures EmitFirst(c, r0, bits, n) == EmitFirst(d, r0, bits, n)
  {
    if n > 0 {
      SameEmit(c, d, r0, bits, n - 1);
    }
  }

  /** Codes with the same termination tables flush alike, whatever their data tables are. */
  lemma {:induction false} TermTablesDecide(c: Code, d: Code, s: nat, n: nat)
    requires ValidTables(c) && ValidTables(d) && s < NumStates(c)
    requires c.nextTermOutput.Some? && d == c.(nextOutput := d.nextOutput, nextState := d.nextState)
    ensures Run(c, s, TermPath(n)) == Run(d, s, TermPath(n))
    ensures Stream(c, s, TermPath(n)) == Stream(d, s, TermPath(n))
  {
    if n > 0 {
      TermTablesDecide(c, d, s, n - 1);
      var q := TermPath(n - 1);
      StreamStep(c, s, q, Term);
      StreamStep(d, s, q, Term);
      SameAt(c, d, n - 1);
      var bits := SymbolBits(c, Output(c, Run(c, s, q), Term));
      assert bits == SymbolBits(d, Output(d, Run(d, s, q), Term));
      SameEmit(c, d, At(c, n - 1), bits, c.N);
    }
  }
}
