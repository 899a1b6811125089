/** Convolutional codes as tables: the trellis they span, the bits a path through it
    emits, and the puncturing that drops some of those bits.

    Everything here is a specification. The encoder and the decoder, which work with
    running indexes and flat arrays, are proved against it in their own modules. */
module ConvCode {
  import opened Options

  /** A hard bit, and a soft bit: the sign carries the decision, zero means "unknown". */
  type ubit = b: nat | b < 2
  type sbit = x: int | -128 <= x <= 127

  datatype Termination = Flush | Truncation | TailBiting

  /** The tables are indexed by the encoder state, an unsigned octet. A puncture list
      ends with a negative entry. */
  datatype Code = Code(
    N: nat,
    K: nat,
    len: nat,
    term: Termination,
    nextOutput: seq<seq<nat>>,
    nextState: seq<seq<nat>>,
    nextTermOutput: Option<seq<nat>>,
    nextTermState: seq<nat>,
    puncture: Option<seq<int>>)

  function Pow2(k: nat): (r: nat)
    ensures r >= 1
  {
    if k == 0 then 1 else 2 * Pow2(k - 1)
  }

  function NumStates(c: Code): nat
  {
    if c.K == 0 then 1 else Pow2(c.K - 1)
  }

  /** The position of the first bit of trellis step i in the unpunctured stream. */
  ghost function At(c: Code, i: nat): nat
  {
    if i == 0 then 0 else At(c, i - 1) + c.N
  }

  lemma {:induction false} AtIsProduct(c: Code, i: nat)
    ensures At(c, i) == i * c.N
  {
    if i > 0 {
      AtIsProduct(c, i - 1);
    }
  }

  lemma {:induction false} AtMonotone(c: Code, i: nat, j: nat)
    requires i <= j
    ensures At(c, i) <= At(c, j)
  {
    if i < j {
      AtMonotone(c, i, j - 1);
    }
  }

  /** The number of trellis steps of one whole block. */
  function BlockSteps(c: Code): nat
    requires c.K >= 1
  {
    c.len + if c.term == Flush then c.K - 1 else 0
  }

  /** A puncture list: strictly ascending positions inside the block, then the end mark. */
  ghost predicate ValidPuncture(p: seq<int>, total: nat)
  {
    && |p| > 0
    && p[|p| - 1] < 0
    && (forall i :: 0 <= i < |p| - 1 ==> 0 <= p[i] < total)
    && (forall i, j :: 0 <= i < j < |p| - 1 ==> p[i] < p[j])
  }

  ghost predicate ValidTables(c: Code)
  {
    && |c.nextOutput| == |c.nextState| == NumStates(c)
    && (forall s :: 0 <= s < NumStates(c) ==>
          && |c.nextOutput[s]| == 2
          && c.nextOutput[s][0] < 256
          && c.nextOutput[s][1] < 256)
    && (forall s :: 0 <= s < NumStates(c) ==>
          && |c.nextState[s]| == 2
          && c.nextState[s][0] < NumStates(c)
          && c.nextState[s][1] < NumStates(c)
          && c.nextState[s][0] != c.nextState[s][1])
    && (c.nextTermOutput.Some? ==>
          && |c.nextTermOutput.value| == |c.nextTermState| == NumStates(c)
          && (forall s :: 0 <= s < NumStates(c) ==> c.nextTermOutput.value[s] < 256)
          && (forall s :: 0 <= s < NumStates(c) ==> c.nextTermState[s] < NumStates(c)))
  }

  /** What the callers of the library supply. The state is an octet, so K <= 9; an output
      symbol is an octet, so N <= 8; the two branches out of a state lead to different
      states, which is how the decoder tells the input bit from the states. */
  ghost predicate Valid(c: Code)
  {
    && 1 <= c.N <= 8
    && 1 <= c.K <= 9
    && ValidTables(c)
    && ValidPunctures(c)
  }

  ghost predicate ValidPunctures(c: Code)
    requires c.K >= 1
  {
    c.puncture.Some? ==> ValidPuncture(c.puncture.value, At(c, BlockSteps(c)))
  }

  // ---------------------------------------------------------------- the trellis

  /** One step: a data bit, or the bit the flush procedure feeds. */
  datatype Branch = Data(bit: ubit) | Term

  type Path = seq<Branch>

  function Next(c: Code, s: nat, br: Branch): (r: nat)
    requires ValidTables(c) && s < NumStates(c)
    ensures r < NumStates(c)
  {
    match br
    case Data(b) => c.nextState[s][b]
    case Term => if c.nextTermOutput.Some? then c.nextTermState[s] else c.nextState[s][0]
  }

  function Output(c: Code, s: nat, br: Branch): (r: nat)
    requires ValidTables(c) && s < NumStates(c)
    ensures r < 256
  {
    match br
    case Data(b) => c.nextOutput[s][b]
    case Term => if c.nextTermOutput.Some? then c.nextTermOutput.value[s] else c.nextOutput[s][0]
  }

  /** The state a path leads to. */
  ghost function Run(c: Code, s: nat, p: Path): (r: nat)
    requires ValidTables(c) && s < NumStates(c)
    ensures r < NumStates(c)
  {
    if p == [] then s else Next(c, Run(c, s, p[..|p| - 1]), p[|p| - 1])
  }

  /** Bit k of an output symbol: the value shifted right k times, lowest bit. */
  function OutBit(out: nat, k: nat): ubit
  {
    if k == 0 then out % 2 else OutBit(out / 2, k - 1)
  }

  /** The N bits of one output symbol, most significant bit first. */
  ghost function SymbolBits(c: Code, out: nat): (r: seq<ubit>)
    ensures |r| == c.N
  {
    seq(c.N, j requires 0 <= j < c.N => OutBit(out, c.N - 1 - j))
  }

  ghost function DataPath(msg: seq<ubit>): (p: Path)
    ensures |p| == |msg|
  {
    if msg == [] then [] else DataPath(msg[..|msg| - 1]) + [Data(msg[|msg| - 1])]
  }

  lemma {:induction false} DataPathAt(msg: seq<ubit>, i: nat)
    requires i < |msg|
    ensures DataPath(msg)[i] == Data(msg[i])
  {
    if i < |msg| - 1 {
      DataPathAt(msg[..|msg| - 1], i);
    }
  }

  lemma DataPathStep(input: seq<ubit>, i: nat)
    requires i < |input|
    ensures DataPath(input[..i + 1]) == DataPath(input[..i]) + [Data(input[i])]
  {
    assert input[..i + 1][..i] == input[..i];
  }

  ghost function TermPath(n: nat): (p: Path)
    ensures |p| == n
  {
    if n == 0 then [] else TermPath(n - 1) + [Term]
  }

  lemma {:induction false} TermPathAt(n: nat, i: nat)
    requires i < n
    ensures TermPath(n)[i] == Term
  {
    if i < n - 1 {
      TermPathAt(n - 1, i);
    }
  }

  ghost function FlushedState(c: Code, s: nat): (r: nat)
    requires ValidTables(c) && c.K >= 1 && s < NumStates(c)
    ensures r < NumStates(c)
  {
    Run(c, s, TermPath(c.K - 1))
  }

  /** The flush steps bring every state to zero. */
  ghost predicate TerminatesAtZero(c: Code)
    requires ValidTables(c) && c.K >= 1
  {
    forall s :: 0 <= s < NumStates(c) ==> FlushedState(c, s) == 0
  }

  lemma {:induction false} RunAppend(c: Code, s: nat, p: Path, q: Path)
    requires ValidTables(c) && s < NumStates(c)
    ensures Run(c, s, p + q) == Run(c, Run(c, s, p), q)
    decreases |q|
  {
    if q == [] {
      assert p + q == p;
    } else {
      var q' := q[..|q| - 1];
      assert (p + q)[..|p + q| - 1] == p + q';
      RunAppend(c, s, p, q');
    }
  }

  // ---------------------------------------------------------------- puncturing

  /** r is one of the first n entries of the list. */
  ghost predicate Listed(p: seq<int>, n: nat, r: nat)
    requires n <= |p|
  {
    n > 0 && (p[n - 1] == r || Listed(p, n - 1, r))
  }

  lemma {:induction false} ListedAt(p: seq<int>, n: nat, r: nat) returns (k: nat)
    requires n <= |p| && Listed(p, n, r)
    ensures k < n && p[k] == r
  {
    if p[n - 1] == r {
      k := n - 1;
    } else {
      k := ListedAt(p, n - 1, r);
    }
  }

  lemma {:induction false} ListedIntro(p: seq<int>, n: nat, r: nat, k: nat)
    requires k < n <= |p| && p[k] == r
    ensures Listed(p, n, r)
  {
    if k < n - 1 {
      ListedIntro(p, n - 1, r, k);
    }
  }

  /** Position r of the unpunctured bit stream is dropped. */
  ghost predicate Punctured(c: Code, r: nat)
  {
    c.puncture.Some? && Listed(c.puncture.value, |c.puncture.value|, r)
  }

  /** The survivors among the first n bits of `bits`, when the first bit is at position r0. */
  ghost function EmitFirst(c: Code, r0: nat, bits: seq<ubit>, n: nat): (r: seq<ubit>)
    requires n <= |bits|
  {
    if n == 0 then [] else
      EmitFirst(c, r0, bits, n - 1) + if Punctured(c, r0 + n - 1) then [] else [bits[n - 1]]
  }

  ghost function Emit(c: Code, r0: nat, bits: seq<ubit>): (r: seq<ubit>)
  {
    EmitFirst(c, r0, bits, |bits|)
  }

  /** How many positions below r survive. */
  ghost function Rank(c: Code, r: nat): nat
  {
    if r == 0 then 0 else Rank(c, r - 1) + if Punctured(c, r - 1) then 0 else 1
  }

  lemma {:induction false} EmitLength(c: Code, r0: nat, bits: seq<ubit>, n: nat)
    requires n <= |bits|
    ensures |EmitFirst(c, r0, bits, n)| == Rank(c, r0 + n) - Rank(c, r0)
  {
    if n > 0 {
      EmitLength(c, r0, bits, n - 1);
    }
  }

  lemma {:induction false} RankMonotone(c: Code, a: nat, b: nat)
    requires a <= b
    ensures Rank(c, a) <= Rank(c, b) <= Rank(c, a) + (b - a)
    decreases b - a
  {
    if a < b {
      RankMonotone(c, a, b - 1);
    }
  }

  lemma RankSteps(c: Code, i: nat, j: nat)
    requires i <= j
    ensures Rank(c, At(c, i)) <= Rank(c, At(c, j))
  {
    AtMonotone(c, i, j);
    RankMonotone(c, At(c, i), At(c, j));
  }

  /** How many positions below r are punctured: the cursor into the puncture list at r. */
  ghost function Cursor(c: Code, r: nat): nat
  {
    if r == 0 then 0 else Cursor(c, r - 1) + if Punctured(c, r - 1) then 1 else 0
  }

  lemma {:induction false} RankAndCursor(c: Code, r: nat)
    ensures Rank(c, r) + Cursor(c, r) == r
  {
    if r > 0 {
      RankAndCursor(c, r - 1);
    }
  }

  /** The cursor splits the list: smaller positions before it, the others from it on. */
  lemma {:induction false} CursorSplits(c: Code, r: nat)
    requires c.K >= 1 && ValidPunctures(c)
    ensures c.puncture.None? ==> Cursor(c, r) == 0
    ensures c.puncture.Some? ==>
      var p, i := c.puncture.value, Cursor(c, r);
      && i < |p|
      && (forall k :: 0 <= k < i ==> 0 <= p[k] < r)
      && (forall k :: i <= k < |p| - 1 ==> p[k] >= r)
  {
    if r > 0 {
      CursorSplits(c, r - 1);
      if c.puncture.Some? {
        CursorEntry(c, r - 1);
      }
    }
  }

  lemma CursorEntry(c: Code, r: nat)
    requires c.K >= 1 && ValidPunctures(c) && c.puncture.Some?
    requires Cursor(c, r) < |c.puncture.value|
    requires forall k :: 0 <= k < Cursor(c, r) ==> c.puncture.value[k] < r
    requires forall k :: Cursor(c, r) <= k < |c.puncture.value| - 1 ==> c.puncture.value[k] >= r
    ensures c.puncture.value[Cursor(c, r)] == r <==> Punctured(c, r)
  {
    EntryListed(c.puncture.value, At(c, BlockSteps(c)), Cursor(c, r), r);
  }

  lemma EntryListed(p: seq<int>, total: nat, i: nat, r: nat)
    requires ValidPuncture(p, total) && i < |p|
    requires forall k :: 0 <= k < i ==> p[k] < r
    requires forall k :: i <= k < |p| - 1 ==> p[k] >= r
    ensures p[i] == r <==> Listed(p, |p|, r)
  {
    if Listed(p, |p|, r) {
      var k := ListedAt(p, |p|, r);
    }
    if p[i] == r {
      ListedIntro(p, |p|, r, i);
    }
  }

  /** Comparing the cursor's entry with the position decides whether it is punctured. */
  lemma CursorDecides(c: Code, r: nat)
    requires c.K >= 1 && ValidPunctures(c) && c.puncture.Some?
    ensures Cursor(c, r) < |c.puncture.value|
    ensures c.puncture.value[Cursor(c, r)] == r <==> Punctured(c, r)
  {
    CursorSplits(c, r);
    CursorEntry(c, r);
  }

  /** Over the whole block exactly the listed positions are dropped. */
  lemma RankOfBlock(c: Code)
    requires Valid(c)
    ensures Rank(c, At(c, BlockSteps(c)))
         == At(c, BlockSteps(c)) - if c.puncture.Some? then |c.puncture.value| - 1 else 0
  {
    var total := At(c, BlockSteps(c));
    CursorSplits(c, total);
    RankAndCursor(c, total);
    if c.puncture.Some? {
      var last := c.puncture.value[Cursor(c, total)];
      assert Cursor(c, total) < |c.puncture.value| - 1 ==> last < total;
    }
  }

  // ---------------------------------------------------------------- lengths

  function InputLength(c: Code, len: int): int
  {
    if len <= 0 then c.len else len
  }

  /** Scans the puncture list for its end mark, as the library does. */
  method GetOutputLength(c: Code, len: int) returns (outLen: int)
    requires Valid(c)
    ensures len <= 0 ==> outLen == Rank(c, At(c, BlockSteps(c)))
    ensures outLen == (InputLength(c, len) + if c.term == Flush then c.K - 1 else 0) * c.N
                      - if c.puncture.Some? then |c.puncture.value| - 1 else 0
  {
    var inLen := InputLength(c, len);
    outLen := inLen * c.N;
    if c.term == Flush {
      outLen := outLen + c.N * (c.K - 1);
    }
    assert outLen == (inLen + if c.term == Flush then c.K - 1 else 0) * c.N by {
      Distribute(inLen, c.K - 1, c.N);
    }
    if c.puncture.Some? {
      var pbits := CountPunctured(c.puncture.value);
      outLen := outLen - pbits;
    }
    RankOfBlock(c);
    AtIsProduct(c, BlockSteps(c));
  }

  method CountPunctured(p: seq<int>) returns (pbits: nat)
    requires |p| > 0 && p[|p| - 1] < 0 && forall i :: 0 <= i < |p| - 1 ==> 0 <= p[i]
    ensures pbits == |p| - 1
  {
    pbits := 0;
    while p[pbits] >= 0
      invariant pbits < |p|
      decreases |p| - pbits
    {
      pbits := pbits + 1;
    }
  }

  lemma Distribute(a: int, b: int, n: int)
    ensures (a + b) * n == a * n + n * b
  {
  }

  // ---------------------------------------------------------------- whole messages

  /** The path the encoder takes for a message of the code's length. */
  ghost function MessagePath(c: Code, msg: seq<ubit>): (p: Path)
    requires c.K >= 1
    ensures |p| == |msg| + if c.term == Flush then c.K - 1 else 0
  {
    if c.term == Flush then DataPath(msg) + TermPath(c.K - 1) else DataPath(msg)
  }

  /** The start state: zero, or for tail-biting the last K-1 message bits. */
  ghost function StateOfBits(bits: seq<ubit>): (s: nat)
    ensures s < Pow2(|bits|)
  {
    if bits == [] then 0 else 2 * StateOfBits(bits[..|bits| - 1]) + bits[|bits| - 1]
  }

  ghost function StartState(c: Code, msg: seq<ubit>): (s: nat)
    requires c.K >= 1
    requires c.term == TailBiting ==> |msg| >= c.K - 1
    ensures s < NumStates(c)
  {
    if c.term == TailBiting then StateOfBits(msg[|msg| - (c.K - 1)..]) else 0
  }

  /** What a path transmits when its first step is the first of the block: the surviving
      bits of its output symbols, in order. */
  ghost function Stream(c: Code, s: nat, p: Path): (r: seq<ubit>)
    requires ValidTables(c) && s < NumStates(c)
  {
    if p == [] then [] else
      var q := p[..|p| - 1];
      Stream(c, s, q) + Emit(c, At(c, |q|), SymbolBits(c, Output(c, Run(c, s, q), p[|q|])))
  }

  lemma StreamStep(c: Code, s: nat, p: Path, br: Branch)
    requires ValidTables(c) && s < NumStates(c)
    ensures Run(c, s, p + [br]) == Next(c, Run(c, s, p), br)
    ensures Stream(c, s, p + [br])
         == Stream(c, s, p) + Emit(c, At(c, |p|), SymbolBits(c, Output(c, Run(c, s, p), br)))
  {
    assert (p + [br])[..|p|] == p;
  }

  lemma {:induction false} StreamLength(c: Code, s: nat, p: Path)
    requires ValidTables(c) && s < NumStates(c)
    ensures |Stream(c, s, p)| == Rank(c, At(c, |p|))
    decreases |p|
  {
    if p != [] {
      var q := p[..|p| - 1];
      StreamLength(c, s, q);
      EmitLength(c, At(c, |q|), SymbolBits(c, Output(c, Run(c, s, q), p[|q|])), c.N);
    }
  }

  /** The transmitted bits of a message. */
  ghost function Encoded(c: Code, msg: seq<ubit>): seq<ubit>
    requires Valid(c)
    requires c.term == TailBiting ==> |msg| >= c.K - 1
  {
    Stream(c, StartState(c, msg), MessagePath(c, msg))
  }

  /** A block has exactly as many transmitted bits as the library announces. */
  lemma EncodedLength(c: Code, msg: seq<ubit>)
    requires Valid(c) && |msg| == c.len
    requires c.term == TailBiting ==> |msg| >= c.K - 1
    ensures |Encoded(c, msg)|
         == BlockSteps(c) * c.N - if c.puncture.Some? then |c.puncture.value| - 1 else 0
  {
    StreamLength(c, StartState(c, msg), MessagePath(c, msg));
    RankOfBlock(c);
    AtIsProduct(c, BlockSteps(c));
  }
}
