/** The convolutional encoder: state, step index and puncture cursor, updated in place. */
module ConvEncoder {
  import opened Options
  import opened ConvCode

  class Encoder {
    const code: Code
    var iIdx: nat
    var pIdx: nat
    var state: nat

    // the trellis path taken so far, and the state it started in
    ghost var start: nat
    ghost var path: Path

    ghost predicate Valid()
      reads this
    {
      && ConvCode.Valid(code)
      && start < NumStates(code)
      && iIdx == |path|
      && state == Run(code, start, path)
      && pIdx == Cursor(code, At(code, iIdx))
    }

    /** All bits emitted so far. */
    ghost function Sent(): seq<ubit>
      reads this
      requires Valid()
    {
      Stream(code, start, path)
    }

    constructor (c: Code)
      requires ConvCode.Valid(c)
      ensures Valid() && code == c && start == 0 && path == []
    {
      code := c;
      iIdx, pIdx, state := 0, 0, 0;
      start, path := 0, [];
    }

    /** Loads the state with the first K-1 bits of `input`, the most recent one lowest. */
    method LoadState(input: seq<ubit>)
      requires Valid() && |input| >= code.K - 1 && path == []
      modifies this`state, this`start
      ensures Valid() && start == StateOfBits(input[..code.K - 1])
    {
      var s: nat := 0;
      for i := 0 to code.K - 1
        invariant s == StateOfBits(input[..i])
      {
        assert input[..i + 1][..i] == input[..i];
        s := 2 * s + input[i];
      }
      state := s;
      start := s;
    }

    /** Tells whether bit j of the current symbol is punctured and moves the cursor past it. */
    method Punctures(j: nat) returns (drop: bool)
      requires code.K >= 1 && ValidPunctures(code) && pIdx == Cursor(code, At(code, iIdx) + j)
      modifies this`pIdx
      ensures drop <==> Punctured(code, At(code, iIdx) + j)
      ensures pIdx == Cursor(code, At(code, iIdx) + j + 1)
    {
      drop := false;
      if code.puncture.Some? {
        var rIdx := iIdx * code.N + j;
        AtIsProduct(code, iIdx);
        CursorDecides(code, rIdx);
        if code.puncture.value[pIdx] == rIdx {
          pIdx := pIdx + 1;
          drop := true;
        }
      }
    }

    /** The surviving bits of one output symbol, in the order they are written. */
    method DoOutput(out: nat) returns (output: seq<ubit>)
      requires code.K >= 1 && ValidPunctures(code) && pIdx == Cursor(code, At(code, iIdx))
      modifies this`pIdx
      ensures pIdx == Cursor(code, At(code, iIdx + 1))
      ensures output == Emit(code, At(code, iIdx), SymbolBits(code, out))
    {
      output := [];
      ghost var r0, bits := At(code, iIdx), SymbolBits(code, out);
      for j := 0 to code.N
        invariant pIdx == Cursor(code, r0 + j)
        invariant output == EmitFirst(code, r0, bits, j)
      {
        var bitNo := code.N - j - 1;
        var drop := Punctures(j);
        if !drop {
          output := output + [OutBit(out, bitNo)];
        }
      }
    }

    /** One trellis step: the symbol goes out, the state moves, the step is recorded. */
    method Step(out: nat, next: nat, ghost br: Branch) returns (output: seq<ubit>)
      requires Valid()
      requires out == Output(code, state, br) && next == Next(code, state, br)
      modifies this
      ensures Valid() && start == old(start) && path == old(path) + [br]
      ensures Sent() == old(Sent()) + output
    {
      StreamStep(code, start, path, br);
      output := DoOutput(out);
      state := next;
      iIdx := iIdx + 1;
      path := path + [br];
    }

    /** Encodes n data bits. */
    method EncodeRaw(input: seq<ubit>, n: nat) returns (output: seq<ubit>)
      requires Valid() && n <= |input|
      modifies this
      ensures Valid() && start == old(start) && path == old(path) + DataPath(input[..n])
      ensures Sent() == old(Sent()) + output
    {
      output := [];
      ghost var path0, sent0 := path, Sent();
      for i := 0 to n
        invariant Valid() && start == old(start)
        invariant path == path0 + DataPath(input[..i])
        invariant Sent() == sent0 + output
      {
        var bit := input[i];
        var out := code.nextOutput[state][bit];
        var next := code.nextState[state][bit];
        var symbol := Step(out, next, Data(bit));
        DataPathStep(input, i);
        Joined(path0, DataPath(input[..i]), [Data(bit)], sent0, output, symbol);
        output := output + symbol;
      }
    }

    /** Feeds the K-1 termination steps, from the termination tables when the code has them. */
    method EncodeFlush() returns (output: seq<ubit>)
      requires Valid()
      modifies this
      ensures Valid() && start == old(start) && path == old(path) + TermPath(code.K - 1)
      ensures Sent() == old(Sent()) + output
    {
      output := [];
      ghost var path0, sent0 := path, Sent();
      for i := 0 to code.K - 1
        invariant Valid() && start == old(start)
        invariant path == path0 + TermPath(i)
        invariant Sent() == sent0 + output
      {
        var symbol := FlushStep();
        Joined(path0, TermPath(i), [Term], sent0, output, symbol);
        output := output + symbol;
      }
    }

    static lemma Joined(a: Path, b: Path, c: Path, x: seq<ubit>, y: seq<ubit>, z: seq<ubit>)
      ensures a + b + c == a + (b + c) && x + y + z == x + (y + z)
    {
    }

    method FlushStep() returns (symbol: seq<ubit>)
      requires Valid()
      modifies this
      ensures Valid() && start == old(start) && path == old(path) + [Term]
      ensures Sent() == old(Sent()) + symbol
    {
      var out, next;
      if code.nextTermOutput.Some? {
        out, next := code.nextTermOutput.value[state], code.nextTermState[state];
      } else {
        out, next := code.nextOutput[state][0], code.nextState[state][0];
      }
      symbol := Step(out, next, Term);
    }
  }

  /** Encodes a whole block: exactly the surviving bits of the message's trellis path. */
  method Encode(c: Code, input: seq<ubit>) returns (output: seq<ubit>)
    requires ConvCode.Valid(c) && |input| >= c.len
    requires c.term == TailBiting ==> c.len >= c.K - 1
    ensures output == Encoded(c, input[..c.len])
  {
    var encoder := Start(c, input);
    output := EncodeData(encoder, input);
    if c.term == Flush {
      var tail := encoder.EncodeFlush();
      output := output + tail;
    }
    Finished(encoder, input[..c.len], output);
  }

  /** What the encoder sent on the path of a message is the encoding of the message. */
  lemma Finished(encoder: Encoder, msg: seq<ubit>, output: seq<ubit>)
    requires encoder.Valid() && encoder.Sent() == output
    requires encoder.code.term == TailBiting ==> |msg| >= encoder.code.K - 1
    requires encoder.start == StartState(encoder.code, msg) && encoder.path == MessagePath(encoder.code, msg)
    ensures output == Encoded(encoder.code, msg)
  {
  }

  method EncodeData(encoder: Encoder, input: seq<ubit>) returns (output: seq<ubit>)
    requires encoder.Valid() && encoder.path == [] && |input| >= encoder.code.len
    modifies encoder
    ensures encoder.Valid() && encoder.start == old(encoder.start)
    ensures encoder.path == DataPath(input[..encoder.code.len])
    ensures encoder.Sent() == output
  {
    output := encoder.EncodeRaw(input, encoder.code.len);
    assert [] + DataPath(input[..encoder.code.len]) == DataPath(input[..encoder.code.len]);
    assert [] + output == output;
  }

  /** The encoder in its start state; for tail-biting, loaded with the end of the message. */
  method Start(c: Code, input: seq<ubit>) returns (encoder: Encoder)
    requires ConvCode.Valid(c) && |input| >= c.len
    requires c.term == TailBiting ==> c.len >= c.K - 1
    ensures fresh(encoder) && encoder.Valid() && encoder.code == c
    ensures encoder.start == StartState(c, input[..c.len]) && encoder.path == []
    ensures encoder.Sent() == []
  {
    encoder := new Encoder(c);
    if c.term == TailBiting {
      var eidx := c.len - c.K + 1;
      encoder.LoadState(input[eidx..]);
      assert input[eidx..][..c.K - 1] == input[..c.len][c.len - (c.K - 1)..];
    }
  }
}
