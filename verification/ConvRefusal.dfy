/** When the decoder can refuse a block at all: a property of the code, which a caller can
    check before decoding. */
module ConvRefusal {
  import opened ConvCode
  import opened ConvSymbols
  import opened ConvTheorems
  import opened ConvCorrection

  /** A message and all that are encoded like it leave a truncated code in state 255. */
  ghost predicate LosesMessage(c: Code, x: seq<ubit>)
    requires Decodable(c)
  {
    && IsMessage(c, x) && FinalState(c, x) == 0xff
    && forall m :: IsMessage(c, m) && Encoded(c, m) == Encoded(c, x) ==> FinalState(c, m) == 0xff
  }

  /** Every block has a nearest message. */
  lemma {:induction false} NearestExists(c: Code, input: seq<sbit>, m: seq<ubit>) returns (x: seq<ubit>)
    requires Decodable(c) && IsMessage(c, m) && |input| >= Rank(c, At(c, BlockSteps(c)))
    ensures Nearest(c, input, x)
    decreases Miss(c, input, m)
  {
    if Nearest(c, input, m) {
      x := m;
    } else {
      var m' :| IsMessage(c, m') && Miss(c, input, m') < Miss(c, input, m);
      x := NearestExists(c, input, m');
    }
  }

  /** Some block is refused if and only if the code is truncated and loses some message. */
  lemma RefusesIff(c: Code)
    requires Decodable(c)
    ensures (exists input :: |input| >= Rank(c, At(c, BlockSteps(c))) && Refused(c, input))
       <==> c.term == Truncation && exists x :: LosesMessage(c, x)
  {
    if input :| |input| >= Rank(c, At(c, BlockSteps(c))) && Refused(c, input) {
      RefusedLoses(c, input);
    }
    if x :| c.term == Truncation && LosesMessage(c, x) {
      var input := LostIsRefused(c, x);
    }
  }

  /** The nearest message to a refused block is lost. */
  lemma RefusedLoses(c: Code, input: seq<sbit>)
    requires Decodable(c) && |input| >= Rank(c, At(c, BlockSteps(c))) && Refused(c, input)
    ensures exists x :: LosesMessage(c, x) && FinalState(c, x) < NumStates(c)
  {
    var x := NearestExists(c, input, SomeMessage(c.len));
    forall m | IsMessage(c, m) && Encoded(c, m) == Encoded(c, x)
      ensures FinalState(c, m) == 0xff
    {
      SameEncodingSameMiss(c, input, m, x);
    }
    assert LosesMessage(c, x);
  }

  ghost function SomeMessage(n: nat): (m: seq<ubit>)
    ensures |m| == n
  {
    if n == 0 then [] else SomeMessage(n - 1) + [0]
  }

  lemma SameEncodingSameMiss(c: Code, input: seq<sbit>, m: seq<ubit>, x: seq<ubit>)
    requires Decodable(c) && IsMessage(c, m) && IsMessage(c, x) && Encoded(c, m) == Encoded(c, x)
    requires |input| >= Rank(c, At(c, BlockSteps(c)))
    ensures Miss(c, input, m) == Miss(c, input, x)
  {
  }

  /** A lost message is refused when it is received without an error. */
  lemma LostIsRefused(c: Code, x: seq<ubit>) returns (input: seq<sbit>)
    requires Decodable(c) && c.term == Truncation && LosesMessage(c, x)
    ensures |input| >= Rank(c, At(c, BlockSteps(c))) && SoftOf(input, Encoded(c, x)) && Refused(c, input)
  {
    var hard := Encoded(c, x);
    Unharmed(c, x, hard);
    input := Soft(hard);
    NearestIsZero(c, input, x);
    forall m | Nearest(c, input, m)
      ensures FinalState(c, m) == 0xff
    {
      MissIsFlips(c, input, hard, m);
      assert Flips(c, hard, m) == 0;
      NoFlipsIsEncoding(c, x, m);
    }
  }

  lemma NoFlipsIsEncoding(c: Code, x: seq<ubit>, m: seq<ubit>)
    requires Decodable(c) && IsMessage(c, x) && IsMessage(c, m)
    requires Apart(c, x, m) == 0
    ensures Encoded(c, m) == Encoded(c, x)
  {
    if Encoded(c, m) != Encoded(c, x) {
      DifferentBlocksDiffer(c, x, m);
    }
  }

  /** Hard bits as soft ones of full confidence. */
  ghost function Soft(hard: seq<ubit>): (input: seq<sbit>)
    ensures |input| == |hard| && SoftOf(input, hard)
  {
    if hard == [] then [] else
      var n := |hard| - 1;
      Soft(hard[..n]) + [SoftBit(hard[n])]
  }

  /** Codes with fewer than 256 states, and flushed ones, refuse nothing; neither do codes none
      of whose messages end in state 255. */
  lemma NothingRefused(c: Code, input: seq<sbit>, msg: seq<ubit>, rv: int)
    requires Decodable(c) && |input| >= Rank(c, At(c, BlockSteps(c))) && Decoded(c, input, msg, rv)
    requires c.K <= 8 || c.term == Flush || forall m :: IsMessage(c, m) ==> FinalState(c, m) != 0xff
    ensures rv != -1 && Nearest(c, input, msg) && rv == Miss(c, input, msg)
  {
    StatesFitAnOctet(c);
    if Refused(c, input) {
      RefusedLoses(c, input);
    }
  }

  /** An injective truncated code refuses some block if and only if some message ends in state
      255. */
  lemma InjectiveRefusesIff(c: Code)
    requires Decodable(c) && c.term == Truncation
    requires forall x, m :: IsMessage(c, x) && IsMessage(c, m) && Encoded(c, m) == Encoded(c, x) ==> m == x
    ensures (exists input :: |input| >= Rank(c, At(c, BlockSteps(c))) && Refused(c, input))
       <==> exists x :: IsMessage(c, x) && FinalState(c, x) == 0xff
  {
    RefusesIff(c);
    if x :| IsMessage(c, x) && FinalState(c, x) == 0xff {
      assert LosesMessage(c, x);
    }
  }

  /** A code and a block that is refused although it was received without an error. */
  lemma RefusedBlock() returns (c: Code, input: seq<sbit>)
    ensures Decodable(c) && |input| >= Rank(c, At(c, BlockSteps(c)))
    ensures Encoded(c, Ones(8)) == Ones(8) && SoftOf(input, Ones(8))
    ensures Refused(c, input)
  {
    c := UncodedExists();
    UncodedIsDecodable(c);
    var x := Ones(8);
    forall m | IsMessage(c, m)
      ensures Encoded(c, m) == m
    {
      assert m[..|m|] == m;
      UncodedIsIdentity(c, m, |m|, DataPath(m));
    }
    FinalStateIsTail(c, x);
    assert x[0..] == x;
    assert LosesMessage(c, x);
    input := LostIsRefused(c, x);
  }

  /** A code with fewer than 256 states, or flushed, whose branches can be told apart in every
      step decodes each block that arrives undisturbed to the message that was encoded. */
  lemma DecodesBack(c: Code, x: seq<ubit>, input: seq<sbit>, msg: seq<ubit>, rv: int)
    requires Decodable(c) && TellsBranches(c) && (c.K <= 8 || c.term == Flush)
    requires IsMessage(c, x) && SoftOf(input, Encoded(c, x))
    requires |input| >= Rank(c, At(c, BlockSteps(c))) && Decoded(c, input, msg, rv)
    ensures msg == x && rv == 0
  {
    forall m | IsMessage(c, m) && m != x
      ensures Encoded(c, m) != Encoded(c, x)
    {
      MessagesDiffer(c, x, m);
    }
    NothingRefused(c, input, msg, rv);
    RoundTrip(c, x, input, msg, rv);
  }
}
