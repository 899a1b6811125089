/** The queue of a SACCH: measurement reports and other messages take turns. */
module SchedPrim {
  import opened Options
  import opened Sequences

  const GSM_MACBLOCK_LEN: nat := 23
  const GSM48_PDISC_RR: int := 0x06
  const GSM48_MT_RR_MEAS_REP: int := 0x15

  type Octet = b: int | 0 <= b < 256
  type L2 = d: seq<Octet> | |d| == GSM_MACBLOCK_LEN witness Zeros(GSM_MACBLOCK_LEN)

  predicate IsReport(m: L2)
  {
    m[5] == GSM48_PDISC_RR && m[6] == GSM48_MT_RR_MEAS_REP
  }

  /** The cache holds something: its LAPDm header has no zero octet. */
  predicate Populated(cache: L2)
  {
    cache[2] != 0 && cache[3] != 0 && cache[4] != 0
  }

  // ------------------------------------------------------------------ one message

  datatype State = State(queue: seq<L2>, cache: L2, mrTxLast: bool)

  /** The place of the first message that is a report, or is not one; the length if none. */
  function First(q: seq<L2>, report: bool): (i: nat)
    ensures i <= |q| && (i < |q| ==> IsReport(q[i]) == report)
    ensures forall j :: 0 <= j < i ==> IsReport(q[j]) != report
  {
    if q == [] || IsReport(q[0]) == report then 0 else 1 + First(q[1..], report)
  }

  /** The place of the message to send, the length when a report is to be composed: after
      anything but a report only a report will do; after a report anything else goes first. */
  function Choice(q: seq<L2>, mrTxLast: bool): (i: nat)
    ensures i <= |q|
  {
    if !mrTxLast then First(q, true)
    else if First(q, false) < |q| then First(q, false)
    else First(q, true)
  }

  /** The report that is composed: the cached one, or the common one if none is cached. */
  function Composed(cache: L2, common: L2): L2
  {
    if Populated(cache) then cache else common
  }

  function Without(q: seq<L2>, i: nat): seq<L2>
    requires i < |q|
  {
    q[..i] + q[i + 1..]
  }

  function Sent(s: State, common: L2): L2
  {
    var i := Choice(s.queue, s.mrTxLast);
    if i < |s.queue| then s.queue[i] else Composed(s.cache, common)
  }

  function Dequeued(s: State, common: L2): State
  {
    var i, m := Choice(s.queue, s.mrTxLast), Sent(s, common);
    State(if i < |s.queue| then Without(s.queue, i) else s.queue,
          if i == |s.queue| || IsReport(m) then m else s.cache,
          IsReport(m))
  }

  // ------------------------------------------------------------------ runs

  /** A message is queued, or one is sent while the common cache holds some report. */
  datatype Op = Enqueue(msg: L2) | Dequeue(common: L2)

  ghost function Step(s: State, op: Op): State
  {
    match op
    case Enqueue(m) => s.(queue := s.queue + [m])
    case Dequeue(common) => Dequeued(s, common)
  }

  ghost function Final(s: State, ops: seq<Op>): State
    decreases |ops|
  {
    if ops == [] then s else Final(Step(s, ops[0]), ops[1..])
  }

  /** The messages sent. */
  ghost function Trace(s: State, ops: seq<Op>): seq<L2>
    decreases |ops|
  {
    if ops == [] then []
    else (if ops[0].Dequeue? then [Sent(s, ops[0].common)] else []) + Trace(Step(s, ops[0]), ops[1..])
  }

  ghost function OfClass(q: seq<L2>, report: bool): seq<L2>
  {
    if q == [] then [] else (if IsReport(q[0]) == report then [q[0]] else []) + OfClass(q[1..], report)
  }

  /** The messages of a class that leave the queue with one operation. */
  ghost function TakenBy(s: State, op: Op, report: bool): seq<L2>
  {
    if op.Enqueue? then [] else
      var i := Choice(s.queue, s.mrTxLast);
      if i < |s.queue| && IsReport(s.queue[i]) == report then [s.queue[i]] else []
  }

  ghost function Taken(s: State, ops: seq<Op>, report: bool): seq<L2>
    decreases |ops|
  {
    if ops == [] then [] else TakenBy(s, ops[0], report) + Taken(Step(s, ops[0]), ops[1..], report)
  }

  ghost function Added(ops: seq<Op>, report: bool): seq<L2>
  {
    if ops == [] then []
    else Entered(ops[0], report) + Added(ops[1..], report)
  }

  ghost function Dequeues(ops: seq<Op>): nat
  {
    if ops == [] then 0 else (if ops[0].Dequeue? then 1 else 0) + Dequeues(ops[1..])
  }

  /** A report is composed only when the composed message is one. */
  ghost predicate Reporting(s: State, op: Op)
  {
    op.Dequeue? && Choice(s.queue, s.mrTxLast) == |s.queue| ==> IsReport(Composed(s.cache, op.common))
  }

  ghost predicate AlwaysReporting(s: State, ops: seq<Op>)
    decreases |ops|
  {
    ops != [] ==> Reporting(s, ops[0]) && AlwaysReporting(Step(s, ops[0]), ops[1..])
  }

  /** If the common cache always holds a report, and the own cache does when it is populated,
      every composed message is a report. */
  lemma {:induction false} CachesReport(s: State, ops: seq<Op>)
    requires Populated(s.cache) ==> IsReport(s.cache)
    requires forall i :: 0 <= i < |ops| && ops[i].Dequeue? ==> IsReport(ops[i].common)
    ensures AlwaysReporting(s, ops)
    decreases |ops|
  {
    if ops != [] {
      CachesReport(Step(s, ops[0]), ops[1..]);
    }
  }

  /** After a message that is not a report, another one is sent if and only if no report is
      queued and the message composed instead is not a report. */
  lemma TwoInARow(s: State, common: L2)
    requires !s.mrTxLast
    ensures !IsReport(Sent(s, common)) <==>
      (forall m :: m in s.queue ==> !IsReport(m)) && !IsReport(Composed(s.cache, common))
  {
    var i := First(s.queue, true);
    if i < |s.queue| {
      assert s.queue[i] in s.queue;
    }
  }

  /** One of the i-th message and the one before it is a report. */
  ghost predicate ReportAt(t: seq<L2>, i: int)
    requires 0 < i < |t|
  {
    IsReport(t[i - 1]) || IsReport(t[i])
  }

  /** While composed messages are reports, no two messages sent in a row are not. */
  lemma {:induction false} ReportsAlternate(s: State, ops: seq<Op>)
    requires AlwaysReporting(s, ops)
    ensures var t := Trace(s, ops);
      && (t != [] && !s.mrTxLast ==> IsReport(t[0]))
      && (forall i {:trigger ReportAt(t, i)} :: 0 < i < |t| ==> ReportAt(t, i))
    decreases |ops|
  {
    if ops != [] {
      var rest := Trace(Step(s, ops[0]), ops[1..]);
      ReportsAlternate(Step(s, ops[0]), ops[1..]);
      if ops[0].Dequeue? {
        var t := [Sent(s, ops[0].common)] + rest;
        assert Trace(s, ops) == t;
        forall i {:trigger ReportAt(t, i)} | 0 < i < |t|
          ensures ReportAt(t, i)
        {
          assert i > 1 ==> ReportAt(rest, i - 1);
        }
      } else {
        assert Trace(s, ops) == rest;
        assert forall i {:trigger ReportAt(rest, i)} :: 0 < i < |rest| ==> ReportAt(rest, i);
      }
    }
  }

  lemma {:induction false} OfClassSplit(a: seq<L2>, b: seq<L2>, report: bool)
    ensures OfClass(a + b, report) == OfClass(a, report) + OfClass(b, report)
    decreases |a|
  {
    if a == [] {
      assert a + b == b;
    } else {
      assert (a + b)[1..] == a[1..] + b;
      OfClassSplit(a[1..], b, report);
    }
  }

  lemma {:induction false} NoneOfClass(q: seq<L2>, report: bool)
    requires forall m :: m in q ==> IsReport(m) != report
    ensures OfClass(q, report) == []
    decreases |q|
  {
    if q != [] {
      NoneOfClass(q[1..], report);
    }
  }

  /** What leaves the queue is the first of its class; the other class loses nothing. */
  lemma ChoiceIsFirst(s: State, op: Op, report: bool)
    requires op.Dequeue?
    ensures OfClass(s.queue, report) == TakenBy(s, op, report) + OfClass(Step(s, op).queue, report)
  {
    var q, i := s.queue, Choice(s.queue, s.mrTxLast);
    if i < |q| {
      if IsReport(q[i]) == report {
        NoneOfClass(q[..i], report);
      }
      RemovedOne(q, i, report);
    }
  }

  lemma RemovedOne(q: seq<L2>, i: nat, report: bool)
    requires i < |q|
    ensures OfClass(q, report)
      == OfClass(q[..i], report) + (if IsReport(q[i]) == report then [q[i]] else []) + OfClass(q[i + 1..], report)
    ensures OfClass(Without(q, i), report) == OfClass(q[..i], report) + OfClass(q[i + 1..], report)
  {
    var a, x, b := q[..i], q[i], q[i + 1..];
    assert q == a + ([x] + b);
    OfClassSplit(a, [x] + b, report);
    OfClassSplit([x], b, report);
    OfClassSplit(a, b, report);
  }

  /** Each class leaves the queue in the order in which it entered, and nothing is lost or
      sent twice. */
  lemma {:induction false} FirstInFirstOut(s: State, ops: seq<Op>, report: bool)
    ensures OfClass(s.queue, report) + Added(ops, report)
         == Taken(s, ops, report) + OfClass(Final(s, ops).queue, report)
    decreases |ops|
  {
    if ops != [] {
      var op, next := ops[0], Step(s, ops[0]);
      FirstInFirstOut(next, ops[1..], report);
      OneOperation(s, op, report);
      Exchange(OfClass(s.queue, report), Entered(op, report), TakenBy(s, op, report), OfClass(next.queue, report),
               Added(ops[1..], report), Taken(next, ops[1..], report), OfClass(Final(s, ops).queue, report));
    }
  }

  ghost function Entered(op: Op, report: bool): seq<L2>
  {
    if op.Enqueue? && IsReport(op.msg) == report then [op.msg] else []
  }

  lemma OneOperation(s: State, op: Op, report: bool)
    ensures OfClass(s.queue, report) + Entered(op, report) == TakenBy(s, op, report) + OfClass(Step(s, op).queue, report)
  {
    if op.Enqueue? {
      OfClassSplit(s.queue, [op.msg], report);
      assert OfClass([op.msg], report) == Entered(op, report);
    } else {
      ChoiceIsFirst(s, op, report);
    }
  }

  lemma Exchange(a: seq<L2>, e: seq<L2>, t: seq<L2>, b: seq<L2>, added: seq<L2>, later: seq<L2>, rest: seq<L2>)
    requires a + e == t + b && b + added == later + rest
    ensures a + (e + added) == t + later + rest
  {
    assert a + (e + added) == a + e + added;
    assert t + b + added == t + (b + added);
  }

  /** It is the class's turn. */
  ghost function Turn(s: State, report: bool): nat
  {
    if report == !s.mrTxLast then 1 else 0
  }

  function Min(a: int, b: int): int
  {
    if a < b then a else b
  }

  /** In any run at least every other message sent is of a class that is queued; for messages
      that are not reports this needs composed messages to be reports. */
  lemma BoundedWait(s: State, ops: seq<Op>, report: bool)
    requires report || AlwaysReporting(s, ops)
    ensures |Taken(s, ops, report)| >= Min((Dequeues(ops) + Turn(s, report)) / 2, |OfClass(s.queue, report)|)
  {
    WaitIsBounded(s, ops, report, |Taken(s, ops, report)|, Dequeues(ops), |OfClass(s.queue, report)|);
  }

  lemma {:induction false} WaitIsBounded(s: State, ops: seq<Op>, report: bool, taken: nat, d: nat, n: nat)
    requires report || AlwaysReporting(s, ops)
    requires taken == |Taken(s, ops, report)| && d == Dequeues(ops) && n == |OfClass(s.queue, report)|
    ensures taken >= Min((d + Turn(s, report)) / 2, n)
    decreases |ops|
  {
    if ops != [] {
      var op, next := ops[0], Step(s, ops[0]);
      var t, t', now := Turn(s, report), Turn(next, report), |TakenBy(s, op, report)|;
      var later, n' := |Taken(next, ops[1..], report)|, |OfClass(next.queue, report)|;
      WaitIsBounded(next, ops[1..], report, later, Dequeues(ops[1..]), n');
      Balance(s, op, report, t, t', now, n, n');
      Waited(Dequeues(ops[1..]), if op.Dequeue? then 1 else 0, t, t', now, later, n, n');
    }
  }

  lemma Balance(s: State, op: Op, report: bool, t: nat, t': nat, now: nat, n: nat, n': nat)
    requires op.Dequeue? ==> report || Reporting(s, op)
    requires t == Turn(s, report) && t' == Turn(Step(s, op), report) && now == |TakenBy(s, op, report)|
    requires n == |OfClass(s.queue, report)| && n' == |OfClass(Step(s, op).queue, report)|
    ensures if op.Enqueue? then t == t' && n <= n' && now == 0
            else n == now + n' && (n == 0 || now == 1 || (t == 0 && t' == 1))
  {
    if op.Enqueue? {
      OfClassSplit(s.queue, [op.msg], report);
    } else {
      ChoiceIsFirst(s, op, report);
      TurnTaken(s, op, report);
    }
  }

  lemma Waited(d: nat, one: nat, t: nat, t': nat, now: nat, later: nat, n: nat, n': nat)
    requires later >= Min((d + t') / 2, n') && t <= 1
    requires if one == 0 then t == t' && n <= n' else one == 1 && n == now + n' && (n == 0 || now == 1 || (t == 0 && t' == 1))
    ensures now + later >= Min((d + one + t) / 2, n)
  {
  }

  lemma TurnTaken(s: State, op: Op, report: bool)
    requires op.Dequeue? && (report || Reporting(s, op))
    ensures OfClass(s.queue, report) == [] || |TakenBy(s, op, report)| == 1
         || (Turn(s, report) == 0 && Turn(Step(s, op), report) == 1)
  {
    if First(s.queue, report) == |s.queue| {
      NoneOfClass(s.queue, report);
    }
  }

  /** The k-th queued message of a class leaves within 2k dequeues. */
  lemma LeavesWithinTwoK(s: State, ops: seq<Op>, report: bool, k: nat)
    requires report || AlwaysReporting(s, ops)
    requires k < |OfClass(s.queue, report)| && Dequeues(ops) >= 2 * (k + 1)
    ensures k < |Taken(s, ops, report)| && Taken(s, ops, report)[k] == OfClass(s.queue, report)[k]
  {
    BoundedWait(s, ops, report);
    FirstInFirstOut(s, ops, report);
    var a, b := OfClass(s.queue, report), Taken(s, ops, report);
    assert (a + Added(ops, report))[k] == (b + OfClass(Final(s, ops).queue, report))[k];
  }

  /** Without a report to send or to compose, nothing leaves the queue any more. */
  lemma {:induction false} Starvation(s: State, ops: seq<Op>)
    requires !s.mrTxLast && (forall m :: m in s.queue ==> !IsReport(m))
    requires forall i :: 0 <= i < |ops| ==> !IsReport(if ops[i].Enqueue? then ops[i].msg else ops[i].common)
    requires !IsReport(s.cache)
    ensures Taken(s, ops, false) == []
    decreases |ops|
  {
    if ops != [] {
      Starvation(Step(s, ops[0]), ops[1..]);
    }
  }

  // ------------------------------------------------------------------ messages

  /** A message as it is transmitted: two octets of layer 1, three of LAPDm and 18 of layer 3. */
  function Framed(l1: seq<Octet>, lapdm: seq<Octet>, l3: seq<Octet>): L2
    requires |l1| == 2 && |lapdm| == 3 && |l3| == 18
  {
    l1 + lapdm + l3
  }

  /** A measurement report is told by its protocol discriminator and message type, and a cache
      that is filled by its LAPDm header. */
  lemma FramedIs(l1: seq<Octet>, lapdm: seq<Octet>, l3: seq<Octet>)
    requires |l1| == 2 && |lapdm| == 3 && |l3| == 18
    ensures IsReport(Framed(l1, lapdm, l3)) <==> l3[0] == 0x06 && l3[1] == 0x15
    ensures Populated(Framed(l1, lapdm, l3)) <==> 0 !in lapdm
  {
    var m := Framed(l1, lapdm, l3);
    assert lapdm == [m[2], m[3], m[4]] && m[5] == l3[0] && m[6] == l3[1];
  }

  // ------------------------------------------------------------------ what is sent

  /** The messages that are composed in a run. */
  ghost function Repeated(s: State, ops: seq<Op>): seq<L2>
    decreases |ops|
  {
    if ops == [] then [] else
      (if ops[0].Dequeue? && Choice(s.queue, s.mrTxLast) == |s.queue| then [Composed(s.cache, ops[0].common)] else [])
        + Repeated(Step(s, ops[0]), ops[1..])
  }

  /** What is sent is what leaves the queue, and what is composed: each exactly once. */
  lemma {:induction false} SentOnce(s: State, ops: seq<Op>)
    ensures multiset(Trace(s, ops))
      == multiset(Taken(s, ops, true)) + multiset(Taken(s, ops, false)) + multiset(Repeated(s, ops))
    decreases |ops|
  {
    if ops != [] {
      SentOnce(Step(s, ops[0]), ops[1..]);
    }
  }

  /** While composed messages are reports, the other messages that are sent are those that leave
      the queue, in their order. */
  lemma {:induction false} OthersAreTaken(s: State, ops: seq<Op>)
    requires AlwaysReporting(s, ops)
    ensures OfClass(Trace(s, ops), false) == Taken(s, ops, false)
    decreases |ops|
  {
    if ops != [] {
      OthersAreTaken(Step(s, ops[0]), ops[1..]);
      OfClassSplit(if ops[0].Dequeue? then [Sent(s, ops[0].common)] else [], Trace(Step(s, ops[0]), ops[1..]), false);
    }
  }

  /** The last report of a sequence of messages. */
  ghost function LastReport(t: seq<L2>): Option<L2>
  {
    if t == [] then None
    else if IsReport(t[|t| - 1]) then Some(t[|t| - 1])
    else LastReport(t[..|t| - 1])
  }

  lemma {:induction false} LastReportSplit(a: seq<L2>, b: seq<L2>)
    ensures LastReport(a + b) == if LastReport(b).Some? then LastReport(b) else LastReport(a)
    decreases |b|
  {
    if b == [] {
      assert a + b == a;
    } else {
      assert (a + b)[..|a + b| - 1] == a + b[..|b| - 1];
      LastReportSplit(a, b[..|b| - 1]);
    }
  }

  /** While composed messages are reports, the cache holds the last report that was sent. */
  lemma {:induction false} CacheIsLastReport(s: State, ops: seq<Op>)
    requires AlwaysReporting(s, ops)
    ensures var last := LastReport(Trace(s, ops));
      Final(s, ops).cache == if last.Some? then last.value else s.cache
    decreases |ops|
  {
    if ops != [] {
      var one := if ops[0].Dequeue? then [Sent(s, ops[0].common)] else [];
      CacheIsLastReport(Step(s, ops[0]), ops[1..]);
      LastReportSplit(one, Trace(Step(s, ops[0]), ops[1..]));
    }
  }

  /** So a report that has to be composed is the last one sent again, as long as that one has
      a LAPDm header. */
  lemma LastReportRepeated(s: State, ops: seq<Op>, common: L2)
    requires AlwaysReporting(s, ops) && LastReport(Trace(s, ops)).Some?
    requires var r := Final(s, ops); Choice(r.queue, r.mrTxLast) == |r.queue|
    ensures var last := LastReport(Trace(s, ops)).value;
      Sent(Final(s, ops), common) == if last[2] != 0 && last[3] != 0 && last[4] != 0 then last else common
  {
    CacheIsLastReport(s, ops);
  }

  // ------------------------------------------------------------------ the channel

  /** The SACCH state of a logical channel. */
  class Sacch {
    var txPrims: seq<L2>
    var mrCache: L2
    var usage: Octet
    var mrTxLast: bool

    ghost function Abs(): State
      reads this
    {
      State(txPrims, mrCache, mrTxLast)
    }

    constructor ()
      ensures Abs() == State([], Zeros(GSM_MACBLOCK_LEN), false) && usage == 0
    {
      txPrims, mrCache, usage, mrTxLast := [], Zeros(GSM_MACBLOCK_LEN), 0, false;
    }

    method PrimEnqueue(m: L2)
      modifies this
      ensures Abs() == Step(old(Abs()), Enqueue(m)) && usage == old(usage)
    {
      txPrims := txPrims + [m];
    }

    /** Composes a report from the cache, which is filled from the common one when empty. */
    method ComposeMr(common: L2) returns (m: L2)
      modifies this`mrCache, this`usage
      ensures m == mrCache == Composed(old(mrCache), common)
      ensures usage == (old(usage) + 1) % 256
    {
      var cached := mrCache[2] != 0 && mrCache[3] != 0 && mrCache[4] != 0;
      if !cached {
        mrCache := common;
      }
      m := mrCache;
      usage := (usage + 1) % 256;
    }

    /** The message for the next transmission. */
    method DequeueSacch(common: L2) returns (m: L2)
      modifies this
      ensures m == Sent(old(Abs()), common)
      ensures Abs() == Step(old(Abs()), Dequeue(common))
      ensures usage == if Choice(old(txPrims), old(mrTxLast)) == |old(txPrims)| then (old(usage) + 1) % 256
                       else if IsReport(m) then 0 else old(usage)
    {
      var mrNow := !mrTxLast;
      var msgMr, msgNmr := Search(mrNow);
      var msg: Option<nat> :=
        if mrNow && msgMr.Some? then msgMr
        else if !mrNow && msgNmr.Some? then msgNmr
        else if !mrNow && msgMr.Some? then msgMr
        else None;
      if msg.Some? {
        m := txPrims[msg.value];
        txPrims := txPrims[..msg.value] + txPrims[msg.value + 1..];
        if msg == msgMr {
          mrCache, usage := m, 0;
        }
      } else {
        m := ComposeMr(common);
      }
      mrTxLast := IsReport(m);
    }

    /** Looks for the first report and the first other message, until the one that is wanted
        was found. */
    method Search(mrNow: bool) returns (mr: Option<nat>, nmr: Option<nat>)
      ensures mr.Some? ==> mr.value == First(txPrims, true) < |txPrims|
      ensures nmr.Some? ==> nmr.value == First(txPrims, false) < |txPrims|
      ensures mrNow && mr.None? ==> First(txPrims, true) == |txPrims|
      ensures !mrNow && nmr.None? ==> First(txPrims, false) == |txPrims|
      ensures !mrNow && nmr.None? && mr.None? ==> First(txPrims, true) == |txPrims|
    {
      mr, nmr := None, None;
      var i := 0;
      while i < |txPrims|
        invariant 0 <= i <= |txPrims|
        invariant mr.None? ==> forall j :: 0 <= j < i ==> !IsReport(txPrims[j])
        invariant nmr.None? ==> forall j :: 0 <= j < i ==> IsReport(txPrims[j])
        invariant mr.Some? ==> mr.value == First(txPrims, true) < |txPrims|
        invariant nmr.Some? ==> nmr.value == First(txPrims, false) < |txPrims|
      {
        if mr.None? && IsReport(txPrims[i]) {
          mr := Some(i);
        }
        if nmr.None? && !IsReport(txPrims[i]) {
          nmr := Some(i);
        }
        if mrNow && mr.Some? {
          break;
        } else if !mrNow && nmr.Some? {
          break;
        }
        i := i + 1;
      }
    }
  }
}
