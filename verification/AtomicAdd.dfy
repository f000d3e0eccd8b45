/** Concurrent compare-and-swap addition: nd4j_atomicAdd<double> and nd4j_atomicAdd<float16> in
    include/templatemath.h, as steps on one word of shared memory. Each call is a thread of its own; reads and
    compare-and-swaps of the word are atomic, and any thread may take the next step. */
module AtomicAdd {
  import opened Sequences

  /** The bits of a half. */
  type Half = h: int | 0 <= h < 0x1_0000

  /** Rounding addition on bit patterns; nothing is assumed about it. */
  datatype Arithmetic = Arithmetic(addDouble: (nat, nat) -> nat, addHalf: (Half, Half) -> Half)

  /** A call with its address and its addend: a double filling the word, or the half at the word's lower or upper
      address. */
  datatype Call = OnDouble(val: nat) | OnH(half: Half) | OnL(half: Half)

  /** Where a call is: before the first read; in the loop with what it last read (and how many calls
      had taken effect by then); or returned. */
  datatype Pc = Start | Trying(last: nat, seen: nat) | Done(last: nat)

  datatype Thread = Thread(call: Call, pc: Pc)

  /** log lists the calls that have taken effect, in that order. */
  datatype State = State(word: nat, threads: seq<Thread>, log: seq<nat>)

  // ----- PAIR, the union of a word and two halves

  function H(w: nat): Half {
    w % 0x1_0000
  }

  function L(w: nat): Half {
    (w / 0x1_0000) % 0x1_0000
  }

  function Pair(h: Half, l: Half): (w: nat)
    ensures w < 0x1_0000_0000 && H(w) == h && L(w) == l
  {
    h + 0x1_0000 * l
  }

  /** The new word that a call computes from the old one. */
  function Fresh(m: Arithmetic, call: Call, w: nat): nat {
    match call
    case OnDouble(val) => m.addDouble(val, w)
    case OnH(half) => Pair(m.addHalf(H(w), half), L(w))
    case OnL(half) => Pair(H(w), m.addHalf(L(w), half))
  }

  /** What a call returns. */
  function Returned(call: Call, last: nat): nat {
    match call
    case OnDouble(_) => last
    case OnH(_) => H(last)
    case OnL(_) => L(last)
  }

  // ----- the steps

  function Begin(word: nat, calls: seq<Call>): State {
    State(word, seq(|calls|, t requires 0 <= t < |calls| => Thread(calls[t], Start)), [])
  }

  function SetPc(s: State, t: nat, pc: Pc): State
    requires t < |s.threads|
  {
    s.(threads := s.threads[t := s.threads[t].(pc := pc)])
  }

  /** Thread t reads the word, or tries its compare-and-swap; afterwards it stays as it is. */
  function Step(m: Arithmetic, s: State, t: nat): (r: State)
    requires t < |s.threads|
    ensures |r.threads| == |s.threads|
  {
    match s.threads[t].pc
    case Start => SetPc(s, t, Trying(s.word, |s.log|))
    case Trying(assumed, _) =>
      if s.word == assumed
      then SetPc(s, t, Done(s.word)).(word := Fresh(m, s.threads[t].call, assumed), log := s.log + [t])
      else SetPc(s, t, Trying(s.word, |s.log|))
    case Done(_) => s
  }

  function Run(m: Arithmetic, s: State, schedule: seq<nat>): (r: State)
    requires forall i | 0 <= i < |schedule| :: schedule[i] < |s.threads|
    ensures |r.threads| == |s.threads|
    decreases |schedule|
  {
    if schedule == [] then s else Run(m, Step(m, s, schedule[0]), schedule[1..])
  }

  // ----- what every state of every run satisfies

  /** The word after the logged calls, applied one after the other. */
  function Applied(m: Arithmetic, word: nat, calls: seq<Call>, log: seq<nat>): nat
    requires forall i | 0 <= i < |log| :: log[i] < |calls|
  {
    if log == [] then word else
      var n := |log| - 1;
      Fresh(m, calls[log[n]], Applied(m, word, calls, log[..n]))
  }

  /** A call is done exactly if it is in the log, and no call is in the log twice. */
  ghost predicate LogOk(s: State, calls: seq<Call>) {
    && |s.threads| == |calls| && (forall t | 0 <= t < |calls| :: s.threads[t].call == calls[t])
    && (forall i | 0 <= i < |s.log| :: s.log[i] < |calls| && s.threads[s.log[i]].pc.Done?)
    && (forall i, j | 0 <= i < j < |s.log| :: s.log[i] != s.log[j])
    && (forall t | 0 <= t < |calls| && s.threads[t].pc.Done? :: t in s.log)
  }

  /** Each done call has read the word as it was just before its own effect. */
  ghost predicate DoneOk(m: Arithmetic, word: nat, calls: seq<Call>, s: State)
    requires LogOk(s, calls)
  {
    forall i | 0 <= i < |s.log| :: s.threads[s.log[i]].pc.last == Applied(m, word, calls, s.log[..i])
  }

  /** Each trying call has read the word as it was at some time. */
  ghost predicate TryingOk(m: Arithmetic, word: nat, calls: seq<Call>, s: State)
    requires LogOk(s, calls)
  {
    forall t | 0 <= t < |calls| && s.threads[t].pc.Trying? ::
      ReadAt(m, word, calls, s.log, s.threads[t].pc.last, s.threads[t].pc.seen)
  }

  predicate ReadAt(m: Arithmetic, word: nat, calls: seq<Call>, log: seq<nat>, last: nat, seen: nat)
    requires forall i | 0 <= i < |log| :: log[i] < |calls|
  {
    seen <= |log| && last == Applied(m, word, calls, log[..seen])
  }

  /** The calls take effect as if one after the other in log order, each exactly once. */
  ghost predicate Serial(m: Arithmetic, word: nat, calls: seq<Call>, s: State) {
    && LogOk(s, calls) && DoneOk(m, word, calls, s) && TryingOk(m, word, calls, s)
    && s.word == Applied(m, word, calls, s.log)
  }

  lemma AppliedNext(m: Arithmetic, word: nat, calls: seq<Call>, log: seq<nat>, t: nat)
    requires (forall i | 0 <= i < |log| :: log[i] < |calls|) && t < |calls|
    ensures Applied(m, word, calls, log + [t]) == Fresh(m, calls[t], Applied(m, word, calls, log))
  {
    assert (log + [t])[..|log|] == log;
  }

  lemma BeginSerial(m: Arithmetic, word: nat, calls: seq<Call>)
    ensures Serial(m, word, calls, Begin(word, calls))
  {
  }

  /** A thread reads the word, at first or when its compare-and-swap fails. */
  lemma ReadSerial(m: Arithmetic, word: nat, calls: seq<Call>, s: State, t: nat)
    requires Serial(m, word, calls, s) && t < |s.threads| && !s.threads[t].pc.Done?
    ensures Serial(m, word, calls, SetPc(s, t, Trying(s.word, |s.log|)))
  {
    hide Applied;
    assert s.log[..|s.log|] == s.log;
  }

  function Success(m: Arithmetic, s: State, t: nat): State
    requires t < |s.threads|
  {
    SetPc(s, t, Done(s.word)).(word := Fresh(m, s.threads[t].call, s.word), log := s.log + [t])
  }

  lemma SuccessLog(m: Arithmetic, s: State, calls: seq<Call>, t: nat)
    requires LogOk(s, calls) && t < |s.threads| && !s.threads[t].pc.Done?
    ensures LogOk(Success(m, s, t), calls) && t !in s.log
  {
    var s' := Success(m, s, t);
    forall u | 0 <= u < |calls| && s'.threads[u].pc.Done?
      ensures u in s'.log
    {
      if u == t { assert s'.log[|s.log|] == t; } else { assert u in s.log; }
    }
  }

  lemma SuccessDone(m: Arithmetic, word: nat, calls: seq<Call>, s: State, t: nat)
    requires Serial(m, word, calls, s) && t < |s.threads| && !s.threads[t].pc.Done?
    ensures LogOk(Success(m, s, t), calls) && DoneOk(m, word, calls, Success(m, s, t))
  {
    hide Applied;
    var s' := Success(m, s, t);
    SuccessLog(m, s, calls, t);
    forall i | 0 <= i < |s'.log|
      ensures s'.threads[s'.log[i]].pc.last == Applied(m, word, calls, s'.log[..i])
    {
      assert s'.log[..i] == s.log[..i];
      if i == |s.log| { assert s.log[..i] == s.log; }
    }
  }

  lemma SuccessTrying(m: Arithmetic, word: nat, calls: seq<Call>, s: State, t: nat)
    requires Serial(m, word, calls, s) && t < |s.threads| && !s.threads[t].pc.Done?
    ensures LogOk(Success(m, s, t), calls) && TryingOk(m, word, calls, Success(m, s, t))
  {
    hide Applied, DoneOk;
    var s' := Success(m, s, t);
    SuccessLog(m, s, calls, t);
    forall u | 0 <= u < |calls| && s'.threads[u].pc.Trying?
      ensures ReadAt(m, word, calls, s'.log, s'.threads[u].pc.last, s'.threads[u].pc.seen)
    {
      assert ReadAt(m, word, calls, s.log, s.threads[u].pc.last, s.threads[u].pc.seen);
      assert s'.log[..s.threads[u].pc.seen] == s.log[..s.threads[u].pc.seen];
    }
  }

  /** A thread's compare-and-swap succeeds. */
  lemma SwapSerial(m: Arithmetic, word: nat, calls: seq<Call>, s: State, t: nat)
    requires Serial(m, word, calls, s) && t < |s.threads| && !s.threads[t].pc.Done?
    ensures Serial(m, word, calls, Success(m, s, t))
  {
    hide Applied, DoneOk, TryingOk;
    AppliedNext(m, word, calls, s.log, t);
    SuccessDone(m, word, calls, s, t);
    SuccessTrying(m, word, calls, s, t);
  }

  lemma StepSerial(m: Arithmetic, word: nat, calls: seq<Call>, s: State, t: nat)
    requires Serial(m, word, calls, s) && t < |s.threads|
    ensures Serial(m, word, calls, Step(m, s, t))
  {
    hide Serial;
    match s.threads[t].pc
    case Start => ReadSerial(m, word, calls, s, t);
    case Trying(assumed, _) =>
      if s.word == assumed { SwapSerial(m, word, calls, s, t); } else { ReadSerial(m, word, calls, s, t); }
    case Done(_) =>
  }

  /** Any number of threads, any interleaving. */
  lemma {:induction false} RunSerial(m: Arithmetic, word: nat, calls: seq<Call>, s: State, schedule: seq<nat>)
    requires Serial(m, word, calls, s) && forall i | 0 <= i < |schedule| :: schedule[i] < |s.threads|
    ensures Serial(m, word, calls, Run(m, s, schedule))
    decreases |schedule|
  {
    hide Serial, Step;
    if schedule != [] {
      StepSerial(m, word, calls, s, schedule[0]);
      RunSerial(m, word, calls, Step(m, s, schedule[0]), schedule[1..]);
    }
  }

  /** So after any run from the beginning: the word is the initial one with the additions applied in the order of
      success; a call is among them exactly once if it is done and not at all otherwise; and it returns what it found
      just before its own addition. */
  lemma EachCallOnce(m: Arithmetic, word: nat, calls: seq<Call>, schedule: seq<nat>)
    requires forall i | 0 <= i < |schedule| :: schedule[i] < |calls|
    ensures var s := Run(m, Begin(word, calls), schedule);
      && (forall i | 0 <= i < |s.log| :: s.log[i] < |calls|)
      && (forall i, j | 0 <= i < j < |s.log| :: s.log[i] != s.log[j])
      && (forall t | 0 <= t < |calls| :: s.threads[t].pc.Done? <==> t in s.log)
      && s.word == Applied(m, word, calls, s.log)
      && (forall i | 0 <= i < |s.log| ::
            Returned(calls[s.log[i]], s.threads[s.log[i]].pc.last)
              == Returned(calls[s.log[i]], Applied(m, word, calls, s.log[..i])))
  {
    BeginSerial(m, word, calls);
    RunSerial(m, word, calls, Begin(word, calls), schedule);
  }

  // ----- the two halves of one word

  function AppliedToH(m: Arithmetic, h: Half, calls: seq<Call>, log: seq<nat>): Half
    requires forall i | 0 <= i < |log| :: log[i] < |calls|
  {
    if log == [] then h else
      var n := |log| - 1;
      var before := AppliedToH(m, h, calls, log[..n]);
      if calls[log[n]].OnH? then m.addHalf(before, calls[log[n]].half) else before
  }

  function AppliedToL(m: Arithmetic, l: Half, calls: seq<Call>, log: seq<nat>): Half
    requires forall i | 0 <= i < |log| :: log[i] < |calls|
  {
    if log == [] then l else
      var n := |log| - 1;
      var before := AppliedToL(m, l, calls, log[..n]);
      if calls[log[n]].OnL? then m.addHalf(before, calls[log[n]].half) else before
  }

  /** Additions to one half never disturb the other: each half is what its own additions alone make of it. */
  lemma {:induction false} HalvesIndependent(m: Arithmetic, word: nat, calls: seq<Call>, log: seq<nat>)
    requires (forall i | 0 <= i < |log| :: log[i] < |calls|) && (forall t | 0 <= t < |calls| :: !calls[t].OnDouble?)
    ensures H(Applied(m, word, calls, log)) == AppliedToH(m, H(word), calls, log)
    ensures L(Applied(m, word, calls, log)) == AppliedToL(m, L(word), calls, log)
  {
    hide H, L;
    if log != [] {
      HalvesIndependent(m, word, calls, log[..|log| - 1]);
    }
  }

  lemma HalvesLogged(m: Arithmetic, word: nat, calls: seq<Call>, s: State)
    requires Serial(m, word, calls, s) && forall t | 0 <= t < |calls| :: !calls[t].OnDouble?
    ensures (forall i | 0 <= i < |s.log| :: s.log[i] < |calls| && s.threads[s.log[i]].pc.Done?)
    ensures H(s.word) == AppliedToH(m, H(word), calls, s.log) && L(s.word) == AppliedToL(m, L(word), calls, s.log)
    ensures forall i | 0 <= i < |s.log| ::
      Returned(calls[s.log[i]], s.threads[s.log[i]].pc.last)
        == if calls[s.log[i]].OnH? then AppliedToH(m, H(word), calls, s.log[..i])
           else AppliedToL(m, L(word), calls, s.log[..i])
  {
    hide H, L, Applied, AppliedToH, AppliedToL;
    HalvesIndependent(m, word, calls, s.log);
    forall i | 0 <= i < |s.log|
      ensures Returned(calls[s.log[i]], s.threads[s.log[i]].pc.last)
           == if calls[s.log[i]].OnH? then AppliedToH(m, H(word), calls, s.log[..i])
              else AppliedToL(m, L(word), calls, s.log[..i])
    {
      HalvesIndependent(m, word, calls, s.log[..i]);
    }
  }

  /** The lower 16 bits and the 16 bits above. */
  lemma LowAndHigh(w: nat)
    ensures H(w) == w % 0x1_0000 && L(w) == (w / 0x1_0000) % 0x1_0000
  {
  }

  /** So in every run the two halves are two separate atomic counters. */
  lemma HalvesOfRun(m: Arithmetic, word: nat, calls: seq<Call>, schedule: seq<nat>)
    requires (forall i | 0 <= i < |schedule| :: schedule[i] < |calls|)
      && (forall t | 0 <= t < |calls| :: !calls[t].OnDouble?)
    ensures var s, h, l := Run(m, Begin(word, calls), schedule), word % 0x1_0000, (word / 0x1_0000) % 0x1_0000;
      && (forall i | 0 <= i < |s.log| :: s.log[i] < |calls|)
      && s.word % 0x1_0000 == AppliedToH(m, h, calls, s.log)
      && (s.word / 0x1_0000) % 0x1_0000 == AppliedToL(m, l, calls, s.log)
      && forall i | 0 <= i < |s.log| ::
           s.threads[s.log[i]].pc.Done? &&
           Returned(calls[s.log[i]], s.threads[s.log[i]].pc.last)
             == if calls[s.log[i]].OnH? then AppliedToH(m, h, calls, s.log[..i])
                else AppliedToL(m, l, calls, s.log[..i])
  {
    hide H, L, Serial, AppliedToH, AppliedToL, Returned, Step;
    BeginSerial(m, word, calls);
    RunSerial(m, word, calls, Begin(word, calls), schedule);
    var s := Run(m, Begin(word, calls), schedule);
    HalvesLogged(m, word, calls, s);
    LowAndHigh(word);
    LowAndHigh(s.word);
  }

  // ----- doubles

  /** The rounding sums over the addends of the logged calls, each with the value before it. */
  function Summed(m: Arithmetic, value: nat, addends: seq<nat>, log: seq<nat>): nat
    requires forall i | 0 <= i < |log| :: log[i] < |addends|
  {
    if log == [] then value else
      m.addDouble(addends[log[|log| - 1]], Summed(m, value, addends, log[..|log| - 1]))
  }

  /** One call for each addend. */
  function Doubles(addends: seq<nat>): (calls: seq<Call>)
    ensures |calls| == |addends| && forall t | 0 <= t < |calls| :: calls[t] == OnDouble(addends[t])
  {
    seq(|addends|, t requires 0 <= t < |addends| => OnDouble(addends[t]))
  }

  lemma {:induction false} DoublesAdd(m: Arithmetic, word: nat, addends: seq<nat>, log: seq<nat>)
    requires forall i | 0 <= i < |log| :: log[i] < |addends|
    ensures Applied(m, word, Doubles(addends), log) == Summed(m, word, addends, log)
  {
    if log != [] { DoublesAdd(m, word, addends, log[..|log| - 1]); }
  }

  /** In every run of additions to a double, the word is the sum of the addends of the calls that are done, each once,
      in the order of success, and each of them returns the sum before its own addend. */
  lemma DoublesOfRun(m: Arithmetic, word: nat, addends: seq<nat>, schedule: seq<nat>)
    requires forall i | 0 <= i < |schedule| :: schedule[i] < |addends|
    ensures var calls := Doubles(addends); var s := Run(m, Begin(word, calls), schedule);
      && (forall i | 0 <= i < |s.log| :: s.log[i] < |addends|)
      && (forall i, j | 0 <= i < j < |s.log| :: s.log[i] != s.log[j])
      && (forall t | 0 <= t < |addends| :: s.threads[t].pc.Done? <==> t in s.log)
      && s.word == Summed(m, word, addends, s.log)
      && forall i | 0 <= i < |s.log| ::
           s.threads[s.log[i]].pc.Done? &&
           Returned(calls[s.log[i]], s.threads[s.log[i]].pc.last) == Summed(m, word, addends, s.log[..i])
  {
    hide Serial, Applied, Summed, Doubles;
    EachCallOnce(m, word, Doubles(addends), schedule);
    var s := Run(m, Begin(word, Doubles(addends)), schedule);
    DoublesAdd(m, word, addends, s.log);
    forall i | 0 <= i < |s.log|
      ensures Returned(Doubles(addends)[s.log[i]], s.threads[s.log[i]].pc.last)
           == Summed(m, word, addends, s.log[..i])
    {
      DoublesAdd(m, word, addends, s.log[..i]);
    }
  }

  // ----- progress

  /** A compare-and-swap fails only if another call has taken effect since the thread last read the word. */
  lemma FailureNeedsSuccess(m: Arithmetic, word: nat, calls: seq<Call>, s: State, t: nat)
    requires Serial(m, word, calls, s) && t < |s.threads| && s.threads[t].pc.Trying? && s.word != s.threads[t].pc.last
    ensures s.threads[t].pc.seen < |s.log|
  {
    assert ReadAt(m, word, calls, s.log, s.threads[t].pc.last, s.threads[t].pc.seen);
    assert s.log[..|s.log|] == s.log;
  }

  /** Steps a thread may still need before the next call takes effect. */
  function Owed(pc: Pc, n: nat): nat {
    match pc
    case Start => 2
    case Trying(_, seen) => if seen < n then 2 else 1
    case Done(_) => 0
  }

  function TotalOwed(threads: seq<Thread>, n: nat): nat {
    if threads == [] then 0 else TotalOwed(threads[..|threads| - 1], n) + Owed(threads[|threads| - 1].pc, n)
  }

  lemma {:induction false} OwedUpdate(threads: seq<Thread>, n: nat, t: nat, x: Thread)
    requires t < |threads|
    ensures TotalOwed(threads[t := x], n) == TotalOwed(threads, n) - Owed(threads[t].pc, n) + Owed(x.pc, n)
  {
    var last := |threads| - 1;
    if t == last {
      assert threads[t := x][..last] == threads[..last];
    } else {
      OwedUpdate(threads[..last], n, t, x);
      assert threads[t := x][..last] == threads[..last][t := x];
    }
  }

  /** A success makes every other call's read stale at most. */
  lemma {:induction false} OwedAfterSuccess(threads: seq<Thread>, n: nat)
    ensures TotalOwed(threads, n + 1) <= TotalOwed(threads, n) + |threads|
  {
    if threads != [] { OwedAfterSuccess(threads[..|threads| - 1], n); }
  }

  lemma {:induction false} OwedBound(threads: seq<Thread>, n: nat)
    ensures TotalOwed(threads, n) <= 2 * |threads|
  {
    if threads != [] { OwedBound(threads[..|threads| - 1], n); }
  }

  /** Strictly decreases with every step of an unfinished call. */
  function Potential(s: State): int {
    (|s.threads| - |s.log|) * |s.threads| + TotalOwed(s.threads, |s.log|)
  }

  lemma StepProgress(m: Arithmetic, word: nat, calls: seq<Call>, s: State, t: nat)
    requires Serial(m, word, calls, s) && t < |s.threads| && !s.threads[t].pc.Done?
    ensures Potential(Step(m, s, t)) < Potential(s)
  {
    hide Applied, Serial;
    var n, k, thread := |s.log|, |s.threads|, s.threads[t];
    if thread.pc.Trying? && s.word == thread.pc.last {
      OwedUpdate(s.threads, n, t, thread.(pc := Done(s.word)));
      OwedAfterSuccess(s.threads[t := thread.(pc := Done(s.word))], n);
      assert (k - (n + 1)) * k == (k - n) * k - k;
    } else {
      if thread.pc.Trying? { FailureNeedsSuccess(m, word, calls, s, t); }
      OwedUpdate(s.threads, n, t, thread.(pc := Trying(s.word, n)));
    }
  }

  /** No step of the schedule is spent on a call that is done. */
  predicate Busy(m: Arithmetic, s: State, schedule: seq<nat>)
    requires forall i | 0 <= i < |schedule| :: schedule[i] < |s.threads|
    decreases |schedule|
  {
    schedule == [] || (!s.threads[schedule[0]].pc.Done? && Busy(m, Step(m, s, schedule[0]), schedule[1..]))
  }

  lemma {:induction false} RunProgress(m: Arithmetic, word: nat, calls: seq<Call>, s: State, schedule: seq<nat>)
    requires Serial(m, word, calls, s) && (forall i | 0 <= i < |schedule| :: schedule[i] < |s.threads|)
      && Busy(m, s, schedule)
    ensures |schedule| + Potential(Run(m, s, schedule)) <= Potential(s)
    decreases |schedule|
  {
    hide Serial, Step, Potential;
    if schedule != [] {
      StepSerial(m, word, calls, s, schedule[0]);
      StepProgress(m, word, calls, s, schedule[0]);
      RunProgress(m, word, calls, Step(m, s, schedule[0]), schedule[1..]);
    }
  }

  /** The retry loops end: however they are scheduled, n calls are all done after at most n * n + 2 * n steps. */
  lemma RetriesEnd(m: Arithmetic, word: nat, calls: seq<Call>, schedule: seq<nat>)
    requires (forall i | 0 <= i < |schedule| :: schedule[i] < |calls|) && Busy(m, Begin(word, calls), schedule)
    ensures |schedule| <= |calls| * |calls| + 2 * |calls|
  {
    hide Serial;
    var s, n := Begin(word, calls), |calls|;
    BeginSerial(m, word, calls);
    RunSerial(m, word, calls, s, schedule);
    RunProgress(m, word, calls, s, schedule);
    LogFits(m, word, calls, Run(m, s, schedule));
    OwedBound(s.threads, 0);
  }

  lemma LogFits(m: Arithmetic, word: nat, calls: seq<Call>, s: State)
    requires Serial(m, word, calls, s)
    ensures |s.threads| == |calls| && |s.log| <= |calls| && Potential(s) >= 0
  {
    DistinctFit(s.log, |calls|);
    MulNonNegative(|calls| - |s.log|, |calls|);
  }

  lemma MulNonNegative(a: nat, b: nat)
    ensures a * b >= 0
  {
  }
}
