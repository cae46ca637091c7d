/** What refilling guarantees: exactly which calls the flood gate admits (`network/FloodGate.js`). */
module FloodRefill {
  import opened Basics
  import opened FloodGate

  // ---- one bucket and the calls it gets

  /** The bucket after the calls. */
  function Called(b: Bucket, times: seq<real>): Bucket
    decreases |times|
  {
    if times == [] then b else Called(BucketAllow(b, times[0]).1, times[1..])
  }

  /** How many of the calls the bucket allows. */
  function Passed(b: Bucket, times: seq<real>): nat
    decreases |times|
  {
    if times == [] then 0
    else
      var (ok, next) := BucketAllow(b, times[0]);
      (if ok then 1 else 0) + Passed(next, times[1..])
  }

  /** How many of the calls from the j-th on. */
  function PassedFrom(b: Bucket, times: seq<real>, j: nat): nat
    requires j <= |times|
  {
    Passed(Called(b, times[..j]), times[j..])
  }

  ghost predicate Ordered(times: seq<real>, from: real, to: real) {
    if times == [] then from <= to else from <= times[0] && Ordered(times[1..], times[0], to)
  }

  /** With x tokens more than allowed so far, the window from the j-th call to `at` stays within the burst
      and what is earned in it. */
  ghost predicate Window(b: Bucket, times: seq<real>, at: real, x: real, j: nat)
    requires j < |times|
  {
    PassedFrom(b, times, j) as real + x <= b.burst + Gain(b.rate, at - times[j])
  }

  /** So does every window that starts with a call, and the calls as a whole stay within what the bucket
      starts with and earns. */
  ghost predicate Affords(b: Bucket, times: seq<real>, at: real, x: real) {
    && Passed(b, times) as real + x <= b.tokens + Gain(b.rate, at - b.last)
    && forall j :: 0 <= j < |times| ==> Window(b, times, at, x, j)
  }

  lemma {:induction false} OrderedSpan(times: seq<real>, from: real, to: real)
    requires Ordered(times, from, to)
    ensures from <= to
    ensures forall j :: 0 <= j < |times| ==> from <= times[j] <= to
    decreases |times|
  {
    if times != [] {
      OrderedSpan(times[1..], times[0], to);
      assert forall j :: 1 <= j < |times| ==> times[j] == times[1..][j - 1];
    }
  }

  lemma {:induction false} CalledKeeps(b: Bucket, times: seq<real>, from: real, to: real)
    requires BucketOk(b, from) && Ordered(times, from, to)
    ensures var b' := Called(b, times); BucketOk(b', to) && b'.rate == b.rate && b'.burst == b.burst
    decreases |times|
  {
    hide BucketAllow;
    if times != [] {
      AllowTakesOne(b, from, times[0]);
      CalledKeeps(BucketAllow(b, times[0]).1, times[1..], times[0], to);
    }
  }

  /** After one call, the first window is the one that starts with it. */
  lemma AffordsUnfolds(b: Bucket, times: seq<real>, at: real, x: real)
    requires times != []
    ensures
      var next, rest := BucketAllow(b, times[0]).1, times[1..];
      (forall j :: 0 <= j < |times| ==> Window(b, times, at, x, j)) <==>
        && Passed(b, times) as real + x <= b.burst + Gain(b.rate, at - times[0])
        && forall j :: 0 <= j < |rest| ==> Window(next, rest, at, x, j)
  {
    hide BucketAllow, Gain, Window;
    var next, rest := BucketAllow(b, times[0]).1, times[1..];
    FirstWindow(b, times, at, x);
    forall j | 0 <= j < |rest| ensures Window(next, rest, at, x, j) <==> Window(b, times, at, x, j + 1) {
      WindowShifts(b, times, at, x, j);
    }
    assert (forall j :: 0 <= j < |times| ==> Window(b, times, at, x, j)) ==>
      forall j :: 0 <= j < |rest| ==> Window(next, rest, at, x, j);
    if (forall j :: 0 <= j < |rest| ==> Window(next, rest, at, x, j)) && Window(b, times, at, x, 0) {
      forall j | 0 <= j < |times| ensures Window(b, times, at, x, j) {
        if j > 0 { assert Window(next, rest, at, x, j - 1); }
      }
    }
  }

  lemma FirstWindow(b: Bucket, times: seq<real>, at: real, x: real)
    requires times != []
    ensures Window(b, times, at, x, 0) <==> Passed(b, times) as real + x <= b.burst + Gain(b.rate, at - times[0])
  {
    hide BucketAllow, Gain;
    assert times[..0] == [] && times[0..] == times;
  }

  lemma WindowShifts(b: Bucket, times: seq<real>, at: real, x: real, j: nat)
    requires j + 1 < |times|
    ensures Window(BucketAllow(b, times[0]).1, times[1..], at, x, j) <==> Window(b, times, at, x, j + 1)
  {
    hide Gain;
    var next, rest := BucketAllow(b, times[0]).1, times[1..];
    assert times[..j + 1][1..] == rest[..j] && times[j + 1..] == rest[j..];
    assert Called(b, times[..j + 1]) == Called(next, rest[..j]);
  }

  /** The credit after any calls is the least that any window leaves. */
  lemma {:induction false} CreditExactly(b: Bucket, times: seq<real>, from: real, at: real, x: real)
    requires BucketOk(b, from) && Ordered(times, from, at)
    ensures x <= Credit(Called(b, times), at) <==> x <= b.burst && Affords(b, times, at, x)
    decreases |times|
  {
    hide BucketAllow, Gain;
    if times != [] {
      var (ok, next) := BucketAllow(b, times[0]);
      OrderedSpan(times[1..], times[0], at);
      AllowTakesOne(b, from, times[0]);
      CreditExactly(next, times[1..], times[0], at, x);
      AffordsUnfolds(b, times, at, x);
      NextTokens(b, times[0], at);
    }
  }

  /** What the next bucket starts with, as seen at a later time. */
  lemma NextTokens(b: Bucket, now: real, at: real)
    requires b.last <= now <= at
    ensures
      var (ok, next) := BucketAllow(b, now);
      next.tokens + Gain(next.rate, at - next.last) + (if ok then 1.0 else 0.0) ==
      RMin(b.burst + Gain(b.rate, at - now), b.tokens + Gain(b.rate, at - b.last))
    ensures BucketAllow(b, now).1.rate == b.rate && BucketAllow(b, now).1.burst == b.burst
  {
    GainAdd(b.rate, now - b.last, at - now);
    assert (now - b.last) + (at - now) == at - b.last;
  }

  /** A call is allowed if and only if allowing it keeps every window within its bound: the bucket refuses
      nothing that the bounds permit. */
  lemma AllowedExactly(b: Bucket, times: seq<real>, from: real, at: real)
    requires BucketOk(b, from) && Ordered(times, from, at)
    ensures BucketAllow(Called(b, times), at).0 <==> Affords(b, times, at, 1.0)
  {
    hide Affords, Gain;
    CreditExactly(b, times, from, at, 1.0);
  }

  // ---- callers who wait, and callers who keep asking

  lemma OneToken(rate: real, dt: real)
    requires rate >= 1.0 && dt >= 1000.0 / rate
    ensures Gain(rate, dt) >= 1.0
  {
    var least := 1000.0 / rate;
    assert least * rate == 1000.0;
    assert (dt - least) * rate >= 0.0;
    assert Gain(rate, dt) == dt * rate / 1000.0;
  }

  /** Whoever waits as long as one token takes is allowed. */
  lemma WaitedIsAllowed(b: Bucket, from: real, at: real)
    requires BucketOk(b, from) && at - b.last >= 1000.0 / b.rate
    ensures BucketAllow(b, at).0
  {
    hide Gain;
    assert 1000.0 / b.rate >= 0.0;
    OneToken(b.rate, at - b.last);
  }

  /** Each call comes at least `gap` after the one before it. */
  ghost predicate Spaced(times: seq<real>, gap: real) {
    forall i :: 0 < i < |times| ==> times[i] - times[i - 1] >= gap
  }

  /** Calls at least as far apart as one token takes are all allowed, after the same wait for the first. */
  lemma {:induction false} SpacedAllPass(b: Bucket, times: seq<real>, from: real)
    requires BucketOk(b, from) && Spaced(times, 1000.0 / b.rate)
    requires times != [] ==> from <= times[0] && times[0] - b.last >= 1000.0 / b.rate
    ensures Passed(b, times) == |times|
    decreases |times|
  {
    hide Credit;
    if times != [] {
      WaitedIsAllowed(b, from, times[0]);
      AllowTakesOne(b, from, times[0]);
      var next, rest := BucketAllow(b, times[0]).1, times[1..];
      assert 1000.0 / b.rate >= 0.0;
      assert rest != [] ==> rest[0] == times[1];
      assert forall i :: 0 < i < |rest| ==> rest[i] - rest[i - 1] == times[i + 1] - times[i];
      SpacedAllPass(next, rest, times[0]);
    }
  }

  /** No pause is long enough to fill the bucket, or to earn more than one token. */
  ghost predicate KeepsAsking(b: Bucket, times: seq<real>) {
    forall i :: 0 < i < |times| ==>
      times[i - 1] <= times[i] && Gain(b.rate, times[i] - times[i - 1]) <= RMin(1.0, b.burst - 1.0)
  }

  function Least(a: int, b: int): int {
    if b < a then b else a
  }

  /** The upper bound is reached over time: of a caller who keeps asking, exactly as many calls pass as
      there were tokens at the first one and earned until the last, unless he asked less often. */
  lemma {:induction false} FilledExactly(b: Bucket, times: seq<real>, from: real)
    requires BucketOk(b, from) && times != [] && from <= times[0] && KeepsAsking(b, times)
    ensures Passed(b, times) ==
      Least(|times|, (Credit(b, times[0]) + Gain(b.rate, times[|times| - 1] - times[0])).Floor)
    decreases |times|
  {
    hide Credit, Gain, KeepsAsking;
    CreditGrows(b, from, times[0]);
    var (ok, next) := BucketAllow(b, times[0]);
    AllowTakesOne(b, from, times[0]);
    var rest := times[1..];
    assert Passed(b, times) == (if ok then 1 else 0) + Passed(next, rest);
    if rest == [] {
      GainNone(b.rate);
      assert times[0] - times[0] == 0.0;
    } else {
      TailAsks(b, times);
      SpanEarns(b, times);
      SpanSplits(b.rate, times);
      LaterCredit(b, times[0], times[1]);
      SameAsking(b, next, rest);
      FilledExactly(next, rest, times[0]);
    }
  }

  lemma SameAsking(b: Bucket, next: Bucket, times: seq<real>)
    requires next.rate == b.rate && next.burst == b.burst
    ensures KeepsAsking(b, times) <==> KeepsAsking(next, times)
  {
    hide Gain;
  }

  lemma GainNone(rate: real)
    ensures Gain(rate, 0.0) == 0.0
  {
  }

  /** After a short pause nothing is lost to the burst. */
  lemma LaterCredit(b: Bucket, now: real, at: real)
    requires b.rate >= 1.0 && now <= at && Gain(b.rate, at - now) <= RMin(1.0, b.burst - 1.0)
    ensures
      var (ok, next) := BucketAllow(b, now);
      Credit(next, at) == Credit(b, now) - (if ok then 1.0 else 0.0) + Gain(b.rate, at - now)
  {
    hide Gain;
  }

  lemma TailAsks(b: Bucket, times: seq<real>)
    requires |times| > 1 && KeepsAsking(b, times)
    ensures
      var rest := times[1..];
      && KeepsAsking(b, rest) && rest[0] == times[1] && rest[|rest| - 1] == times[|times| - 1]
      && times[0] <= times[1] && Gain(b.rate, times[1] - times[0]) <= RMin(1.0, b.burst - 1.0)
  {
    hide Gain;
    var rest := times[1..];
    forall i | 0 < i < |rest|
      ensures rest[i - 1] <= rest[i] && Gain(b.rate, rest[i] - rest[i - 1]) <= RMin(1.0, b.burst - 1.0)
    {
      assert rest[i - 1] == times[i] && rest[i] == times[i + 1];
    }
  }

  /** What is earned over a stretch is earned in its first pause and in the rest. */
  lemma SpanSplits(rate: real, times: seq<real>)
    requires |times| > 1
    ensures
      var last := times[|times| - 1];
      Gain(rate, last - times[0]) == Gain(rate, times[1] - times[0]) + Gain(rate, last - times[1])
  {
    hide Gain;
    var last := times[|times| - 1];
    GainAdd(rate, times[1] - times[0], last - times[1]);
    assert (times[1] - times[0]) + (last - times[1]) == last - times[0];
  }

  lemma {:induction false} SpanEarns(b: Bucket, times: seq<real>)
    requires times != [] && KeepsAsking(b, times)
    ensures Gain(b.rate, times[|times| - 1] - times[0]) <= (|times| - 1) as real
    decreases |times|
  {
    hide Gain, KeepsAsking;
    if |times| == 1 {
      GainNone(b.rate);
      assert times[0] - times[0] == 0.0;
    } else {
      TailAsks(b, times);
      SpanEarns(b, times[1..]);
      SpanSplits(b.rate, times);
    }
  }

  // ---- the gate: which calls each bucket has had

  /** The calls on one key since its bucket was last thrown away. */
  function Calls(ops: seq<Op>, key: string): seq<real> {
    if ops == [] then []
    else
      var before := Calls(ops[..|ops| - 1], key);
      match ops[|ops| - 1]
      case Allow(conn, at) => if Norm(conn) == key then before + [at] else before
      case Warn(_) => before
      case Release(conn) => if Norm(conn) == key then [] else before
      case Clear => []
  }

  predicate OwnAllows(g: Gate, conn: string, at: real) {
    BucketAllow(ConnBucket(g, Norm(conn), at), at).0
  }

  /** The calls that got past their own bucket, which the global bucket is asked for. */
  function Asked(g: Gate, ops: seq<Op>): seq<real> {
    if ops == [] then []
    else
      var op, before := ops[|ops| - 1], ops[..|ops| - 1];
      Asked(g, before) + (if op.Allow? && OwnAllows(After(g, before), op.conn, op.at) then [op.at] else [])
  }

  lemma {:induction false} AfterLast(g: Gate, ops: seq<Op>)
    requires ops != []
    ensures After(g, ops) == Step(After(g, ops[..|ops| - 1]), ops[|ops| - 1])
    decreases |ops|
  {
    hide Step;
    if |ops| == 1 {
      assert ops[..0] == [] && ops[1..] == [];
    } else {
      AfterLast(Step(g, ops[0]), ops[1..]);
      assert ops[1..][..|ops| - 2] == ops[..|ops| - 1][1..];
    }
  }

  lemma {:induction false} CalledLast(b: Bucket, times: seq<real>, at: real)
    ensures Called(b, times + [at]) == BucketAllow(Called(b, times), at).1
    decreases |times|
  {
    hide BucketAllow;
    if times == [] {
      assert [at][1..] == [] && times + [at] == [at];
    } else {
      assert (times + [at])[1..] == times[1..] + [at];
      CalledLast(BucketAllow(b, times[0]).1, times[1..], at);
    }
  }

  /** The bucket a new connection gets. */
  function Fresh(g: Gate, start: real): Bucket {
    NewBucket(g.connRate, g.connBurst, start)
  }

  /** The bucket of this key is what its calls made of a fresh one. */
  ghost predicate KeyTraced(initial: Gate, start: real, ops: seq<Op>, key: string) {
    var pool := After(initial, ops).pool;
    && (key in pool <==> Calls(ops, key) != [])
    && (key in pool ==> pool[key] == Called(Fresh(initial, start), Calls(ops, key)))
  }

  /** So is every bucket, and the global one is what was asked of it. */
  ghost predicate Traced(initial: Gate, start: real, ops: seq<Op>) {
    var g := After(initial, ops);
    && g.connRate == initial.connRate && g.connBurst == initial.connBurst
    && g.global == Called(initial.global, Asked(initial, ops))
    && forall key :: KeyTraced(initial, start, ops, key)
  }

  /** A connection's bucket decides the next call as its calls since the last reset have left a fresh one. */
  lemma OwnDecides(initial: Gate, start: real, ops: seq<Op>, key: string, at: real)
    requires Traced(initial, start, ops)
    ensures
      BucketAllow(ConnBucket(After(initial, ops), key, at), at) ==
      BucketAllow(Called(Fresh(initial, start), Calls(ops, key)), at)
  {
    hide After, BucketAllow, NewBucket, Calls;
    assert KeyTraced(initial, start, ops, key);
    CreationClockIrrelevant(initial.connRate, initial.connBurst, at, start, at);
  }

  lemma {:induction false} RunTraced(initial: Gate, start: real, ops: seq<Op>)
    requires initial.pool == map[]
    ensures Traced(initial, start, ops)
  {
    hide BucketAllow, NewBucket;
    if ops != [] {
      RunTraced(initial, start, ops[..|ops| - 1]);
      StepTraced(initial, start, ops);
    }
  }

  lemma StepTraced(initial: Gate, start: real, ops: seq<Op>)
    requires ops != [] && Traced(initial, start, ops[..|ops| - 1])
    ensures Traced(initial, start, ops)
  {
    hide BucketAllow, NewBucket, After, Norm, ConnBucket, KeyTraced;
    var op, before := ops[|ops| - 1], ops[..|ops| - 1];
    AfterLast(initial, ops);
    forall key ensures KeyTraced(initial, start, ops, key) {
      StepKeyTraced(initial, start, ops, key);
    }
    if op.Allow? {
      CalledLast(initial.global, Asked(initial, before), op.at);
    }
    assert Asked(initial, before) + [] == Asked(initial, before);
  }

  lemma StepKeyTraced(initial: Gate, start: real, ops: seq<Op>, key: string)
    requires ops != [] && Traced(initial, start, ops[..|ops| - 1])
    ensures KeyTraced(initial, start, ops, key)
  {
    hide BucketAllow, NewBucket, After, Norm, ConnBucket;
    var op, before := ops[|ops| - 1], ops[..|ops| - 1];
    AfterLast(initial, ops);
    assert KeyTraced(initial, start, before, key);
    if op.Allow? && Norm(op.conn) == key {
      OwnDecides(initial, start, before, key, op.at);
      CalledLast(Fresh(initial, start), Calls(before, key), op.at);
    }
  }

  // ---- the gate: main results

  lemma {:induction false} ClockedLast(ops: seq<Op>, from: real, to: real)
    requires ops != [] && Clocked(ops, from, to)
    ensures
      var op, before := ops[|ops| - 1], ops[..|ops| - 1];
      if op.Allow? || op.Warn? then op.at <= to && Clocked(before, from, op.at) else Clocked(before, from, to)
    decreases |ops|
  {
    if |ops| == 1 {
      assert ops[1..] == [] && ops[..0] == [];
    } else {
      var at := Time(ops[0], from);
      ClockedLast(ops[1..], at, to);
      assert ops[1..][..|ops| - 2] == ops[..|ops| - 1][1..];
      assert ops[1..][|ops| - 2] == ops[|ops| - 1];
    }
  }

  lemma {:induction false} OrderedLast(times: seq<real>, from: real, at: real, to: real)
    requires Ordered(times, from, at) && at <= to
    ensures Ordered(times, from, to) && Ordered(times + [at], from, to)
    decreases |times|
  {
    if times == [] {
      assert times + [at] == [at] && [at][1..] == [];
    } else {
      assert (times + [at])[1..] == times[1..] + [at];
      OrderedLast(times[1..], times[0], at, to);
    }
  }

  lemma {:induction false} CallsOrdered(g: Gate, ops: seq<Op>, key: string, from: real, to: real)
    requires Clocked(ops, from, to)
    ensures from <= to && Ordered(Calls(ops, key), from, to) && Ordered(Asked(g, ops), from, to)
  {
    hide OwnAllows, Norm, Ordered, Clocked;
    if ops == [] {
      OrderedNone(ops, from, to);
    } else {
      var op, before := ops[|ops| - 1], ops[..|ops| - 1];
      ClockedLast(ops, from, to);
      var at := if op.Allow? || op.Warn? then op.at else to;
      CallsOrdered(g, before, key, from, at);
      OrderedNone([], from, to);
      OrderedLast(Calls(before, key), from, at, to);
      OrderedLast(Asked(g, before), from, at, to);
      assert Asked(g, before) + [] == Asked(g, before);
    }
  }

  lemma OrderedNone(ops: seq<Op>, from: real, to: real)
    requires ops == [] && (from <= to || Clocked(ops, from, to))
    ensures from <= to && Ordered([], from, to)
  {
  }

  /** In every reachable state: a call is admitted if and only if, with it, the calls its connection made
      since its bucket was last thrown away and the calls the global bucket was asked for both stay within
      the bounds of all windows that end now. */
  lemma AdmittedExactly(initial: Gate, ops: seq<Op>, conn: string, start: real, at: real)
    requires Initial(initial, start) && Clocked(ops, start, at)
    ensures Admits(After(initial, ops), Allow(conn, at)) <==>
      && Affords(Fresh(initial, start), Calls(ops, Norm(conn)), at, 1.0)
      && Affords(initial.global, Asked(initial, ops), at, 1.0)
  {
    hide BucketAllow, NewBucket, After, Norm, ConnBucket, Affords, Ordered, Clocked, Calls, Asked, KeyTraced;
    var key := Norm(conn);
    InitialTraced(initial, start, ops);
    CallsOrdered(initial, ops, key, start, at);
    OwnDecides(initial, start, ops, key, at);
    AllowedExactly(Fresh(initial, start), Calls(ops, key), start, at);
    AllowedExactly(initial.global, Asked(initial, ops), start, at);
  }

  lemma InitialTraced(initial: Gate, start: real, ops: seq<Op>)
    requires Initial(initial, start)
    ensures Traced(initial, start, ops)
    ensures BucketOk(initial.global, start) && BucketOk(Fresh(initial, start), start)
    ensures initial.global.tokens == initial.global.burst
  {
    hide Traced;
    RunTraced(initial, start, ops);
  }

  /** There was no call before, or the last one was long enough ago for one token. */
  ghost predicate Waited(b: Bucket, times: seq<real>, at: real)
    requires b.rate >= 1.0
  {
    times == [] || at - times[|times| - 1] >= 1000.0 / b.rate
  }

  lemma WaitedPasses(b: Bucket, times: seq<real>, from: real, at: real)
    requires BucketOk(b, from) && b.tokens == b.burst && Ordered(times, from, at) && Waited(b, times, at)
    ensures from <= at && BucketAllow(Called(b, times), at).0
  {
    hide Gain;
    OrderedSpan(times, from, at);
    if times == [] {
      GainSign(b.rate, at - b.last);
    } else {
      CalledKeeps(b, times, from, at);
      LastCalled(b, times);
      WaitedIsAllowed(Called(b, times), at, at);
    }
  }

  lemma LastCalled(b: Bucket, times: seq<real>)
    requires times != []
    ensures Called(b, times).last == times[|times| - 1]
  {
    var n := |times| - 1;
    assert times == times[..n] + [times[n]];
    CalledLast(b, times[..n], times[n]);
  }

  /** In every reachable state: whoever waits for one token at its own rate is admitted, provided the last
      call that reached the global bucket is as long ago at the global rate. */
  lemma WaitedIsAdmitted(initial: Gate, ops: seq<Op>, conn: string, start: real, at: real)
    requires Initial(initial, start) && Clocked(ops, start, at)
    requires Waited(Fresh(initial, start), Calls(ops, Norm(conn)), at)
    requires Waited(initial.global, Asked(initial, ops), at)
    ensures Admits(After(initial, ops), Allow(conn, at))
  {
    hide BucketAllow, NewBucket, After, Norm, ConnBucket, Ordered, Clocked, Calls, Asked, KeyTraced, Waited;
    var key := Norm(conn);
    InitialTraced(initial, start, ops);
    FreshIsFull(initial, start);
    CallsOrdered(initial, ops, key, start, at);
    OwnDecides(initial, start, ops, key, at);
    WaitedPasses(Fresh(initial, start), Calls(ops, key), start, at);
    WaitedPasses(initial.global, Asked(initial, ops), start, at);
  }

  lemma FreshIsFull(g: Gate, start: real)
    ensures var b := Fresh(g, start); b.tokens == b.burst == ConnBurst(g) && b.rate == ConnRate(g) && b.last == start
  {
  }

  /** Every call of the run is a call of this connection. */
  ghost predicate OnlyCalls(ops: seq<Op>, key: string) {
    forall i :: 0 <= i < |ops| ==> ops[i].Allow? && Norm(ops[i].conn) == key
  }

  function Times(ops: seq<Op>): (times: seq<real>)
    requires forall i :: 0 <= i < |ops| ==> ops[i].Allow?
    ensures |times| == |ops| && forall i :: 0 <= i < |ops| ==> times[i] == ops[i].at
  {
    seq(|ops|, i requires 0 <= i < |ops| => ops[i].at)
  }

  /** The global bucket holds at least what this connection's does, and earns as fast. */
  ghost predicate Generous(g: Gate, key: string, now: real) {
    var own := ConnBucket(g, key, now);
    g.global.rate >= own.rate && g.global.burst >= own.burst && Credit(g.global, now) >= Credit(own, now)
  }

  lemma CreditLater(b: Bucket, h: Bucket, from: real, at: real)
    requires BucketOk(b, from) && BucketOk(h, from) && from <= at
    requires h.rate >= b.rate && h.burst >= b.burst && Credit(h, from) >= Credit(b, from)
    ensures Credit(h, at) >= Credit(b, at)
  {
    hide Gain, Credit;
    Recredit(b, from, at);
    Recredit(h, from, at);
    GainSign(h.rate - b.rate, at - from);
    GainFaster(b.rate, h.rate, at - from);
  }

  lemma GainFaster(rate: real, more: real, dt: real)
    ensures Gain(more, dt) == Gain(rate, dt) + Gain(more - rate, dt)
  {
    var t := dt / 1000.0;
    assert t * more == t * rate + t * (more - rate);
  }

  lemma Recredit(b: Bucket, from: real, at: real)
    requires BucketOk(b, from) && from <= at
    ensures Credit(b, at) == RMin(b.burst, Credit(b, from) + Gain(b.rate, at - from))
  {
    hide Gain;
    GainSign(b.rate, at - from);
    GainAdd(b.rate, from - b.last, at - from);
    assert (from - b.last) + (at - from) == at - b.last;
  }

  /** One call under a generous global bucket is decided by the connection's own, and it stays generous. */
  lemma GenerousStep(g: Gate, conn: string, key: string, from: real, at: real)
    requires GateOk(g, from) && ConnOk(g) && Generous(g, key, from) && from <= at && Norm(conn) == key
    ensures
      var own, g' := BucketAllow(ConnBucket(g, key, from), at), GateAllow(g, conn, at).1;
      && Admits(g, Allow(conn, at)) == own.0 && GateOk(g', at) && ConnOk(g') && Generous(g', key, at)
      && ConnBucket(g', key, at) == own.1
  {
    hide Credit, NewBucket, Norm, ConnOk, GateOk;
    AllowKeeps(g, conn, from, at);
    ConnStepKeeps(g, Allow(conn, at));
    var own := ConnBucket(g, key, from);
    BucketOfKey(g, key, from);
    CreditLater(own, g.global, from, at);
    CreationClockIrrelevant(g.connRate, g.connBurst, from, at, at);
    AllowTakesOne(own, from, at);
    AllowTakesOne(g.global, from, at);
    CreditNow(BucketAllow(own, at).1, at);
    CreditNow(BucketAllow(g.global, at).1, at);
  }

  lemma BucketOfKey(g: Gate, key: string, now: real)
    requires GateOk(g, now)
    ensures BucketOk(ConnBucket(g, key, now), now) && BucketOk(g.global, now)
  {
    hide NewBucket;
    NewBucketOk(g, now);
  }

  /** So the gate lets through exactly what the connection's own bucket does. */
  lemma {:induction false} GenerousRun(g: Gate, ops: seq<Op>, key: string, from: real, to: real)
    requires GateOk(g, from) && ConnOk(g) && Generous(g, key, from) && Clocked(ops, from, to) && OnlyCalls(ops, key)
    ensures Admitted(g, ops) == Passed(ConnBucket(g, key, from), Times(ops))
    decreases |ops|
  {
    hide GateOk, ConnOk, Generous, BucketAllow, ConnBucket, GateAllow, Norm;
    if ops != [] {
      var at, rest := ops[0].at, ops[1..];
      assert ops[0] == Allow(ops[0].conn, at);
      GenerousStep(g, ops[0].conn, key, from, at);
      assert Times(ops)[1..] == Times(rest);
      assert forall i :: 0 <= i < |rest| ==> rest[i] == ops[i + 1];
      GenerousRun(Step(g, ops[0]), rest, key, at, to);
    }
  }

  /** One connection at a fresh gate whose global limits are no tighter than its own: if it keeps asking,
      the gate admits exactly the burst and what was earned since its first call, unless it asked less
      often. */
  lemma GateFilledExactly(initial: Gate, ops: seq<Op>, key: string, start: real, to: real)
    requires Initial(initial, start) && Clocked(ops, start, to) && OnlyCalls(ops, key) && ops != []
    requires initial.global.rate >= ConnRate(initial) && initial.global.burst >= ConnBurst(initial)
    requires KeepsAsking(Fresh(initial, start), Times(ops))
    ensures Admitted(initial, ops) ==
      Least(|ops|, (ConnBurst(initial) + Gain(ConnRate(initial), ops[|ops| - 1].at - ops[0].at)).Floor)
  {
    hide KeepsAsking, NewBucket, Gain, Clocked, Credit, Norm, Generous, GateOk, ConnOk, Initial;
    assert forall i :: 0 <= i < |ops| ==> ops[i].Allow?;
    var b := Fresh(initial, start);
    FreshGenerous(initial, key, start);
    GenerousRun(initial, ops, key, start, to);
    FirstTime(ops, start, to);
    FilledExactly(b, Times(ops), start);
    FullStays(b, start, ops[0].at);
  }

  lemma FirstTime(ops: seq<Op>, from: real, to: real)
    requires Clocked(ops, from, to) && ops != [] && ops[0].Allow?
    ensures from <= ops[0].at
  {
  }

  lemma FullStays(b: Bucket, from: real, at: real)
    requires BucketOk(b, from) && b.tokens == b.burst && from <= at
    ensures Credit(b, at) == b.burst
  {
    hide Gain;
    GainSign(b.rate, at - b.last);
  }

  lemma FreshGenerous(initial: Gate, key: string, start: real)
    requires Initial(initial, start)
    requires initial.global.rate >= ConnRate(initial) && initial.global.burst >= ConnBurst(initial)
    ensures GateOk(initial, start) && ConnOk(initial) && Generous(initial, key, start)
    ensures var b := ConnBucket(initial, key, start);
      b == Fresh(initial, start) && BucketOk(b, start) && b.tokens == b.burst == ConnBurst(initial)
      && b.rate == ConnRate(initial)
  {
    FreshOk(initial, start);
    FullStays(initial.global, start, start);
    FullStays(Fresh(initial, start), start, start);
  }

  // ---- warnings

  predicate Warns(g: Gate, op: Op) {
    op.Warn? && ConsumeWarn(g, op.at).0.Some?
  }

  lemma WarnStep(g: Gate, op: Op, from: real)
    requires g.lastWarn <= from && !op.Clear? && (op.Warn? ==> from <= op.at)
    ensures
      var at, g' := Time(op, from), Step(g, op);
      && g'.warnEvery == g.warnEvery
      && (if Warns(g, op) then g'.lastWarn == at && at - g.lastWarn >= g.warnEvery else g'.lastWarn == g.lastWarn)
  {
    hide BucketAllow, ConnBucket;
  }

  /** How many warnings the run gives. */
  function Warnings(g: Gate, ops: seq<Op>): nat
    decreases |ops|
  {
    if ops == [] then 0
    else
      (if Warns(g, ops[0]) then 1 else 0) + Warnings(Step(g, ops[0]), ops[1..])
  }

  /** Warnings are an interval apart: a run gives no more of them than intervals have passed. */
  lemma {:induction false} WarningsSpaced(g: Gate, ops: seq<Op>, from: real, to: real)
    requires Clocked(ops, from, to) && g.lastWarn <= from && forall i :: 0 <= i < |ops| ==> !ops[i].Clear?
    ensures from <= to && Warnings(g, ops) as real * g.warnEvery <= to - g.lastWarn
    ensures After(g, ops).lastWarn <= to && After(g, ops).warnEvery == g.warnEvery
    decreases |ops|
  {
    hide Step, Warns;
    if ops != [] {
      var g', rest := Step(g, ops[0]), ops[1..];
      WarnStep(g, ops[0], from);
      WarningsSpaced(g', rest, Time(ops[0], from), to);
      OneMore(Warnings(g', rest), g.warnEvery);
    }
  }

  lemma OneMore(n: nat, each: real)
    ensures (n + 1) as real * each == n as real * each + each
  {
  }

  /** A warning asked for when an interval has passed tells of every refusal not yet told of. */
  lemma WarnedInFull(g: Gate, ops: seq<Op>, from: real, to: real, at: real)
    requires Clocked(ops, from, to) && g.lastWarn <= from && forall i :: 0 <= i < |ops| ==> !ops[i].Clear?
    requires to + g.warnEvery <= at
    ensures Reported(g, ops + [Warn(at)]) == g.dropped + Refused(g, ops)
  {
    hide Step, Admits;
    WarningsSpaced(g, ops, from, to);
    DropsConserved(g, ops);
    ReportedLast(g, ops, at);
  }

  lemma {:induction false} ReportedLast(g: Gate, ops: seq<Op>, at: real)
    ensures Reported(g, ops + [Warn(at)]) ==
      Reported(g, ops) + (match ConsumeWarn(After(g, ops), at).0 case Some(n) => n case None => 0)
    decreases |ops|
  {
    hide Step, ConsumeWarn;
    if ops == [] {
      assert ops + [Warn(at)] == [Warn(at)] && [Warn(at)][1..] == [];
    } else {
      assert (ops + [Warn(at)])[1..] == ops[1..] + [Warn(at)];
      ReportedLast(Step(g, ops[0]), ops[1..], at);
    }
  }
}
