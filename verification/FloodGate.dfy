/** Token buckets and the inbound flood gate (`network/FloodGate.js`), with real-valued tokens. */
module FloodGate {
  import opened Basics

  datatype Bucket = Bucket(rate: real, burst: real, tokens: real, last: real)

  function RMax(a: real, b: real): real {
    if a < b then b else a
  }

  function RMin(a: real, b: real): real {
    if b < a then b else a
  }

  /** Tokens earned over dt milliseconds. */
  function Gain(rate: real, dt: real): real {
    dt / 1000.0 * rate
  }

  function NewBucket(rate: real, burst: real, clock: real): (b: Bucket)
    ensures b.burst >= 1.0 && b.rate >= 1.0 && b.tokens == b.burst
  {
    var r := RMax(1.0, Or(rate, 1.0));
    var m := RMax(1.0, Or(burst, r));
    Bucket(r, m, m, clock)
  }

  /** What the bucket holds at `now`, before any token is taken. */
  function Credit(b: Bucket, now: real): real {
    RMin(b.burst, b.tokens + Gain(b.rate, RMax(0.0, now - b.last)))
  }

  function BucketAllow(b: Bucket, now: real): (bool, Bucket) {
    var c := Credit(b, now);
    if c >= 1.0 then (true, b.(tokens := c - 1.0, last := now)) else (false, b.(tokens := c, last := now))
  }

  datatype Gate = Gate(
    connRate: real, connBurst: real, warnEvery: real,
    global: Bucket, pool: map<string, Bucket>, dropped: nat, lastWarn: real)

  function Norm(connKey: string): string {
    if connKey == "" then "uplink:unknown" else connKey
  }

  function ConnBucket(g: Gate, key: string, clock: real): Bucket {
    if key in g.pool then g.pool[key] else NewBucket(g.connRate, g.connBurst, clock)
  }

  /** The global bucket is asked only when the connection's own bucket allows. */
  function GateAllow(g: Gate, connKey: string, now: real): (bool, Gate) {
    var key := Norm(connKey);
    var (mine, bucket) := BucketAllow(ConnBucket(g, key, now), now);
    var (ok, global) := if mine then BucketAllow(g.global, now) else (false, g.global);
    (ok, g.(pool := g.pool[key := bucket], global := global, dropped := if ok then g.dropped else g.dropped + 1))
  }

  function ConsumeWarn(g: Gate, now: real): (Option<nat>, Gate) {
    if g.dropped <= 0 || now - g.lastWarn < g.warnEvery then (None, g)
    else (Some(g.dropped), g.(dropped := 0, lastWarn := now))
  }

  function Without(pool: map<string, Bucket>, key: string): map<string, Bucket> {
    map k | k in pool && k != key :: pool[k]
  }

  /** Limits as the constructor takes them; zero stands for a missing option. */
  datatype Options = Options(connRate: real, connBurst: real, globalRate: real, globalBurst: real, warnEvery: real)

  function Or(x: real, default: real): real {
    if x == 0.0 then default else x
  }

  function NewGate(o: Options, clock: real): Gate {
    Gate(RMax(1.0, Or(o.connRate, 200.0)), RMax(1.0, Or(o.connBurst, 400.0)), RMax(100.0, Or(o.warnEvery, 1000.0)),
         NewBucket(o.globalRate, o.globalBurst, clock), map[], 0, 0.0)
  }

  ghost predicate Initial(g: Gate, clock: real) {
    exists o :: g == NewGate(o, clock)
  }

  // ---- runs

  datatype Op = Allow(conn: string, at: real) | Warn(at: real) | Release(conn: string) | Clear

  function Step(g: Gate, op: Op): Gate {
    match op
    case Allow(conn, at) => GateAllow(g, conn, at).1
    case Warn(at) => ConsumeWarn(g, at).1
    case Release(conn) => g.(pool := Without(g.pool, Norm(conn)))
    case Clear => g.(pool := map[], dropped := 0, lastWarn := 0.0)
  }

  predicate Admits(g: Gate, op: Op) {
    op.Allow? && GateAllow(g, op.conn, op.at).0
  }

  function After(g: Gate, ops: seq<Op>): Gate
    decreases |ops|
  {
    if ops == [] then g else After(Step(g, ops[0]), ops[1..])
  }

  /** Calls allowed in the run, over all connections. */
  function Admitted(g: Gate, ops: seq<Op>): nat
    decreases |ops|
  {
    if ops == [] then 0
    else (if Admits(g, ops[0]) then 1 else 0) + Admitted(Step(g, ops[0]), ops[1..])
  }

  /** Calls allowed in the run for one connection key. */
  function AdmittedFor(g: Gate, ops: seq<Op>, key: string): nat
    decreases |ops|
  {
    if ops == [] then 0
    else
      (if Admits(g, ops[0]) && Norm(ops[0].conn) == key then 1 else 0) +
      AdmittedFor(Step(g, ops[0]), ops[1..], key)
  }

  /** Call times lie between from and to and never go back. */
  ghost predicate Clocked(ops: seq<Op>, from: real, to: real) {
    if ops == [] then from <= to
    else match ops[0]
      case Allow(_, at) => from <= at && Clocked(ops[1..], at, to)
      case Warn(at) => from <= at && Clocked(ops[1..], at, to)
      case Release(_) => Clocked(ops[1..], from, to)
      case Clear => Clocked(ops[1..], from, to)
  }

  ghost predicate KeepsBucket(ops: seq<Op>, key: string) {
    forall i :: 0 <= i < |ops| ==> !ops[i].Clear? && (ops[i].Release? ==> Norm(ops[i].conn) != key)
  }

  ghost predicate BucketOk(b: Bucket, now: real) {
    b.rate >= 1.0 && b.burst >= 1.0 && 0.0 <= b.tokens <= b.burst && b.last <= now
  }

  ghost predicate GateOk(g: Gate, now: real) {
    BucketOk(g.global, now) && forall k :: k in g.pool ==> BucketOk(g.pool[k], now)
  }

  // ---- arithmetic of one bucket

  lemma GainAdd(rate: real, a: real, b: real)
    ensures Gain(rate, a + b) == Gain(rate, a) + Gain(rate, b)
  {
    assert (a + b) / 1000.0 == a / 1000.0 + b / 1000.0;
  }

  lemma GainSign(rate: real, a: real)
    requires rate >= 0.0 && a >= 0.0
    ensures Gain(rate, a) >= 0.0
  {
    assert a / 1000.0 >= 0.0;
    var q := a / 1000.0;
    assert q * rate >= 0.0;
  }

  /** Credit is a number of tokens between zero and the burst, and grows no faster than the rate. */
  lemma CreditGrows(b: Bucket, from: real, at: real)
    requires BucketOk(b, from) && from <= at
    ensures 0.0 <= Credit(b, from) <= b.burst && 0.0 <= Credit(b, at)
    ensures Credit(b, at) <= Credit(b, from) + Gain(b.rate, at - from)
  {
    hide Gain;
    GainSign(b.rate, from - b.last);
    GainSign(b.rate, at - from);
    GainAdd(b.rate, from - b.last, at - from);
    assert (from - b.last) + (at - from) == at - b.last;
  }

  lemma AllowTakesOne(b: Bucket, from: real, at: real)
    requires BucketOk(b, from) && from <= at
    ensures
      var (ok, b') := BucketAllow(b, at);
      && BucketOk(b', at) && b'.rate == b.rate && b'.burst == b.burst
      && Credit(b', at) + (if ok then 1.0 else 0.0) <= Credit(b, from) + Gain(b.rate, at - from)
  {
    CreditGrows(b, from, at);
    var b' := BucketAllow(b, at).1;
    assert Credit(b', at) == b'.tokens by { assert Gain(b'.rate, 0.0) == 0.0; }
  }

  lemma NewBucketOk(g: Gate, now: real)
    ensures BucketOk(NewBucket(g.connRate, g.connBurst, now), now)
  {
  }

  /** When a bucket is created does not matter: it starts full. */
  lemma CreationClockIrrelevant(rate: real, burst: real, clock: real, clock': real, now: real)
    ensures BucketAllow(NewBucket(rate, burst, clock), now) == BucketAllow(NewBucket(rate, burst, clock'), now)
  {
    hide Gain;
    var b, b' := NewBucket(rate, burst, clock), NewBucket(rate, burst, clock');
    GainSign(b.rate, RMax(0.0, now - clock));
    GainSign(b.rate, RMax(0.0, now - clock'));
  }

  /** A bucket after n calls at one instant. */
  function Drained(b: Bucket, now: real, n: nat): Bucket {
    if n == 0 then b else BucketAllow(Drained(b, now, n - 1), now).1
  }

  /** The bound is reached: of the calls a full bucket gets at one instant, exactly the first
      floor(burst) are allowed. */
  lemma {:induction false} BurstIsReached(b: Bucket, now: real, n: nat)
    requires BucketOk(b, now) && b.tokens == b.burst
    ensures
      var d := Drained(b, now, n);
      && BucketOk(d, now) && d.burst == b.burst
      && (if n as real <= b.burst then Credit(d, now) == b.burst - n as real else Credit(d, now) < 1.0)
      && (BucketAllow(d, now).0 <==> (n + 1) as real <= b.burst)
  {
    hide Gain;
    if n == 0 {
      GainSign(b.rate, RMax(0.0, now - b.last));
    } else {
      var d := Drained(b, now, n - 1);
      BurstIsReached(b, now, n - 1);
      AllowTakesOne(d, now, now);
      CreditNow(BucketAllow(d, now).1, now);
    }
  }

  lemma CreditNow(b: Bucket, now: real)
    requires b.last == now && b.tokens <= b.burst
    ensures Credit(b, now) == b.tokens
  {
    assert Gain(b.rate, 0.0) == 0.0;
  }

  // ---- states of a run

  lemma AllowKeeps(g: Gate, conn: string, from: real, at: real)
    requires GateOk(g, from) && from <= at
    ensures GateOk(GateAllow(g, conn, at).1, at)
  {
    hide BucketAllow, NewBucket, BucketOk;
    BucketsLater(g, from, at);
    NewBucketOk(g, at);
    AllowTakesOne(ConnBucket(g, Norm(conn), at), at, at);
    AllowTakesOne(g.global, at, at);
  }

  lemma BucketsLater(g: Gate, from: real, at: real)
    requires GateOk(g, from) && from <= at
    ensures GateOk(g, at)
  {
  }

  /** One step keeps every bucket within its limits. */
  lemma StepKeeps(g: Gate, op: Op, from: real, at: real)
    requires GateOk(g, from) && from <= at
    requires (op.Allow? ==> op.at == at)
    ensures GateOk(Step(g, op), at)
  {
    hide BucketOk, GateAllow;
    BucketsLater(g, from, at);
    if op.Allow? { AllowKeeps(g, op.conn, from, at); }
  }

  function Time(op: Op, from: real): real {
    if op.Allow? || op.Warn? then op.at else from
  }

  lemma {:induction false} RunKeeps(g: Gate, ops: seq<Op>, from: real, to: real)
    requires GateOk(g, from) && Clocked(ops, from, to)
    ensures from <= to && GateOk(After(g, ops), to)
    decreases |ops|
  {
    hide GateOk, Step;
    if ops == [] {
      BucketsLater(g, from, to);
    } else {
      var at := Time(ops[0], from);
      StepKeeps(g, ops[0], from, at);
      RunKeeps(Step(g, ops[0]), ops[1..], at, to);
    }
  }

  // ---- the window bounds

  /** The global bucket pays one token for every admitted call. */
  lemma GlobalStep(g: Gate, op: Op, from: real)
    requires GateOk(g, from) && from <= Time(op, from)
    ensures
      var at, g' := Time(op, from), Step(g, op);
      && g'.global.rate == g.global.rate && g'.global.burst == g.global.burst
      && Credit(g'.global, at) + (if Admits(g, op) then 1.0 else 0.0) <=
         Credit(g.global, from) + Gain(g.global.rate, at - from)
  {
    hide BucketOk, BucketAllow, Credit, Gain, NewBucket;
    var at := Time(op, from);
    CreditGrows(g.global, from, at);
    AllowTakesOne(g.global, from, at);
  }

  lemma {:induction false} GlobalCredit(g: Gate, ops: seq<Op>, from: real, to: real)
    requires GateOk(g, from) && Clocked(ops, from, to)
    ensures from <= to
    ensures Admitted(g, ops) as real <= Credit(g.global, from) + Gain(g.global.rate, to - from)
    decreases |ops|
  {
    hide GateOk, Step, Credit, Gain, Admits;
    if ops == [] {
      CreditBase(g, from, to);
    } else {
      var at := Time(ops[0], from);
      StepKeeps(g, ops[0], from, at);
      GlobalStep(g, ops[0], from);
      GlobalCredit(Step(g, ops[0]), ops[1..], at, to);
      GainAdd(g.global.rate, at - from, to - at);
      assert (at - from) + (to - at) == to - from;
    }
  }

  lemma CreditBase(g: Gate, from: real, to: real)
    requires GateOk(g, from) && from <= to
    ensures 0.0 <= Credit(g.global, from) + Gain(g.global.rate, to - from)
  {
    hide Credit, Gain;
    CreditGrows(g.global, from, from);
    GainSign(g.global.rate, to - from);
  }

  function ConnCredit(g: Gate, key: string, now: real): real {
    Credit(ConnBucket(g, key, now), now)
  }

  lemma FullCredit(g: Gate, now: real)
    ensures Credit(NewBucket(g.connRate, g.connBurst, now), now) == NewBucket(g.connRate, g.connBurst, now).burst
  {
    assert forall rate :: Gain(rate, 0.0) == 0.0;
  }

  ghost predicate ConnOk(g: Gate) {
    forall k :: k in g.pool ==>
      && g.pool[k].rate == NewBucket(g.connRate, g.connBurst, 0.0).rate
      && g.pool[k].burst == NewBucket(g.connRate, g.connBurst, 0.0).burst
  }

  function ConnRate(g: Gate): real {
    NewBucket(g.connRate, g.connBurst, 0.0).rate
  }

  function ConnBurst(g: Gate): real {
    NewBucket(g.connRate, g.connBurst, 0.0).burst
  }

  lemma ConnStepKeeps(g: Gate, op: Op)
    requires ConnOk(g)
    ensures ConnOk(Step(g, op)) && Step(g, op).connRate == g.connRate && Step(g, op).connBurst == g.connBurst
  {
    hide Credit, RMax;
  }

  lemma {:induction false} ConnRunKeeps(g: Gate, ops: seq<Op>)
    requires ConnOk(g)
    ensures ConnOk(After(g, ops)) && After(g, ops).connRate == g.connRate && After(g, ops).connBurst == g.connBurst
    decreases |ops|
  {
    hide Step, ConnOk;
    if ops != [] {
      ConnStepKeeps(g, ops[0]);
      ConnRunKeeps(Step(g, ops[0]), ops[1..]);
    }
  }

  /** The connection's own bucket at a call: initial and full, or the one kept since. */
  lemma ConnBucketFacts(g: Gate, key: string, from: real, at: real)
    requires GateOk(g, from) && ConnOk(g) && from <= at
    ensures var b := ConnBucket(g, key, at);
      && BucketOk(b, at) && b.rate == ConnRate(g) && b.burst == ConnBurst(g)
      && ConnCredit(g, key, at) <= ConnCredit(g, key, from) + Gain(ConnRate(g), at - from)
      && 0.0 <= ConnCredit(g, key, from) <= ConnBurst(g)
  {
    hide Credit, Gain, RMax;
    GainSign(ConnRate(g), at - from);
    if key in g.pool {
      CreditGrows(g.pool[key], from, at);
    } else {
      NewBucketOk(g, at);
      FullCredit(g, at);
      FullCredit(g, from);
    }
  }

  lemma ConnAllowStep(g: Gate, conn: string, key: string, at: real)
    requires GateOk(g, at) && ConnOk(g)
    ensures
      var (ok, g') := GateAllow(g, conn, at);
      ConnCredit(g', key, at) + (if ok && Norm(conn) == key then 1.0 else 0.0) <= ConnCredit(g, key, at)
  {
    hide Credit, RMax, BucketOk, BucketAllow;
    ConnBucketFacts(g, Norm(conn), at, at);
    AllowTakesOne(ConnBucket(g, Norm(conn), at), at, at);
    assert Gain(ConnRate(g), at - at) == 0.0;
  }

  lemma ConnStep(g: Gate, op: Op, key: string, from: real)
    requires GateOk(g, from) && ConnOk(g) && from <= Time(op, from)
    requires !op.Clear? && (op.Release? ==> Norm(op.conn) != key)
    ensures
      var at, g' := Time(op, from), Step(g, op);
      ConnCredit(g', key, at) + (if Admits(g, op) && Norm(op.conn) == key then 1.0 else 0.0) <=
      ConnCredit(g, key, from) + Gain(ConnRate(g), at - from)
  {
    hide Credit, Gain, BucketOk, GateOk, ConnOk, NewBucket, GateAllow, Norm;
    var at := Time(op, from);
    BucketsLater(g, from, at);
    ConnBucketFacts(g, key, from, at);
    if op.Allow? { ConnAllowStep(g, op.conn, key, at); }
  }

  lemma {:induction false} ConnCreditBound(g: Gate, ops: seq<Op>, key: string, from: real, to: real)
    requires GateOk(g, from) && ConnOk(g) && Clocked(ops, from, to) && KeepsBucket(ops, key)
    ensures from <= to
    ensures AdmittedFor(g, ops, key) as real <= ConnCredit(g, key, from) + Gain(ConnRate(g), to - from)
    decreases |ops|
  {
    hide GateOk, Step, ConnCredit, Gain, Admits, ConnOk, NewBucket, Norm;
    if ops == [] {
      ConnBucketFacts(g, key, from, from);
      assert 0.0 <= ConnCredit(g, key, from);
      RatePositive(g);
      GainSign(ConnRate(g), to - from);
    } else {
      var at := Time(ops[0], from);
      StepKeeps(g, ops[0], from, at);
      ConnStepKeeps(g, ops[0]);
      ConnStep(g, ops[0], key, from);
      ConnCreditBound(Step(g, ops[0]), ops[1..], key, at, to);
      GainAdd(ConnRate(g), at - from, to - at);
      assert (at - from) + (to - at) == to - from;
    }
  }

  lemma RatePositive(g: Gate)
    ensures ConnRate(g) >= 1.0
  {
  }

  // ---- main results, over every window of every run

  lemma GlobalWindowBound(initial: Gate, before: seq<Op>, window: seq<Op>, start: real, from: real, to: real)
    requires Initial(initial, start)
    requires Clocked(before, start, from) && Clocked(window, from, to)
    ensures from <= to
    ensures Admitted(After(initial, before), window) as real <=
      initial.global.burst + Gain(initial.global.rate, to - from)
  {
    hide NewBucket, Credit, Gain, After, Admitted;
    assert GateOk(initial, start) by { FreshOk(initial, start); }
    RunKeeps(initial, before, start, from);
    var g := After(initial, before);
    GlobalCredit(g, window, from, to);
    CreditGrows(g.global, from, from);
    GlobalConfig(initial, before);
  }

  lemma FreshOk(initial: Gate, start: real)
    requires Initial(initial, start)
    ensures GateOk(initial, start) && ConnOk(initial)
  {
  }

  lemma {:induction false} GlobalConfig(g: Gate, ops: seq<Op>)
    ensures After(g, ops).global.rate == g.global.rate && After(g, ops).global.burst == g.global.burst
    decreases |ops|
  {
    hide Credit, NewBucket;
    if ops != [] { GlobalConfig(Step(g, ops[0]), ops[1..]); }
  }

  lemma ConnectionWindowBound(
    initial: Gate, before: seq<Op>, window: seq<Op>, key: string, start: real, from: real, to: real)
    requires Initial(initial, start)
    requires Clocked(before, start, from) && Clocked(window, from, to) && KeepsBucket(window, key)
    ensures from <= to
    ensures AdmittedFor(After(initial, before), window, key) as real <=
      ConnBurst(initial) + Gain(ConnRate(initial), to - from)
  {
    hide NewBucket, Credit, Gain, After, AdmittedFor;
    FreshOk(initial, start);
    RunKeeps(initial, before, start, from);
    ConnRunKeeps(initial, before);
    var g := After(initial, before);
    ConnCreditBound(g, window, key, from, to);
    ConnBucketFacts(g, key, from, from);
  }

  // ---- drops

  function Refused(g: Gate, ops: seq<Op>): nat
    decreases |ops|
  {
    if ops == [] then 0
    else (if ops[0].Allow? && !Admits(g, ops[0]) then 1 else 0) + Refused(Step(g, ops[0]), ops[1..])
  }

  function Reported(g: Gate, ops: seq<Op>): nat
    decreases |ops|
  {
    if ops == [] then 0
    else
      var warned := if ops[0].Warn? then ConsumeWarn(g, ops[0].at).0 else None;
      (if warned.Some? then warned.value else 0) + Reported(Step(g, ops[0]), ops[1..])
  }

  /** Until a clear, every refusal is reported once or still pending. */
  lemma {:induction false} DropsConserved(g: Gate, ops: seq<Op>)
    requires forall i :: 0 <= i < |ops| ==> !ops[i].Clear?
    ensures Reported(g, ops) + After(g, ops).dropped == g.dropped + Refused(g, ops)
    decreases |ops|
  {
    hide BucketAllow, ConnBucket;
    if ops != [] { DropsConserved(Step(g, ops[0]), ops[1..]); }
  }

  // ---- the objects

  class TokenBucket {
    const rate: real
    const burst: real
    var tokens: real
    var last: real

    ghost function State(): Bucket reads this {
      Bucket(rate, burst, tokens, last)
    }

    constructor (requestedRate: real, requestedBurst: real, clock: real)
      ensures State() == NewBucket(requestedRate, requestedBurst, clock)
    {
      rate := RMax(1.0, Or(requestedRate, 1.0));
      burst := RMax(1.0, Or(requestedBurst, RMax(1.0, Or(requestedRate, 1.0))));
      tokens := RMax(1.0, Or(requestedBurst, RMax(1.0, Or(requestedRate, 1.0))));
      last := clock;
    }

    method Take(now: real) returns (ok: bool)
      modifies this
      ensures (ok, State()) == BucketAllow(old(State()), now)
    {
      var elapsedSec := RMax(0.0, now - last) / 1000.0;
      last := now;
      tokens := RMin(burst, tokens + elapsedSec * rate);
      assert tokens == Credit(old(State()), now);
      if tokens >= 1.0 {
        tokens := tokens - 1.0;
        return true;
      }
      return false;
    }
  }

  class FloodGuard {
    const connRate: real
    const connBurst: real
    const warnEvery: real
    const global: TokenBucket
    var pool: map<string, TokenBucket>
    var dropped: nat
    var lastWarn: real

    /** Every connection has a bucket of its own. */
    ghost predicate Valid() reads this {
      && global !in pool.Values
      && forall k, l :: k in pool && l in pool && k != l ==> pool[k] != pool[l]
    }

    ghost function Buckets(): map<string, Bucket> reads this, pool.Values {
      map k | k in pool :: pool[k].State()
    }

    ghost function State(): Gate reads this, global, pool.Values {
      Gate(connRate, connBurst, warnEvery, global.State(), Buckets(), dropped, lastWarn)
    }

    constructor (o: Options, clock: real)
      ensures Valid() && State() == NewGate(o, clock) && fresh(global)
    {
      connRate := RMax(1.0, Or(o.connRate, 200.0));
      connBurst := RMax(1.0, Or(o.connBurst, 400.0));
      warnEvery := RMax(100.0, Or(o.warnEvery, 1000.0));
      global := new TokenBucket(o.globalRate, o.globalBurst, clock);
      pool := map[];
      dropped := 0;
      lastWarn := 0.0;
    }

    /** The connection's bucket, created full when there is none. */
    method BucketFor(key: string, clock: real) returns (b: TokenBucket)
      requires Valid()
      modifies this`pool
      ensures Valid() && key in pool && pool[key] == b
      ensures key in old(pool) ==> pool == old(pool)
      ensures key !in old(pool) ==> fresh(b) && pool == old(pool)[key := b]
      ensures Buckets() == old(Buckets())[key := b.State()]
      ensures b.State() == ConnBucket(old(State()), key, clock)
    {
      hide NewBucket;
      if key in pool {
        b := pool[key];
        assert Buckets() == old(Buckets())[key := b.State()];
        return;
      }
      b := new TokenBucket(connRate, connBurst, clock);
      pool := pool[key := b];
      assert Buckets() == old(Buckets())[key := b.State()];
    }

    twostate lemma OneBucketMoved(key: string)
      requires old(Valid()) && pool == old(pool) && key in pool
      requires forall k :: k in pool && k != key ==> pool[k].State() == old(pool[k].State())
      ensures Buckets() == old(Buckets())[key := pool[key].State()]
    {
    }

    /** The connection's bucket first, the global one only after it. */
    method TakeBoth(key: string, now: real) returns (ok: bool)
      requires Valid() && key in pool
      modifies global, pool[key]
      ensures Buckets() == old(Buckets())[key := pool[key].State()]
      ensures
        var (mine, bucket) := BucketAllow(old(pool[key].State()), now);
        && pool[key].State() == bucket
        && (ok, global.State()) == if mine then BucketAllow(old(global.State()), now) else (false, old(global.State()))
    {
      hide BucketAllow;
      var bucket := pool[key];
      assert forall k :: k in pool ==> pool[k] in pool.Values;
      ok := bucket.Take(now);
      if ok {
        ok := global.Take(now);
      }
      OneBucketMoved(key);
    }

    /** `clock` is the wall clock a new bucket reads; the outcome does not depend on it. */
    method Allow(connKey: string, now: real, clock: real) returns (ok: bool)
      requires Valid()
      modifies this, global, pool.Values
      ensures Valid() && (ok, State()) == GateAllow(old(State()), connKey, now)
    {
      hide BucketAllow, NewBucket, Buckets;
      ghost var was := State();
      var key := Norm(connKey);
      var bucket := BucketFor(key, clock);
      CreationClockIrrelevant(connRate, connBurst, clock, now, now);
      assert BucketAllow(bucket.State(), now) == BucketAllow(ConnBucket(was, key, now), now);
      ok := TakeBoth(key, now);
      assert Buckets() == was.pool[key := bucket.State()];
      if !ok {
        CountDrop();
      }
    }

    method CountDrop()
      modifies this`dropped
      ensures dropped == old(dropped) + 1 && Buckets() == old(Buckets())
    {
      dropped := dropped + 1;
    }

    method TakeWarning(now: real) returns (report: Option<nat>)
      requires Valid()
      modifies this`dropped, this`lastWarn
      ensures Valid() && (report, State()) == ConsumeWarn(old(State()), now)
    {
      if dropped <= 0 {
        return None;
      }
      if now - lastWarn < warnEvery {
        return None;
      }
      report := Some(dropped);
      dropped := 0;
      lastWarn := now;
      assert Buckets() == old(Buckets());
    }

    method Clear()
      requires Valid()
      modifies this
      ensures Valid() && State() == Step(old(State()), Op.Clear)
    {
      pool := map[];
      dropped := 0;
      lastWarn := 0.0;
    }

    method Release(connKey: string)
      requires Valid()
      modifies this`pool
      ensures Valid() && State() == Step(old(State()), Op.Release(connKey))
    {
      var key := Norm(connKey);
      pool := map k | k in pool && k != key :: pool[k];
    }
  }
}
