/** What a mailbox gives back: fetching returns what was deposited, until it is acknowledged
    (`mailbox/RMailbox.js`). */
module Delivery {
  import opened Basics
  import opened DataStore
  import opened Mailbox
  import Text
  import Ordering

  // ---- single operations, key by key

  /** An accepted deposit stores the record's own bytes, under its object id or a drawn one, as an event
      with the returned id. Every other key but that of the byte total reads as before. */
  lemma DepositDelivers(b: Box, m: string, rec: Record, now: nat)
    requires Deposit(b, m, rec, now).0.Ok?
    ensures
      var (r, b') := Deposit(b, m, rec, now);
      var id := if rec.objectId == "" then ObjectId(now, b.counter + 1) else rec.objectId;
      && EvtKey(m, r.value) == DrawnKey(b, m, rec, now)
      && FetchOf(b', m, r.value) == Ok(Some(Event(id, rec.bytes, now)))
      && forall k :: k != EvtKey(m, r.value) && k != BytesKey(m) ==> Find(b'.data, k) == Find(b.data, k)
  {
    hide EvtPrefix, BytesKey, Find, PutIn, ObjectId, Prepared, SeedBytes, Deposit, Pad6;
    DepositAccepted(b, m, rec, now);
    DepositId(b, m, rec, now);
    var c := Checked(b, m, rec);
    var e, v := EventId(now, c.counter + 1), Event(ObjectIdFor(b, rec, now), rec.bytes, now);
    var one, total := PutIn(b.data, EvtKey(m, e), v), GetOr0(c.bytes, m) + |rec.bytes|;
    BytesKeyApart(m, e);
    forall k ensures Find(one, k) == if k == EvtKey(m, e) then Some(v) else Find(b.data, k) {
      FindPut(b.data, EvtKey(m, e), v, k);
    }
    forall k ensures Find(PutIn(one, BytesKey(m), Total(total)), k) ==
      if k == BytesKey(m) then Some(Total(total)) else Find(one, k)
    {
      FindPut(one, BytesKey(m), Total(total), k);
    }
  }

  /** The id an accepted deposit returns. */
  lemma DepositId(b: Box, m: string, rec: Record, now: nat)
    requires Deposit(b, m, rec, now).0.Ok?
    ensures m != ""
    ensures Deposit(b, m, rec, now).0.value == EventId(now, Checked(b, m, rec).counter + 1) != ""
  {
    hide ItemCount, Seeded, Text.Decimal, Pad6, ObjectId;
  }

  lemma BytesKeyApart(m: string, e: string)
    ensures BytesKey(m) != EvtKey(m, e)
  {
    KeysIsolated(m, e, m);
  }

  /** A refused deposit leaves the store alone. */
  lemma RefusedStoresNothing(b: Box, m: string, rec: Record, now: nat)
    requires Deposit(b, m, rec, now).0.Err?
    ensures Deposit(b, m, rec, now).1.data == b.data
  {
    hide ItemCount, Seeded, ObjectId, Stored;
  }

  /** An acknowledged event is gone, and the answer says whether it was there. Every other key but that of
      the byte total reads as before. */
  lemma AckRemoves(b: Box, m: string, e: string)
    requires Ordering.DistinctKeys(b.data) && m != "" && e != ""
    ensures
      var (r, b') := Ack(b, m, e);
      && r == Ok(FetchOf(b, m, e) != Ok(None))
      && FetchOf(b', m, e) == Ok(None)
      && forall k :: k != EvtKey(m, e) && k != BytesKey(m) ==> Find(b'.data, k) == Find(b.data, k)
  {
    hide EvtKey, BytesKey, Find, Drop, PutIn, Seeded, Size;
    var key := EvtKey(m, e);
    var gone := Drop(b.data, key);
    DropRemoves(b.data, key);
    BytesKeyApart(m, e);
    forall k | k != key ensures Find(gone, k) == Find(b.data, k) { FindDrop(b.data, key, k); }
    forall n, k ensures Find(PutIn(gone, BytesKey(m), Total(n)), k) ==
      if k == BytesKey(m) then Some(Total(n)) else Find(gone, k)
    {
      FindPut(gone, BytesKey(m), Total(n), k);
    }
  }

  lemma CreateKeepsEvents(b: Box, m: string, now: nat)
    ensures forall k :: k != MetaKey(m) ==> Find(Create(b, m, now).data, k) == Find(b.data, k)
  {
    hide MetaKey, Find, PutIn;
    forall k | k != MetaKey(m) ensures Find(PutIn(b.data, MetaKey(m), Meta(now)), k) == Find(b.data, k) {
      FindPut(b.data, MetaKey(m), Meta(now), k);
    }
  }

  // ---- runs

  /** This operation acknowledges the event or stores another one under its id. */
  predicate Touches(b: Box, op: Op, m: string, e: string) {
    match op
    case DoDeposit(m', rec, now) => m' == m && Deposit(b, m, rec, now).0 == Ok(e)
    case DoAck(m', e') => m' == m && e' == e
    case _ => false
  }

  lemma StepKeepsKeys(b: Box, op: Op)
    requires Ordering.DistinctKeys(b.data)
    ensures Ordering.DistinctKeys(Step(b, op).data)
  {
    hide EvtKey, EventId, BytesKey, MetaKey, Find, Drop, PutIn, ItemCount, Seeded, ObjectId;
    match op {
      case DoDeposit(m, rec, now) =>
        if Deposit(b, m, rec, now).0.Ok? {
          DepositAccepted(b, m, rec, now);
          StoredDistinct(Checked(b, m, rec), m, rec, ObjectIdFor(b, rec, now), now);
        } else {
          RefusedStoresNothing(b, m, rec, now);
        }
      case DoAck(m, e) =>
        DropDistinct(b.data, EvtKey(m, e));
        forall n ensures Ordering.DistinctKeys(PutIn(Drop(b.data, EvtKey(m, e)), BytesKey(m), Total(n))) {
          PutDistinct(Drop(b.data, EvtKey(m, e)), BytesKey(m), Total(n));
        }
      case DoCreate(m, now) => PutDistinct(b.data, MetaKey(m), Meta(now));
      case Restart =>
    }
  }

  /** What an operation does not touch reads as before. */
  lemma StepSpares(b: Box, ids: set<string>, op: Op, m: string, e: string)
    requires Ordering.DistinctKeys(b.data) && Family(ids) && m in ids && (op.Restart? || op.m in ids)
    requires !Touches(b, op, m, e)
    ensures Find(Step(b, op).data, EvtKey(m, e)) == Find(b.data, EvtKey(m, e))
  {
    hide EvtPrefix, EventId, BytesKey, MetaKey, Find, ObjectId, Deposit, Ack, Create, Separate, Drop;
    if !op.Restart? {
      SideKeys(op.m, ids);
      assert Separate(op.m, m);
    }
    match op {
      case DoDeposit(m', rec, now) =>
        if Deposit(b, m', rec, now).0.Ok? {
          DepositDelivers(b, m', rec, now);
          if EvtKey(m, e) == EvtKey(m', Deposit(b, m', rec, now).0.value) {
            KeyOfEvent(m', Deposit(b, m', rec, now).0.value, m, e);
          }
        } else {
          RefusedStoresNothing(b, m', rec, now);
        }
      case DoAck(m', e') => AckSpares(b, m', e', m, e);
      case DoCreate(m', now) => CreateKeepsEvents(b, m', now);
      case Restart =>
    }
  }

  lemma AckSpares(b: Box, m': string, e': string, m: string, e: string)
    requires Ordering.DistinctKeys(b.data) && Separate(m', m) && (m' != m || e' != e)
    requires BytesKey(m') != EvtKey(m, e)
    ensures Find(Ack(b, m', e').1.data, EvtKey(m, e)) == Find(b.data, EvtKey(m, e))
  {
    hide EvtPrefix, BytesKey, Find, Drop, Ack;
    if m' != "" && e' != "" {
      AckRemoves(b, m', e');
      if EvtKey(m, e) == EvtKey(m', e') { KeyOfEvent(m', e', m, e); }
    } else {
      AckNothing(b, m', e');
    }
  }

  lemma AckNothing(b: Box, m: string, e: string)
    requires m == "" || e == ""
    ensures Ack(b, m, e).1 == b
  {
  }

  /** From the i-th operation on, nothing touches the event. */
  ghost predicate Untouched(b: Box, ops: seq<Op>, i: nat, m: string, e: string) {
    forall k :: i <= k < |ops| ==> !Touches(Run(b, ops[..k]), ops[k], m, e)
  }

  lemma RunNext(b: Box, ops: seq<Op>, k: nat)
    requires k < |ops|
    ensures Run(b, ops[..k + 1]) == Step(Run(b, ops[..k]), ops[k])
  {
    hide Step;
    assert ops[..k + 1][..k] == ops[..k];
  }

  lemma {:induction false} RunKeepsKeys(b: Box, ops: seq<Op>, k: nat)
    requires Ordering.DistinctKeys(b.data) && k <= |ops|
    ensures Ordering.DistinctKeys(Run(b, ops[..k]).data)
  {
    hide Step;
    if k > 0 {
      RunKeepsKeys(b, ops, k - 1);
      RunNext(b, ops, k - 1);
      StepKeepsKeys(Run(b, ops[..k - 1]), ops[k - 1]);
    }
  }

  lemma {:induction false} Undisturbed(b: Box, ids: set<string>, ops: seq<Op>, i: nat, k: nat, m: string, e: string)
    requires Ordering.DistinctKeys(b.data) && Family(ids) && Within(ops, ids) && m in ids && i <= k <= |ops|
    requires forall j :: i <= j < k ==> !Touches(Run(b, ops[..j]), ops[j], m, e)
    ensures Find(Run(b, ops[..k]).data, EvtKey(m, e)) == Find(Run(b, ops[..i]).data, EvtKey(m, e))
    decreases k - i
  {
    hide Step, Find, EvtKey, Family, Touches, Run;
    if i < k {
      Undisturbed(b, ids, ops, i, k - 1, m, e);
      RunKeepsKeys(b, ops, k - 1);
      RunNext(b, ops, k - 1);
      StepSpares(Run(b, ops[..k - 1]), ids, ops[k - 1], m, e);
    }
  }

  /** What the i-th operation of the run deposits. */
  function Deposited(b: Box, ops: seq<Op>, i: nat): Value
    requires i < |ops| && ops[i].DoDeposit?
  {
    var rec, before := ops[i].rec, Run(b, ops[..i]);
    Event(if rec.objectId == "" then ObjectId(ops[i].now, before.counter + 1) else rec.objectId,
          rec.bytes, ops[i].now)
  }

  function Answer(b: Box, ops: seq<Op>, i: nat): Result<string, Error>
    requires i < |ops| && ops[i].DoDeposit?
  {
    Deposit(Run(b, ops[..i]), ops[i].m, ops[i].rec, ops[i].now).0
  }

  lemma JustDeposited(b: Box, ops: seq<Op>, i: nat)
    requires i < |ops| && ops[i].DoDeposit? && Answer(b, ops, i).Ok?
    ensures FetchOf(Run(b, ops[..i + 1]), ops[i].m, Answer(b, ops, i).value) == Ok(Some(Deposited(b, ops, i)))
    ensures ops[i].m != "" && Answer(b, ops, i).value != ""
  {
    hide Find, EvtKey, Run, Deposit, ObjectId;
    RunNext(b, ops, i);
    DepositDelivers(Run(b, ops[..i]), ops[i].m, ops[i].rec, ops[i].now);
    DepositId(Run(b, ops[..i]), ops[i].m, ops[i].rec, ops[i].now);
  }

  /** Delivery over whole runs: whatever else happens, fetching an event whose id was neither acknowledged
      nor given out again returns what was deposited. */
  lemma FetchReturnsDeposit(b: Box, ids: set<string>, ops: seq<Op>, i: nat)
    requires Ordering.DistinctKeys(b.data) && Family(ids) && Within(ops, ids)
    requires i < |ops| && ops[i].DoDeposit? && Answer(b, ops, i).Ok?
    requires Untouched(b, ops, i + 1, ops[i].m, Answer(b, ops, i).value)
    ensures FetchOf(Run(b, ops), ops[i].m, Answer(b, ops, i).value) == Ok(Some(Deposited(b, ops, i)))
  {
    hide Find, EvtKey, Family, Touches, Run, Answer, Deposited;
    JustDeposited(b, ops, i);
    Undisturbed(b, ids, ops, i + 1, |ops|, ops[i].m, Answer(b, ops, i).value);
    assert ops[..|ops|] == ops;
  }

  /** An event that was acknowledged, and whose id was not given out again, is gone. */
  lemma AckedIsGone(b: Box, ids: set<string>, ops: seq<Op>, i: nat)
    requires Ordering.DistinctKeys(b.data) && Family(ids) && Within(ops, ids)
    requires i < |ops| && ops[i].DoAck? && ops[i].m != "" && ops[i].eventId != ""
    requires Untouched(b, ops, i + 1, ops[i].m, ops[i].eventId)
    ensures FetchOf(Run(b, ops), ops[i].m, ops[i].eventId) == Ok(None)
  {
    hide Find, EvtKey, Family, Touches, Run, Ack;
    RunKeepsKeys(b, ops, i);
    RunNext(b, ops, i);
    AckRemoves(Run(b, ops[..i]), ops[i].m, ops[i].eventId);
    Undisturbed(b, ids, ops, i + 1, |ops|, ops[i].m, ops[i].eventId);
    assert ops[..|ops|] == ops;
  }

  // ---- when ids are not given out twice

  lemma {:induction false} FreshPrefix(b: Box, ops: seq<Op>, k: nat)
    requires FreshRun(b, ops) && k < |ops|
    ensures ops[k].DoDeposit? ==> FreshDeposit(Run(b, ops[..k]), ops[k].m, ops[k].rec, ops[k].now)
    decreases |ops|
  {
    hide FreshDeposit;
    if k < |ops| - 1 {
      FreshPrefix(b, ops[..|ops| - 1], k);
      assert ops[..|ops| - 1][..k] == ops[..k];
    }
  }

  /** No later operation acknowledges this event. */
  ghost predicate NotAcked(ops: seq<Op>, i: nat, m: string, e: string) {
    forall k :: i <= k < |ops| ==> ops[k] != DoAck(m, e)
  }

  /** While it is there, a deposit that finds its key free cannot touch it. */
  lemma FreshSpares(b: Box, op: Op, m: string, e: string)
    requires op.DoDeposit? ==> FreshDeposit(b, op.m, op.rec, op.now)
    requires Find(b.data, EvtKey(m, e)).Some? && op != DoAck(m, e)
    ensures !Touches(b, op, m, e)
  {
    hide Find, EvtKey, EventId, Deposit;
    if op.DoDeposit? && op.m == m && Deposit(b, m, op.rec, op.now).0.Ok? {
      DepositDelivers(b, m, op.rec, op.now);
    }
  }

  lemma {:induction false} HeldWhileFresh(
    b: Box, ids: set<string>, ops: seq<Op>, i: nat, k: nat, m: string, e: string)
    requires Ordering.DistinctKeys(b.data) && Family(ids) && Within(ops, ids) && m in ids && FreshRun(b, ops)
    requires i <= k <= |ops| && NotAcked(ops, i, m, e) && Find(Run(b, ops[..i]).data, EvtKey(m, e)).Some?
    ensures Find(Run(b, ops[..k]).data, EvtKey(m, e)).Some?
    ensures forall j :: i <= j < k ==> !Touches(Run(b, ops[..j]), ops[j], m, e)
    decreases k - i
  {
    hide Step, Find, EvtKey, Family, Touches, Run, FreshDeposit, FreshRun;
    if i < k {
      HeldWhileFresh(b, ids, ops, i, k - 1, m, e);
      FreshPrefix(b, ops, k - 1);
      FreshSpares(Run(b, ops[..k - 1]), ops[k - 1], m, e);
      Undisturbed(b, ids, ops, i, k, m, e);
    }
  }

  /** Under a clock that is past all earlier deposits after each restart: an accepted deposit is delivered
      to every later fetch up to its acknowledgement. */
  lemma DeliveredUntilAcked(b: Box, ids: set<string>, ops: seq<Op>, i: nat, horizon: nat, latest: nat)
    requires Ordering.DistinctKeys(b.data) && Family(ids) && Within(ops, ids)
    requires IdsKnown(b, ids, horizon, latest) && Clocked(ops, horizon, latest)
    requires i < |ops| && ops[i].DoDeposit? && Answer(b, ops, i).Ok?
    requires NotAcked(ops, i + 1, ops[i].m, Answer(b, ops, i).value)
    ensures FetchOf(Run(b, ops), ops[i].m, Answer(b, ops, i).value) == Ok(Some(Deposited(b, ops, i)))
  {
    hide Find, EvtKey, Family, Touches, Run, Answer, Deposited, IdsKnown, Clocked, FreshRun;
    ClockedIsFresh(b, ids, ops, horizon, latest);
    JustDeposited(b, ops, i);
    HeldWhileFresh(b, ids, ops, i + 1, |ops|, ops[i].m, Answer(b, ops, i).value);
    FetchReturnsDeposit(b, ids, ops, i);
  }

  // ---- listing

  /** The ids a page shows belong to its events, and fetching one returns that event. */
  lemma ListedIsFetchable(b: Box, m: string, cursor: string, limit: nat, i: nat)
    requires Ordering.DistinctKeys(b.data)
    requires i < |PageOf(b.data, EvtPrefix(m), cursor, limit, false).items|
    ensures
      var items := PageOf(b.data, EvtPrefix(m), cursor, limit, false).items;
      var id := Stripped(items, |EvtPrefix(m)|)[i];
      && EvtKey(m, id) == items[i].key && Find(b.data, EvtKey(m, id)) == Some(items[i].value)
      && (m != "" && id != "" ==> FetchOf(b, m, id) == Ok(Some(items[i].value)))
  {
    hide EvtPrefix, Listed, Find;
    var all, items := Listed(b.data, EvtPrefix(m), false), PageOf(b.data, EvtPrefix(m), cursor, limit, false).items;
    ListedOnce(b.data, EvtPrefix(m), false);
    assert items[i] in all;
    FindAt(b.data, items[i]);
  }

  /** Whatever an event is found under is listed. */
  lemma FoundIsListed(b: Box, m: string, e: string)
    requires Ordering.DistinctKeys(b.data) && Find(b.data, EvtKey(m, e)).Some?
    ensures
      var items := PageOf(b.data, EvtPrefix(m), "", 0, false).items;
      e in Stripped(items, |EvtPrefix(m)|)
  {
    hide EvtPrefix, Listed, Find;
    var prefix := EvtPrefix(m);
    ListedOnce(b.data, prefix, false);
    FindMember(b.data, EvtKey(m, e));
    var x := Ordering.Pair(EvtKey(m, e), Find(b.data, EvtKey(m, e)).value);
    var items := PageOf(b.data, prefix, "", 0, false).items;
    var i :| 0 <= i < |items| && items[i] == x;
    assert Stripped(items, |prefix|)[i] == x.key[|prefix|..] == e;
  }

  /** A deposited event is listed under its mailbox until it is acknowledged. */
  lemma ListedUntilAcked(b: Box, ids: set<string>, ops: seq<Op>, i: nat, horizon: nat, latest: nat)
    requires Ordering.DistinctKeys(b.data) && Family(ids) && Within(ops, ids)
    requires IdsKnown(b, ids, horizon, latest) && Clocked(ops, horizon, latest)
    requires i < |ops| && ops[i].DoDeposit? && Answer(b, ops, i).Ok?
    requires NotAcked(ops, i + 1, ops[i].m, Answer(b, ops, i).value)
    ensures
      var m := ops[i].m;
      Answer(b, ops, i).value in Stripped(PageOf(Run(b, ops).data, EvtPrefix(m), "", 0, false).items, |EvtPrefix(m)|)
  {
    hide Find, EvtPrefix, Family, Run, Answer, IdsKnown, Clocked, PageOf, Deposited;
    DeliveredUntilAcked(b, ids, ops, i, horizon, latest);
    RunKeepsKeys(b, ops, |ops|);
    assert ops[..|ops|] == ops;
    FoundIsListed(Run(b, ops), ops[i].m, Answer(b, ops, i).value);
  }
}
