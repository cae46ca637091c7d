/** One direction of a channel: a sender's chain, a receiver's chain derived from the same
    base key, and the receiver's store of skipped keys. */
module Lane {
  import opened Basics
  import opened Crypto
  import opened SkippedKeys
  import opened Ratchet

  /** What the two ends of a direction agree on. */
  datatype Lane = Lane(base: Bytes, sid: Bytes, dhHash: Bytes)

  /** The chain key before message n. */
  function KeyAt(c: Provider, base: Bytes, n: nat): Bytes {
    if n == 0 then base else NextChainKey(c, KeyAt(c, base, n - 1))
  }

  function ChainAt(c: Provider, base: Bytes, n: nat): Chain {
    Chain(KeyAt(c, base, n), n)
  }

  /** The key the sender uses for message n. */
  function KeyOf(c: Provider, lane: Lane, n: nat): Bytes {
    MessageKey(c, KeyAt(c, lane.base, n))
  }

  function Slot(lane: Lane, n: nat): string {
    LookupKey(lane.sid, lane.dhHash, n)
  }

  function Held(store: seq<Entry>, lane: Lane, n: nat): Option<Bytes> {
    Get(store, Slot(lane, n))
  }

  predicate IsEntry(c: Provider, lane: Lane, n: nat, e: Entry) {
    e == Entry(Slot(lane, n), KeyOf(c, lane, n))
  }

  ghost predicate Genuine(c: Provider, lane: Lane, bound: nat, e: Entry) {
    exists n :: 0 <= n < bound && IsEntry(c, lane, n, e)
  }

  /** Every stored key is the sender's key for one message below the bound. */
  ghost predicate Filed(c: Provider, lane: Lane, bound: nat, store: seq<Entry>) {
    && Keyed(store)
    && forall i :: 0 <= i < |store| ==> Genuine(c, lane, bound, store[i])
  }

  /** Whatever else the store holds, its keys have 32 bytes, and those under slots of this lane are the
      sender's. */
  ghost predicate Trusty(c: Provider, lane: Lane, store: seq<Entry>) {
    && Keyed(store)
    && (forall i :: 0 <= i < |store| ==> |store[i].mk| == 32)
    && forall n: nat :: Held(store, lane, n).Some? ==> Held(store, lane, n).value == KeyOf(c, lane, n)
  }

  predicate Bounded(store: seq<Entry>, limits: Limits) {
    |store| <= limits.maxSkippedKeys && TotalBytes(store) <= limits.maxSkippedBytes
  }

  /** A receiver that may have seen any selection of the messages below `sent`. */
  ghost predicate Receiving(c: Provider, lane: Lane, sent: nat, chain: Chain, store: seq<Entry>, limits: Limits) {
    && chain.messageIndex <= sent
    && chain == ChainAt(c, lane.base, chain.messageIndex)
    && Filed(c, lane, sent, store)
    && Bounded(store, limits)
  }

  /** A receiver whose store may also hold keys that no message of this lane put there. */
  ghost predicate Following(c: Provider, lane: Lane, sent: nat, chain: Chain, store: seq<Entry>, limits: Limits) {
    && chain.messageIndex <= sent
    && chain == ChainAt(c, lane.base, chain.messageIndex)
    && Trusty(c, lane, store)
    && Bounded(store, limits)
  }

  /** Bookkeeping that is exact as long as no store limit was hit: below the chain index a
      message is either accepted or has its key in the store; from the index on, neither. */
  ghost predicate Exact(lane: Lane, chain: Chain, store: seq<Entry>, got: seq<nat>) {
    && Distinct(got)
    && (forall i :: 0 <= i < |got| ==> got[i] < chain.messageIndex)
    && (forall n: nat :: Held(store, lane, n).Some? <==> n < chain.messageIndex && n !in got)
    && |store| + |got| == chain.messageIndex
  }

  // ---- facts about filed stores

  lemma SlotInjective(lane: Lane, m: nat, n: nat)
    requires Slot(lane, m) == Slot(lane, n)
    ensures m == n
  {
    LookupKeyInjective(lane.sid, lane.dhHash, m, lane.sid, lane.dhHash, n);
  }

  lemma FiledHeld(c: Provider, lane: Lane, bound: nat, store: seq<Entry>, n: nat)
    requires Filed(c, lane, bound, store) && Held(store, lane, n).Some?
    ensures Held(store, lane, n) == Some(KeyOf(c, lane, n)) && n < bound
  {
    var i := FindIndex(store, Slot(lane, n));
    assert Genuine(c, lane, bound, store[i]);
    var m :| 0 <= m < bound && IsEntry(c, lane, m, store[i]);
    SlotInjective(lane, m, n);
  }

  lemma KeyLength(c: Provider, chainKey: Bytes)
    requires Lawful(c)
    ensures |MessageKey(c, chainKey)| == 32
  {
  }

  lemma FiledTrusty(c: Provider, lane: Lane, bound: nat, store: seq<Entry>)
    requires Lawful(c) && Filed(c, lane, bound, store)
    ensures Trusty(c, lane, store)
  {
    forall i | 0 <= i < |store| ensures |store[i].mk| == 32 {
      assert Genuine(c, lane, bound, store[i]);
      var n :| 0 <= n < bound && IsEntry(c, lane, n, store[i]);
      KeyLength(c, KeyAt(c, lane.base, n));
    }
    forall n: nat | Held(store, lane, n).Some? ensures Held(store, lane, n).value == KeyOf(c, lane, n) {
      FiledHeld(c, lane, bound, store, n);
    }
  }

  lemma {:induction false} TrustyBytes(store: seq<Entry>)
    requires forall i :: 0 <= i < |store| ==> |store[i].mk| == 32
    ensures TotalBytes(store) == 32 * |store|
  {
    if store != [] {
      assert forall i :: 0 <= i < |store[1..]| ==> store[1..][i] == store[i + 1];
      TrustyBytes(store[1..]);
    }
  }

  /** Writing a 32-byte key outside the lane's slots, or the sender's key into one of them. */
  lemma PutTrusty(c: Provider, lane: Lane, store: seq<Entry>, key: string, mk: Bytes)
    requires Trusty(c, lane, store) && |mk| == 32
    requires forall n: nat :: Slot(lane, n) == key ==> mk == KeyOf(c, lane, n)
    ensures Trusty(c, lane, Put(store, key, mk))
  {
    hide Slot, KeyOf;
    PutGet(store, key, mk, key);
    forall n: nat | Held(Put(store, key, mk), lane, n).Some?
      ensures Held(Put(store, key, mk), lane, n).value == KeyOf(c, lane, n)
    {
      PutGet(store, key, mk, Slot(lane, n));
      assert Held(store, lane, n).Some? ==> Held(store, lane, n).value == KeyOf(c, lane, n);
    }
  }

  lemma PutOwn(c: Provider, lane: Lane, store: seq<Entry>, n: nat)
    requires Lawful(c) && Trusty(c, lane, store)
    ensures Trusty(c, lane, Put(store, Slot(lane, n), KeyOf(c, lane, n)))
  {
    hide Slot, Trusty;
    KeyLength(c, KeyAt(c, lane.base, n));
    forall m: nat | Slot(lane, m) == Slot(lane, n) ensures KeyOf(c, lane, n) == KeyOf(c, lane, m) {
      SlotInjective(lane, m, n);
    }
    PutTrusty(c, lane, store, Slot(lane, n), KeyOf(c, lane, n));
  }

  lemma DropTrusty(c: Provider, lane: Lane, store: seq<Entry>, key: string)
    requires Trusty(c, lane, store)
    ensures Trusty(c, lane, Drop(store, key))
  {
    hide Slot, KeyOf;
    DropKeyed(store, key);
    DropAt(store, key);
    forall n: nat | Held(Drop(store, key), lane, n).Some?
      ensures Held(Drop(store, key), lane, n).value == KeyOf(c, lane, n)
    {
      DropGet(store, key, Slot(lane, n));
      assert Held(store, lane, n).Some? ==> Held(store, lane, n).value == KeyOf(c, lane, n);
    }
  }

  lemma FiledMonotone(c: Provider, lane: Lane, bound: nat, more: nat, store: seq<Entry>)
    requires Filed(c, lane, bound, store) && bound <= more
    ensures Filed(c, lane, more, store)
  {
    forall i | 0 <= i < |store|
      ensures Genuine(c, lane, more, store[i])
    {
      assert Genuine(c, lane, bound, store[i]);
    }
  }

  lemma PutFiled(c: Provider, lane: Lane, bound: nat, store: seq<Entry>, n: nat)
    requires Filed(c, lane, bound, store) && n < bound
    ensures Filed(c, lane, bound, Put(store, Slot(lane, n), KeyOf(c, lane, n)))
  {
    var key, mk := Slot(lane, n), KeyOf(c, lane, n);
    var put, at := Put(store, key, mk), FindIndex(store, key);
    PutGet(store, key, mk, key);
    forall i | 0 <= i < |put|
      ensures Genuine(c, lane, bound, put[i])
    {
      if i < |store| && i != at {
        assert put[i] == store[i];
      } else {
        assert IsEntry(c, lane, n, put[i]);
      }
    }
  }

  lemma DropFiled(c: Provider, lane: Lane, bound: nat, store: seq<Entry>, key: string)
    requires Filed(c, lane, bound, store)
    ensures Filed(c, lane, bound, Drop(store, key))
  {
    DropKeyed(store, key);
    DropAt(store, key);
  }

  lemma DropBounded(store: seq<Entry>, key: string, limits: Limits)
    requires Bounded(store, limits)
    ensures Bounded(Drop(store, key), limits)
  {
    TotalBytesDrop(store, key);
  }

  lemma PutBounded(store: seq<Entry>, key: string, mk: Bytes, limits: Limits)
    requires |store| + 1 <= limits.maxSkippedKeys && TotalBytes(store) + |mk| <= limits.maxSkippedBytes
    ensures Bounded(Put(store, key, mk), limits)
  {
    TotalBytesPut(store, key, mk);
  }

  // ---- the skipping loop

  function Skipped(c: Provider, lane: Lane, from: nat, limits: Limits, store: seq<Entry>, n: nat): Outcome<Chain> {
    SkipTo(c, ChainAt(c, lane.base, from), limits, store, lane.sid, lane.dhHash, n)
  }

  /** The loop either reaches message n or stops at a store limit. */
  lemma {:induction false} SkipReaches(c: Provider, lane: Lane, from: nat, limits: Limits, store: seq<Entry>, n: nat)
    requires from <= n
    ensures
      var o := Skipped(c, lane, from, limits, store, n);
      && (o.result.Ok? ==> o.result.value == ChainAt(c, lane.base, n))
      && (o.result.Err? ==> o.result.error.StoreLimitExceeded?)
    decreases n - from
  {
    if from < n {
      SkipReaches(c, lane, from + 1, limits, Put(store, Slot(lane, from), KeyOf(c, lane, from)), n);
    }
  }

  /** However it ends, the store holds only genuine keys, within its limits. */
  lemma {:induction false} SkipSound(
    c: Provider, lane: Lane, from: nat, limits: Limits, store: seq<Entry>, n: nat, bound: nat)
    requires from <= n <= bound && Filed(c, lane, bound, store) && Bounded(store, limits)
    ensures
      var o := Skipped(c, lane, from, limits, store, n);
      Filed(c, lane, bound, o.store) && Bounded(o.store, limits)
    decreases n - from
  {
    if from < n {
      var mk := KeyOf(c, lane, from);
      if |store| + 1 <= limits.maxSkippedKeys && TotalBytes(store) + |mk| <= limits.maxSkippedBytes {
        PutFiled(c, lane, bound, store, from);
        PutBounded(store, Slot(lane, from), mk, limits);
        SkipSound(c, lane, from + 1, limits, Put(store, Slot(lane, from), mk), n, bound);
      }
    }
  }

  /** The same for a store that may hold more. */
  lemma {:induction false} SkipTrusty(
    c: Provider, lane: Lane, from: nat, limits: Limits, store: seq<Entry>, n: nat)
    requires Lawful(c) && from <= n && Trusty(c, lane, store) && Bounded(store, limits)
    ensures
      var o := Skipped(c, lane, from, limits, store, n);
      Trusty(c, lane, o.store) && Bounded(o.store, limits)
    decreases n - from
  {
    hide Trusty;
    if from < n {
      var mk := KeyOf(c, lane, from);
      if |store| + 1 <= limits.maxSkippedKeys && TotalBytes(store) + |mk| <= limits.maxSkippedBytes {
        PutOwn(c, lane, store, from);
        PutBounded(store, Slot(lane, from), mk, limits);
        SkipTrusty(c, lane, from + 1, limits, Put(store, Slot(lane, from), mk), n);
      }
    }
  }

  /** When the loop completes it has filed exactly the messages from `from` to n - 1. */
  lemma {:induction false} SkipFiles(
    c: Provider, lane: Lane, from: nat, limits: Limits, store: seq<Entry>, n: nat, m: nat)
    requires from <= n && Keyed(store) && Skipped(c, lane, from, limits, store, n).result.Ok?
    ensures
      var after := Skipped(c, lane, from, limits, store, n).store;
      Held(after, lane, m) == if from <= m < n then Some(KeyOf(c, lane, m)) else Held(store, lane, m)
    decreases n - from
  {
    if from < n {
      var put := Put(store, Slot(lane, from), KeyOf(c, lane, from));
      PutGet(store, Slot(lane, from), KeyOf(c, lane, from), Slot(lane, m));
      if Slot(lane, m) == Slot(lane, from) { SlotInjective(lane, m, from); }
      SkipFiles(c, lane, from + 1, limits, put, n, m);
    }
  }

  /** How many of the messages from `from` to n - 1 have no key in the store. */
  function Unheld(store: seq<Entry>, lane: Lane, from: nat, n: nat): (k: nat)
    decreases n - from
  {
    if from >= n then 0
    else (if Held(store, lane, from).None? then 1 else 0) + Unheld(store, lane, from + 1, n)
  }

  /** Room for the keys of the messages from `from` to n - 1. Before it files a key the loop asks
      for one place more than the store takes up, even if the key is already there; it asks for most
      at the last message. */
  predicate Room(limits: Limits, store: seq<Entry>, lane: Lane, from: nat, n: nat)
    requires from <= n
  {
    from == n ||
    var k := |store| + Unheld(store, lane, from, n - 1) + 1;
    k <= limits.maxSkippedKeys && 32 * k <= limits.maxSkippedBytes
  }

  lemma {:induction false} UnheldSame(store: seq<Entry>, after: seq<Entry>, lane: Lane, from: nat, n: nat)
    requires forall m: nat :: from <= m < n ==> Held(store, lane, m).Some? == Held(after, lane, m).Some?
    ensures Unheld(store, lane, from, n) == Unheld(after, lane, from, n)
    decreases n - from
  {
    hide Held;
    if from < n { UnheldSame(store, after, lane, from + 1, n); }
  }

  lemma {:induction false} UnheldFresh(store: seq<Entry>, lane: Lane, from: nat, n: nat)
    requires from <= n && forall m: nat :: from <= m < n ==> Held(store, lane, m).None?
    ensures Unheld(store, lane, from, n) == n - from
    decreases n - from
  {
    hide Held;
    if from < n { UnheldFresh(store, lane, from + 1, n); }
  }

  /** Filing one key changes no other slot, and the size only if the slot was free. */
  lemma PutSlot(c: Provider, lane: Lane, store: seq<Entry>, from: nat, n: nat)
    requires Keyed(store)
    ensures
      var put := Put(store, Slot(lane, from), KeyOf(c, lane, from));
      && |put| == |store| + (if Held(store, lane, from).None? then 1 else 0)
      && Unheld(put, lane, from + 1, n) == Unheld(store, lane, from + 1, n)
  {
    hide Unheld, KeyOf, Slot;
    var put := Put(store, Slot(lane, from), KeyOf(c, lane, from));
    forall m: nat | from + 1 <= m < n ensures Held(store, lane, m).Some? == Held(put, lane, m).Some? {
      PutGet(store, Slot(lane, from), KeyOf(c, lane, from), Slot(lane, m));
      if Slot(lane, m) == Slot(lane, from) { SlotInjective(lane, m, from); }
    }
    UnheldSame(store, put, lane, from + 1, n);
  }

  /** Once there is room for all, there is room for the first. */
  lemma RoomStep(limits: Limits, store: seq<Entry>, put: seq<Entry>, lane: Lane, from: nat, n: nat)
    requires from < n && |put| == |store| + (if Held(store, lane, from).None? then 1 else 0)
    requires Unheld(put, lane, from + 1, n - 1) == Unheld(store, lane, from + 1, n - 1)
    ensures Room(limits, store, lane, from, n) <==>
      && |store| + 1 <= limits.maxSkippedKeys && 32 * (|store| + 1) <= limits.maxSkippedBytes
      && Room(limits, put, lane, from + 1, n)
  {
    hide Held;
  }

  /** On any store, also one left behind by an error, the loop completes exactly when there is room,
      and the store then has grown by the keys that were not yet there. */
  lemma {:induction false} SkipExact(
    c: Provider, lane: Lane, from: nat, limits: Limits, store: seq<Entry>, n: nat)
    requires Lawful(c) && from <= n && Trusty(c, lane, store)
    ensures
      var o := Skipped(c, lane, from, limits, store, n);
      && (o.result.Ok? <==> Room(limits, store, lane, from, n))
      && (o.result.Ok? ==> |o.store| == |store| + Unheld(store, lane, from, n))
    decreases n - from
  {
    hide Held, Trusty, Room, KeyOf, Slot, Skipped, Put, Lawful;
    if from < n {
      SkipUnfolds(c, lane, from, limits, store, n);
      var put := Put(store, Slot(lane, from), KeyOf(c, lane, from));
      PutOwn(c, lane, store, from);
      TrustyIsKeyed(c, lane, store);
      PutSlot(c, lane, store, from, n);
      PutSlot(c, lane, store, from, n - 1);
      RoomStep(limits, store, put, lane, from, n);
      SkipExact(c, lane, from + 1, limits, put, n);
    } else {
      NothingToSkip(c, lane, limits, store, n);
    }
  }

  lemma TrustyIsKeyed(c: Provider, lane: Lane, store: seq<Entry>)
    requires Trusty(c, lane, store)
    ensures Keyed(store)
  {
  }

  lemma NothingToSkip(c: Provider, lane: Lane, limits: Limits, store: seq<Entry>, n: nat)
    ensures Room(limits, store, lane, n, n)
    ensures Skipped(c, lane, n, limits, store, n) == Outcome(Ok(ChainAt(c, lane.base, n)), store)
  {
  }

  /** One turn of the loop. */
  lemma SkipUnfolds(c: Provider, lane: Lane, from: nat, limits: Limits, store: seq<Entry>, n: nat)
    requires Lawful(c) && from < n && Trusty(c, lane, store)
    ensures
      var o := Skipped(c, lane, from, limits, store, n);
      var put := Put(store, Slot(lane, from), KeyOf(c, lane, from));
      if |store| + 1 <= limits.maxSkippedKeys && 32 * (|store| + 1) <= limits.maxSkippedBytes
      then o == Skipped(c, lane, from + 1, limits, put, n)
      else o.result.Err? && o.store == store
  {
    TrustyBytes(store);
    KeyLength(c, KeyAt(c, lane.base, from));
  }

  /** In particular, on free slots: every message passed over takes a place. */
  lemma SkipFits(c: Provider, lane: Lane, from: nat, limits: Limits, store: seq<Entry>, n: nat)
    requires Lawful(c) && from <= n && Trusty(c, lane, store) && Bounded(store, limits)
    requires forall m: nat :: from <= m < n ==> Held(store, lane, m).None?
    ensures
      var o := Skipped(c, lane, from, limits, store, n);
      && (o.result.Ok? <==> |store| + (n - from) <= limits.maxSkippedKeys
                            && 32 * (|store| + (n - from)) <= limits.maxSkippedBytes)
      && (o.result.Ok? ==> |o.store| == |store| + (n - from))
  {
    hide Held, Skipped;
    TrustyBytes(store);
    SkipExact(c, lane, from, limits, store, n);
    UnheldFresh(store, lane, from, n);
    if from < n { UnheldFresh(store, lane, from, n - 1); }
  }

  // ---- receiving one genuine message

  /** The derivation once the receiving chain is in place. */
  function Arrive(
    c: Provider, lane: Lane, chain: Chain, limits: Limits, store: seq<Entry>, n: nat)
    : (o: Outcome<(Bytes, Chain, bool)>)
  {
    var held := Held(store, lane, n);
    if held.Some? then Outcome(Ok((held.value, chain, true)), Drop(store, Slot(lane, n)))
    else if n < chain.messageIndex then Outcome(Err(SkippedKeyNotFound), store)
    else if n - chain.messageIndex > limits.maxSkip then
      Outcome(Err(SkipLimitExceeded(chain.messageIndex, n, limits.maxSkip)), store)
    else
      var o := SkipTo(c, chain, limits, store, lane.sid, lane.dhHash, n);
      match o.result
      case Err(e) => Outcome(Err(e), o.store)
      case Ok(at) => Outcome(Ok((MessageKey(c, at.chainKey), Advance(c, at), false)), o.store)
  }

  /** The service's derivation is this one, after the optional DH step. */
  lemma DeriveIsArrive(c: Provider, s: Core, store: seq<Entry>, header: Header, lane: Lane)
    requires Accept(c, s, header).receivingChain.Some? && c.hash(Accept(c, s, header).remote) == lane.dhHash
    ensures
      var w := Accept(c, s, header);
      var o := Arrive(c, lane, w.receivingChain.value, w.limits, store, header.n);
      var d := Derive(c, s, store, header, lane.sid);
      && d.store == o.store
      && match o.result
         case Err(e) => d.result == Err(e)
         case Ok(v) => d.result == Ok(Derived(v.0, w.(receivingChain := Some(v.1)), v.2))
  {
  }

  /** Safety of one delivery, whatever happened before: a genuine message either fails or gets
      exactly the sender's key, and the receiver stays a receiver of this lane. */
  lemma ArriveSound(c: Provider, lane: Lane, sent: nat, chain: Chain, limits: Limits, store: seq<Entry>, n: nat)
    requires Receiving(c, lane, sent, chain, store, limits) && n < sent
    ensures
      var o := Arrive(c, lane, chain, limits, store, n);
      && (o.result.Ok? ==> o.result.value.0 == KeyOf(c, lane, n))
      && Receiving(c, lane, sent, if o.result.Ok? then o.result.value.1 else chain, o.store, limits)
  {
    if Held(store, lane, n).Some? {
      FiledHeld(c, lane, sent, store, n);
      DropFiled(c, lane, sent, store, Slot(lane, n));
      DropBounded(store, Slot(lane, n), limits);
    } else if chain.messageIndex <= n {
      SkipSound(c, lane, chain.messageIndex, limits, store, n, sent);
      SkipReaches(c, lane, chain.messageIndex, limits, store, n);
    }
  }

  /** The same for a receiver whose store may hold more. */
  lemma ArriveFollows(c: Provider, lane: Lane, sent: nat, chain: Chain, limits: Limits, store: seq<Entry>, n: nat)
    requires Lawful(c) && Following(c, lane, sent, chain, store, limits) && n < sent
    ensures
      var o := Arrive(c, lane, chain, limits, store, n);
      && (o.result.Ok? ==> o.result.value.0 == KeyOf(c, lane, n))
      && Following(c, lane, sent, if o.result.Ok? then o.result.value.1 else chain, o.store, limits)
  {
    hide Trusty;
    ArriveStore(c, lane, chain, limits, store, n);
    if Held(store, lane, n).Some? {
      TrustyHeld(c, lane, store, n);
    } else if chain.messageIndex <= n {
      SkipReaches(c, lane, chain.messageIndex, limits, store, n);
    }
  }

  lemma TrustyHeld(c: Provider, lane: Lane, store: seq<Entry>, n: nat)
    requires Trusty(c, lane, store) && Held(store, lane, n).Some?
    ensures Held(store, lane, n).value == KeyOf(c, lane, n)
  {
  }

  /** Whatever number a header names, the store it leaves is one to follow the lane with. */
  lemma ArriveStore(c: Provider, lane: Lane, chain: Chain, limits: Limits, store: seq<Entry>, n: nat)
    requires Lawful(c) && Trusty(c, lane, store) && Bounded(store, limits)
    requires chain == ChainAt(c, lane.base, chain.messageIndex)
    ensures
      var o := Arrive(c, lane, chain, limits, store, n);
      Trusty(c, lane, o.store) && Bounded(o.store, limits)
  {
    hide Trusty;
    if Held(store, lane, n).Some? {
      DropTrusty(c, lane, store, Slot(lane, n));
      DropBounded(store, Slot(lane, n), limits);
    } else if chain.messageIndex <= n {
      SkipTrusty(c, lane, chain.messageIndex, limits, store, n);
    }
  }

  /** Limits under which keys are ever filed. */
  predicate Files(limits: Limits) {
    limits.maxSkip >= 1 && limits.maxSkippedKeys >= 1 && limits.maxSkippedBytes >= 32
  }

  lemma FirstPutFits(c: Provider, chain: Chain, limits: Limits, sid: Bytes, dhHash: Bytes, n: nat)
    requires Lawful(c) && !Files(limits) && chain.messageIndex <= n && n - chain.messageIndex <= limits.maxSkip
    ensures SkipTo(c, chain, limits, [], sid, dhHash, n).store == []
  {
    KeyLength(c, chain.chainKey);
  }

  /** Under all other limits an empty store stays empty, whatever header arrives. */
  lemma NothingFiled(c: Provider, s: Core, header: Header, sid: Bytes)
    requires Lawful(c) && !Files(s.limits)
    ensures Derive(c, s, [], header, sid).store == []
  {
    hide SkipTo, LookupKey, DeriveRootKey;
    var w := Accept(c, s, header);
    if w.receivingChain.Some? {
      var chain := w.receivingChain.value;
      if chain.messageIndex <= header.n && header.n - chain.messageIndex <= w.limits.maxSkip {
        FirstPutFits(c, chain, w.limits, sid, c.hash(w.remote), header.n);
      }
    }
  }

  /** Keys filed under another ratchet key leave the lane's slots alone. */
  lemma {:induction false} ForeignSkip(
    c: Provider, lane: Lane, chain: Chain, limits: Limits, store: seq<Entry>, dhHash: Bytes, n: nat)
    requires Lawful(c) && dhHash != lane.dhHash && Trusty(c, lane, store) && Bounded(store, limits)
    ensures
      var o := SkipTo(c, chain, limits, store, lane.sid, dhHash, n);
      Trusty(c, lane, o.store) && Bounded(o.store, limits)
    decreases n - chain.messageIndex
  {
    hide Trusty, Held;
    var i, mk := chain.messageIndex, MessageKey(c, chain.chainKey);
    if i < n && |store| + 1 <= limits.maxSkippedKeys && TotalBytes(store) + |mk| <= limits.maxSkippedBytes {
      var key := LookupKey(lane.sid, dhHash, i);
      KeyLength(c, chain.chainKey);
      forall m: nat ensures Slot(lane, m) != key {
        if Slot(lane, m) == key { LookupKeyInjective(lane.sid, lane.dhHash, m, lane.sid, dhHash, i); }
      }
      PutTrusty(c, lane, store, key, mk);
      PutBounded(store, key, mk, limits);
      ForeignSkip(c, lane, Advance(c, chain), limits, Put(store, key, mk), dhHash, n);
    }
  }

  /** Whatever a header under another ratchet key does to the store, one can go on following the lane. */
  lemma DeriveForeign(c: Provider, s: Core, store: seq<Entry>, header: Header, lane: Lane)
    requires Lawful(c) && Trusty(c, lane, store) && Bounded(store, s.limits)
    requires c.hash(Accept(c, s, header).remote) != lane.dhHash
    ensures
      var d := Derive(c, s, store, header, lane.sid);
      Trusty(c, lane, d.store) && Bounded(d.store, s.limits)
  {
    hide Trusty, SkipTo, DeriveRootKey, LookupKey, Drop;
    var w := Accept(c, s, header);
    if w.receivingChain.Some? {
      var hash := c.hash(w.remote);
      var key := LookupKey(lane.sid, hash, header.n);
      DropTrusty(c, lane, store, key);
      DropBounded(store, key, s.limits);
      ForeignSkip(c, lane, w.receivingChain.value, s.limits, store, hash, header.n);
    }
  }

  /** The message's key is held, or the chain has not passed it and the skip fits. */
  predicate Acceptable(limits: Limits, store: seq<Entry>, lane: Lane, index: nat, n: nat) {
    || Held(store, lane, n).Some?
    || (index <= n <= index + limits.maxSkip && Room(limits, store, lane, index, n))
  }

  /** Acceptance in any receiving state, whatever errors came before. */
  lemma ArriveDecided(c: Provider, lane: Lane, sent: nat, chain: Chain, limits: Limits, store: seq<Entry>, n: nat)
    requires Lawful(c) && Following(c, lane, sent, chain, store, limits)
    ensures Arrive(c, lane, chain, limits, store, n).result.Ok? <==>
      Acceptable(limits, store, lane, chain.messageIndex, n)
  {
    hide Held, Room, Trusty;
    if Held(store, lane, n).None? && chain.messageIndex <= n {
      SkipExact(c, lane, chain.messageIndex, limits, store, n);
    }
  }

  /** A message whose key was not held moves the chain right behind it. */
  lemma ArriveMoves(c: Provider, lane: Lane, sent: nat, chain: Chain, limits: Limits, store: seq<Entry>, n: nat)
    requires Following(c, lane, sent, chain, store, limits) && Held(store, lane, n).None?
    ensures
      var o := Arrive(c, lane, chain, limits, store, n);
      o.result.Ok? ==> o.result.value.1.messageIndex == n + 1
  {
    hide Held, Slot, Trusty;
    if chain.messageIndex <= n { SkipReaches(c, lane, chain.messageIndex, limits, store, n); }
  }

  /** Limits under which a failing skip can leave a key behind: it may pass over two messages, and
      there is room for one key. */
  predicate Strands(limits: Limits) {
    limits.maxSkip >= 2 && limits.maxSkippedKeys >= 1 && limits.maxSkippedBytes >= 32
  }

  /** Under all other limits an error leaves the store as it was. */
  lemma NothingStranded(c: Provider, lane: Lane, sent: nat, chain: Chain, limits: Limits, store: seq<Entry>, n: nat)
    requires Lawful(c) && Following(c, lane, sent, chain, store, limits) && !Strands(limits)
    ensures
      var o := Arrive(c, lane, chain, limits, store, n);
      o.result.Err? ==> o.store == store
  {
    hide Held, Slot, KeyOf, Lawful, Trusty;
    var i := chain.messageIndex;
    if i < n && n - i <= limits.maxSkip {
      SkipUnfolds(c, lane, i, limits, store, n);
    }
  }

  /** Exactness of one delivery, while the bookkeeping is exact: acceptance is decided by what
      was accepted before and by the limits, and by nothing else. */
  lemma ArriveExact(
    c: Provider, lane: Lane, sent: nat, chain: Chain, limits: Limits, store: seq<Entry>, n: nat, got: seq<nat>)
    requires Lawful(c) && Receiving(c, lane, sent, chain, store, limits) && Exact(lane, chain, store, got)
    ensures
      var o := Arrive(c, lane, chain, limits, store, n);
      && (o.result.Ok? <==>
            n !in got && (n >= chain.messageIndex ==>
                            && n - chain.messageIndex <= limits.maxSkip
                            && n - |got| <= limits.maxSkippedKeys
                            && 32 * (n - |got|) <= limits.maxSkippedBytes))
      && (o.result.Ok? ==> Exact(lane, o.result.value.1, o.store, got + [n]))
      && (o.result.Err? && (!o.result.error.StoreLimitExceeded? || !Strands(limits)) ==> o.store == store)
  {
    var i := chain.messageIndex;
    FiledTrusty(c, lane, sent, store);
    if !Strands(limits) { NothingStranded(c, lane, sent, chain, limits, store, n); }
    if Held(store, lane, n).Some? {
      ExactAfterUse(lane, chain, store, got, n);
    } else if i <= n {
      assert forall m: nat :: i <= m < n ==> Held(store, lane, m).None?;
      SkipFits(c, lane, i, limits, store, n);
      SkipReaches(c, lane, i, limits, store, n);
      if Skipped(c, lane, i, limits, store, n).result.Ok? {
        ExactAfterSkip(c, lane, chain, limits, store, got, n);
      }
    }
  }

  lemma ExactAfterUse(lane: Lane, chain: Chain, store: seq<Entry>, got: seq<nat>, n: nat)
    requires Keyed(store) && Exact(lane, chain, store, got) && Held(store, lane, n).Some?
    ensures Exact(lane, chain, Drop(store, Slot(lane, n)), got + [n])
  {
    var after := Drop(store, Slot(lane, n));
    DropAt(store, Slot(lane, n));
    forall m: nat
      ensures Held(after, lane, m).Some? <==> m < chain.messageIndex && m !in got + [n]
    {
      assert Held(store, lane, m).Some? <==> m < chain.messageIndex && m !in got;
      DropGet(store, Slot(lane, n), Slot(lane, m));
      if Slot(lane, m) == Slot(lane, n) { SlotInjective(lane, m, n); }
    }
  }

  lemma ExactAfterSkip(
    c: Provider, lane: Lane, chain: Chain, limits: Limits, store: seq<Entry>, got: seq<nat>, n: nat)
    requires Lawful(c) && Trusty(c, lane, store) && Bounded(store, limits) && Exact(lane, chain, store, got)
    requires chain.messageIndex <= n && Skipped(c, lane, chain.messageIndex, limits, store, n).result.Ok?
    ensures Exact(lane, ChainAt(c, lane.base, n + 1), Skipped(c, lane, chain.messageIndex, limits, store, n).store,
      got + [n])
  {
    var i := chain.messageIndex;
    assert forall m: nat :: i <= m < n ==> Held(store, lane, m).None?;
    SkipFits(c, lane, i, limits, store, n);
    var after := Skipped(c, lane, i, limits, store, n).store;
    forall m: nat
      ensures Held(after, lane, m).Some? <==> m < n + 1 && m !in got + [n]
    {
      SkipFiles(c, lane, i, limits, store, n, m);
    }
  }

  // ---- accepting the same message again

  /** A message just accepted is accepted again exactly when its key came out of the store although
      the chain had not yet passed it, and the store, which lost that key, has room for the skip. */
  lemma ReacceptedExactlyWhen(
    c: Provider, lane: Lane, sent: nat, chain: Chain, limits: Limits, store: seq<Entry>, n: nat)
    requires Lawful(c) && Following(c, lane, sent, chain, store, limits)
    requires Acceptable(limits, store, lane, chain.messageIndex, n)
    ensures
      var index := chain.messageIndex;
      var first := Arrive(c, lane, chain, limits, store, n);
      && first.result.Ok?
      && var again := Arrive(c, lane, first.result.value.1, limits, first.store, n);
         again.result.Ok? <==>
           && Held(store, lane, n).Some? && index <= n <= index + limits.maxSkip
           && (index == n ||
               var k := |store| + Unheld(store, lane, index, n - 1);
               k <= limits.maxSkippedKeys && 32 * k <= limits.maxSkippedBytes)
  {
    hide Trusty, Slot, KeyOf;
    var i := chain.messageIndex;
    ArriveDecided(c, lane, sent, chain, limits, store, n);
    TrustyIsKeyed(c, lane, store);
    if Held(store, lane, n).Some? {
      var left := Drop(store, Slot(lane, n));
      DropTrusty(c, lane, store, Slot(lane, n));
      DropBounded(store, Slot(lane, n), limits);
      ArriveDecided(c, lane, sent, chain, limits, left, n);
      DropSlot(lane, store, i, n);
    } else {
      SkipFiles(c, lane, i, limits, store, n, n);
      SkipReaches(c, lane, i, limits, store, n);
    }
  }

  /** Taking a key out frees its slot and no earlier one. */
  lemma DropSlot(lane: Lane, store: seq<Entry>, from: nat, n: nat)
    requires Keyed(store) && Held(store, lane, n).Some?
    ensures
      var left := Drop(store, Slot(lane, n));
      && |left| == |store| - 1 && Held(left, lane, n).None?
      && (from < n ==> Unheld(left, lane, from, n - 1) == Unheld(store, lane, from, n - 1))
  {
    hide Unheld, Slot;
    var left := Drop(store, Slot(lane, n));
    DropAt(store, Slot(lane, n));
    DropGet(store, Slot(lane, n), Slot(lane, n));
    if from < n {
      forall m: nat | from <= m < n - 1 ensures Held(store, lane, m).Some? == Held(left, lane, m).Some? {
        DropGet(store, Slot(lane, n), Slot(lane, m));
        if Slot(lane, m) == Slot(lane, n) { SlotInjective(lane, m, n); }
      }
      UnheldSame(store, left, lane, from, n - 1);
    }
  }

  /** How many keys fit. */
  function Capacity(limits: Limits): nat {
    Min(limits.maxSkippedKeys, limits.maxSkippedBytes / 32)
  }

  /** Why the guarantee ends at a store limit, at any limits that strand a key: with room for one key
      more, a message two ahead fails after the next one's key is filed. The chain index does not move,
      so that message is then accepted from the store and once more from the chain. */
  lemma StoreLimitStrands(c: Provider, lane: Lane, sent: nat, chain: Chain, limits: Limits, store: seq<Entry>)
    requires Lawful(c) && Following(c, lane, sent, chain, store, limits) && Strands(limits)
    requires |store| + 1 == Capacity(limits)
    requires forall n: nat :: n >= chain.messageIndex ==> Held(store, lane, n).None?
    ensures
      var i := chain.messageIndex;
      var failed := Arrive(c, lane, chain, limits, store, i + 2);
      var once := Arrive(c, lane, chain, limits, failed.store, i);
      && failed.result.Err? && failed.result.error.StoreLimitExceeded?
      && once.result == Ok((KeyOf(c, lane, i), chain, true))
      && Arrive(c, lane, chain, limits, once.store, i).result ==
         Ok((KeyOf(c, lane, i), ChainAt(c, lane.base, i + 1), false))
  {
    hide Trusty, Slot, KeyOf, Lawful;
    var i := chain.messageIndex;
    TrustyIsKeyed(c, lane, store);
    var put := Put(store, Slot(lane, i), KeyOf(c, lane, i));
    SkipUnfolds(c, lane, i, limits, store, i + 2);
    PutOwn(c, lane, store, i);
    PutSlot(c, lane, store, i, i);
    SkipUnfolds(c, lane, i + 1, limits, put, i + 2);
    SkipReaches(c, lane, i, limits, store, i + 2);
    PutGet(store, Slot(lane, i), KeyOf(c, lane, i), Slot(lane, i));
    DropGet(put, Slot(lane, i), Slot(lane, i));
    KeyUnfolds(c, lane, i);
  }

  lemma KeyUnfolds(c: Provider, lane: Lane, i: nat)
    ensures MessageKey(c, ChainAt(c, lane.base, i).chainKey) == KeyOf(c, lane, i)
    ensures Advance(c, ChainAt(c, lane.base, i)) == ChainAt(c, lane.base, i + 1)
  {
  }

  /** A header that names the message after the next files the next one's key. Without the chain moving,
      that message is then accepted from the store and once more from the chain. */
  lemma AheadStrands(c: Provider, lane: Lane, sent: nat, chain: Chain, limits: Limits)
    requires Lawful(c) && Following(c, lane, sent, chain, [], limits) && Files(limits)
    ensures
      var i := chain.messageIndex;
      var ahead := Arrive(c, lane, chain, limits, [], i + 1);
      var once := Arrive(c, lane, chain, limits, ahead.store, i);
      && once.result == Ok((KeyOf(c, lane, i), chain, true))
      && Arrive(c, lane, chain, limits, once.store, i).result.Ok?
  {
    hide Trusty, Slot, KeyOf, Lawful;
    var i := chain.messageIndex;
    var put := Put([], Slot(lane, i), KeyOf(c, lane, i));
    SkipUnfolds(c, lane, i, limits, [], i + 1);
    NothingToSkip(c, lane, limits, put, i + 1);
    TrustyIsKeyed(c, lane, []);
    PutGet([], Slot(lane, i), KeyOf(c, lane, i), Slot(lane, i));
    DropGet(put, Slot(lane, i), Slot(lane, i));
    KeyUnfolds(c, lane, i);
    SlotNext(lane, i);
  }

  lemma SlotNext(lane: Lane, i: nat)
    ensures Held([], lane, i + 1).None? && Held([], lane, i).None?
  {
  }

  lemma NoneHeld(lane: Lane)
    ensures forall n: nat :: Held([], lane, n).None?
  {
  }

  /** In particular on an empty lane with room for one key: message 0 is accepted twice. */
  lemma StoreLimitBreaksExactlyOnce(c: Provider, lane: Lane)
    requires Lawful(c)
    ensures
      var limits, chain := Limits(2, 1, 64), ChainAt(c, lane.base, 0);
      var failed := Arrive(c, lane, chain, limits, [], 2);
      var once := Arrive(c, lane, chain, limits, failed.store, 0);
      && failed.result == Err(StoreLimitExceeded(MaxSkippedKeys, 1, 2))
      && once.result == Ok((KeyOf(c, lane, 0), chain, true))
      && Arrive(c, lane, chain, limits, once.store, 0).result ==
         Ok((KeyOf(c, lane, 0), ChainAt(c, lane.base, 1), false))
  {
    hide Lawful, Slot, KeyOf, Held, KeyAt;
    var limits, chain := Limits(2, 1, 64), ChainAt(c, lane.base, 0);
    NoneHeld(lane);
    StoreLimitStrands(c, lane, 0, chain, limits, []);
    var entry := Entry(Slot(lane, 0), KeyOf(c, lane, 0));
    KeyLength(c, KeyAt(c, lane.base, 0));
    assert Put([], Slot(lane, 0), KeyOf(c, lane, 0)) == [entry];
    assert TotalBytes([entry]) == 32;
    SkipUnfolds(c, lane, 0, limits, [], 2);
    PutOwn(c, lane, [], 0);
    SkipUnfolds(c, lane, 1, limits, [entry], 2);
  }
}
