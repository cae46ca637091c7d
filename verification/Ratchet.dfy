/** The double-ratchet state and its steps (`services/RatchetService.js`, `crypto/ratchet`,
    `objects/ratchet/RatchetState.js`). */
module Ratchet {
  import opened Basics
  import opened Crypto
  import opened SkippedKeys
  import Text
  import JsInt

  datatype Chain = Chain(chainKey: Bytes, messageIndex: nat)
  datatype KeyPair = KeyPair(publicKey: Bytes, privateKey: Bytes)
  datatype Limits = Limits(maxSkip: nat, maxSkippedKeys: nat, maxSkippedBytes: nat)

  const DEFAULT_LIMITS := Limits(200, 500, 64 * 1024)

  /** A RatchetState without its (shared, mutable) store of skipped keys. */
  datatype Core = Core(
    rootKey: Bytes,
    sendingChain: Option<Chain>,
    receivingChain: Option<Chain>,
    self: KeyPair,
    remote: Bytes,
    limits: Limits)

  datatype Header = Header(sid: Bytes, dh: Option<Bytes>, dhFmt: string, pn: nat, n: nat)

  datatype Establish = Both | Sending | Receiving

  datatype LimitKind = MaxSkippedKeys | MaxSkippedBytes

  datatype RatchetError =
    | NoReceivingChain
    | SkippedKeyNotFound
    | SkipLimitExceeded(expected: nat, received: nat, maxSkip: nat)
    | StoreLimitExceeded(kind: LimitKind, limit: nat, value: nat)

  // ---- byte comparisons

  /** First difference of the bytes, else of the lengths. */
  function Compare(a: Bytes, b: Bytes): int {
    if a == [] || b == [] then |a| - |b|
    else
      var x: int, y: int := a[0], b[0];
      if x != y then x - y else Compare(a[1..], b[1..])
  }

  method CompareBytes(a: Bytes, b: Bytes) returns (r: int)
    ensures r == Compare(a, b)
  {
    var len := Min(|a|, |b|);
    var i := 0;
    assert a[0..] == a && b[0..] == b;
    while i < len
      invariant 0 <= i <= len
      invariant Compare(a, b) == Compare(a[i..], b[i..])
    {
      if a[i] != b[i] {
        var x: int, y: int := a[i], b[i];
        return x - y;
      }
      assert a[i..][1..] == a[i + 1..] && b[i..][1..] == b[i + 1..];
      i := i + 1;
    }
    return |a| - |b|;
  }

  /** The order that decides which half of a DH step is whose is a strict total order. */
  lemma {:induction false} CompareAntisymmetric(a: Bytes, b: Bytes)
    ensures Compare(a, b) == -Compare(b, a)
    ensures Compare(a, b) == 0 <==> a == b
  {
    if a != [] && b != [] && a[0] == b[0] {
      CompareAntisymmetric(a[1..], b[1..]);
      assert a == [a[0]] + a[1..] && b == [b[0]] + b[1..];
    }
  }

  /** The order is lexicographic: the smaller byte at the first difference, else the shorter key. */
  lemma {:induction false} CompareLexicographic(a: Bytes, b: Bytes)
    ensures Compare(a, b) < 0 <==>
      exists k :: 0 <= k < |b| && k <= |a| && a[..k] == b[..k] && (k == |a| || a[k] < b[k])
  {
    if a == [] {
      assert b != [] ==> a[..0] == b[..0];
    } else if b != [] && a[0] != b[0] {
      assert a[..0] == b[..0];
      assert forall k :: 0 < k <= |a| && k <= |b| && a[..k] == b[..k] ==> a[..k][0] == b[..k][0];
    } else if b != [] {
      var s, t := a[1..], b[1..];
      CompareLexicographic(s, t);
      if k :| 0 <= k < |t| && k <= |s| && s[..k] == t[..k] && (k == |s| || s[k] < t[k]) {
        assert a[..k + 1] == [a[0]] + s[..k] && b[..k + 1] == [b[0]] + t[..k];
        assert k + 1 == |a| || a[k + 1] < b[k + 1];
      }
      if k :| 0 <= k < |b| && k <= |a| && a[..k] == b[..k] && (k == |a| || a[k] < b[k]) {
        assert k > 0;
        assert s[..k - 1] == a[..k][1..] && t[..k - 1] == b[..k][1..];
        assert k - 1 == |s| || s[k - 1] < t[k - 1];
      }
    }
  }

  /** Constant-time equality: OR together the XOR of every pair of bytes. */
  method BytesEqual(a: Bytes, b: Bytes) returns (r: bool)
    ensures r <==> a == b
  {
    hide JsInt.JsXor, JsInt.JsOr;
    if |a| != |b| {
      return false;
    }
    var diff := 0;
    var i := 0;
    while i < |a|
      invariant 0 <= i <= |a|
      invariant 0 <= diff < 256
      invariant diff == 0 <==> a[..i] == b[..i]
    {
      JsInt.JsXorZero(a[i], b[i]);
      JsInt.JsOrZero(diff, JsInt.JsXor(a[i], b[i]));
      diff := JsInt.JsOr(diff, JsInt.JsXor(a[i], b[i]));
      assert a[..i + 1] == a[..i] + [a[i]] && b[..i + 1] == b[..i] + [b[i]];
      i := i + 1;
    }
    assert a[..i] == a && b[..i] == b;
    return diff == 0;
  }

  // ---- key derivation

  datatype RootKeys = RootKeys(newRootKey: Bytes, sendingChainKey: Bytes, receivingChainKey: Bytes)

  function DeriveRootKey(c: Provider, rootKey: Bytes, dhSecret: Bytes): RootKeys {
    var out := c.hkdf(dhSecret, rootKey, Text.Ascii("rez-ratchet-root-v1"), 96);
    RootKeys(Sub(out, 0, 32), Sub(out, 32, 64), Sub(out, 64, 96))
  }

  function MessageKey(c: Provider, chainKey: Bytes): Bytes {
    Sub(c.hkdf(chainKey, [], Text.Ascii("rez-ratchet-chain-v1"), 64), 0, 32)
  }

  function NextChainKey(c: Provider, chainKey: Bytes): Bytes {
    Sub(c.hkdf(chainKey, [], Text.Ascii("rez-ratchet-chain-v1"), 64), 32, 64)
  }

  // ---- state steps

  function InitializeAsInitiator(sharedSecret: Bytes, self: KeyPair, remote: Bytes): Core {
    Core(sharedSecret, Some(Chain(sharedSecret, 0)), None, self, remote, DEFAULT_LIMITS)
  }

  function InitializeAsResponder(sharedSecret: Bytes, self: KeyPair, remote: Bytes): Core {
    Core(sharedSecret, None, Some(Chain(sharedSecret, 0)), self, remote, DEFAULT_LIMITS)
  }

  /** A DH step derives both direction keys and installs only what it establishes. */
  function RatchetStep(c: Provider, s: Core, newRemote: Bytes, establish: Establish): Core {
    var keys := DeriveRootKey(c, s.rootKey, c.dh(s.self.privateKey, newRemote));
    var first := Compare(s.self.publicKey, newRemote) < 0;
    var sendKey := if first then keys.sendingChainKey else keys.receivingChainKey;
    var recvKey := if first then keys.receivingChainKey else keys.sendingChainKey;
    Core(
      keys.newRootKey,
      if establish != Receiving then Some(Chain(sendKey, 0)) else s.sendingChain,
      if establish != Sending then Some(Chain(recvKey, 0)) else s.receivingChain,
      s.self,
      newRemote,
      s.limits)
  }

  /** A step that establishes one direction differs from the full one only in keeping the other chain. */
  lemma StepKeepsOther(c: Provider, s: Core, newRemote: Bytes)
    ensures
      var both := RatchetStep(c, s, newRemote, Both);
      && RatchetStep(c, s, newRemote, Sending) == both.(receivingChain := s.receivingChain)
      && RatchetStep(c, s, newRemote, Establish.Receiving) == both.(sendingChain := s.sendingChain)
      && both.sendingChain.Some? && both.receivingChain.Some?
      && both.remote == newRemote && both.self == s.self && both.limits == s.limits
  {
  }

  /** The keys after a full step are the derived 96 bytes cut in three: the next root, then the chain of the
      party with the smaller public key, then that of the other. */
  lemma StepSplits(c: Provider, s: Core, r: Bytes)
    requires Lawful(c)
    ensures
      var t := RatchetStep(c, s, r, Both);
      var send, recv := t.sendingChain.value, t.receivingChain.value;
      && |t.rootKey| == |send.chainKey| == |recv.chainKey| == 32 && send.messageIndex == recv.messageIndex == 0
      && c.hkdf(c.dh(s.self.privateKey, r), s.rootKey, Text.Ascii("rez-ratchet-root-v1"), 96) ==
         t.rootKey +
         (if Compare(s.self.publicKey, r) < 0 then send.chainKey + recv.chainKey else recv.chainKey + send.chainKey)
  {
    hide Compare, Text.Ascii;
  }

  /** A chain's 64 derived bytes are the message key and then the next chain key. */
  lemma ChainSplits(c: Provider, ck: Bytes)
    requires Lawful(c)
    ensures |MessageKey(c, ck)| == |NextChainKey(c, ck)| == 32
    ensures MessageKey(c, ck) + NextChainKey(c, ck) == c.hkdf(ck, [], Text.Ascii("rez-ratchet-chain-v1"), 64)
  {
    hide Text.Ascii;
  }

  /** The three keys a step derives depend on the old root and on the agreement output: two steps of the
      same orientation that end with the same keys started from the same ones. */
  lemma StepBinds(c: Provider, s: Core, r: Bytes, s': Core, r': Bytes)
    requires Lawful(c) && (Compare(s.self.publicKey, r) < 0 <==> Compare(s'.self.publicKey, r') < 0)
    requires
      var t, t' := RatchetStep(c, s, r, Both), RatchetStep(c, s', r', Both);
      t.rootKey == t'.rootKey && t.sendingChain == t'.sendingChain && t.receivingChain == t'.receivingChain
    requires
      var info := Text.Ascii("rez-ratchet-root-v1");
      NoHkdfCollision(c, KdfInput(c.dh(s.self.privateKey, r), s.rootKey, info),
                      KdfInput(c.dh(s'.self.privateKey, r'), s'.rootKey, info), 96)
    ensures s.rootKey == s'.rootKey && c.dh(s.self.privateKey, r) == c.dh(s'.self.privateKey, r')
  {
    hide Compare, Text.Ascii, RatchetStep;
    StepSplits(c, s, r);
    StepSplits(c, s', r');
  }

  /** A chain's message key and next key together depend on its key. */
  lemma ChainBinds(c: Provider, ck: Bytes, ck': Bytes)
    requires Lawful(c) && MessageKey(c, ck) == MessageKey(c, ck') && NextChainKey(c, ck) == NextChainKey(c, ck')
    requires
      var info := Text.Ascii("rez-ratchet-chain-v1");
      NoHkdfCollision(c, KdfInput(ck, [], info), KdfInput(ck', [], info), 64)
    ensures ck == ck'
  {
    hide Text.Ascii, MessageKey, NextChainKey;
    ChainSplits(c, ck);
    ChainSplits(c, ck');
  }

  function Advance(c: Provider, chain: Chain): Chain {
    Chain(NextChainKey(c, chain.chainKey), chain.messageIndex + 1)
  }

  // ---- the receiving key for a header

  /** `${sidHex}:${dhHashHex}:${n}` */
  function LookupKey(sid: Bytes, dhHash: Bytes, n: nat): (k: string)
    ensures k != ""
  {
    Text.Hex(sid) + ":" + Text.Hex(dhHash) + ":" + Text.Decimal(n)
  }

  /** Lookup keys name their session, ratchet key and index unambiguously. */
  lemma LookupKeyInjective(sid: Bytes, h: Bytes, n: nat, sid': Bytes, h': Bytes, n': nat)
    requires LookupKey(sid, h, n) == LookupKey(sid', h', n')
    ensures sid == sid' && h == h' && n == n'
  {
    var a, b, d := Text.Hex(sid), Text.Hex(h), Text.Decimal(n);
    var a', b', d' := Text.Hex(sid'), Text.Hex(h'), Text.Decimal(n');
    assert a + ":" + b + ":" + d == a + [':'] + (b + [':'] + d);
    assert a' + ":" + b' + ":" + d' == a' + [':'] + (b' + [':'] + d');
    Text.SplitUnique(a, b + [':'] + d, a', b' + [':'] + d', ':');
    Text.SplitUnique(b, d, b', d', ':');
    Text.HexInjective(sid, sid');
    Text.HexInjective(h, h');
    Text.DecimalInjective(n, n');
  }

  /** What a call leaves behind: its result, and the store even when it failed. */
  datatype Outcome<+T> = Outcome(result: Result<T, RatchetError>, store: seq<Entry>)

  datatype Derived = Derived(messageKey: Bytes, next: Core, usedSkipped: bool)

  /** The loop that files the keys of the messages before number n. */
  function SkipTo(c: Provider, chain: Chain, limits: Limits, store: seq<Entry>, sid: Bytes, dhHash: Bytes, n: nat)
    : Outcome<Chain>
    decreases n - chain.messageIndex
  {
    if chain.messageIndex >= n then Outcome(Ok(chain), store)
    else
      var mk := MessageKey(c, chain.chainKey);
      var count, bytes := |store| + 1, TotalBytes(store) + |mk|;
      if count > limits.maxSkippedKeys then
        Outcome(Err(StoreLimitExceeded(MaxSkippedKeys, limits.maxSkippedKeys, count)), store)
      else if bytes > limits.maxSkippedBytes then
        Outcome(Err(StoreLimitExceeded(MaxSkippedBytes, limits.maxSkippedBytes, bytes)), store)
      else
        SkipTo(c, Advance(c, chain), limits, Put(store, LookupKey(sid, dhHash, chain.messageIndex), mk), sid, dhHash, n)
  }

  /** The message key a chain has for number i. */
  function KeyFor(c: Provider, chain: Chain, i: nat): Bytes
    decreases i - chain.messageIndex
  {
    if i <= chain.messageIndex then MessageKey(c, chain.chainKey) else KeyFor(c, Advance(c, chain), i)
  }

  /** The store holds the chain's keys for the numbers up to `stop`, and otherwise what it held before. */
  ghost predicate FiledUpTo(
    c: Provider, chain: Chain, sid: Bytes, dhHash: Bytes, stop: nat, before: seq<Entry>, after: seq<Entry>)
  {
    && Keyed(after)
    && (forall i :: chain.messageIndex <= i < stop ==>
          Get(after, LookupKey(sid, dhHash, i)) == Some(KeyFor(c, chain, i)))
    && (forall k :: (forall i :: chain.messageIndex <= i < stop ==> k != LookupKey(sid, dhHash, i)) ==>
          Get(after, k) == Get(before, k))
  }

  /** The loop files a run of numbers, all of them exactly when it succeeds, and touches nothing else. */
  lemma {:induction false} SkipLeaves(
    c: Provider, chain: Chain, limits: Limits, store: seq<Entry>, sid: Bytes, dhHash: Bytes, n: nat)
    returns (stop: nat)
    requires Keyed(store) && chain.messageIndex <= n
    ensures
      var o := SkipTo(c, chain, limits, store, sid, dhHash, n);
      && chain.messageIndex <= stop <= n && (o.result.Ok? <==> stop == n)
      && FiledUpTo(c, chain, sid, dhHash, stop, store, o.store)
    decreases n - chain.messageIndex
  {
    hide Get, Put, LookupKey, MessageKey, NextChainKey, Keyed;
    var from := chain.messageIndex;
    var mk := MessageKey(c, chain.chainKey);
    stop := from;
    if from < n && |store| + 1 <= limits.maxSkippedKeys && TotalBytes(store) + |mk| <= limits.maxSkippedBytes {
      var key := LookupKey(sid, dhHash, from);
      var put := Put(store, key, mk);
      PutGet(store, key, mk, key);
      stop := SkipLeaves(c, Advance(c, chain), limits, put, sid, dhHash, n);
      forall k ensures Get(put, k) == if k == key then Some(mk) else Get(store, k) { PutGet(store, key, mk, k); }
      forall i | from < i < stop ensures LookupKey(sid, dhHash, i) != key {
        if LookupKey(sid, dhHash, i) == key { LookupKeyInjective(sid, dhHash, i, sid, dhHash, from); }
      }
    }
  }

  /** A new DH key in the header establishes the receiving chain first. */
  function Accept(c: Provider, s: Core, header: Header): Core {
    if header.dh.Some? && header.dh.value != s.remote
    then RatchetStep(c, s, header.dh.value, Receiving) else s
  }

  function Derive(c: Provider, s: Core, store: seq<Entry>, header: Header, sid: Bytes): Outcome<Derived> {
    var w := Accept(c, s, header);
    if w.receivingChain.None? then Outcome(Err(NoReceivingChain), store)
    else
      var dhHash := c.hash(w.remote);
      var key := LookupKey(sid, dhHash, header.n);
      var chain := w.receivingChain.value;
      var existing := Get(store, key);
      if existing.Some? then Outcome(Ok(Derived(existing.value, w, true)), Drop(store, key))
      else if header.n < chain.messageIndex then Outcome(Err(SkippedKeyNotFound), store)
      else if header.n - chain.messageIndex > w.limits.maxSkip then
        Outcome(Err(SkipLimitExceeded(chain.messageIndex, header.n, w.limits.maxSkip)), store)
      else
        var skipped := SkipTo(c, chain, w.limits, store, sid, dhHash, header.n);
        match skipped.result
        case Err(e) => Outcome(Err(e), skipped.store)
        case Ok(at) =>
          Outcome(Ok(Derived(MessageKey(c, at.chainKey), w.(receivingChain := Some(Advance(c, at))), false)),
                  skipped.store)
  }

  // ---- the service, working on the shared store

  datatype RatchetState = RatchetState(core: Core, skipped: SkippedKeyStore)

  datatype DerivedKey = DerivedKey(messageKey: Bytes, nextState: RatchetState, usedSkipped: bool)

  /** The async method of the service, run to completion. The store keeps every write made
      before an error. */
  method DeriveReceivingKeyForHeader(c: Provider, state: RatchetState, header: Header, sid: Bytes)
    returns (r: Result<DerivedKey, RatchetError>)
    requires state.skipped.Valid()
    modifies state.skipped
    ensures state.skipped.Valid()
    ensures
      var spec := Derive(c, state.core, old(state.skipped.entries), header, sid);
      && state.skipped.entries == spec.store
      && match r
         case Err(e) => spec.result == Err(e)
         case Ok(d) => d.nextState.skipped == state.skipped
                       && spec.result == Ok(Derived(d.messageKey, d.nextState.core, d.usedSkipped))
  {
    hide Put, FindIndex, Get, Drop, LookupKey, MessageKey, SkipTo, RatchetStep;
    var working := state.core;
    if header.dh.Some? {
      var same := BytesEqual(header.dh.value, working.remote);
      if !same {
        working := RatchetStep(c, working, header.dh.value, Receiving);
      }
    }
    if working.receivingChain.None? {
      return Err(NoReceivingChain);
    }
    var dhHash := c.hash(working.remote);
    var skipped := state.skipped;
    var key := LookupKey(sid, dhHash, header.n);
    var existing := skipped.Lookup(key);
    if existing.Some? {
      var _ := skipped.Delete(key);
      return Ok(DerivedKey(existing.value, RatchetState(working, skipped), true));
    }
    var chain := working.receivingChain.value;
    if header.n < chain.messageIndex {
      return Err(SkippedKeyNotFound);
    }
    if header.n - chain.messageIndex > working.limits.maxSkip {
      return Err(SkipLimitExceeded(chain.messageIndex, header.n, working.limits.maxSkip));
    }
    var at := SkipAhead(c, chain, working.limits, skipped, sid, dhHash, header.n);
    if at.Err? {
      return Err(at.error);
    }
    var next := working.(receivingChain := Some(Advance(c, at.value)));
    return Ok(DerivedKey(MessageKey(c, at.value.chainKey), RatchetState(next, skipped), false));
  }

  /** The loop of that method. */
  method SkipAhead(
    c: Provider, start: Chain, limits: Limits, skipped: SkippedKeyStore, sid: Bytes, dhHash: Bytes, n: nat)
    returns (r: Result<Chain, RatchetError>)
    requires skipped.Valid() && start.messageIndex <= n
    modifies skipped
    ensures skipped.Valid()
    ensures Outcome(r, skipped.entries) == SkipTo(c, start, limits, old(skipped.entries), sid, dhHash, n)
  {
    hide Put, FindIndex, LookupKey, MessageKey;
    var chain := start;
    ghost var before := skipped.entries;
    while chain.messageIndex < n
      invariant skipped.Valid()
      invariant chain.messageIndex <= n
      invariant SkipTo(c, start, limits, before, sid, dhHash, n)
             == SkipTo(c, chain, limits, skipped.entries, sid, dhHash, n)
      decreases n - chain.messageIndex
    {
      var mk := MessageKey(c, chain.chainKey);
      var nextCount := skipped.Size() + 1;
      if nextCount > limits.maxSkippedKeys {
        return Err(StoreLimitExceeded(MaxSkippedKeys, limits.maxSkippedKeys, nextCount));
      }
      var nextBytes := skipped.totalBytes + |mk|;
      if nextBytes > limits.maxSkippedBytes {
        return Err(StoreLimitExceeded(MaxSkippedBytes, limits.maxSkippedBytes, nextBytes));
      }
      var _ := skipped.Set(LookupKey(sid, dhHash, chain.messageIndex), mk);
      chain := Advance(c, chain);
    }
    return Ok(chain);
  }
}
