/** The time-limited, size-limited duplicate filter (`network/DeduperLRU.js`). */
module Deduper {
  import opened Basics
  import Text

  const PRUNE_INTERVAL: real := 60000.0

  /** The JavaScript Map, oldest insertion first. */
  datatype Entry = Entry(key: string, ts: real)
  datatype Cache = Cache(capacity: nat, ttl: real, entries: seq<Entry>, lastPrune: real)

  predicate ValidKey(key: string) {
    Text.Trim(key) != ""
  }

  function Keys(entries: seq<Entry>): set<string> {
    set e | e in entries :: e.key
  }

  function Lookup(entries: seq<Entry>, key: string): (r: Option<real>)
    ensures r.Some? <==> key in Keys(entries)
    ensures r.Some? ==> Entry(key, r.value) in entries
  {
    if entries == [] then None
    else if entries[0].key == key then Some(entries[0].ts)
    else
      var r := Lookup(entries[1..], key);
      assert entries == [entries[0]] + entries[1..];
      r
  }

  function Remove(entries: seq<Entry>, key: string): (r: seq<Entry>)
    ensures |r| == |entries| - (if key in Keys(entries) then 1 else 0)
  {
    if entries == [] then []
    else
      assert entries == [entries[0]] + entries[1..];
      if entries[0].key == key then entries[1..] else [entries[0]] + Remove(entries[1..], key)
  }

  function Unexpired(entries: seq<Entry>, ttl: real, now: real): seq<Entry> {
    if entries == [] then []
    else (if now - entries[0].ts > ttl then [] else [entries[0]]) + Unexpired(entries[1..], ttl, now)
  }

  function Tidied(c: Cache, now: real): (r: Cache)
    ensures r.capacity == c.capacity && r.ttl == c.ttl
  {
    if now - c.lastPrune >= PRUNE_INTERVAL then c.(entries := Unexpired(c.entries, c.ttl, now), lastPrune := now) else c
  }

  function Evicted(entries: seq<Entry>, capacity: nat): (r: seq<Entry>)
    ensures |r| <= capacity
  {
    if |entries| > capacity then Evicted(entries[1..], capacity) else entries
  }

  function SeenStep(c: Cache, key: string, now: real): (r: (bool, Cache)) {
    var t := Tidied(c, now);
    if !ValidKey(key) then (false, t)
    else match Lookup(t.entries, key)
      case None => (false, t)
      case Some(ts) =>
        if now - ts > t.ttl then (false, t.(entries := Remove(t.entries, key))) else (true, t)
  }

  function MarkStep(c: Cache, key: string, now: real): (r: Cache) {
    var t := Tidied(c, now);
    if !ValidKey(key) then t
    else t.(entries := Evicted(Remove(t.entries, key) + [Entry(key, now)], t.capacity))
  }

  // ---- the reference: a log of marks

  datatype Mark = Mark(key: string, at: real)

  function LastMark(log: seq<Mark>, key: string): Option<real> {
    if log == [] then None
    else
      var m := log[|log| - 1];
      if m.key == key then Some(m.at) else LastMark(log[..|log| - 1], key)
  }

  /** The distinct other keys marked after the key's last mark. */
  function Since(log: seq<Mark>, key: string): set<string> {
    if log == [] then {}
    else
      var m := log[|log| - 1];
      if m.key == key then {} else Since(log[..|log| - 1], key) + {m.key}
  }

  predicate Remembered(log: seq<Mark>, capacity: nat, ttl: real, key: string, now: real) {
    && LastMark(log, key).Some?
    && now - LastMark(log, key).value <= ttl
    && |Since(log, key)| < capacity
  }

  // ---- the invariant between map and log

  ghost predicate Agrees(entries: seq<Entry>, log: seq<Mark>, ttl: real, now: real) {
    entries == [] ||
    var e, rest := entries[0], entries[1..];
    && LastMark(log, e.key) == Some(e.ts)
    && e.ts <= now
    && e.key !in Keys(rest)
    && (forall x :: x in rest ==> e.ts <= x.ts)
    && (now - e.ts <= ttl ==> Keys(rest) == Since(log, e.key))
    && Agrees(rest, log, ttl, now)
  }

  /** A key whose last mark is recent is missing only because enough others came after it. */
  ghost predicate MissingOnlyByCapacity(entries: seq<Entry>, log: seq<Mark>, capacity: nat, ttl: real, now: real) {
    forall k :: k !in Keys(entries) && LastMark(log, k).Some? && now - LastMark(log, k).value <= ttl ==>
      |Since(log, k)| >= capacity
  }

  ghost predicate Inv(c: Cache, log: seq<Mark>, now: real) {
    && c.capacity > 0 && c.ttl >= 0.0
    && |c.entries| <= c.capacity
    && Agrees(c.entries, log, c.ttl, now)
    && MissingOnlyByCapacity(c.entries, log, c.capacity, c.ttl, now)
  }

  lemma KeysCons(e: Entry, rest: seq<Entry>)
    ensures Keys([e] + rest) == {e.key} + Keys(rest)
  {
    assert e in [e] + rest;
    forall x | x in rest ensures x in [e] + rest { }
  }

  lemma KeysUncons(entries: seq<Entry>)
    requires entries != []
    ensures Keys(entries) == {entries[0].key} + Keys(entries[1..])
  {
    assert entries == [entries[0]] + entries[1..];
    KeysCons(entries[0], entries[1..]);
  }

  lemma {:induction false} Later(entries: seq<Entry>, log: seq<Mark>, ttl: real, now: real, now': real)
    requires Agrees(entries, log, ttl, now) && now <= now'
    ensures Agrees(entries, log, ttl, now')
  {
    if entries != [] { Later(entries[1..], log, ttl, now, now'); }
  }

  /** Dropping expired entries: what is left is a sublist with every unexpired entry. */
  ghost predicate Drops(kept: seq<Entry>, entries: seq<Entry>, ttl: real, now: real) {
    && (forall x :: x in kept ==> x in entries)
    && (forall x :: x in entries && now - x.ts <= ttl ==> x in kept)
  }

  lemma DropKeys(kept: seq<Entry>, entries: seq<Entry>, ttl: real, now: real)
    requires Drops(kept, entries, ttl, now)
    requires forall x :: x in entries ==> now - x.ts <= ttl
    ensures Keys(kept) == Keys(entries)
  {
  }

  lemma {:induction false} UnexpiredAgrees(entries: seq<Entry>, log: seq<Mark>, ttl: real, now: real)
    requires Agrees(entries, log, ttl, now)
    ensures var kept := Unexpired(entries, ttl, now);
      Agrees(kept, log, ttl, now) && Drops(kept, entries, ttl, now) && |kept| <= |entries|
  {
    if entries != [] {
      var e, rest := entries[0], entries[1..];
      UnexpiredAgrees(rest, log, ttl, now);
      assert entries == [e] + rest;
      var kept := Unexpired(rest, ttl, now);
      if now - e.ts <= ttl {
        DropKeys(kept, rest, ttl, now);
        assert ([e] + kept)[1..] == kept;
      } else {
        assert Unexpired(entries, ttl, now) == kept;
      }
    }
  }

  lemma {:induction false} RemoveExpiredAgrees(entries: seq<Entry>, log: seq<Mark>, ttl: real, now: real, key: string)
    requires Agrees(entries, log, ttl, now)
    requires LastMark(log, key).Some? && now - LastMark(log, key).value > ttl
    ensures var kept := Remove(entries, key);
      Agrees(kept, log, ttl, now) && Drops(kept, entries, ttl, now)
  {
    if entries != [] {
      var e, rest := entries[0], entries[1..];
      RemoveExpiredAgrees(rest, log, ttl, now, key);
      assert entries == [e] + rest;
      var kept := Remove(rest, key);
      if e.key == key {
        assert Remove(entries, key) == rest;
      } else {
        if now - e.ts <= ttl { DropKeys(kept, rest, ttl, now); }
        assert ([e] + kept)[1..] == kept;
      }
    }
  }

  lemma {:induction false} AgreesMember(entries: seq<Entry>, log: seq<Mark>, ttl: real, now: real, x: Entry)
    requires Agrees(entries, log, ttl, now) && x in entries
    ensures LastMark(log, x.key) == Some(x.ts) && x.ts <= now
  {
    if x != entries[0] { AgreesMember(entries[1..], log, ttl, now, x); }
  }

  lemma DropsKeepInv(c: Cache, kept: seq<Entry>, log: seq<Mark>, now: real)
    requires Inv(c, log, now) && |kept| <= |c.entries|
    requires Agrees(kept, log, c.ttl, now) && Drops(kept, c.entries, c.ttl, now)
    ensures Inv(c.(entries := kept), log, now)
  {
    forall k | k !in Keys(kept) && LastMark(log, k).Some? && now - LastMark(log, k).value <= c.ttl
      ensures k !in Keys(c.entries)
    {
      if k in Keys(c.entries) {
        var x :| x in c.entries && x.key == k;
        AgreesMember(c.entries, log, c.ttl, now, x);
      }
    }
  }

  lemma TidiedKeepsInv(c: Cache, log: seq<Mark>, now: real, now': real)
    requires Inv(c, log, now) && now <= now'
    ensures Inv(Tidied(c, now'), log, now')
  {
    Later(c.entries, log, c.ttl, now, now');
    assert Inv(c, log, now');
    UnexpiredAgrees(c.entries, log, c.ttl, now');
    DropsKeepInv(c, Unexpired(c.entries, c.ttl, now'), log, now');
  }

  // ---- looking up

  lemma {:induction false} AgreesLookup(entries: seq<Entry>, log: seq<Mark>, ttl: real, now: real, key: string)
    requires Agrees(entries, log, ttl, now) && key in Keys(entries)
    ensures LastMark(log, key).Some? && Lookup(entries, key) == LastMark(log, key)
    ensures now - LastMark(log, key).value <= ttl ==> Since(log, key) <= Keys(entries) - {key}
  {
    KeysUncons(entries);
    if entries[0].key != key { AgreesLookup(entries[1..], log, ttl, now, key); }
  }

  lemma {:induction false} KeysCount(entries: seq<Entry>)
    ensures |Keys(entries)| <= |entries|
  {
    if entries != [] {
      KeysUncons(entries);
      KeysCount(entries[1..]);
    }
  }

  lemma SubsetCount(a: set<string>, b: set<string>)
    requires a <= b
    ensures |a| <= |b|
  {
    assert b == a + (b - a);
  }

  /** A lookup answers as the log does, and keeps the invariant. */
  lemma SeenMeetsLog(c: Cache, log: seq<Mark>, now: real, key: string, now': real)
    requires Inv(c, log, now) && now <= now'
    requires ValidKey(key) || LastMark(log, key).None?
    ensures SeenStep(c, key, now').0 <==> Remembered(log, c.capacity, c.ttl, key, now')
    ensures Inv(SeenStep(c, key, now').1, log, now')
  {
    hide Agrees, ValidKey, Keys;
    TidiedKeepsInv(c, log, now, now');
    var t := Tidied(c, now');
    if ValidKey(key) && key in Keys(t.entries) {
      AgreesLookup(t.entries, log, t.ttl, now', key);
      if now' - LastMark(log, key).value <= t.ttl {
        KeysCount(t.entries);
        SubsetCount(Since(log, key), Keys(t.entries) - {key});
      } else {
        RemoveExpiredAgrees(t.entries, log, t.ttl, now', key);
        DropsKeepInv(t, Remove(t.entries, key), log, now');
      }
    }
  }

  // ---- marking

  lemma {:induction false} KeysRemoved(entries: seq<Entry>, log: seq<Mark>, ttl: real, now: real, key: string)
    requires Agrees(entries, log, ttl, now)
    ensures Keys(Remove(entries, key)) == Keys(entries) - {key}
    ensures forall x :: x in Remove(entries, key) ==> x in entries
  {
    if entries != [] {
      KeysUncons(entries);
      KeysRemoved(entries[1..], log, ttl, now, key);
      if entries[0].key != key { KeysCons(entries[0], Remove(entries[1..], key)); }
    }
  }

  lemma LogExtended(log: seq<Mark>, key: string, at: real, k: string)
    ensures LastMark(log + [Mark(key, at)], k) == if k == key then Some(at) else LastMark(log, k)
    ensures Since(log + [Mark(key, at)], k) == if k == key then {} else Since(log, k) + {key}
  {
    assert (log + [Mark(key, at)])[..|log|] == log;
  }

  lemma KeysSnoc(entries: seq<Entry>, e: Entry)
    ensures Keys(entries + [e]) == Keys(entries) + {e.key}
  {
    assert e in entries + [e];
    forall x | x in entries ensures x in entries + [e] { }
  }

  /** Touching a key further back leaves the head in order. */
  lemma HeadAgrees(e: Entry, rest: seq<Entry>, tail: seq<Entry>, log: seq<Mark>, ttl: real, now: real, key: string)
    requires Agrees([e] + rest, log, ttl, now) && e.key != key
    requires Keys(tail) == Keys(rest) + {key}
    requires forall x :: x in tail ==> x in rest || x.ts == now
    requires Agrees(tail, log + [Mark(key, now)], ttl, now)
    ensures Agrees([e] + tail, log + [Mark(key, now)], ttl, now)
  {
    hide Keys;
    assert ([e] + rest)[1..] == rest && ([e] + tail)[1..] == tail;
    LogExtended(log, key, now, e.key);
  }

  lemma {:induction false} TouchAgrees(entries: seq<Entry>, log: seq<Mark>, ttl: real, now: real, key: string)
    requires Agrees(entries, log, ttl, now) && ttl >= 0.0
    ensures Agrees(Remove(entries, key) + [Entry(key, now)], log + [Mark(key, now)], ttl, now)
  {
    assert Keys([]) == {};
    hide Keys, LastMark, Since;
    var last := Entry(key, now);
    if entries == [] {
      UntouchedAgrees([], log, ttl, now, key);
      assert Remove(entries, key) == [];
    } else if entries[0].key == key {
      UntouchedAgrees(entries[1..], log, ttl, now, key);
      assert Remove(entries, key) == entries[1..];
    } else {
      var e, rest := entries[0], entries[1..];
      TouchAgrees(rest, log, ttl, now, key);
      var tail := Remove(rest, key) + [last];
      KeysRemoved(rest, log, ttl, now, key);
      KeysSnoc(Remove(rest, key), last);
      assert entries == [e] + rest;
      assert Keys(tail) == Keys(rest) + {key};
      HeadAgrees(e, rest, tail, log, ttl, now, key);
      assert Remove(entries, key) + [last] == [e] + tail;
    }
  }

  lemma {:induction false} UntouchedAgrees(rest: seq<Entry>, log: seq<Mark>, ttl: real, now: real, key: string)
    requires Agrees(rest, log, ttl, now) && ttl >= 0.0 && key !in Keys(rest)
    ensures Agrees(rest + [Entry(key, now)], log + [Mark(key, now)], ttl, now)
  {
    var last := Entry(key, now);
    if rest == [] {
      LogExtended(log, key, now, key);
      assert rest + [last] == [last] && [last][1..] == [];
      assert Agrees([], log + [Mark(key, now)], ttl, now);
    } else {
      var e, more := rest[0], rest[1..];
      KeysUncons(rest);
      UntouchedAgrees(more, log, ttl, now, key);
      KeysSnoc(more, last);
      assert rest == [e] + more;
      HeadAgrees(e, more, more + [last], log, ttl, now, key);
      assert rest + [last] == [e] + (more + [last]);
    }
  }

  lemma {:induction false} AgreesCount(entries: seq<Entry>, log: seq<Mark>, ttl: real, now: real)
    requires Agrees(entries, log, ttl, now)
    ensures |Keys(entries)| == |entries|
  {
    if entries != [] {
      KeysUncons(entries);
      AgreesCount(entries[1..], log, ttl, now);
    }
  }

  lemma MarkKeepsInv(c: Cache, log: seq<Mark>, now: real, key: string, now': real)
    requires Inv(c, log, now) && now <= now' && ValidKey(key)
    ensures Inv(MarkStep(c, key, now'), log + [Mark(key, now')], now')
  {
    hide ValidKey, Agrees, Keys;
    TidiedKeepsInv(c, log, now, now');
    var t := Tidied(c, now');
    var all := Remove(t.entries, key) + [Entry(key, now')];
    var log' := log + [Mark(key, now')];
    TouchAgrees(t.entries, log, t.ttl, now', key);
    KeysRemoved(t.entries, log, t.ttl, now', key);
    KeysSnoc(Remove(t.entries, key), Entry(key, now'));
    forall k | k !in Keys(all) && LastMark(log', k).Some? && now' - LastMark(log', k).value <= t.ttl
      ensures |Since(log', k)| >= t.capacity
    {
      LogExtended(log, key, now', k);
      SubsetCount(Since(log, k), Since(log', k));
    }
    assert MissingOnlyByCapacity(all, log', t.capacity, t.ttl, now');
    EvictKeeps(all, log', t.capacity, t.ttl, now');
  }

  lemma EvictKeeps(all: seq<Entry>, log: seq<Mark>, capacity: nat, ttl: real, now: real)
    requires Agrees(all, log, ttl, now) && MissingOnlyByCapacity(all, log, capacity, ttl, now)
    requires |all| <= capacity + 1
    ensures var left := Evicted(all, capacity);
      Agrees(left, log, ttl, now) && MissingOnlyByCapacity(left, log, capacity, ttl, now)
  {
    if |all| > capacity {
      var e, rest := all[0], all[1..];
      assert Evicted(all, capacity) == rest;
      KeysUncons(all);
      AgreesCount(rest, log, ttl, now);
    }
  }

  // ---- whole runs

  datatype Op = Look(key: string, at: real) | Note(key: string, at: real) | Clear

  function Step(c: Cache, op: Op): Cache {
    match op
    case Look(key, at) => SeenStep(c, key, at).1
    case Note(key, at) => MarkStep(c, key, at)
    case Clear => c.(entries := [], lastPrune := 0.0)
  }

  function Logged(log: seq<Mark>, op: Op): seq<Mark> {
    match op
    case Look(_, _) => log
    case Note(key, at) => if ValidKey(key) then log + [Mark(key, at)] else log
    case Clear => []
  }

  function Run(c: Cache, ops: seq<Op>): Cache {
    if ops == [] then c else Step(Run(c, ops[..|ops| - 1]), ops[|ops| - 1])
  }

  function Log(ops: seq<Op>): seq<Mark> {
    if ops == [] then [] else Logged(Log(ops[..|ops| - 1]), ops[|ops| - 1])
  }

  /** The clock after the run, when it never went back; it starts at `start`. */
  ghost predicate Clocked(ops: seq<Op>, start: real, now: real) {
    if ops == [] then start <= now
    else
      var op, before := ops[|ops| - 1], ops[..|ops| - 1];
      match op
      case Clear => Clocked(before, start, now)
      case Look(_, at) => at <= now && Clocked(before, start, at)
      case Note(_, at) => at <= now && Clocked(before, start, at)
  }

  function Fresh(capacity: nat, ttl: real): Cache {
    Cache(capacity, ttl, [], 0.0)
  }

  lemma {:induction false} LogIsValid(ops: seq<Op>, key: string)
    requires !ValidKey(key)
    ensures LastMark(Log(ops), key).None?
  {
    hide ValidKey;
    if ops != [] {
      var before := ops[..|ops| - 1];
      LogIsValid(before, key);
      match ops[|ops| - 1]
      case Note(k, at) => LogExtended(Log(before), k, at, key);
      case _ =>
    }
  }

  lemma InvLater(c: Cache, log: seq<Mark>, now: real, now': real)
    requires Inv(c, log, now) && now <= now'
    ensures Inv(c, log, now')
  {
    Later(c.entries, log, c.ttl, now, now');
  }

  lemma {:induction false} RunKeepsInv(capacity: nat, ttl: real, ops: seq<Op>, start: real, now: real)
    requires capacity > 0 && ttl >= 0.0 && Clocked(ops, start, now)
    ensures var c := Run(Fresh(capacity, ttl), ops);
      c.capacity == capacity && c.ttl == ttl && Inv(c, Log(ops), now)
  {
    hide Inv, ValidKey, Tidied;
    if ops == [] {
      StartsInv(Fresh(capacity, ttl), now);
    } else {
      var op, before := ops[|ops| - 1], ops[..|ops| - 1];
      match op {
        case Clear =>
          RunKeepsInv(capacity, ttl, before, start, now);
          StartsInv(Run(Fresh(capacity, ttl), ops), now);
        case Look(key, at) =>
          RunKeepsInv(capacity, ttl, before, start, at);
          if !ValidKey(key) { LogIsValid(before, key); }
          SeenMeetsLog(Run(Fresh(capacity, ttl), before), Log(before), at, key, at);
          InvLater(Run(Fresh(capacity, ttl), ops), Log(ops), at, now);
        case Note(key, at) =>
          RunKeepsInv(capacity, ttl, before, start, at);
          var c := Run(Fresh(capacity, ttl), before);
          if ValidKey(key) {
            MarkKeepsInv(c, Log(before), at, key, at);
          } else {
            TidiedKeepsInv(c, Log(before), at, at);
          }
          InvLater(Run(Fresh(capacity, ttl), ops), Log(ops), at, now);
      }
    }
  }

  lemma StartsInv(c: Cache, now: real)
    requires c.capacity > 0 && c.ttl >= 0.0 && c.entries == []
    ensures Inv(c, [], now)
  {
  }

  /** After any run under a clock that never goes back, `seen` answers exactly as the mark log. */
  lemma SeenIffRemembered(capacity: nat, ttl: real, ops: seq<Op>, start: real, key: string, now: real)
    requires capacity > 0 && ttl >= 0.0 && Clocked(ops, start, now)
    ensures SeenStep(Run(Fresh(capacity, ttl), ops), key, now).0 <==> Remembered(Log(ops), capacity, ttl, key, now)
  {
    hide Inv, ValidKey, Tidied, Remembered;
    RunKeepsInv(capacity, ttl, ops, start, now);
    if !ValidKey(key) { LogIsValid(ops, key); }
    SeenMeetsLog(Run(Fresh(capacity, ttl), ops), Log(ops), now, key, now);
  }

  // ---- the object

  class DeduperLRU {
    const capacity: nat
    const ttl: real
    var entries: seq<Entry>
    var lastPrune: real

    ghost predicate Valid() reads this {
      OneEntryEach(entries)
    }

    ghost function State(): Cache reads this {
      Cache(capacity, ttl, entries, lastPrune)
    }

    constructor (requestedCapacity: int, requestedTtl: real)
      ensures Valid() && State() == Fresh(capacity, ttl)
      ensures capacity == Max(100, if requestedCapacity == 0 then 50000 else requestedCapacity)
      ensures ttl ==
        (if requestedTtl == 0.0 then 86400000.0 else if requestedTtl > 1000.0 then requestedTtl else 1000.0)
    {
      capacity := Max(100, if requestedCapacity == 0 then 50000 else requestedCapacity);
      ttl := if requestedTtl == 0.0 then 86400000.0 else if requestedTtl > 1000.0 then requestedTtl else 1000.0;
      entries := [];
      lastPrune := 0.0;
    }

    method Prune(now: real)
      requires Valid()
      modifies this`entries
      ensures Valid() && entries == Unexpired(old(entries), ttl, now)
    {
      hide Unexpired, Remove, OneEntryEach;
      var all, i := entries, 0;
      UnexpiredNone(all, ttl, now);
      while i < |all|
        invariant 0 <= i <= |all|
        invariant entries == Unexpired(all[..i], ttl, now) + all[i..]
        invariant OneEntryEach(entries)
      {
        PruneStep(all, i, ttl, now);
        if now - all[i].ts > ttl {
          entries := Remove(entries, all[i].key);
        }
        i := i + 1;
      }
      assert all[..i] == all;
    }

    method Seen(key: string, now: real) returns (r: bool)
      requires Valid()
      modifies this
      ensures Valid() && (r, State()) == SeenStep(old(State()), key, now)
    {
      if now - lastPrune >= PRUNE_INTERVAL {
        Prune(now);
        lastPrune := now;
      }
      if !ValidKey(key) {
        return false;
      }
      match Lookup(entries, key) {
        case None => return false;
        case Some(ts) =>
          if now - ts > ttl {
            RemoveDistinct(entries, key);
            entries := Remove(entries, key);
            return false;
          }
          return true;
      }
    }

    method MarkKey(key: string, now: real)
      requires Valid()
      modifies this
      ensures Valid() && State() == MarkStep(old(State()), key, now)
    {
      if now - lastPrune >= PRUNE_INTERVAL {
        Prune(now);
        lastPrune := now;
      }
      if !ValidKey(key) {
        return;
      }
      RemoveDistinct(entries, key);
      entries := Remove(entries, key);
      DistinctSnoc(entries, Entry(key, now));
      entries := entries + [Entry(key, now)];
      ghost var all, tidied := entries, lastPrune;
      while |entries| > capacity
        invariant lastPrune == tidied && Evicted(entries, capacity) == Evicted(all, capacity)
        invariant OneEntryEach(entries)
      {
        entries := entries[1..];
      }
    }

    method ClearAll()
      modifies this
      ensures Valid() && State() == Step(old(State()), Op.Clear)
    {
      entries := [];
      lastPrune := 0.0;
    }
  }

  ghost predicate OneEntryEach(entries: seq<Entry>) {
    forall i, j :: 0 <= i < j < |entries| ==> entries[i].key != entries[j].key
  }

  lemma {:induction false} UnexpiredSnoc(all: seq<Entry>, i: nat, ttl: real, now: real)
    requires i < |all|
    ensures Unexpired(all[..i + 1], ttl, now) ==
      Unexpired(all[..i], ttl, now) + (if now - all[i].ts > ttl then [] else [all[i]])
    decreases i
  {
    if i > 0 {
      UnexpiredSnoc(all[1..], i - 1, ttl, now);
      assert all[..i + 1][1..] == all[1..][..i] && all[..i][1..] == all[1..][..i - 1];
    } else {
      assert all[..1][1..] == [] && all[..0] == [];
    }
  }

  lemma UnexpiredNone(all: seq<Entry>, ttl: real, now: real)
    ensures Unexpired(all[..0], ttl, now) == []
  {
  }

  /** What one turn of the pruning loop leaves. */
  lemma PruneStep(all: seq<Entry>, i: nat, ttl: real, now: real)
    requires i < |all| && OneEntryEach(Unexpired(all[..i], ttl, now) + all[i..])
    ensures
      var before, after := Unexpired(all[..i], ttl, now) + all[i..], Unexpired(all[..i + 1], ttl, now) + all[i + 1..];
      && OneEntryEach(after)
      && (if now - all[i].ts > ttl then Remove(before, all[i].key) == after else before == after)
  {
    hide Unexpired, Remove;
    UnexpiredSnoc(all, i, ttl, now);
    var kept := Unexpired(all[..i], ttl, now);
    assert kept + all[i..] == kept + [all[i]] + all[i + 1..];
    RemoveMiddle(kept, all[i], all[i + 1..]);
    var after := Unexpired(all[..i + 1], ttl, now) + all[i + 1..];
    assert after == if now - all[i].ts > ttl then kept + all[i + 1..] else kept + [all[i]] + all[i + 1..];
  }

  lemma RemoveMiddle(a: seq<Entry>, e: Entry, b: seq<Entry>)
    requires OneEntryEach(a + [e] + b)
    ensures Remove(a + [e] + b, e.key) == a + b && OneEntryEach(a + b)
  {
    hide Remove, Keys;
    var all := a + [e] + b;
    DropDistinct(all, |a|);
    assert all[|a|] == e && all[..|a|] == a && all[|a| + 1..] == b;
    forall i | 0 <= i < |a| ensures a[i].key != e.key {
      assert all[i] == a[i];
    }
    RemoveFirst(all, |a|);
  }

  lemma DropDistinct(all: seq<Entry>, k: nat)
    requires k < |all| && OneEntryEach(all)
    ensures OneEntryEach(all[..k] + all[k + 1..])
  {
    var left := all[..k] + all[k + 1..];
    assert forall i :: 0 <= i < |left| ==> left[i] == if i < k then all[i] else all[i + 1];
  }

  lemma {:induction false} RemoveFirst(all: seq<Entry>, k: nat)
    requires k < |all|
    requires forall i :: 0 <= i < k ==> all[i].key != all[k].key
    ensures Remove(all, all[k].key) == all[..k] + all[k + 1..]
  {
    hide Keys;
    if k > 0 {
      var rest := all[1..];
      assert forall i :: 0 <= i < k ==> rest[i] == all[i + 1];
      RemoveFirst(rest, k - 1);
      assert [all[0]] + rest[..k - 1] == all[..k] && rest[k..] == all[k + 1..];
    }
  }

  lemma {:induction false} RemoveDistinct(entries: seq<Entry>, key: string)
    requires OneEntryEach(entries)
    ensures var r := Remove(entries, key);
      OneEntryEach(r) && key !in Keys(r) && forall x :: x in r ==> x in entries
  {
    if entries != [] {
      var e, rest := entries[0], entries[1..];
      RemoveDistinct(rest, key);
      forall x | x in rest ensures x.key != e.key {
        var k :| 0 <= k < |rest| && rest[k] == x;
        assert entries[k + 1] == x;
      }
      if e.key == key {
        assert Remove(entries, key) == rest;
      } else {
        ConsDistinct(e, Remove(rest, key), key);
      }
    }
  }

  lemma ConsDistinct(e: Entry, rest: seq<Entry>, key: string)
    requires OneEntryEach(rest) && e.key != key && key !in Keys(rest)
    requires forall x :: x in rest ==> x.key != e.key
    ensures OneEntryEach([e] + rest) && key !in Keys([e] + rest)
  {
    KeysCons(e, rest);
    var all := [e] + rest;
    assert forall i :: 0 < i < |all| ==> all[i] == rest[i - 1] && rest[i - 1] in rest;
  }

  lemma DistinctSnoc(entries: seq<Entry>, e: Entry)
    requires OneEntryEach(entries) && e.key !in Keys(entries)
    ensures OneEntryEach(entries + [e])
  {
    forall i | 0 <= i < |entries| ensures entries[i].key != e.key {
      assert entries[i] in entries;
    }
  }
}
