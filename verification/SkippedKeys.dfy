/** The store of message keys that were derived ahead of their messages
    (`objects/ratchet/SkippedKeyStore.js`). */
module SkippedKeys {
  import opened Basics

  datatype Entry = Entry(k: string, mk: Bytes)

  // ---- the store's value

  /** `findIndex`: the first position with this key, or -1. */
  function FindIndex(entries: seq<Entry>, key: string): (i: int)
    ensures -1 <= i < |entries|
    ensures i >= 0 ==> entries[i].k == key
    ensures forall j :: 0 <= j < (if i < 0 then |entries| else i) ==> entries[j].k != key
  {
    if entries == [] then -1
    else if entries[0].k == key then 0
    else var i := FindIndex(entries[1..], key); if i < 0 then -1 else i + 1
  }

  function Get(entries: seq<Entry>, key: string): Option<Bytes> {
    var i := FindIndex(entries, key);
    if i >= 0 then Some(entries[i].mk) else None
  }

  function Put(entries: seq<Entry>, key: string, mk: Bytes): seq<Entry> {
    var i := FindIndex(entries, key);
    if i >= 0 then entries[i := Entry(key, mk)] else entries + [Entry(key, mk)]
  }

  function Drop(entries: seq<Entry>, key: string): seq<Entry> {
    var i := FindIndex(entries, key);
    if i >= 0 then entries[..i] + entries[i + 1..] else entries
  }

  function TotalBytes(entries: seq<Entry>): nat {
    if entries == [] then 0 else |entries[0].mk| + TotalBytes(entries[1..])
  }

  lemma {:induction false} TotalBytesSplit(a: seq<Entry>, b: seq<Entry>)
    ensures TotalBytes(a + b) == TotalBytes(a) + TotalBytes(b)
  {
    if a == [] {
      assert a + b == b;
    } else {
      assert (a + b)[1..] == a[1..] + b;
      TotalBytesSplit(a[1..], b);
    }
  }

  lemma TotalBytesAt(entries: seq<Entry>, i: nat)
    requires i < |entries|
    ensures TotalBytes(entries) == TotalBytes(entries[..i]) + |entries[i].mk| + TotalBytes(entries[i + 1..])
  {
    assert entries == entries[..i] + entries[i..];
    TotalBytesSplit(entries[..i], entries[i..]);
    assert entries[i..][1..] == entries[i + 1..];
  }

  lemma TotalBytesPut(entries: seq<Entry>, key: string, mk: Bytes)
    ensures
      var i := FindIndex(entries, key);
      TotalBytes(Put(entries, key, mk)) == TotalBytes(entries) + |mk| - (if i >= 0 then |entries[i].mk| else 0)
  {
    var i := FindIndex(entries, key);
    if i >= 0 {
      var put := entries[i := Entry(key, mk)];
      TotalBytesAt(entries, i);
      TotalBytesAt(put, i);
      assert put[..i] == entries[..i] && put[i + 1..] == entries[i + 1..];
    } else {
      TotalBytesSplit(entries, [Entry(key, mk)]);
      assert [Entry(key, mk)][1..] == [];
    }
  }

  lemma TotalBytesDrop(entries: seq<Entry>, key: string)
    ensures
      var i := FindIndex(entries, key);
      TotalBytes(Drop(entries, key)) == TotalBytes(entries) - (if i >= 0 then |entries[i].mk| else 0)
  {
    var i := FindIndex(entries, key);
    if i >= 0 {
      TotalBytesAt(entries, i);
      TotalBytesSplit(entries[..i], entries[i + 1..]);
    }
  }

  /** Keys occur once each: what `set` maintains. */
  ghost predicate Keyed(entries: seq<Entry>) {
    forall i, j :: 0 <= i < j < |entries| ==> entries[i].k != entries[j].k
  }

  ghost function Keys(entries: seq<Entry>): set<string> {
    set i | 0 <= i < |entries| :: entries[i].k
  }

  lemma GetAt(entries: seq<Entry>, i: nat)
    requires Keyed(entries) && i < |entries|
    ensures Get(entries, entries[i].k) == Some(entries[i].mk)
  {
    assert FindIndex(entries, entries[i].k) == i;
  }

  lemma GetNone(entries: seq<Entry>, key: string)
    requires forall j :: 0 <= j < |entries| ==> entries[j].k != key
    ensures Get(entries, key) == None
  {
  }

  /** The store behaves as a finite map: each operation changes one key and no other. */
  lemma PutGet(entries: seq<Entry>, key: string, mk: Bytes, other: string)
    requires Keyed(entries)
    ensures Keyed(Put(entries, key, mk))
    ensures Get(Put(entries, key, mk), other) == if other == key then Some(mk) else Get(entries, other)
  {
    var p, i, j := Put(entries, key, mk), FindIndex(entries, key), FindIndex(entries, other);
    assert forall x :: 0 <= x < |entries| && x != i ==> p[x] == entries[x];
    if other == key {
      GetAt(p, if i >= 0 then i else |entries|);
    } else if j >= 0 {
      GetAt(p, j);
    } else {
      GetNone(p, other);
    }
  }

  lemma DropAt(entries: seq<Entry>, key: string)
    ensures
      var i, d := FindIndex(entries, key), Drop(entries, key);
      && (i < 0 ==> d == entries)
      && (i >= 0 ==> |d| == |entries| - 1)
      && (i >= 0 ==> forall x :: 0 <= x < |d| ==> d[x] == entries[if x < i then x else x + 1])
  {
    var i := FindIndex(entries, key);
    if i >= 0 { RemoveAt(entries, i); }
  }

  lemma RemoveAt(s: seq<Entry>, i: nat)
    requires i < |s|
    ensures
      var d := s[..i] + s[i + 1..];
      forall x :: 0 <= x < |d| ==> d[x] == s[if x < i then x else x + 1]
  {
  }

  lemma DropKeyed(entries: seq<Entry>, key: string)
    requires Keyed(entries)
    ensures Keyed(Drop(entries, key))
    ensures forall x :: 0 <= x < |Drop(entries, key)| ==> Drop(entries, key)[x].k != key
  {
    hide FindIndex;
    DropAt(entries, key);
  }

  /** Where an entry other than the dropped one ends up. */
  lemma DropMoves(entries: seq<Entry>, key: string, j: nat)
    requires j < |entries| && entries[j].k != key
    ensures
      var i, d := FindIndex(entries, key), Drop(entries, key);
      var x := if i < 0 || j < i then j else j - 1;
      x < |d| && d[x] == entries[j]
  {
    hide FindIndex;
    var i := FindIndex(entries, key);
    if i >= 0 {
      assert i != j;
      Remaining(entries, i, j);
    }
  }

  lemma Remaining(s: seq<Entry>, i: nat, j: nat)
    requires i < |s| && j < |s| && i != j
    ensures
      var d, x := s[..i] + s[i + 1..], if j < i then j else j - 1;
      x < |d| && d[x] == s[j]
  {
  }

  lemma DropGet(entries: seq<Entry>, key: string, other: string)
    requires Keyed(entries)
    ensures Keyed(Drop(entries, key))
    ensures Get(Drop(entries, key), other) == if other == key then None else Get(entries, other)
  {
    hide FindIndex, Drop, Keyed;
    var d, i, j := Drop(entries, key), FindIndex(entries, key), FindIndex(entries, other);
    DropKeyed(entries, key);
    if other == key {
      GetNone(d, other);
    } else if j >= 0 {
      DropMoves(entries, key, j);
      GetAt(d, if i < 0 || j < i then j else j - 1);
    } else {
      DropAvoids(entries, key, other);
      GetNone(d, other);
    }
  }

  lemma DropAvoids(entries: seq<Entry>, key: string, other: string)
    requires forall x :: 0 <= x < |entries| ==> entries[x].k != other
    ensures forall x :: 0 <= x < |Drop(entries, key)| ==> Drop(entries, key)[x].k != other
  {
    hide FindIndex;
    DropAt(entries, key);
  }

  // ---- the mutable store, shared by every RatchetState derived from the same session

  class SkippedKeyStore {
    var entries: seq<Entry>
    var totalBytes: int

    /** The running total is exact. */
    ghost predicate Valid()
      reads this
    {
      totalBytes == TotalBytes(entries)
    }

    constructor (initial: seq<Entry>)
      ensures Valid() && entries == initial
    {
      entries := initial;
      totalBytes := 0;
      new;
      var i := 0;
      assert initial[..0] == [];
      while i < |initial|
        invariant 0 <= i <= |initial| && entries == initial
        invariant totalBytes == TotalBytes(initial[..i])
      {
        assert initial[..i + 1] == initial[..i] + [initial[i]];
        TotalBytesSplit(initial[..i], [initial[i]]);
        assert [initial[i]][1..] == [];
        totalBytes := totalBytes + |initial[i].mk|;
        i := i + 1;
      }
      assert initial[..i] == initial;
    }

    function Lookup(key: string): Option<Bytes>
      reads this
    {
      Get(entries, key)
    }

    /** Refuses the empty key; otherwise replaces in place or appends. */
    method Set(key: string, mk: Bytes) returns (ok: bool)
      requires Valid()
      modifies this
      ensures Valid()
      ensures ok <==> key != ""
      ensures entries == if ok then Put(old(entries), key, mk) else old(entries)
    {
      if key == "" {
        return false;
      }
      TotalBytesPut(entries, key, mk);
      var idx := FindIndex(entries, key);
      if idx >= 0 {
        var prev := entries[idx].mk;
        entries := entries[idx := Entry(key, mk)];
        totalBytes := totalBytes + |mk| - |prev|;
      } else {
        entries := entries + [Entry(key, mk)];
        totalBytes := totalBytes + |mk|;
      }
      return true;
    }

    method Delete(key: string) returns (removed: bool)
      requires Valid()
      modifies this
      ensures Valid()
      ensures removed <==> FindIndex(old(entries), key) >= 0
      ensures entries == Drop(old(entries), key)
    {
      TotalBytesDrop(entries, key);
      var idx := FindIndex(entries, key);
      if idx < 0 {
        return false;
      }
      var gone := entries[idx];
      entries := entries[..idx] + entries[idx + 1..];
      totalBytes := totalBytes - |gone.mk|;
      return true;
    }

    function Size(): nat
      reads this
    {
      |entries|
    }
  }
}
