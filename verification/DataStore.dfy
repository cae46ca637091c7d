/** The in-memory key-value store with cursor pages (`storage/memory/MemoryDataStore.js`). */
module DataStore {
  import opened Basics
  import opened Ordering

  /** What mailboxes keep in the store. */
  datatype Value =
    | Event(objectId: string, bytes: Bytes, createdAt: nat)
    | Total(total: int)
    | Meta(createdAtMs: nat)

  /** The Map behind the store, in insertion order. */
  type Data = seq<Pair<Value>>

  function Find(data: Data, key: string): (r: Option<Value>) {
    if data == [] then None
    else if data[0].key == key then Some(data[0].value)
    else Find(data[1..], key)
  }

  function PutIn(data: Data, key: string, value: Value): Data {
    if data == [] then [Pair(key, value)]
    else if data[0].key == key then [Pair(key, value)] + data[1..]
    else [data[0]] + PutIn(data[1..], key, value)
  }

  function Drop(data: Data, key: string): Data {
    if data == [] then []
    else if data[0].key == key then data[1..]
    else [data[0]] + Drop(data[1..], key)
  }

  function Select(data: Data, prefix: string): Data {
    if data == [] then []
    else (if prefix <= data[0].key then [data[0]] else []) + Select(data[1..], prefix)
  }

  // ---- the map laws

  lemma {:induction false} FindMember(data: Data, key: string)
    ensures Find(data, key).Some? <==> exists i :: 0 <= i < |data| && data[i].key == key
    ensures Find(data, key).Some? ==> Pair(key, Find(data, key).value) in data
  {
    if data != [] {
      FindMember(data[1..], key);
      assert forall i :: 0 <= i < |data[1..]| ==> data[1..][i] == data[i + 1];
      assert (exists i :: 0 <= i < |data| && data[i].key == key) ==>
        data[0].key == key || exists i :: 0 <= i < |data[1..]| && data[1..][i].key == key by {
        if i :| 0 <= i < |data| && data[i].key == key { assert i > 0 ==> data[1..][i - 1].key == key; }
      }
    }
  }

  lemma FindAt(data: Data, x: Pair<Value>)
    requires DistinctKeys(data) && x in data
    ensures Find(data, x.key) == Some(x.value)
  {
    hide Find;
    FindMember(data, x.key);
    var i :| 0 <= i < |data| && data[i] == x;
    var j :| 0 <= j < |data| && data[j] == Pair(x.key, Find(data, x.key).value);
    assert i == j;
  }

  lemma {:induction false} FindPut(data: Data, key: string, value: Value, other: string)
    ensures Find(PutIn(data, key, value), other) == if other == key then Some(value) else Find(data, other)
  {
    if data != [] { FindPut(data[1..], key, value, other); }
  }

  lemma {:induction false} PutFresh(data: Data, key: string, value: Value)
    requires Find(data, key).None?
    ensures PutIn(data, key, value) == data + [Pair(key, value)]
  {
    if data != [] { PutFresh(data[1..], key, value); }
  }

  lemma {:induction false} DropAbsent(data: Data, key: string)
    requires Find(data, key).None?
    ensures Drop(data, key) == data
  {
    if data != [] { DropAbsent(data[1..], key); }
  }

  lemma {:induction false} FindDrop(data: Data, key: string, other: string)
    requires other != key
    ensures Find(Drop(data, key), other) == Find(data, other)
  {
    if data != [] { FindDrop(data[1..], key, other); }
  }

  /** A removed key is gone. */
  lemma {:induction false} DropRemoves(data: Data, key: string)
    requires DistinctKeys(data)
    ensures Find(Drop(data, key), key).None?
  {
    if data != [] {
      TailDistinct(data);
      if data[0].key == key {
        FindMember(data[1..], key);
      } else {
        DropRemoves(data[1..], key);
      }
    }
  }

  lemma {:induction false} PutMembers(data: Data, key: string, value: Value)
    ensures forall x :: x in PutIn(data, key, value) ==> x in data || x == Pair(key, value)
  {
    if data != [] { PutMembers(data[1..], key, value); }
  }

  lemma {:induction false} DropMembers(data: Data, key: string)
    ensures forall x :: x in Drop(data, key) ==> x in data
  {
    if data != [] { DropMembers(data[1..], key); }
  }

  lemma ConsDistinct(x: Pair<Value>, data: Data)
    requires DistinctKeys(data) && forall y :: y in data ==> y.key != x.key
    ensures DistinctKeys([x] + data)
  {
    var all := [x] + data;
    forall i, j | 0 <= i < j < |all| ensures all[i].key != all[j].key {
      assert all[j] == data[j - 1] && data[j - 1] in data;
    }
  }

  lemma TailDistinct(data: Data)
    requires DistinctKeys(data) && data != []
    ensures DistinctKeys(data[1..]) && forall y :: y in data[1..] ==> y.key != data[0].key
  {
    forall y | y in data[1..] ensures y.key != data[0].key {
      var k :| 0 <= k < |data[1..]| && data[1..][k] == y;
      assert data[k + 1] == y;
    }
  }

  lemma {:induction false} PutDistinct(data: Data, key: string, value: Value)
    requires DistinctKeys(data)
    ensures DistinctKeys(PutIn(data, key, value))
  {
    if data != [] {
      TailDistinct(data);
      if data[0].key == key {
        ConsDistinct(Pair(key, value), data[1..]);
      } else {
        PutDistinct(data[1..], key, value);
        PutMembers(data[1..], key, value);
        ConsDistinct(data[0], PutIn(data[1..], key, value));
      }
    }
  }

  lemma {:induction false} DropDistinct(data: Data, key: string)
    requires DistinctKeys(data)
    ensures DistinctKeys(Drop(data, key))
  {
    if data != [] {
      TailDistinct(data);
      if data[0].key != key {
        DropDistinct(data[1..], key);
        DropMembers(data[1..], key);
        ConsDistinct(data[0], Drop(data[1..], key));
      }
    }
  }

  // ---- selecting by prefix

  lemma {:induction false} SelectMembers(data: Data, prefix: string)
    ensures forall x :: x in Select(data, prefix) <==> x in data && prefix <= x.key
  {
    if data != [] {
      SelectMembers(data[1..], prefix);
      assert data == [data[0]] + data[1..];
    }
  }

  lemma {:induction false} SelectDistinct(data: Data, prefix: string)
    requires DistinctKeys(data)
    ensures DistinctKeys(Select(data, prefix))
  {
    if data != [] {
      TailDistinct(data);
      SelectDistinct(data[1..], prefix);
      SelectMembers(data[1..], prefix);
      if prefix <= data[0].key {
        ConsDistinct(data[0], Select(data[1..], prefix));
      } else {
        assert Select(data, prefix) == Select(data[1..], prefix);
      }
    }
  }

  lemma {:induction false} SelectAppend(data: Data, x: Pair<Value>, prefix: string)
    ensures Select(data + [x], prefix) == Select(data, prefix) + (if prefix <= x.key then [x] else [])
  {
    if data == [] {
      assert data + [x] == [x] && [x][1..] == [];
      assert Select([x][1..], prefix) == [];
    } else {
      assert (data + [x])[1..] == data[1..] + [x];
      SelectAppend(data[1..], x, prefix);
    }
  }

  lemma {:induction false} SelectPut(data: Data, key: string, value: Value, prefix: string)
    requires !(prefix <= key)
    ensures Select(PutIn(data, key, value), prefix) == Select(data, prefix)
  {
    if data != [] { SelectPut(data[1..], key, value, prefix); }
  }

  lemma {:induction false} SelectDropOther(data: Data, key: string, prefix: string)
    requires !(prefix <= key)
    ensures Select(Drop(data, key), prefix) == Select(data, prefix)
  {
    if data != [] { SelectDropOther(data[1..], key, prefix); }
  }

  lemma {:induction false} SelectDrop(data: Data, key: string, prefix: string)
    requires prefix <= key
    ensures Select(Drop(data, key), prefix) == Drop(Select(data, prefix), key)
    ensures Find(Select(data, prefix), key) == Find(data, key)
  {
    if data != [] {
      var x, rest := data[0], data[1..];
      SelectDrop(rest, key, prefix);
      assert ([x] + Drop(rest, key))[1..] == Drop(rest, key);
      if prefix <= x.key {
        assert Select(data, prefix) == [x] + Select(rest, prefix);
        assert Select(data, prefix)[1..] == Select(rest, prefix);
      } else {
        assert Select(data, prefix) == Select(rest, prefix);
      }
    }
  }

  // ---- pages

  datatype Page = Page(items: Data, nextCursor: Option<string>)

  function IndexOf(all: Data, key: string): (i: Option<nat>)
    ensures i.Some? ==> i.value < |all| && all[i.value].key == key
    ensures i.None? ==> forall j :: 0 <= j < |all| ==> all[j].key != key
  {
    if all == [] then None
    else if all[0].key == key then Some(0)
    else
      var r := IndexOf(all[1..], key);
      assert forall j :: 1 <= j < |all| ==> all[j] == all[1..][j - 1];
      if r.Some? then Some(r.value + 1) else None
  }

  function Cropped(rest: Data, limit: nat): Page {
    if limit > 0 && |rest| > limit then Page(rest[..limit], Some(rest[limit - 1].key)) else Page(rest, None)
  }

  function Backwards(all: Data): (r: Data)
    ensures |r| == |all| && forall i :: 0 <= i < |r| ==> r[i] == all[|all| - 1 - i]
  {
    seq(|all|, i requires 0 <= i < |all| => all[|all| - 1 - i])
  }

  /** The entries with the prefix in key order, or in the reverse of it. */
  function Listed(data: Data, prefix: string, reverse: bool): Data {
    var all := Sort(Select(data, prefix));
    if reverse then Backwards(all) else all
  }

  /** One page: the listed entries after the cursor, at most `limit` of them. An empty cursor is no
      cursor, and a limit of zero is no limit. */
  function PageOf(data: Data, prefix: string, cursor: string, limit: nat, reverse: bool): Page {
    var all := Listed(data, prefix, reverse);
    var at := if cursor == "" then None else IndexOf(all, cursor);
    Cropped(if at.Some? then all[at.value + 1..] else all, limit)
  }

  lemma SelectionSorted(data: Data, prefix: string)
    requires DistinctKeys(data)
    ensures var all := Sort(Select(data, prefix));
      && Sorted(all) && |all| == |Select(data, prefix)|
      && forall i :: 0 <= i < |all| ==> prefix <= all[i].key
  {
    hide Sort, Select;
    SelectDistinct(data, prefix);
    SortSorted(Select(data, prefix));
    SelectMembers(data, prefix);
    var all := Sort(Select(data, prefix));
    forall i | 0 <= i < |all| ensures prefix <= all[i].key { assert all[i] in all; }
  }

  /** Both directions list every selected entry once. */
  lemma ListedOnce(data: Data, prefix: string, reverse: bool)
    requires DistinctKeys(data)
    ensures var all := Listed(data, prefix, reverse);
      && DistinctKeys(all) && |all| == |Select(data, prefix)|
      && forall x :: x in all <==> x in data && prefix <= x.key
  {
    hide Sort, Select;
    SelectionSorted(data, prefix);
    SelectMembers(data, prefix);
    var sorted := Sort(Select(data, prefix));
    SortedDistinct(sorted);
    var all := Listed(data, prefix, reverse);
    forall x | x in sorted ensures x in all {
      var i :| 0 <= i < |sorted| && sorted[i] == x;
      assert all[if reverse then |sorted| - 1 - i else i] == x;
    }
  }

  /** The cursor that continues after the first i entries. */
  function CursorAt(all: Data, i: nat): string
    requires i <= |all|
  {
    if i == 0 then "" else all[i - 1].key
  }

  /** The page that starts behind the first i entries; a limit of zero is no limit. */
  function Behind(all: Data, i: nat, limit: nat): Page
    requires i <= |all|
  {
    if 0 < limit && i + limit < |all| then Page(all[i..i + limit], Some(CursorAt(all, i + limit)))
    else Page(all[i..], None)
  }

  lemma CroppedBehind(all: Data, i: nat, limit: nat)
    requires i <= |all|
    ensures Cropped(all[i..], limit) == Behind(all, i, limit)
  {
    assert 0 < limit && i + limit < |all| ==> all[i..][..limit] == all[i..i + limit];
  }

  /** Starting after i entries, a page is the next `limit` entries of the list, and its cursor
      continues exactly behind them: pages enumerate every prefixed key once, in order. */
  lemma PageContinues(data: Data, prefix: string, limit: nat, reverse: bool, i: nat)
    requires DistinctKeys(data) && i <= |Listed(data, prefix, reverse)|
    requires 0 < i ==> Listed(data, prefix, reverse)[i - 1].key != ""
    ensures
      var all := Listed(data, prefix, reverse);
      PageOf(data, prefix, CursorAt(all, i), limit, reverse) == Behind(all, i, limit)
  {
    hide Listed, Cropped, Behind;
    var all := Listed(data, prefix, reverse);
    ListedOnce(data, prefix, reverse);
    CroppedBehind(all, i, limit);
    if i > 0 {
      assert IndexOf(all, all[i - 1].key) == Some(i - 1);
    } else {
      assert all[0..] == all;
    }
  }

  /** A cursor that is no listed key, such as one whose entry was removed between two pages, starts
      again from the beginning. */
  lemma PageRestarts(data: Data, prefix: string, cursor: string, limit: nat, reverse: bool)
    requires DistinctKeys(data) && (Find(data, cursor).None? || !(prefix <= cursor))
    ensures PageOf(data, prefix, cursor, limit, reverse) == Behind(Listed(data, prefix, reverse), 0, limit)
  {
    hide Listed, Cropped, Behind, Find;
    var all := Listed(data, prefix, reverse);
    ListedOnce(data, prefix, reverse);
    CroppedBehind(all, 0, limit);
    assert all[0..] == all;
    if cursor != "" && IndexOf(all, cursor).Some? {
      var x := all[IndexOf(all, cursor).value];
      assert x in all;
      FindAt(data, x);
    }
  }

  /** So a page asked for behind a removed entry is the first page of what is left, not the next one. */
  lemma RemovedCursorRestarts(data: Data, prefix: string, cursor: string, limit: nat, reverse: bool)
    requires DistinctKeys(data)
    ensures
      var left := Drop(data, cursor);
      PageOf(left, prefix, cursor, limit, reverse) == PageOf(left, prefix, "", limit, reverse)
  {
    hide Listed, Cropped, Behind, Find;
    DropDistinct(data, cursor);
    DropRemoves(data, cursor);
    PageRestarts(Drop(data, cursor), prefix, cursor, limit, reverse);
    PageContinues(Drop(data, cursor), prefix, limit, reverse, 0);
  }

  class MemoryDataStore {
    var data: Data

    ghost predicate Valid() reads this {
      DistinctKeys(data)
    }

    constructor ()
      ensures Valid() && data == []
    {
      data := [];
    }

    /** An empty key is refused by an assertion of the source. */
    method Put(key: string, value: Value)
      requires Valid() && key != ""
      modifies this
      ensures Valid() && data == PutIn(old(data), key, value)
    {
      PutDistinct(data, key, value);
      data := PutIn(data, key, value);
    }

    method Get(key: string) returns (value: Option<Value>)
      ensures value == Find(data, key)
    {
      var i := 0;
      while i < |data|
        invariant 0 <= i <= |data| && Find(data, key) == Find(data[i..], key)
      {
        assert data[i..][1..] == data[i + 1..];
        if data[i].key == key {
          return Some(data[i].value);
        }
        i := i + 1;
      }
      return None;
    }

    method Remove(key: string) returns (removed: bool)
      requires Valid()
      modifies this
      ensures Valid() && data == Drop(old(data), key) && removed == old(Find(data, key)).Some?
      ensures Find(data, key).None?
    {
      DropRemoves(data, key);
      removed := Find(data, key).Some?;
      DropDistinct(data, key);
      data := Drop(data, key);
    }

    /** The loop that collects the keys with the prefix. */
    method Matching(prefix: string) returns (keys: Data)
      ensures keys == Select(data, prefix)
    {
      hide Select;
      keys := [];
      var i := 0;
      SelectFrom(data, prefix, 0);
      while i < |data|
        invariant 0 <= i <= |data| && keys + Select(data[i..], prefix) == Select(data, prefix)
      {
        SelectFrom(data, prefix, i);
        if prefix <= data[i].key {
          keys := keys + [data[i]];
        }
        i := i + 1;
      }
      SelectFrom(data, prefix, i);
    }

    method List(prefix: string, cursor: string, limit: nat, reverse: bool) returns (page: Page)
      requires Valid()
      ensures page == PageOf(data, prefix, cursor, limit, reverse)
    {
      hide Sort, Select, IndexOf;
      var keys := Matching(prefix);
      keys := Sort(keys);
      if reverse {
        keys := Backwards(keys);
      }
      if cursor != "" {
        var at := IndexOf(keys, cursor);
        if at.Some? {
          keys := keys[at.value + 1..];
        }
      }
      if limit > 0 && |keys| > limit {
        return Page(keys[..limit], Some(keys[limit - 1].key));
      }
      return Page(keys, None);
    }
  }

  /** One turn of the collecting loop. */
  lemma SelectFrom(data: Data, prefix: string, i: nat)
    requires i <= |data|
    ensures data[0..] == data
    ensures i == |data| ==> Select(data[i..], prefix) == []
    ensures i < |data| ==>
      Select(data[i..], prefix) == (if prefix <= data[i].key then [data[i]] else []) + Select(data[i + 1..], prefix)
  {
    if i < |data| { assert data[i..][1..] == data[i + 1..]; }
  }
}
