/** Mailboxes with item and byte caps over the paged store (`mailbox/RMailbox.js`). */
module Mailbox {
  import opened Basics
  import opened DataStore
  import Ordering
  import Text

  const PAGE: nat := 200

  // ---- store keys and event ids

  function EvtPrefix(m: string): string {
    "mbox/" + (m + ['/'] + "evt/")
  }

  function EvtKey(m: string, eventId: string): string {
    EvtPrefix(m) + eventId
  }

  function BytesKey(m: string): string {
    "mbox/" + (m + ['/'] + "bytesz")
  }

  function MetaKey(m: string): string {
    "mbox/" + (m + ['/'] + "meta")
  }

  predicate SlashFree(m: string) {
    '/' !in m
  }

  /** `padStart(6, "0")`. */
  function Pad6(s: string): string
    decreases 6 - |s|
  {
    if |s| >= 6 then s else Pad6(['0'] + s)
  }

  function EventId(now: nat, counter: nat): string {
    Text.Decimal(now) + ['_'] + Pad6(Text.Decimal(counter))
  }

  function ObjectId(now: nat, counter: nat): string {
    "obj_" + EventId(now, counter)
  }

  /** The number a decimal numeral stands for. */
  function Numeral(s: string): int {
    if s == [] then 0 else 10 * Numeral(s[..|s| - 1]) + (s[|s| - 1] as int - '0' as int)
  }

  lemma {:induction false} NumeralDecimal(n: nat)
    ensures Numeral(Text.Decimal(n)) == n
  {
    var s := Text.Decimal(n);
    if n < 10 {
      assert s[..0] == [];
    } else {
      NumeralDecimal(n / 10);
      assert s[..|s| - 1] == Text.Decimal(n / 10) && s[|s| - 1] == Text.Digit(n % 10);
    }
  }

  lemma {:induction false} NumeralZero(s: string)
    ensures Numeral(['0'] + s) == Numeral(s)
  {
    var t := ['0'] + s;
    if s == [] {
      assert t[..0] == [];
    } else {
      assert t[..|t| - 1] == ['0'] + s[..|s| - 1];
      NumeralZero(s[..|s| - 1]);
    }
  }

  lemma {:induction false} NumeralPad(s: string)
    ensures Numeral(Pad6(s)) == Numeral(s)
    decreases 6 - |s|
  {
    if |s| < 6 {
      NumeralPad(['0'] + s);
      NumeralZero(s);
    }
  }

  /** Two event ids agree only if clock and counter do. */
  lemma EventIdInjective(t: nat, c: nat, t': nat, c': nat)
    requires EventId(t, c) == EventId(t', c')
    ensures t == t' && c == c'
  {
    hide Text.Decimal, Pad6;
    Text.SplitUnique(Text.Decimal(t), Pad6(Text.Decimal(c)), Text.Decimal(t'), Pad6(Text.Decimal(c')), '_');
    Text.DecimalInjective(t, t');
    NumeralPad(Text.Decimal(c));
    NumeralPad(Text.Decimal(c'));
    NumeralDecimal(c);
    NumeralDecimal(c');
  }

  lemma StripMbox(a: string, b: string)
    requires "mbox/" + a == "mbox/" + b
    ensures a == b
  {
    assert ("mbox/" + a)[5..] == a && ("mbox/" + b)[5..] == b;
  }

  // ---- which keys fall under which prefix

  /** Neither mailbox's events are listed under the other. */
  predicate Apart(m: string, m': string) {
    !(EvtPrefix(m) <= EvtPrefix(m')) && !(EvtPrefix(m') <= EvtPrefix(m))
  }

  predicate Separate(m: string, m': string) {
    m == m' || Apart(m, m')
  }

  lemma Comparable(p: string, q: string, key: string)
    requires p <= key && q <= key
    ensures p <= q || q <= p
  {
    if |p| <= |q| { assert p == q[..|p|]; } else { assert q == p[..|q|]; }
  }

  /** A prefix that ends in a slash does not reach into a part without one. */
  lemma EndsInSlash(p: string, s: string, t: string)
    requires p != [] && p[|p| - 1] == '/' && p <= s + t && '/' !in t
    ensures p <= s
  {
    assert forall k :: 0 <= k < |t| ==> (s + t)[|s| + k] == t[k];
    assert p == (s + t)[..|p|];
  }

  lemma PrefixEnd(m: string)
    ensures var p := EvtPrefix(m); p != [] && p[|p| - 1] == '/'
  {
    var e := "evt/";
    assert e[3] == '/';
  }

  /** The exact condition under which an event of m is listed under m'. */
  lemma ListedExactly(m: string, e: string, m': string)
    requires '/' !in e
    ensures EvtPrefix(m') <= EvtKey(m, e) <==> EvtPrefix(m') <= EvtPrefix(m)
    ensures EvtPrefix(m') <= EvtPrefix(m) <==> m' + "/evt/" <= m + "/evt/"
  {
    if EvtPrefix(m') <= EvtKey(m, e) {
      PrefixEnd(m');
      EndsInSlash(EvtPrefix(m'), EvtPrefix(m), e);
    }
    assert EvtPrefix(m) == "mbox/" + (m + "/evt/") && EvtPrefix(m') == "mbox/" + (m' + "/evt/");
    var s, t := m' + "/evt/", m + "/evt/";
    assert ("mbox/" + s)[5..] == s && ("mbox/" + t)[5..] == t;
    if "mbox/" + s <= "mbox/" + t {
      assert t[..|s|] == ("mbox/" + t)[5..5 + |s|];
    }
    if s <= t {
      assert ("mbox/" + t)[..5 + |s|] == "mbox/" + t[..|s|];
    }
  }

  /** What a new event of m adds to the listing under m'. */
  lemma ListingGrows(data: Data, m: string, e: string, v: Value, m': string)
    requires '/' !in e && Find(data, EvtKey(m, e)).None?
    ensures ItemCount(PutIn(data, EvtKey(m, e), v), m') ==
      ItemCount(data, m') + (if m' + "/evt/" <= m + "/evt/" then 1 else 0)
  {
    hide EvtKey, EvtPrefix, Find, PutIn, Select;
    ListedExactly(m, e, m');
    PutFresh(data, EvtKey(m, e), v);
    SelectAppend(data, Ordering.Pair(EvtKey(m, e), v), EvtPrefix(m'));
  }

  /** Ids without slashes can be used together. */
  lemma SlashFreeFamily(ids: set<string>)
    requires forall m :: m in ids ==> SlashFree(m)
    ensures Family(ids)
  {
    hide Apart, SlashFree;
    forall m, m' | m in ids && m' in ids ensures Separate(m, m') {
      if m != m' { SlashFreeApart(m, m'); }
    }
  }

  /** Distinct ids without slashes are apart. */
  lemma SlashFreeApart(m: string, m': string)
    requires SlashFree(m) && SlashFree(m') && m != m'
    ensures Apart(m, m')
  {
    if EvtPrefix(m) <= EvtPrefix(m') { SlashFreePrefix(m, m'); }
    if EvtPrefix(m') <= EvtPrefix(m) { SlashFreePrefix(m', m); }
  }

  lemma SlashFreePrefix(m: string, m': string)
    requires SlashFree(m) && SlashFree(m') && EvtPrefix(m) <= EvtPrefix(m')
    ensures m == m'
  {
    var tail := EvtPrefix(m')[|EvtPrefix(m)|..];
    assert EvtPrefix(m') == EvtPrefix(m) + tail;
    assert EvtPrefix(m) + tail == "mbox/" + (m + ['/'] + ("evt/" + tail));
    StripMbox(m + ['/'] + ("evt/" + tail), m' + ['/'] + "evt/");
    Text.SplitUnique(m, "evt/" + tail, m', "evt/", '/');
  }

  /** With a slash, one mailbox's events can sit inside another's listing. */
  lemma SlashBreaksIsolation()
    ensures EvtPrefix("a") <= EvtKey("a/evt/b", "x") && "a" != "a/evt/b"
  {
    assert EvtKey("a/evt/b", "x") == "mbox/a/evt/b/evt/x";
    assert EvtPrefix("a") == "mbox/a/evt/";
  }

  /** Keys of one mailbox are never mistaken for events of a mailbox apart from it. */
  lemma KeysIsolated(m: string, e: string, m': string)
    requires Separate(m, m')
    ensures EvtPrefix(m') <= EvtKey(m, e) <==> m == m'
    ensures !(EvtPrefix(m') <= BytesKey(m)) && !(EvtPrefix(m') <= MetaKey(m))
    ensures BytesKey(m) == BytesKey(m') <==> m == m'
    ensures BytesKey(m') != EvtKey(m, e) && BytesKey(m') != MetaKey(m)
  {
    hide EvtPrefix, BytesKey, MetaKey;
    assert EvtPrefix(m) <= EvtKey(m, e);
    if EvtPrefix(m') <= EvtKey(m, e) { Comparable(EvtPrefix(m), EvtPrefix(m'), EvtKey(m, e)); }
    BytesKeyIsolated(m, m');
    BytesKeyIsolated(m', m);
  }

  /** What is not an event key of m reaches into another listing only if m's events do. */
  lemma SideKey(m: string, side: string, m': string)
    requires Separate(m, m') && '/' !in side
    ensures !(EvtPrefix(m') <= "mbox/" + (m + ['/'] + side))
  {
    var s := "mbox/" + (m + ['/']);
    assert "mbox/" + (m + ['/'] + side) == s + side;
    assert EvtPrefix(m) == s + "evt/";
    PrefixEnd(m');
    if EvtPrefix(m') <= s + side { EndsInSlash(EvtPrefix(m'), s, side); }
  }

  lemma BytesKeyIsolated(m: string, m': string)
    requires Separate(m, m')
    ensures !(EvtPrefix(m') <= BytesKey(m)) && !(EvtPrefix(m') <= MetaKey(m))
    ensures BytesKey(m) == BytesKey(m') <==> m == m'
    ensures BytesKey(m') != MetaKey(m)
  {
    var b, t := "bytesz", "meta";
    assert b[5] == 'z' && t[3] == 'a';
    SideKey(m, b, m');
    SideKey(m, t, m');
    var x, y, z := BytesKey(m), BytesKey(m'), MetaKey(m);
    assert x[|x| - 1] == 'z' && y[|y| - 1] == 'z' && z[|z| - 1] == 'a';
    if x == y { SideInjective(m, m', b); }
  }

  lemma SideInjective(m: string, m': string, side: string)
    requires "mbox/" + (m + ['/'] + side) == "mbox/" + (m' + ['/'] + side)
    ensures m == m'
  {
    var s, t := m + ['/'] + side, m' + ['/'] + side;
    StripMbox(s, t);
    assert |s| == |m| + 1 + |side| && |t| == |m'| + 1 + |side|;
    assert s[..|m|] == m && t[..|m'|] == m';
  }

  // ---- what is stored for a mailbox

  function Events(data: Data, m: string): Data {
    Select(data, EvtPrefix(m))
  }

  function Size(v: Value): nat {
    if v.Event? then |v.bytes| else 0
  }

  function SizeSum(entries: Data): nat {
    if entries == [] then 0 else Size(entries[0].value) + SizeSum(entries[1..])
  }

  /** The bytes of the event under this key, if there is one. */
  function SizeAt(data: Data, key: string): nat {
    match Find(data, key)
    case Some(v) => Size(v)
    case None => 0
  }

  function ItemCount(data: Data, m: string): nat {
    |Events(data, m)|
  }

  function ByteSum(data: Data, m: string): nat {
    SizeSum(Events(data, m))
  }

  // ---- the operations as functions of the whole state

  datatype Box = Box(
    maxItems: Option<nat>,
    maxBytes: Option<nat>,
    data: Data,
    counts: map<string, nat>,
    bytes: map<string, int>,
    counter: nat)

  datatype Record = Record(allowed: bool, bytes: Bytes, objectId: string)

  datatype Error = EmptyId | ContentType | ItemsQuota(cap: nat) | BytesQuota(cap: nat)

  function SeedCount(b: Box, m: string): Box {
    if m in b.counts then b else b.(counts := b.counts[m := ItemCount(b.data, m)])
  }

  function Seeded(data: Data, m: string): int {
    match Find(data, BytesKey(m))
    case Some(Total(n)) => if n > 0 then n else 0
    case _ => 0
  }

  function SeedBytes(b: Box, m: string): Box {
    if m in b.bytes then b else b.(bytes := b.bytes[m := Seeded(b.data, m)])
  }

  function GetOr0<T>(f: map<T, int>, k: T): int {
    if k in f then f[k] else 0
  }

  /** The state in which the caps are checked: counters seeded, an object id drawn if needed. */
  function Prepared(b: Box, m: string, rec: Record): Box {
    var b1 := if rec.objectId == "" then b.(counter := b.counter + 1) else b;
    if b.maxItems.Some? then SeedCount(b1, m) else b1
  }

  function Stored(b: Box, m: string, rec: Record, objectId: string, now: nat): (string, Box) {
    var eventId := EventId(now, b.counter + 1);
    var data := PutIn(b.data, EvtKey(m, eventId), Event(objectId, rec.bytes, now));
    var counts := if b.maxItems.Some? then b.counts[m := (if m in b.counts then b.counts[m] else 0) + 1] else b.counts;
    var total := GetOr0(b.bytes, m) + |rec.bytes|;
    (eventId,
     if b.maxBytes.Some? then
       b.(counter := b.counter + 1, data := PutIn(data, BytesKey(m), Total(total)), counts := counts,
          bytes := b.bytes[m := total])
     else
       b.(counter := b.counter + 1, data := data, counts := counts))
  }

  function Deposit(b: Box, m: string, rec: Record, now: nat): (Result<string, Error>, Box) {
    if m == "" then (Err(EmptyId), b)
    else if !rec.allowed then (Err(ContentType), b)
    else
      var objectId := if rec.objectId == "" then ObjectId(now, b.counter + 1) else rec.objectId;
      var b1 := Prepared(b, m, rec);
      if b.maxItems.Some? && m in b1.counts && b1.counts[m] >= b.maxItems.value
        then (Err(ItemsQuota(b.maxItems.value)), b1)
      else
        var b2 := if b.maxBytes.Some? then SeedBytes(b1, m) else b1;
        if b.maxBytes.Some? && GetOr0(b2.bytes, m) + |rec.bytes| > b.maxBytes.value
          then (Err(BytesQuota(b.maxBytes.value)), b2)
        else
          var (id, b3) := Stored(b2, m, rec, objectId, now);
          (Ok(id), b3)
  }

  /** The counter part of an acknowledgement, for a removal that really happened. */
  function AckCounted(b: Box, m: string, key: string): Box {
    var b1 := b.(data := Drop(b.data, key));
    if b.maxItems.Some? && m in b.counts
    then b1.(counts := b1.counts[m := if b.counts[m] > 1 then b.counts[m] - 1 else 0]) else b1
  }

  function Ack(b: Box, m: string, eventId: string): (Result<bool, Error>, Box) {
    if m == "" || eventId == "" then (Err(EmptyId), b)
    else
      var key := EvtKey(m, eventId);
      if Find(b.data, key).None? then (Ok(false), b.(data := Drop(b.data, key)))
      else
        var b2 := AckCounted(b, m, key);
        (Ok(true), if b.maxBytes.Some? then AckBytes(b2, m, SizeAt(b.data, key)) else b2)
  }

  function AckBytes(b: Box, m: string, acked: nat): Box {
    var s := SeedBytes(b, m);
    var left := Max(0, GetOr0(s.bytes, m) - acked);
    s.(bytes := s.bytes[m := left], data := PutIn(s.data, BytesKey(m), Total(left)))
  }

  function FetchOf(b: Box, m: string, eventId: string): Result<Option<Value>, Error> {
    if m == "" || eventId == "" then Err(EmptyId) else Ok(Find(b.data, EvtKey(m, eventId)))
  }

  /** A new process on the same store. */
  function Restarted(b: Box): Box {
    b.(counts := map[], bytes := map[], counter := 0)
  }

  function Create(b: Box, m: string, now: nat): Box {
    if m == "" then b else b.(data := PutIn(b.data, MetaKey(m), Meta(now)))
  }

  // ---- the invariant

  /** Counters, where present, are exact, and no cap is exceeded. */
  ghost predicate MailboxOk(b: Box, m: string) {
    && (b.maxItems.Some? ==>
          && ItemCount(b.data, m) <= b.maxItems.value
          && (m in b.counts ==> b.counts[m] == ItemCount(b.data, m)))
    && (b.maxBytes.Some? ==>
          && ByteSum(b.data, m) <= b.maxBytes.value
          && Seeded(b.data, m) == ByteSum(b.data, m)
          && (m in b.bytes ==> b.bytes[m] == ByteSum(b.data, m)))
  }

  /** Mailboxes in use together: pairwise apart. */
  ghost predicate Family(ids: set<string>) {
    forall m, m' :: m in ids && m' in ids ==> Separate(m, m')
  }

  ghost predicate Inv(b: Box, ids: set<string>) {
    && Ordering.DistinctKeys(b.data)
    && forall m :: m in ids ==> MailboxOk(b, m)
  }

  // ---- sums over a selection

  lemma {:induction false} SumAppend(entries: Data, x: Ordering.Pair<Value>)
    ensures SizeSum(entries + [x]) == SizeSum(entries) + Size(x.value)
  {
    if entries == [] {
      assert entries + [x] == [x] && [x][1..] == [];
    } else {
      assert (entries + [x])[1..] == entries[1..] + [x];
      SumAppend(entries[1..], x);
    }
  }

  lemma {:induction false} SumDrop(entries: Data, key: string)
    ensures
      var found := Find(entries, key);
      && |Drop(entries, key)| == |entries| - (if found.Some? then 1 else 0)
      && SizeSum(Drop(entries, key)) == SizeSum(entries) - (if found.Some? then Size(found.value) else 0)
  {
    if entries != [] {
      SumDrop(entries[1..], key);
      assert ([entries[0]] + Drop(entries[1..], key))[1..] == Drop(entries[1..], key);
    }
  }

  // ---- single steps

  /** Storing an event and then the byte total, as one mailbox sees it. */
  lemma StoredEvents(data: Data, m: string, eventId: string, v: Value, total: int, m': string)
    requires Separate(m, m') && v.Event?
    ensures
      var key := EvtKey(m, eventId);
      var one := PutIn(data, key, v);
      var two := PutIn(one, BytesKey(m), Total(total));
      && Events(two, m') == Events(one, m')
      && ItemCount(one, m') == ItemCount(data, m') + (if m == m' && Find(data, key).None? then 1 else 0)
      && ByteSum(one, m') == ByteSum(data, m') + (if m == m' then |v.bytes| - SizeAt(data, key) else 0)
      && Seeded(one, m') == Seeded(data, m')
      && Seeded(two, m') == if m == m' then Max(0, total) else Seeded(data, m')
  {
    hide EvtKey, EvtPrefix, BytesKey, Find, PutIn, SizeSum, Select;
    KeysIsolated(m, eventId, m');
    var key := EvtKey(m, eventId);
    var one := PutIn(data, key, v);
    if m != m' {
      SelectPut(data, key, v, EvtPrefix(m'));
    } else if Find(data, key).None? {
      PutFresh(data, key, v);
      SelectAppend(data, Ordering.Pair(key, v), EvtPrefix(m'));
      SumAppend(Events(data, m'), Ordering.Pair(key, v));
    } else {
      SelectOverwrite(data, key, v, EvtPrefix(m));
    }
    SelectPut(one, BytesKey(m), Total(total), EvtPrefix(m'));
    FindPut(data, key, v, BytesKey(m'));
    FindPut(one, BytesKey(m), Total(total), BytesKey(m'));
  }

  lemma StoredOk(b: Box, m: string, rec: Record, objectId: string, now: nat, m': string)
    requires Separate(m, m') && MailboxOk(b, m') && LosesNothing(b, EvtKey(m, EventId(now, b.counter + 1)))
    requires m == m' ==> (b.maxItems.Some? ==> m in b.counts && b.counts[m] < b.maxItems.value)
    requires m == m' ==> (b.maxBytes.Some? ==> m in b.bytes && b.bytes[m] + |rec.bytes| <= b.maxBytes.value)
    ensures MailboxOk(Stored(b, m, rec, objectId, now).1, m')
  {
    hide EvtKey, EventId, BytesKey, Find, PutIn, ByteSum, Seeded, ItemCount, SizeAt;
    var total := GetOr0(b.bytes, m) + |rec.bytes|;
    var v := Event(objectId, rec.bytes, now);
    StoredEvents(b.data, m, EventId(now, b.counter + 1), v, total, m');
    SameEvents(PutIn(b.data, EvtKey(m, EventId(now, b.counter + 1)), v),
      Stored(b.(maxBytes := Some(0)), m, rec, objectId, now).1.data, m');
  }

  lemma SameEvents(data: Data, data': Data, m: string)
    requires Events(data, m) == Events(data', m)
    ensures ItemCount(data, m) == ItemCount(data', m) && ByteSum(data, m) == ByteSum(data', m)
  {
  }

  lemma PreparedOk(b: Box, m: string, rec: Record, m': string)
    requires MailboxOk(b, m')
    ensures
      var b1 := Prepared(b, m, rec);
      MailboxOk(b1, m') && b1.data == b.data && MailboxOk(SeedBytes(b1, m), m') && SeedBytes(b1, m).data == b.data
    ensures b.maxItems.Some? ==> m in Prepared(b, m, rec).counts
    ensures m in SeedBytes(Prepared(b, m, rec), m).bytes
  {
    hide ItemCount, ByteSum, Seeded;
  }

  lemma StoredDistinct(b: Box, m: string, rec: Record, objectId: string, now: nat)
    requires Ordering.DistinctKeys(b.data)
    ensures Ordering.DistinctKeys(Stored(b, m, rec, objectId, now).1.data)
  {
    hide EvtKey, EventId, BytesKey, PutIn;
    var key, v := EvtKey(m, EventId(now, b.counter + 1)), Event(objectId, rec.bytes, now);
    PutDistinct(b.data, key, v);
    PutDistinct(PutIn(b.data, key, v), BytesKey(m), Total(GetOr0(b.bytes, m) + |rec.bytes|));
  }

  lemma PreparedInv(b: Box, m: string, rec: Record, ids: set<string>)
    requires Inv(b, ids)
    ensures Inv(Prepared(b, m, rec), ids) && Inv(SeedBytes(Prepared(b, m, rec), m), ids)
  {
    hide MailboxOk, ItemCount, Seeded;
    var b1 := Prepared(b, m, rec);
    forall m' | m' in ids ensures MailboxOk(b1, m') && MailboxOk(SeedBytes(b1, m), m') {
      PreparedOk(b, m, rec, m');
    }
  }

  /** The key the next deposit would be stored under. */
  function DrawnKey(b: Box, m: string, rec: Record, now: nat): string {
    EvtKey(m, EventId(now, (if rec.objectId == "" then b.counter + 1 else b.counter) + 1))
  }

  /** An accepted deposit finds its key free. */
  predicate FreshDeposit(b: Box, m: string, rec: Record, now: nat) {
    Deposit(b, m, rec, now).0.Ok? ==> Find(b.data, DrawnKey(b, m, rec, now)).None?
  }

  /** What stands under this key counts for no cap: under an item cap the key is free, under a byte
      cap it holds no bytes. */
  predicate LosesNothing(b: Box, key: string) {
    (b.maxItems.Some? ==> Find(b.data, key).None?) && (b.maxBytes.Some? ==> SizeAt(b.data, key) == 0)
  }

  /** An accepted deposit overwrites nothing that counts. */
  predicate GentleDeposit(b: Box, m: string, rec: Record, now: nat) {
    Deposit(b, m, rec, now).0.Ok? ==> LosesNothing(b, DrawnKey(b, m, rec, now))
  }

  lemma FreshIsGentle(b: Box, m: string, rec: Record, now: nat)
    requires FreshDeposit(b, m, rec, now)
    ensures GentleDeposit(b, m, rec, now)
  {
    hide Deposit, DrawnKey, Find;
  }

  /** A deposit, refused or accepted over nothing that counts, keeps the invariant. */
  lemma DepositKeeps(b: Box, m: string, rec: Record, now: nat, ids: set<string>)
    requires Family(ids) && Inv(b, ids) && m in ids && GentleDeposit(b, m, rec, now)
    ensures Inv(Deposit(b, m, rec, now).1, ids)
  {
    hide MailboxOk, ItemCount, Seeded, Stored, EvtKey, EventId, ObjectId, Prepared, Find, Inv, DrawnKey, Family,
      LosesNothing;
    PreparedInv(b, m, rec, ids);
    if Deposit(b, m, rec, now).0.Ok? {
      DepositStores(b, m, rec, now, ids);
    }
  }

  lemma CapsUnchanged(b: Box, m: string, rec: Record)
    ensures
      var b1 := Prepared(b, m, rec);
      b1.maxItems == b.maxItems && b1.maxBytes == b.maxBytes &&
      SeedBytes(b1, m).maxItems == b.maxItems && SeedBytes(b1, m).maxBytes == b.maxBytes &&
        SeedBytes(b1, m).counts == b1.counts
  {
    hide ItemCount, Seeded;
  }

  /** The state in which an accepted deposit is stored. */
  function Checked(b: Box, m: string, rec: Record): Box {
    if b.maxBytes.Some? then SeedBytes(Prepared(b, m, rec), m) else Prepared(b, m, rec)
  }

  function ObjectIdFor(b: Box, rec: Record, now: nat): string {
    if rec.objectId == "" then ObjectId(now, b.counter + 1) else rec.objectId
  }

  /** What an accepted deposit has found and does. */
  lemma DepositAccepted(b: Box, m: string, rec: Record, now: nat)
    requires Deposit(b, m, rec, now).0.Ok?
    ensures
      var c := Checked(b, m, rec);
      && Deposit(b, m, rec, now).1 == Stored(c, m, rec, ObjectIdFor(b, rec, now), now).1
      && c.data == b.data && c.maxItems == b.maxItems && c.maxBytes == b.maxBytes
      && EvtKey(m, EventId(now, c.counter + 1)) == DrawnKey(b, m, rec, now)
      && (b.maxItems.Some? ==> m in c.counts && c.counts[m] < b.maxItems.value)
      && (b.maxBytes.Some? ==> m in c.bytes && c.bytes[m] + |rec.bytes| <= b.maxBytes.value)
  {
    hide ItemCount, Seeded, Stored, EvtKey, EventId, ObjectId, Find;
  }

  lemma DepositStores(b: Box, m: string, rec: Record, now: nat, ids: set<string>)
    requires Family(ids) && Inv(b, ids) && m in ids
    requires Deposit(b, m, rec, now).0.Ok? && LosesNothing(b, DrawnKey(b, m, rec, now))
    ensures Inv(Deposit(b, m, rec, now).1, ids)
  {
    hide MailboxOk, ItemCount, Seeded, Stored, EvtKey, EventId, ObjectIdFor, Prepared, Find, SeedBytes, DrawnKey,
      Deposit, Separate;
    PreparedInv(b, m, rec, ids);
    DepositAccepted(b, m, rec, now);
    var c, objectId := Checked(b, m, rec), ObjectIdFor(b, rec, now);
    forall m' | m' in ids ensures MailboxOk(Stored(c, m, rec, objectId, now).1, m') {
      StoredOk(c, m, rec, objectId, now, m');
    }
    StoredDistinct(c, m, rec, objectId, now);
  }

  /** In terms of what is really stored, a deposit is refused exactly when it would pass a cap. */
  lemma DepositRefusedExactly(b: Box, m: string, rec: Record, now: nat)
    requires MailboxOk(b, m) && m != "" && rec.allowed
    ensures
      var r := Deposit(b, m, rec, now).0;
      var full := b.maxItems.Some? && ItemCount(b.data, m) >= b.maxItems.value;
      var heavy := b.maxBytes.Some? && ByteSum(b.data, m) + |rec.bytes| > b.maxBytes.value;
      && (r.Err? <==> full || heavy)
      && (r.Err? ==> r.error == if full then ItemsQuota(b.maxItems.value) else BytesQuota(b.maxBytes.value))
  {
    hide ItemCount, ByteSum, Seeded, Stored, ObjectId, Find, Prepared, SeedBytes;
    CapsUnchanged(b, m, rec);
    PreparedOk(b, m, rec, m);
  }

  // ---- a drawn key that is not free

  /** Overwriting keeps the number of selected entries and trades one size for another. */
  lemma {:induction false} SelectOverwrite(data: Data, key: string, value: Value, prefix: string)
    requires Find(data, key).Some? && prefix <= key
    ensures
      var was, now := Select(data, prefix), Select(PutIn(data, key, value), prefix);
      |now| == |was| && SizeSum(now) == SizeSum(was) - Size(Find(data, key).value) + Size(value)
  {
    hide Size;
    var x, rest := data[0], data[1..];
    if x.key == key {
      ConsSelect(Ordering.Pair(key, value), rest, prefix);
    } else {
      SelectOverwrite(rest, key, value, prefix);
      ConsSelect(x, PutIn(rest, key, value), prefix);
    }
    ConsSelect(x, rest, prefix);
    assert data == [x] + rest;
  }

  lemma ConsSelect(x: Ordering.Pair<Value>, rest: Data, prefix: string)
    ensures
      var all := Select([x] + rest, prefix);
      && |all| == |Select(rest, prefix)| + (if prefix <= x.key then 1 else 0)
      && SizeSum(all) == SizeSum(Select(rest, prefix)) + (if prefix <= x.key then Size(x.value) else 0)
  {
    hide Size;
    assert ([x] + rest)[1..] == rest;
    if prefix <= x.key { assert ([x] + Select(rest, prefix))[1..] == Select(rest, prefix); }
    else { assert [] + Select(rest, prefix) == Select(rest, prefix); }
  }

  /** What the item check counts: the counter, or the listing that seeds it. */
  function ItemsSeen(b: Box, m: string): nat {
    if m in b.counts then b.counts[m] else ItemCount(b.data, m)
  }

  /** What the byte check counts: the counter, or the persisted total that seeds it. */
  function BytesSeen(b: Box, m: string): int {
    if m in b.bytes then b.bytes[m] else Seeded(b.data, m)
  }

  /** When a deposit is accepted. */
  lemma AcceptedExactly(b: Box, m: string, rec: Record, now: nat)
    ensures Deposit(b, m, rec, now).0.Ok? <==>
      && m != "" && rec.allowed
      && (b.maxItems.Some? ==> ItemsSeen(b, m) < b.maxItems.value)
      && (b.maxBytes.Some? ==> BytesSeen(b, m) + |rec.bytes| <= b.maxBytes.value)
  {
    hide ItemCount, Seeded, Stored, ObjectId;
  }

  /** The books after an accepted deposit, whatever they said before: the stored events lose what the
      drawn key held, the counters do not. */
  lemma DepositCounts(b: Box, m: string, rec: Record, now: nat)
    requires Deposit(b, m, rec, now).0.Ok?
    ensures
      var b', key := Deposit(b, m, rec, now).1, DrawnKey(b, m, rec, now);
      && ItemCount(b'.data, m) == ItemCount(b.data, m) + (if Find(b.data, key).None? then 1 else 0)
      && ByteSum(b'.data, m) == ByteSum(b.data, m) + |rec.bytes| - SizeAt(b.data, key)
      && b'.maxItems == b.maxItems && b'.maxBytes == b.maxBytes
      && (b.maxItems.Some? ==> m in b'.counts && b'.counts[m] == ItemsSeen(b, m) + 1)
      && (b.maxBytes.Some? ==>
            && m in b'.bytes && b'.bytes[m] == BytesSeen(b, m) + |rec.bytes|
            && Seeded(b'.data, m) == Max(0, b'.bytes[m]))
  {
    hide EvtKey, EventId, BytesKey, Find, PutIn, ByteSum, Seeded, ItemCount, SizeAt, ObjectIdFor, Prepared, SeedBytes,
      DrawnKey, Deposit;
    DepositAccepted(b, m, rec, now);
    CheckedCounts(b, m, rec);
    var c, objectId := Checked(b, m, rec), ObjectIdFor(b, rec, now);
    var v := Event(objectId, rec.bytes, now);
    var total := GetOr0(c.bytes, m) + |rec.bytes|;
    StoredEvents(b.data, m, EventId(now, c.counter + 1), v, total, m);
    SameEvents(PutIn(b.data, EvtKey(m, EventId(now, c.counter + 1)), v),
      Stored(c.(maxBytes := Some(0)), m, rec, objectId, now).1.data, m);
  }

  lemma CheckedCounts(b: Box, m: string, rec: Record)
    ensures
      var c := Checked(b, m, rec);
      && (b.maxItems.Some? ==> m in c.counts && c.counts[m] == ItemsSeen(b, m))
      && (b.maxBytes.Some? ==> m in c.bytes && c.bytes[m] == BytesSeen(b, m))
  {
    hide ItemCount, Seeded;
  }

  /** From exact books an accepted deposit leads to exact books if and only if it overwrites nothing that
      counts. Otherwise the item counter is one too high, or the byte counter too high by the bytes
      that were overwritten. */
  lemma ExactIffKeyFree(b: Box, m: string, rec: Record, now: nat)
    requires MailboxOk(b, m) && Deposit(b, m, rec, now).0.Ok?
    ensures
      var b', key := Deposit(b, m, rec, now).1, DrawnKey(b, m, rec, now);
      && (MailboxOk(b', m) <==> LosesNothing(b, key))
      && (b.maxItems.Some? ==>
            m in b'.counts && b'.counts[m] == ItemCount(b'.data, m) + (if Find(b.data, key).None? then 0 else 1))
      && (b.maxBytes.Some? ==>
            m in b'.bytes && b'.bytes[m] == Seeded(b'.data, m) == ByteSum(b'.data, m) + SizeAt(b.data, key))
  {
    hide Find, ByteSum, Seeded, ItemCount, SizeAt, DrawnKey, Deposit;
    AcceptedExactly(b, m, rec, now);
    DepositCounts(b, m, rec, now);
    DepositSizes(b, m, rec, now);
  }

  /** What is overwritten was among the stored bytes. */
  lemma DepositSizes(b: Box, m: string, rec: Record, now: nat)
    ensures SizeAt(b.data, DrawnKey(b, m, rec, now)) <= ByteSum(b.data, m)
  {
    hide EvtPrefix, EventId, Find, Select, Size, SizeSum;
    var key := DrawnKey(b, m, rec, now);
    assert EvtPrefix(m) <= key;
    SelectDrop(b.data, key, EvtPrefix(m));
    SumDrop(Events(b.data, m), key);
  }

  // ---- passing the byte cap

  /** An accepted deposit after which more bytes are stored than the cap allows. */
  predicate PassesCap(b: Box, m: string, rec: Record, now: nat) {
    && b.maxBytes.Some? && Deposit(b, m, rec, now).0.Ok?
    && ByteSum(Deposit(b, m, rec, now).1.data, m) > b.maxBytes.value
  }

  /** Some record passes the byte cap of a mailbox at this moment if and only if the byte check counts
      fewer bytes than would stay stored beside it, and neither check refuses already. */
  lemma PassesCapExactly(b: Box, m: string, objectId: string, now: nat)
    requires m != "" && b.maxBytes.Some?
    ensures
      var kept := ByteSum(b.data, m) - SizeAt(b.data, DrawnKey(b, m, Record(true, [], objectId), now));
      (exists bytes :: PassesCap(b, m, Record(true, bytes, objectId), now)) <==>
        && BytesSeen(b, m) < kept
        && BytesSeen(b, m) <= b.maxBytes.value
        && (b.maxItems.Some? ==> ItemsSeen(b, m) < b.maxItems.value)
  {
    hide Deposit, ByteSum, ItemCount, Seeded, SizeAt, Find, EvtKey, EventId, BytesSeen, ItemsSeen;
    forall bytes | PassesCap(b, m, Record(true, bytes, objectId), now)
      ensures BytesSeen(b, m) + |bytes| <= b.maxBytes.value
      ensures ByteSum(b.data, m) - SizeAt(b.data, DrawnKey(b, m, Record(true, [], objectId), now)) + |bytes|
        > b.maxBytes.value
      ensures b.maxItems.Some? ==> ItemsSeen(b, m) < b.maxItems.value
    {
      AcceptedExactly(b, m, Record(true, bytes, objectId), now);
      DepositCounts(b, m, Record(true, bytes, objectId), now);
    }
    if BytesSeen(b, m) <= b.maxBytes.value {
      var rec := Record(true, Zeros(b.maxBytes.value - BytesSeen(b, m)), objectId);
      AcceptedExactly(b, m, rec, now);
      if Deposit(b, m, rec, now).0.Ok? { DepositCounts(b, m, rec, now); }
      assert DrawnKey(b, m, rec, now) == DrawnKey(b, m, Record(true, [], objectId), now);
    }
  }

  // ---- acknowledging

  lemma AckEvents(data: Data, m: string, e: string, m': string)
    requires Separate(m, m')
    ensures
      var found := Find(data, EvtKey(m, e));
      var data' := Drop(data, EvtKey(m, e));
      && ItemCount(data', m') == ItemCount(data, m') - (if m == m' && found.Some? then 1 else 0)
      && ByteSum(data', m') == ByteSum(data, m') - (if m == m' && found.Some? then Size(found.value) else 0)
      && Seeded(data', m') == Seeded(data, m')
  {
    hide EvtKey, EvtPrefix, BytesKey, Find, Drop, SizeSum, Select, Size;
    KeysIsolated(m, e, m');
    var key := EvtKey(m, e);
    if m == m' {
      SelectDrop(data, key, EvtPrefix(m'));
      SumDrop(Events(data, m'), key);
    } else {
      SelectDropOther(data, key, EvtPrefix(m'));
    }
    FindDrop(data, key, BytesKey(m'));
  }

  lemma TotalPut(data: Data, m: string, total: int, m': string)
    requires Separate(m, m')
    ensures
      var data' := PutIn(data, BytesKey(m), Total(total));
      && Events(data', m') == Events(data, m')
      && Seeded(data', m') == if m == m' then Max(0, total) else Seeded(data, m')
  {
    hide EvtPrefix, BytesKey, Find, PutIn, Select;
    BytesKeyIsolated(m, m');
    SelectPut(data, BytesKey(m), Total(total), EvtPrefix(m'));
    FindPut(data, BytesKey(m), Total(total), BytesKey(m'));
  }

  lemma AckOk(b: Box, m: string, e: string, m': string)
    requires Separate(m, m') && MailboxOk(b, m') && MailboxOk(b, m)
    requires Find(b.data, EvtKey(m, e)).Some? && m != "" && e != ""
    ensures MailboxOk(Ack(b, m, e).1, m')
  {
    hide EvtKey, BytesKey, Find, Drop, PutIn, ByteSum, Seeded, ItemCount, Size, Events;
    AckEvents(b.data, m, e, m');
    AckEvents(b.data, m, e, m);
    var b2 := AckCounted(b, m, EvtKey(m, e));
    if b.maxBytes.Some? {
      var acked := SizeAt(b.data, EvtKey(m, e));
      var s := SeedBytes(b2, m);
      var left := Max(0, GetOr0(s.bytes, m) - acked);
      TotalPut(b2.data, m, left, m');
      SameEvents(b2.data, PutIn(b2.data, BytesKey(m), Total(left)), m');
    }
  }

  lemma AckKeeps(b: Box, m: string, e: string, ids: set<string>)
    requires Family(ids) && Inv(b, ids) && m in ids
    ensures Inv(Ack(b, m, e).1, ids)
  {
    hide MailboxOk, EvtKey, BytesKey, Find, Drop, PutIn, Seeded, Size, Separate;
    var key := EvtKey(m, e);
    var b' := Ack(b, m, e).1;
    if m != "" && e != "" {
      if Find(b.data, key).None? {
        DropAbsent(b.data, key);
      } else {
        forall m' | m' in ids ensures MailboxOk(b', m') { AckOk(b, m, e, m'); }
        DropDistinct(b.data, key);
        if b.maxBytes.Some? {
          forall n ensures Ordering.DistinctKeys(PutIn(Drop(b.data, key), BytesKey(m), Total(n))) {
            PutDistinct(Drop(b.data, key), BytesKey(m), Total(n));
          }
        }
      }
    }
  }

  lemma CreateKeeps(b: Box, m: string, now: nat, ids: set<string>)
    requires Family(ids) && Inv(b, ids) && m in ids
    ensures Inv(Create(b, m, now), ids)
  {
    hide Separate, EvtKey, EvtPrefix, BytesKey, MetaKey, Find, PutIn, Select, SizeSum;
    if m != "" {
      var key, v := MetaKey(m), Meta(now);
      PutDistinct(b.data, key, v);
      forall m' | m' in ids ensures MailboxOk(Create(b, m, now), m') {
        BytesKeyIsolated(m, m');
        SelectPut(b.data, key, v, EvtPrefix(m'));
        FindPut(b.data, key, v, BytesKey(m'));
        assert MailboxOk(b, m');
      }
    }
  }

  lemma RestartKeeps(b: Box, ids: set<string>)
    requires Inv(b, ids)
    ensures Inv(Restarted(b), ids)
  {
    hide ItemCount, ByteSum, Seeded;
    forall m | m in ids ensures MailboxOk(Restarted(b), m) { assert MailboxOk(b, m); }
  }

  // ---- whole runs

  datatype Op =
    | DoDeposit(m: string, rec: Record, now: nat)
    | DoAck(m: string, eventId: string)
    | DoCreate(m: string, now: nat)
    | Restart

  function Step(b: Box, op: Op): Box {
    match op
    case DoDeposit(m, rec, now) => Deposit(b, m, rec, now).1
    case DoAck(m, e) => Ack(b, m, e).1
    case DoCreate(m, now) => Create(b, m, now)
    case Restart => Restarted(b)
  }

  function Run(b: Box, ops: seq<Op>): Box {
    if ops == [] then b else Step(Run(b, ops[..|ops| - 1]), ops[|ops| - 1])
  }

  /** The run touches only these mailboxes. */
  ghost predicate Within(ops: seq<Op>, ids: set<string>) {
    forall i :: 0 <= i < |ops| ==> !ops[i].Restart? ==> ops[i].m in ids
  }

  /** Every accepted deposit of the run finds its key free. */
  predicate FreshRun(b: Box, ops: seq<Op>) {
    ops == [] ||
    (var op, before := ops[|ops| - 1], ops[..|ops| - 1];
     && FreshRun(b, before)
     && (op.DoDeposit? ==> FreshDeposit(Run(b, before), op.m, op.rec, op.now)))
  }

  /** Every accepted deposit of the run overwrites nothing that counts. */
  predicate GentleRun(b: Box, ops: seq<Op>) {
    ops == [] ||
    (var op, before := ops[|ops| - 1], ops[..|ops| - 1];
     && GentleRun(b, before)
     && (op.DoDeposit? ==> GentleDeposit(Run(b, before), op.m, op.rec, op.now)))
  }

  lemma {:induction false} FreshRunIsGentle(b: Box, ops: seq<Op>)
    requires FreshRun(b, ops)
    ensures GentleRun(b, ops)
  {
    hide FreshDeposit, GentleDeposit;
    if ops != [] {
      var op, before := ops[|ops| - 1], ops[..|ops| - 1];
      FreshRunIsGentle(b, before);
      if op.DoDeposit? { FreshIsGentle(Run(b, before), op.m, op.rec, op.now); }
    }
  }

  function Empty(maxItems: Option<nat>, maxBytes: Option<nat>): Box {
    Box(maxItems, maxBytes, [], map[], map[], 0)
  }

  lemma EmptyInv(maxItems: Option<nat>, maxBytes: Option<nat>, ids: set<string>)
    ensures Inv(Empty(maxItems, maxBytes), ids)
  {
    hide EvtPrefix, BytesKey;
  }

  lemma {:induction false} RunKeepsInv(b: Box, ids: set<string>, ops: seq<Op>)
    requires Family(ids) && Inv(b, ids) && Within(ops, ids) && GentleRun(b, ops)
    ensures Inv(Run(b, ops), ids)
  {
    hide Inv, Deposit, Ack, Create, Family, GentleDeposit;
    if ops != [] {
      var op, before := ops[|ops| - 1], ops[..|ops| - 1];
      RunKeepsInv(b, ids, before);
      var y := Run(b, before);
      match op {
        case DoDeposit(m, rec, now) => DepositKeeps(y, m, rec, now, ids);
        case DoAck(m, e) => AckKeeps(y, m, e, ids);
        case DoCreate(m, now) => CreateKeeps(y, m, now, ids);
        case Restart => RestartKeeps(y, ids);
      }
    }
  }

  lemma StepKeepsCaps(b: Box, op: Op)
    ensures Step(b, op).maxItems == b.maxItems && Step(b, op).maxBytes == b.maxBytes
  {
    hide EvtKey, EventId, BytesKey, MetaKey, Find, Drop, PutIn, ItemCount, Seeded, Deposit;
    if op.DoDeposit? { DepositKeepsCaps(b, op.m, op.rec, op.now); }
  }

  lemma DepositKeepsCaps(b: Box, m: string, rec: Record, now: nat)
    ensures var b' := Deposit(b, m, rec, now).1; b'.maxItems == b.maxItems && b'.maxBytes == b.maxBytes
  {
    hide EvtKey, EventId, BytesKey, PutIn, ItemCount, Seeded, ObjectId;
  }

  lemma {:induction false} CapsKept(b: Box, ops: seq<Op>)
    ensures Run(b, ops).maxItems == b.maxItems && Run(b, ops).maxBytes == b.maxBytes
  {
    hide Step;
    if ops != [] {
      CapsKept(b, ops[..|ops| - 1]);
      StepKeepsCaps(Run(b, ops[..|ops| - 1]), ops[|ops| - 1]);
    }
  }

  /** From any state that meets the invariant, whatever deposits, acknowledgements, creations and
      restarts happen, as long as accepted deposits overwrite nothing that counts: counters that are
      present equal what is stored, the persisted byte total does too, and neither cap is exceeded. */
  lemma QuotaHolds(b: Box, ids: set<string>, ops: seq<Op>, m: string)
    requires Family(ids) && Inv(b, ids) && Within(ops, ids) && GentleRun(b, ops) && m in ids
    ensures
      var y := Run(b, ops);
      && (b.maxItems.Some? ==> ItemCount(y.data, m) <= b.maxItems.value)
      && (b.maxItems.Some? && m in y.counts ==> y.counts[m] == ItemCount(y.data, m))
      && (b.maxBytes.Some? ==> ByteSum(y.data, m) <= b.maxBytes.value && Seeded(y.data, m) == ByteSum(y.data, m))
      && (b.maxBytes.Some? && m in y.bytes ==> y.bytes[m] == ByteSum(y.data, m))
  {
    hide Run, Within, GentleRun, Family, ItemCount, ByteSum, Seeded;
    RunKeepsInv(b, ids, ops);
    CapsKept(b, ops);
    assert MailboxOk(Run(b, ops), m);
  }

  /** That hypothesis is exact: every state along the run has exact books if and only if every accepted
      deposit overwrites nothing that counts. */
  lemma {:induction false} ExactIffFresh(b: Box, ids: set<string>, ops: seq<Op>)
    requires Family(ids) && Inv(b, ids) && Within(ops, ids)
    ensures (forall k :: 0 <= k <= |ops| ==> Inv(Run(b, ops[..k]), ids)) <==> GentleRun(b, ops)
  {
    hide Inv, Step, Family, GentleDeposit;
    if ops == [] {
      assert ops[..0] == ops;
    } else {
      var op, before := ops[|ops| - 1], ops[..|ops| - 1];
      ExactIffFresh(b, ids, before);
      assert forall k :: 0 <= k <= |before| ==> before[..k] == ops[..k];
      assert ops[..|ops|] == ops;
      if GentleRun(b, ops) {
        RunKeepsInv(b, ids, ops);
      } else if GentleRun(b, before) {
        RunKeepsInv(b, ids, before);
        TakenBreaks(Run(b, before), ids, op);
      }
    }
  }

  lemma TakenBreaks(b: Box, ids: set<string>, op: Op)
    requires Inv(b, ids) && op.DoDeposit? && op.m in ids && !GentleDeposit(b, op.m, op.rec, op.now)
    ensures !Inv(Step(b, op), ids)
  {
    hide Deposit, MailboxOk, LosesNothing, DrawnKey, Find;
    ExactIffKeyFree(b, op.m, op.rec, op.now);
  }

  // ---- when the clock keeps keys free

  /** Every stored event bears an id of an earlier process or of a counter value already used. */
  ghost predicate IdsKnown(b: Box, ids: set<string>, horizon: nat, latest: nat) {
    forall x, m, t: nat, c: nat :: x in b.data && m in ids && x.key == EvtKey(m, EventId(t, c)) ==>
      t <= latest && (t <= horizon || c <= b.counter)
  }

  function Later(now: nat, latest: nat): nat {
    if now > latest then now else latest
  }

  /** The latest clock reading of a deposit so far, and the latest before the current process. */
  function Latest(ops: seq<Op>, latest: nat): nat {
    if ops == [] then latest
    else
      var before := Latest(ops[..|ops| - 1], latest);
      match ops[|ops| - 1]
      case DoDeposit(_, _, now) => Later(now, before)
      case _ => before
  }

  function Horizon(ops: seq<Op>, horizon: nat, latest: nat): nat {
    if ops == [] then horizon
    else if ops[|ops| - 1].Restart? then Latest(ops[..|ops| - 1], latest)
    else Horizon(ops[..|ops| - 1], horizon, latest)
  }

  /** After a restart the clock is past every earlier deposit; within a process it may do anything. */
  predicate Clocked(ops: seq<Op>, horizon: nat, latest: nat) {
    ops == [] ||
    (var op, before := ops[|ops| - 1], ops[..|ops| - 1];
     Clocked(before, horizon, latest) && (op.DoDeposit? ==> Horizon(before, horizon, latest) < op.now))
  }

  lemma KeyOfEvent(m: string, e: string, m': string, e': string)
    requires Separate(m, m') && EvtKey(m, e) == EvtKey(m', e')
    ensures m == m' && e == e'
  {
    hide EvtPrefix;
    assert EvtPrefix(m') <= EvtKey(m, e);
    KeysIsolated(m, e, m');
    assert EvtKey(m, e)[|EvtPrefix(m)|..] == e && EvtKey(m', e')[|EvtPrefix(m)|..] == e';
  }

  lemma KnownIsFree(b: Box, m: string, ids: set<string>, now: nat, counter: nat, horizon: nat, latest: nat)
    requires IdsKnown(b, ids, horizon, latest) && m in ids && horizon < now && b.counter < counter
    ensures Find(b.data, EvtKey(m, EventId(now, counter))).None?
  {
    hide EvtKey, EventId;
    FindMember(b.data, EvtKey(m, EventId(now, counter)));
  }

  /** New entries that are no events of these mailboxes, or lost ones, keep ids known. */
  lemma IdsKept(b: Box, b': Box, ids: set<string>, horizon: nat, latest: nat, latest': nat)
    requires IdsKnown(b, ids, horizon, latest) && b.counter <= b'.counter && latest <= latest'
    requires forall x :: x in b'.data ==> x in b.data || (forall m, e :: m in ids ==> x.key != EvtKey(m, e))
    ensures IdsKnown(b', ids, horizon, latest')
  {
    hide EvtKey, EventId;
  }

  lemma SideKeys(m: string, ids: set<string>)
    requires Family(ids) && m in ids
    ensures forall m', e :: m' in ids ==> BytesKey(m) != EvtKey(m', e) && MetaKey(m) != EvtKey(m', e)
  {
    hide EvtPrefix, BytesKey, MetaKey, Separate;
    forall m', e | m' in ids ensures BytesKey(m) != EvtKey(m', e) && MetaKey(m) != EvtKey(m', e) {
      assert EvtPrefix(m') <= EvtKey(m', e);
      assert Separate(m, m');
      BytesKeyIsolated(m, m');
    }
  }

  lemma IdsStored(
    c: Box, m: string, rec: Record, objectId: string, now: nat, ids: set<string>, horizon: nat, latest: nat)
    requires Family(ids) && m in ids && IdsKnown(c, ids, horizon, latest)
    ensures IdsKnown(Stored(c, m, rec, objectId, now).1, ids, horizon, Later(now, latest))
  {
    hide EvtKey, EventId, BytesKey, MetaKey, PutIn, Separate;
    var b' := Stored(c, m, rec, objectId, now).1;
    var key, v := EvtKey(m, EventId(now, c.counter + 1)), Event(objectId, rec.bytes, now);
    PutMembers(c.data, key, v);
    PutMembers(PutIn(c.data, key, v), BytesKey(m), Total(GetOr0(c.bytes, m) + |rec.bytes|));
    SideKeys(m, ids);
    forall x, m', t: nat, n: nat | x in b'.data && m' in ids && x.key == EvtKey(m', EventId(t, n))
      ensures t <= Later(now, latest) && (t <= horizon || n <= b'.counter)
    {
      if x.key == key {
        assert Separate(m, m');
        KeyOfEvent(m, EventId(now, c.counter + 1), m', EventId(t, n));
        EventIdInjective(now, c.counter + 1, t, n);
      }
    }
  }

  lemma DepositIds(b: Box, m: string, rec: Record, now: nat, ids: set<string>, horizon: nat, latest: nat)
    requires Family(ids) && m in ids && IdsKnown(b, ids, horizon, latest) && horizon < now
    ensures FreshDeposit(b, m, rec, now)
    ensures IdsKnown(Deposit(b, m, rec, now).1, ids, horizon, Later(now, latest))
  {
    hide IdsKnown, EvtKey, EventId, Find, Stored, ObjectIdFor, Family, ObjectId, ItemCount, Seeded;
    KnownIsFree(b, m, ids, now, (if rec.objectId == "" then b.counter + 1 else b.counter) + 1, horizon, latest);
    var b' := Deposit(b, m, rec, now).1;
    if Deposit(b, m, rec, now).0.Ok? {
      DepositAccepted(b, m, rec, now);
      IdsKept(b, Checked(b, m, rec), ids, horizon, latest, latest);
      IdsStored(Checked(b, m, rec), m, rec, ObjectIdFor(b, rec, now), now, ids, horizon, latest);
    } else {
      assert b'.data == b.data;
      IdsKept(b, b', ids, horizon, latest, Later(now, latest));
    }
  }

  lemma AckIds(b: Box, m: string, e: string, ids: set<string>, horizon: nat, latest: nat)
    requires Family(ids) && m in ids && IdsKnown(b, ids, horizon, latest)
    ensures IdsKnown(Ack(b, m, e).1, ids, horizon, latest)
  {
    hide IdsKnown, EvtKey, BytesKey, MetaKey, Find, Drop, PutIn, Family, Seeded, Size;
    DropMembers(b.data, EvtKey(m, e));
    forall n ensures forall x :: x in PutIn(Drop(b.data, EvtKey(m, e)), BytesKey(m), Total(n)) ==>
      x in Drop(b.data, EvtKey(m, e)) || x == Ordering.Pair(BytesKey(m), Total(n))
    {
      PutMembers(Drop(b.data, EvtKey(m, e)), BytesKey(m), Total(n));
    }
    SideKeys(m, ids);
    IdsKept(b, Ack(b, m, e).1, ids, horizon, latest, latest);
  }

  lemma CreateIds(b: Box, m: string, now: nat, ids: set<string>, horizon: nat, latest: nat)
    requires Family(ids) && m in ids && IdsKnown(b, ids, horizon, latest)
    ensures IdsKnown(Create(b, m, now), ids, horizon, latest)
  {
    hide IdsKnown, EvtKey, BytesKey, MetaKey, PutIn, Family;
    PutMembers(b.data, MetaKey(m), Meta(now));
    SideKeys(m, ids);
    IdsKept(b, Create(b, m, now), ids, horizon, latest, latest);
  }

  lemma RestartIds(b: Box, ids: set<string>, horizon: nat, latest: nat)
    requires IdsKnown(b, ids, horizon, latest)
    ensures IdsKnown(Restarted(b), ids, latest, latest)
  {
    hide EvtKey, EventId;
  }

  /** A clock that is past all earlier deposits after each restart keeps every drawn key free. */
  lemma {:induction false} ClockedIsFresh(b: Box, ids: set<string>, ops: seq<Op>, horizon: nat, latest: nat)
    requires Family(ids) && Within(ops, ids) && IdsKnown(b, ids, horizon, latest) && Clocked(ops, horizon, latest)
    ensures FreshRun(b, ops)
    ensures IdsKnown(Run(b, ops), ids, Horizon(ops, horizon, latest), Latest(ops, latest))
  {
    hide IdsKnown, Deposit, Ack, Create, Family, FreshDeposit;
    if ops != [] {
      var op, before := ops[|ops| - 1], ops[..|ops| - 1];
      ClockedIsFresh(b, ids, before, horizon, latest);
      var y, h, l := Run(b, before), Horizon(before, horizon, latest), Latest(before, latest);
      match op {
        case DoDeposit(m, rec, now) => DepositIds(y, m, rec, now, ids, h, l);
        case DoAck(m, e) => AckIds(y, m, e, ids, h, l);
        case DoCreate(m, now) => CreateIds(y, m, now, ids, h, l);
        case Restart => RestartIds(y, ids, h, l);
      }
    }
  }

  lemma EmptyIds(maxItems: Option<nat>, maxBytes: Option<nat>, ids: set<string>)
    ensures IdsKnown(Empty(maxItems, maxBytes), ids, 0, 0)
  {
    hide EvtKey, EventId;
  }

  /** In particular from an empty store, with mailboxes apart from each other and a clock that is past
      all earlier deposits after each restart. */
  lemma QuotaFromEmpty(maxItems: Option<nat>, maxBytes: Option<nat>, ids: set<string>, ops: seq<Op>, m: string)
    requires Family(ids) && Within(ops, ids) && Clocked(ops, 0, 0) && m in ids
    ensures
      var y := Run(Empty(maxItems, maxBytes), ops);
      && (maxItems.Some? ==> ItemCount(y.data, m) <= maxItems.value)
      && (maxItems.Some? && m in y.counts ==> y.counts[m] == ItemCount(y.data, m))
      && (maxBytes.Some? ==> ByteSum(y.data, m) <= maxBytes.value && Seeded(y.data, m) == ByteSum(y.data, m))
      && (maxBytes.Some? && m in y.bytes ==> y.bytes[m] == ByteSum(y.data, m))
  {
    hide Run, Within, FreshRun, GentleRun, Family, ItemCount, ByteSum, Seeded, Clocked, Inv, IdsKnown;
    var b := Empty(maxItems, maxBytes);
    EmptyInv(maxItems, maxBytes, ids);
    EmptyIds(maxItems, maxBytes, ids);
    ClockedIsFresh(b, ids, ops, 0, 0);
    FreshRunIsGentle(b, ops);
    QuotaHolds(b, ids, ops, m);
  }

  /** A deposit, a restart and a deposit within one millisecond: the second overwrites the first, and
      the counter says two. */
  lemma SameMillisecondRestart(m: string, bytes: Bytes, now: nat)
    requires m != ""
    ensures
      var rec := Record(true, bytes, "o");
      var b := Run(Empty(Some(5), None), [DoDeposit(m, rec, now), Restart, DoDeposit(m, rec, now)]);
      ItemCount(b.data, m) == 1 && m in b.counts && b.counts[m] == 2
  {
    hide EvtPrefix, EventId;
    var rec := Record(true, bytes, "o");
    var key, v := EvtKey(m, EventId(now, 1)), Event("o", bytes, now);
    var op := DoDeposit(m, rec, now);
    var b0 := Empty(Some(5), None);
    var b1 := Box(Some(5), None, [Ordering.Pair(key, v)], map[m := 1], map[], 1);
    var b2 := Box(Some(5), None, [Ordering.Pair(key, v)], map[], map[], 0);
    var b3 := b1.(counts := map[m := 2]);
    assert EvtPrefix(m) <= key;
    OneEntry(key, v, EvtPrefix(m));
    assert Step(b0, op) == b1;
    assert Step(b1, Restart) == b2;
    assert Step(b2, op) == b3;
    ThreeSteps(b0, op, Restart, op);
  }

  lemma ThreeSteps(b: Box, p: Op, q: Op, r: Op)
    ensures Run(b, [p, q, r]) == Step(Step(Step(b, p), q), r)
  {
    hide Step;
    assert [p, q, r][..2] == [p, q] && [p, q][..1] == [p] && [p][..0] == [];
    assert Run(b, [p]) == Step(b, p);
    assert Run(b, [p, q]) == Step(Run(b, [p]), q);
  }

  lemma OneEntry(key: string, v: Value, prefix: string)
    requires prefix <= key
    ensures
      var one := [Ordering.Pair(key, v)];
      && PutIn([], key, v) == one && PutIn(one, key, v) == one && Find(one, key) == Some(v)
      && |Select(one, prefix)| == 1 && Select([], prefix) == [] && SizeSum(Select(one, prefix)) == Size(v)
  {
    var one := [Ordering.Pair(key, v)];
    assert one[1..] == [];
    assert Select(one, prefix) == one + Select([], prefix) == one;
  }

  // ---- which mailboxes keep within their caps

  predicate WithinCaps(b: Box, m: string) {
    && (b.maxItems.Some? ==> ItemCount(b.data, m) <= b.maxItems.value)
    && (b.maxBytes.Some? ==> ByteSum(b.data, m) <= b.maxBytes.value)
  }

  /** The checks count at least what is stored, also after a restart. */
  ghost predicate Covered(b: Box, m: string) {
    && WithinCaps(b, m)
    && (b.maxItems.Some? && m in b.counts ==> ItemCount(b.data, m) <= b.counts[m])
    && (b.maxBytes.Some? ==>
          && ByteSum(b.data, m) <= Seeded(b.data, m)
          && (m in b.bytes ==> ByteSum(b.data, m) <= b.bytes[m]))
  }

  /** The mailbox is full with its only event: nothing comes in before that one, with all its bytes, is
      out. */
  ghost predicate Sole(b: Box, m: string) {
    && WithinCaps(b, m) && b.maxItems == Some(1) && ItemCount(b.data, m) == 1
    && (m in b.counts ==> b.counts[m] >= 1)
  }

  ghost predicate Guarded(b: Box, m: string) {
    Covered(b, m) || Sole(b, m)
  }

  /** What a deposit leaves alone: the books of every other mailbox, and of this one when refused. */
  lemma DepositSpares(b: Box, m: string, rec: Record, now: nat, m': string)
    requires Separate(m, m') && (m != m' || Deposit(b, m, rec, now).0.Err?)
    ensures
      var b' := Deposit(b, m, rec, now).1;
      && b'.maxItems == b.maxItems && b'.maxBytes == b.maxBytes
      && ItemCount(b'.data, m') == ItemCount(b.data, m') && ByteSum(b'.data, m') == ByteSum(b.data, m')
      && Seeded(b'.data, m') == Seeded(b.data, m')
      && ItemsSeen(b', m') == ItemsSeen(b, m') && BytesSeen(b', m') == BytesSeen(b, m')
  {
    hide ByteSum, Seeded, ItemCount, ObjectIdFor, Deposit, Stored, Checked, ItemsSeen, BytesSeen;
    if Deposit(b, m, rec, now).0.Ok? {
      DepositAccepted(b, m, rec, now);
      CheckedSpares(b, m, rec, m');
      StoredSpares(Checked(b, m, rec), m, rec, ObjectIdFor(b, rec, now), now, m');
    } else {
      RefusedSpares(b, m, rec, now, m');
    }
  }

  /** Same caps and data, and the checks count the same. */
  ghost predicate Alike(b: Box, b': Box, m: string) {
    && b'.maxItems == b.maxItems && b'.maxBytes == b.maxBytes && b'.data == b.data
    && ItemsSeen(b', m) == ItemsSeen(b, m) && BytesSeen(b', m) == BytesSeen(b, m)
  }

  lemma RefusedSpares(b: Box, m: string, rec: Record, now: nat, m': string)
    requires Deposit(b, m, rec, now).0.Err?
    ensures Alike(b, Deposit(b, m, rec, now).1, m')
  {
    hide Stored, ObjectId, Prepared, SeedBytes, ItemsSeen, BytesSeen;
    PreparedSpares(b, m, rec, m');
    SeedSpares(Prepared(b, m, rec), m, m');
  }

  lemma CheckedSpares(b: Box, m: string, rec: Record, m': string)
    ensures Alike(b, Checked(b, m, rec), m')
  {
    hide Prepared, SeedBytes, ItemsSeen, BytesSeen;
    PreparedSpares(b, m, rec, m');
    SeedSpares(Prepared(b, m, rec), m, m');
  }

  lemma PreparedSpares(b: Box, m: string, rec: Record, m': string)
    ensures Alike(b, Prepared(b, m, rec), m')
  {
    hide Seeded, ItemCount;
  }

  lemma SeedSpares(b: Box, m: string, m': string)
    ensures Alike(b, SeedBytes(b, m), m')
  {
    hide Seeded, ItemCount;
  }

  lemma StoredSpares(c: Box, m: string, rec: Record, objectId: string, now: nat, m': string)
    requires Separate(m, m') && m != m'
    ensures
      var b' := Stored(c, m, rec, objectId, now).1;
      && b'.maxItems == c.maxItems && b'.maxBytes == c.maxBytes
      && ItemCount(b'.data, m') == ItemCount(c.data, m') && ByteSum(b'.data, m') == ByteSum(c.data, m')
      && Seeded(b'.data, m') == Seeded(c.data, m')
      && ItemsSeen(b', m') == ItemsSeen(c, m') && BytesSeen(b', m') == BytesSeen(c, m')
  {
    hide EvtKey, EventId, BytesKey, Find, PutIn, ByteSum, Seeded, ItemCount, SizeAt;
    var v := Event(objectId, rec.bytes, now);
    StoredEvents(c.data, m, EventId(now, c.counter + 1), v, GetOr0(c.bytes, m) + |rec.bytes|, m');
    SameEvents(PutIn(c.data, EvtKey(m, EventId(now, c.counter + 1)), v),
      Stored(c.(maxBytes := Some(0)), m, rec, objectId, now).1.data, m');
  }

  /** Covered and Sole in terms of what the checks count. */
  lemma GuardedSeen(b: Box, m: string)
    ensures Covered(b, m) <==>
      && WithinCaps(b, m)
      && (b.maxItems.Some? ==> ItemCount(b.data, m) <= ItemsSeen(b, m))
      && (b.maxBytes.Some? ==> ByteSum(b.data, m) <= Seeded(b.data, m) && ByteSum(b.data, m) <= BytesSeen(b, m))
    ensures Sole(b, m) <==>
      WithinCaps(b, m) && b.maxItems == Some(1) && ItemCount(b.data, m) == 1 && ItemsSeen(b, m) >= 1
  {
    hide ItemCount, ByteSum, Seeded;
  }

  lemma DepositGuarded(b: Box, m: string, rec: Record, now: nat, m': string)
    requires Separate(m, m') && Guarded(b, m')
    ensures Guarded(Deposit(b, m, rec, now).1, m')
  {
    hide Deposit, ItemCount, ByteSum, Seeded, ItemsSeen, BytesSeen, Separate, SizeAt, Find, DrawnKey, Covered, Sole;
    var b' := Deposit(b, m, rec, now).1;
    GuardedSeen(b, m');
    GuardedSeen(b', m');
    if m == m' && Deposit(b, m, rec, now).0.Ok? {
      AcceptedExactly(b, m, rec, now);
      DepositCounts(b, m, rec, now);
      GuardedAfter(b', m);
    } else {
      DepositSpares(b, m, rec, now, m');
    }
  }

  /** Counters present are what the checks count. */
  lemma GuardedAfter(b: Box, m: string)
    ensures m in b.counts ==> ItemsSeen(b, m) == b.counts[m]
    ensures m in b.bytes ==> BytesSeen(b, m) == b.bytes[m]
  {
  }

  lemma AckGuarded(b: Box, m: string, e: string, m': string)
    requires Separate(m, m') && Guarded(b, m')
    ensures Guarded(Ack(b, m, e).1, m')
  {
    hide EvtKey, BytesKey, Find, Drop, PutIn, ByteSum, Seeded, ItemCount, Events;
    var key := EvtKey(m, e);
    if m != "" && e != "" && Find(b.data, key).Some? {
      AckEvents(b.data, m, e, m');
      EmptyBytes(Drop(b.data, key), m');
      var b2 := AckCounted(b, m, key);
      if b.maxBytes.Some? {
        var left := Max(0, GetOr0(SeedBytes(b2, m).bytes, m) - SizeAt(b.data, key));
        TotalPut(b2.data, m, left, m');
        SameEvents(b2.data, PutIn(b2.data, BytesKey(m), Total(left)), m');
      }
    } else if Find(b.data, key).None? {
      DropAbsent(b.data, key);
    }
  }

  lemma EmptyBytes(data: Data, m: string)
    ensures ItemCount(data, m) == 0 ==> ByteSum(data, m) == 0
  {
  }

  lemma CreateGuarded(b: Box, m: string, now: nat, m': string)
    requires Separate(m, m') && Guarded(b, m')
    ensures Guarded(Create(b, m, now), m')
  {
    hide EvtKey, EvtPrefix, BytesKey, MetaKey, Find, PutIn, Select, SizeSum;
    BytesKeyIsolated(m, m');
    SelectPut(b.data, MetaKey(m), Meta(now), EvtPrefix(m'));
    FindPut(b.data, MetaKey(m), Meta(now), BytesKey(m'));
  }

  lemma RestartGuarded(b: Box, m: string)
    requires Guarded(b, m)
    ensures Guarded(Restarted(b), m)
  {
    hide ItemCount, ByteSum, Seeded;
  }

  /** Overwriting included, no run leaves the guarded states. */
  lemma {:induction false} RunGuarded(b: Box, ids: set<string>, ops: seq<Op>, m: string)
    requires Family(ids) && Within(ops, ids) && m in ids && Guarded(b, m)
    ensures Guarded(Run(b, ops), m)
  {
    hide Guarded, Deposit, Ack, Create, Separate;
    if ops != [] {
      var op, before := ops[|ops| - 1], ops[..|ops| - 1];
      RunGuarded(b, ids, before, m);
      var y := Run(b, before);
      match op {
        case DoDeposit(m', rec, now) => DepositGuarded(y, m', rec, now, m);
        case DoAck(m', e) => AckGuarded(y, m', e, m);
        case DoCreate(m', now) => CreateGuarded(y, m', now, m);
        case Restart => RestartGuarded(y, m);
      }
    }
  }

  /** What the store of a starting process must satisfy: the caps hold, and the persisted total covers
      the stored bytes, or the mailbox is full with its only event. */
  predicate StartsSafe(b: Box, m: string) {
    && WithinCaps(b, m)
    && (b.maxBytes.Some? ==>
          ByteSum(b.data, m) <= Seeded(b.data, m) || (b.maxItems == Some(1) && ItemCount(b.data, m) == 1))
  }

  lemma StartGuarded(b: Box, m: string)
    requires b.counts == map[] && b.bytes == map[]
    ensures StartsSafe(b, m) <==> Guarded(b, m)
  {
    hide ItemCount, ByteSum, Seeded;
  }

  // ---- a run that passes the cap otherwise

  lemma LongDecimal(n: nat) returns (t: nat)
    ensures |Text.Decimal(t)| > n
  {
    t := 1;
    for k := 0 to n
      invariant t >= 1 && |Text.Decimal(t)| > k
    {
      assert (10 * t) / 10 == t;
      t := 10 * t;
    }
  }

  lemma {:induction false} LongestKey(data: Data) returns (n: nat)
    ensures forall i :: 0 <= i < |data| ==> |data[i].key| <= n
  {
    n := 0;
    if data != [] {
      var rest := LongestKey(data[1..]);
      n := Max(rest, |data[0].key|);
      assert forall i :: 1 <= i < |data| ==> data[i] == data[1..][i - 1];
    }
  }

  /** At some time the next key is free. */
  lemma FreeTime(b: Box, m: string, rec: Record) returns (now: nat)
    ensures Find(b.data, DrawnKey(b, m, rec, now)).None?
  {
    hide Text.Decimal, Pad6, Find;
    var n := LongestKey(b.data);
    now := LongDecimal(n);
    FindMember(b.data, DrawnKey(b, m, rec, now));
  }

  /** With an undercounted total and room for an item, one deposit passes the cap. */
  lemma PassingDeposit(b: Box, m: string) returns (op: Op)
    requires m != "" && b.maxBytes.Some?
    requires BytesSeen(b, m) < ByteSum(b.data, m) && BytesSeen(b, m) <= b.maxBytes.value
    requires b.maxItems.Some? ==> ItemsSeen(b, m) < b.maxItems.value
    ensures op.DoDeposit? && op.m == m && !WithinCaps(Step(b, op), m)
  {
    hide Deposit, ByteSum, ItemCount, Seeded, Find, EvtKey, EventId, BytesSeen, ItemsSeen;
    var now := FreeTime(b, m, Record(true, [], "o"));
    PassesCapExactly(b, m, "o", now);
    var bytes :| PassesCap(b, m, Record(true, bytes, "o"), now);
    DepositKeepsCaps(b, m, Record(true, bytes, "o"), now);
    op := DoDeposit(m, Record(true, bytes, "o"), now);
  }

  /** An event of a full mailbox beside which bytes are stored. */
  lemma LighterEvent(b: Box, m: string) returns (e: string)
    requires Ordering.DistinctKeys(b.data) && Find(b.data, EvtPrefix(m)).None?
    requires ItemCount(b.data, m) >= 2 && ByteSum(b.data, m) > 0
    ensures e != "" && Find(b.data, EvtKey(m, e)).Some? && SizeAt(b.data, EvtKey(m, e)) < ByteSum(b.data, m)
  {
    hide Find, Select, EvtPrefix, Size;
    var all, prefix := Events(b.data, m), EvtPrefix(m);
    assert SizeSum(all) == Size(all[0].value) + (Size(all[1].value) + SizeSum(all[1..][1..]));
    var x := if Size(all[0].value) < SizeSum(all) then all[0] else all[1];
    SelectMembers(b.data, prefix);
    assert x in all;
    FindAt(b.data, x);
    e := x.key[|prefix|..];
    assert x.key == prefix + e;
    assert e == "" ==> x.key == prefix;
  }

  /** From any start that is not safe, some run passes a cap. */
  lemma UnsafeRun(b: Box, m: string) returns (ops: seq<Op>)
    requires m != "" && Ordering.DistinctKeys(b.data) && Find(b.data, EvtPrefix(m)).None?
    requires b.counts == map[] && b.bytes == map[] && !StartsSafe(b, m)
    ensures (forall i :: 0 <= i < |ops| ==> !ops[i].Restart? && ops[i].m == m) && !WithinCaps(Run(b, ops), m)
  {
    hide Step, ByteSum, ItemCount, Seeded, Find, EvtPrefix, Ordering.DistinctKeys;
    if !WithinCaps(b, m) {
      ops := [];
    } else if b.maxItems.Some? && ItemCount(b.data, m) >= b.maxItems.value {
      BytesNeedEvents(b.data, m);
      var e := LighterEvent(b, m);
      var ack := DoAck(m, e);
      AckUncovers(b, m, e);
      var deposit := PassingDeposit(Step(b, ack), m);
      ops := [ack, deposit];
      assert ops[..1] == [ack] && [ack][..0] == [];
      assert Run(b, [ack]) == Step(b, ack);
    } else {
      var deposit := PassingDeposit(b, m);
      ops := [deposit];
      assert ops[..0] == [];
    }
  }

  lemma BytesNeedEvents(data: Data, m: string)
    ensures ByteSum(data, m) > 0 ==> ItemCount(data, m) > 0
    ensures Seeded(data, m) >= 0
  {
  }

  /** Acknowledging it makes room and leaves the bytes undercounted. */
  lemma AckUncovers(b: Box, m: string, e: string)
    requires m != "" && e != "" && Find(b.data, EvtKey(m, e)).Some? && b.maxBytes.Some?
    requires b.counts == map[] && b.bytes == map[] && WithinCaps(b, m)
    requires Seeded(b.data, m) < ByteSum(b.data, m) && SizeAt(b.data, EvtKey(m, e)) < ByteSum(b.data, m)
    ensures
      var b' := Step(b, DoAck(m, e));
      && b'.maxBytes == b.maxBytes && b'.maxItems == b.maxItems
      && BytesSeen(b', m) < ByteSum(b'.data, m) && BytesSeen(b', m) <= b'.maxBytes.value
      && ItemsSeen(b', m) < ItemCount(b.data, m)
  {
    hide EvtKey, BytesKey, Find, Drop, PutIn, ByteSum, Seeded, ItemCount, Events, Size;
    var key := EvtKey(m, e);
    AckEvents(b.data, m, e, m);
    var b2 := AckCounted(b, m, key);
    var left := Max(0, Seeded(b2.data, m) - SizeAt(b.data, key));
    TotalPut(b2.data, m, left, m);
    SameEvents(b2.data, PutIn(b2.data, BytesKey(m), Total(left)), m);
    assert Ack(b, m, e).1.data == PutIn(b2.data, BytesKey(m), Total(left));
  }

  /** Every run on these mailboxes keeps their caps. */
  ghost predicate CapsHold(b: Box, ids: set<string>) {
    forall ops, m :: Within(ops, ids) && m in ids ==> WithinCaps(Run(b, ops), m)
  }

  /** For a process starting on any store: the caps hold in every state of every run, whatever keys its
      deposits draw, if and only if they hold at the start and each persisted total covers the stored
      bytes or the mailbox is full with its only event. No event bears an empty id: deposits write none. */
  lemma CapsHoldExactly(b: Box, ids: set<string>)
    requires Family(ids) && "" !in ids && Ordering.DistinctKeys(b.data) && b.counts == map[] && b.bytes == map[]
    requires forall m :: m in ids ==> Find(b.data, EvtPrefix(m)).None?
    ensures CapsHold(b, ids) <==> forall m :: m in ids ==> StartsSafe(b, m)
  {
    hide StartsSafe, WithinCaps, Run, EvtPrefix, Find, Family;
    if m :| m in ids && !StartsSafe(b, m) {
      var ops := UnsafeRun(b, m);
      assert Within(ops, ids);
    } else {
      forall ops, m | Within(ops, ids) && m in ids ensures WithinCaps(Run(b, ops), m) {
        StartGuarded(b, m);
        RunGuarded(b, ids, ops, m);
        GuardedWithin(Run(b, ops), m);
      }
    }
  }

  lemma GuardedWithin(b: Box, m: string)
    requires Guarded(b, m)
    ensures WithinCaps(b, m)
  {
  }

  /** The failing case: a store without a persisted total seeds to zero, whatever it holds, so a cap
      introduced later can be passed. */
  lemma OlderMailboxExceeds(m: string, id: string, now: nat)
    requires m != ""
    ensures
      var stored := [Ordering.Pair(EvtKey(m, id), Event("o", [1, 2, 3], 0))];
      var b := Box(None, Some(3), stored, map[], map[], 0);
      && Seeded(b.data, m) == 0 && ByteSum(b.data, m) == 3
      && Deposit(b, m, Record(true, [4], "o"), now).0.Ok?
  {
    hide EvtPrefix, EventId, PutIn;
    var key, v := EvtKey(m, id), Event("o", [1, 2, 3], 0);
    assert EvtPrefix(m) <= key;
    OneEntry(key, v, EvtPrefix(m));
    BytesKeyIsolated(m, m);
    KeysIsolated(m, id, m);
    assert Find([Ordering.Pair(key, v)], BytesKey(m)).None?;
  }

  // ---- the object

  /** The one key that could break a cursor, the bare prefix, sorts first. */
  lemma {:induction false} PrefixLeast(prefix: string, rest: string)
    ensures !Ordering.Less(prefix + rest, prefix)
  {
    if prefix != [] {
      assert (prefix + rest)[1..] == prefix[1..] + rest;
      PrefixLeast(prefix[1..], rest);
    }
  }

  lemma LaterKeysAreLonger(all: Data, prefix: string, i: nat)
    requires Ordering.Sorted(all) && 0 < i < |all| && forall j :: 0 <= j < |all| ==> prefix <= all[j].key
    ensures |all[i].key| > |prefix|
  {
    if |all[i].key| == |prefix| {
      assert all[i].key == prefix;
      var rest := all[0].key[|prefix|..];
      assert all[0].key == prefix + rest;
      PrefixLeast(prefix, rest);
    }
  }

  /** One page of events, as `list` returns it: ids without the prefix. */
  datatype Listing = Listing(ids: seq<string>, nextCursor: string)

  function Stripped(items: Data, n: nat): (ids: seq<string>)
    ensures |ids| == |items|
  {
    seq(|items|, i requires 0 <= i < |items| => if n <= |items[i].key| then items[i].key[n..] else "")
  }

  class RMailbox {
    const store: MemoryDataStore
    const maxItems: Option<nat>
    const maxBytes: Option<nat>
    var counts: map<string, nat>
    var bytes: map<string, int>
    var counter: nat

    ghost predicate Valid() reads this, store {
      store.Valid()
    }

    ghost function State(): Box reads this, store {
      Box(maxItems, maxBytes, store.data, counts, bytes, counter)
    }

    /** A process starting on whatever the store holds; a cap of zero is no cap. */
    constructor (store: MemoryDataStore, itemCap: nat, byteCap: nat)
      requires store.Valid()
      ensures Valid() && this.store == store
      ensures State() == Box(Cap(itemCap), Cap(byteCap), store.data, map[], map[], 0)
    {
      this.store := store;
      maxItems := Cap(itemCap);
      maxBytes := Cap(byteCap);
      counts := map[];
      bytes := map[];
      counter := 0;
    }

    /** The ids of one page; the empty cursor starts at the beginning and also ends the listing. */
    method List(m: string, cursor: string, limit: nat) returns (page: Listing)
      requires Valid()
      ensures
        var p := PageOf(store.data, EvtPrefix(m), if cursor == "" then "" else EvtPrefix(m) + cursor, limit, false);
        && page.ids == Stripped(p.items, |EvtPrefix(m)|)
        && page.nextCursor ==
             if p.nextCursor.Some? && |EvtPrefix(m)| <= |p.nextCursor.value|
             then p.nextCursor.value[|EvtPrefix(m)|..] else ""
    {
      hide PageOf, EvtPrefix;
      var prefix := EvtPrefix(m);
      var p := store.List(prefix, if cursor == "" then "" else prefix + cursor, limit, false);
      var next := if p.nextCursor.Some? && |prefix| <= |p.nextCursor.value| then p.nextCursor.value[|prefix|..] else "";
      return Listing(Stripped(p.items, |prefix|), next);
    }

    /** The seeding scan: it reads page after page, stops, and has counted every stored event once. */
    method EnsureCount(m: string) returns (count: nat)
      requires Valid()
      modifies this`counts
      ensures Valid() && State() == SeedCount(old(State()), m) && m in counts && count == counts[m]
    {
      hide EvtPrefix, Ordering.Sort, Select, PageOf;
      if m in counts {
        return counts[m];
      }
      ghost var all := Ordering.Sort(Events(store.data, m));
      SelectionSorted(store.data, EvtPrefix(m));
      var page := FirstPage(m);
      count := |page.ids|;
      while page.nextCursor != ""
        invariant count <= |all| && counts == old(counts) && store.data == old(store.data)
        invariant page.nextCursor == "" ==> count == |all|
        invariant page.nextCursor != "" ==> 0 < count < |all| && all[count - 1].key == EvtPrefix(m) + page.nextCursor
        decreases |all| - count, if page.nextCursor == "" then 0 else 1
      {
        page := NextPage(m, page.nextCursor, count);
        count := count + |page.ids|;
      }
      counts := counts[m := count];
    }

    method FirstPage(m: string) returns (page: Listing)
      requires Valid()
      ensures
        var all := Ordering.Sort(Events(store.data, m));
        && |page.ids| <= |all|
        && (page.nextCursor == "" ==> |page.ids| == |all|)
        && (page.nextCursor != "" ==>
              0 < |page.ids| < |all| && all[|page.ids| - 1].key == EvtPrefix(m) + page.nextCursor)
    {
      hide EvtPrefix, Ordering.Sort, Select, PageOf;
      ghost var all := Ordering.Sort(Events(store.data, m));
      PageContinues(store.data, EvtPrefix(m), PAGE, false, 0);
      page := List(m, "", PAGE);
      PageEnd(store.data, m, 0);
    }

    /** Reads the page behind the first `count` events. */
    method NextPage(m: string, cursor: string, ghost count: nat) returns (page: Listing)
      requires Valid() && cursor != ""
      requires
        var all := Ordering.Sort(Events(store.data, m));
        0 < count < |all| && all[count - 1].key == EvtPrefix(m) + cursor
      ensures
        var all, n := Ordering.Sort(Events(store.data, m)), count + |page.ids|;
        && count < n <= |all|
        && (page.nextCursor == "" ==> n == |all|)
        && (page.nextCursor != "" ==> n < |all| && all[n - 1].key == EvtPrefix(m) + page.nextCursor)
    {
      hide EvtPrefix, Ordering.Sort, Select, PageOf;
      PageContinues(store.data, EvtPrefix(m), PAGE, false, count);
      page := List(m, cursor, PAGE);
      PageEnd(store.data, m, count);
    }

    method EnsureBytes(m: string) returns (total: int)
      requires Valid()
      modifies this`bytes
      ensures Valid() && State() == SeedBytes(old(State()), m) && m in bytes && total == bytes[m]
    {
      hide Find, BytesKey;
      if m in bytes {
        return bytes[m];
      }
      var rec := store.Get(BytesKey(m));
      total := if rec.Some? && rec.value.Total? && rec.value.total > 0 then rec.value.total else 0;
      bytes := bytes[m := total];
    }

    method PersistBytes(m: string, total: int)
      requires Valid()
      modifies store
      ensures Valid() && store.data == PutIn(old(store.data), BytesKey(m), Total(total))
    {
      store.Put(BytesKey(m), Total(total));
    }

    method DepositRecord(m: string, rec: Record, now: nat) returns (r: Result<string, Error>)
      requires Valid()
      modifies this, store
      ensures Valid() && (r, State()) == Deposit(old(State()), m, rec, now)
    {
      hide ItemCount, Seeded, EvtKey, EventId, ObjectId, PutIn, BytesKey;
      if m == "" {
        return Err(EmptyId);
      }
      if !rec.allowed {
        return Err(ContentType);
      }
      var objectId := rec.objectId;
      if objectId == "" {
        counter := counter + 1;
        objectId := ObjectId(now, counter);
      }
      if maxItems.Some? {
        var count := EnsureCount(m);
        if count >= maxItems.value {
          return Err(ItemsQuota(maxItems.value));
        }
      }
      if maxBytes.Some? {
        var used := EnsureBytes(m);
        if used + |rec.bytes| > maxBytes.value {
          return Err(BytesQuota(maxBytes.value));
        }
      }
      var eventId := StoreEvent(m, rec, objectId, now);
      return Ok(eventId);
    }

    method StoreEvent(m: string, rec: Record, objectId: string, now: nat) returns (eventId: string)
      requires Valid()
      modifies this, store
      ensures Valid() && (eventId, State()) == Stored(old(State()), m, rec, objectId, now)
    {
      hide EventId, PutIn, BytesKey, EvtPrefix;
      counter := counter + 1;
      eventId := EventId(now, counter);
      KeyNotEmpty(m, eventId);
      store.Put(EvtKey(m, eventId), Event(objectId, rec.bytes, now));
      if maxItems.Some? {
        counts := counts[m := (if m in counts then counts[m] else 0) + 1];
      }
      if maxBytes.Some? {
        var nextBytes := GetOr0(bytes, m) + |rec.bytes|;
        bytes := bytes[m := nextBytes];
        PersistBytes(m, nextBytes);
      }
    }

    method Fetch(m: string, eventId: string) returns (r: Result<Option<Value>, Error>)
      requires Valid()
      ensures r == FetchOf(State(), m, eventId)
    {
      if m == "" || eventId == "" {
        return Err(EmptyId);
      }
      var found := store.Get(EvtKey(m, eventId));
      return Ok(found);
    }

    method AckEvent(m: string, eventId: string) returns (r: Result<bool, Error>)
      requires Valid()
      modifies this, store
      ensures Valid() && (r, State()) == Ack(old(State()), m, eventId)
    {
      hide EvtKey, Find, Drop, AckBytes;
      if m == "" || eventId == "" {
        return Err(EmptyId);
      }
      var key := EvtKey(m, eventId);
      var ackedBytes := 0;
      if maxBytes.Some? {
        var existing := store.Get(key);
        if existing.Some? && existing.value.Event? {
          ackedBytes := |existing.value.bytes|;
        }
      }
      var removed := store.Remove(key);
      if removed && maxItems.Some? && m in counts {
        var next := counts[m] as int - 1;
        counts := counts[m := if next > 0 then next else 0];
      }
      if removed && maxBytes.Some? {
        ReleaseBytes(m, ackedBytes);
      }
      return Ok(removed);
    }

    method ReleaseBytes(m: string, ackedBytes: nat)
      requires Valid()
      modifies this`bytes, store
      ensures Valid() && State() == AckBytes(old(State()), m, ackedBytes)
    {
      hide PutIn, BytesKey, Find, Seeded;
      var used := EnsureBytes(m);
      var next := used - ackedBytes;
      var clamped := if next > 0 then next else 0;
      bytes := bytes[m := clamped];
      PersistBytes(m, clamped);
    }

    method CreateMailbox(m: string, now: nat) returns (ok: bool)
      requires Valid()
      modifies store
      ensures Valid() && State() == Create(old(State()), m, now) && ok == (m != "")
    {
      hide PutIn;
      if m == "" {
        return false;
      }
      store.Put(MetaKey(m), Meta(now));
      return true;
    }
  }

  function Cap(n: nat): Option<nat> {
    if n > 0 then Some(n) else None
  }

  lemma KeyNotEmpty(m: string, e: string)
    ensures EvtKey(m, e) != ""
  {
  }

  /** Where a page ends, in terms of the sorted list. */
  lemma PageEnd(data: Data, m: string, i: nat)
    requires Ordering.DistinctKeys(data) && i <= |Ordering.Sort(Events(data, m))|
    ensures
      var all, n := Ordering.Sort(Events(data, m)), i + PAGE;
      && Ordering.Sorted(all)
      && (n < |all| ==> |all[n - 1].key| > |EvtPrefix(m)| && EvtPrefix(m) <= all[n - 1].key)
  {
    hide EvtPrefix, Ordering.Sort, Select;
    SelectionSorted(data, EvtPrefix(m));
    var all, n := Ordering.Sort(Events(data, m)), i + PAGE;
    if n < |all| { LaterKeysAreLonger(all, EvtPrefix(m), n - 1); }
  }
}
