/** The default string order of `Array.prototype.sort` (UTF-16 code units) and sorting by key. */
module Ordering {
  /** Code-unit order of characters: those beyond 0xFFFF start with a surrogate unit and so
      come before 0xE000..0xFFFF. */
  function Rank(c: char): nat {
    var n := c as int;
    if 0xe000 <= n < 0x1_0000 then n + 0x11_0000 else n
  }

  predicate Less(a: string, b: string) {
    if b == [] then false
    else if a == [] then true
    else if a[0] == b[0] then Less(a[1..], b[1..])
    else Rank(a[0]) < Rank(b[0])
  }

  lemma {:induction false} LessTotal(a: string, b: string)
    ensures Less(a, b) || a == b || Less(b, a)
  {
    if a != [] && b != [] && a[0] == b[0] {
      LessTotal(a[1..], b[1..]);
      assert a == [a[0]] + a[1..] && b == [b[0]] + b[1..];
    }
  }

  lemma {:induction false} LessIrreflexive(a: string)
    ensures !Less(a, a)
  {
    if a != [] { LessIrreflexive(a[1..]); }
  }

  lemma {:induction false} LessTransitive(a: string, b: string, c: string)
    requires Less(a, b) && Less(b, c)
    ensures Less(a, c)
  {
    if a != [] && a[0] == b[0] && b[0] == c[0] {
      LessTransitive(a[1..], b[1..], c[1..]);
    }
  }

  // ---- the code units behind the order

  /** UTF-16: one unit, or a surrogate pair. */
  function UnitsOf(c: char): (u: seq<nat>)
    ensures |u| == 1 || |u| == 2
  {
    var n := c as int;
    if n < 0x1_0000 then [n] else [0xd800 + (n - 0x1_0000) / 0x400, 0xdc00 + (n - 0x1_0000) % 0x400]
  }

  function Units(s: string): seq<nat> {
    if s == [] then [] else UnitsOf(s[0]) + Units(s[1..])
  }

  /** x is a proper prefix of y, or smaller at the first difference. */
  ghost predicate UnitsLess(x: seq<nat>, y: seq<nat>) {
    exists k :: 0 <= k < |y| && k <= |x| && x[..k] == y[..k] && (k == |x| || x[k] < y[k])
  }

  lemma PrefixAt(x: seq<nat>, y: seq<nat>, k: nat)
    requires k <= |x| && k <= |y| && x[..k] == y[..k]
    ensures forall m :: 0 <= m < k ==> x[m] == y[m]
  {
    forall m | 0 <= m < k ensures x[m] == y[m] { assert x[..k][m] == y[..k][m]; }
  }

  lemma EqualStart(u: seq<nat>, x: seq<nat>, y: seq<nat>)
    ensures UnitsLess(u + x, u + y) <==> UnitsLess(x, y)
  {
    if UnitsLess(x, y) {
      var k :| 0 <= k < |y| && k <= |x| && x[..k] == y[..k] && (k == |x| || x[k] < y[k]);
      PrefixAt(x, y, k);
      DiffersAt(u + x, u + y, |u| + k);
    }
    if UnitsLess(u + x, u + y) { WithoutStart(u, x, y); }
  }

  lemma WithoutStart(u: seq<nat>, x: seq<nat>, y: seq<nat>)
    requires UnitsLess(u + x, u + y)
    ensures UnitsLess(x, y)
  {
    var a, b, n := u + x, u + y, |u|;
    var k :| 0 <= k < |b| && k <= |a| && a[..k] == b[..k] && (k == |a| || a[k] < b[k]);
    PrefixAt(a, b, k);
    assert forall m :: 0 <= m < |x| ==> x[m] == a[n + m];
    assert forall m :: 0 <= m < |y| ==> y[m] == b[n + m];
    DiffersAt(x, y, k - n);
  }

  lemma DiffersAt(x: seq<nat>, y: seq<nat>, k: nat)
    requires k < |y| && k <= |x| && (k == |x| || x[k] < y[k]) && forall m :: 0 <= m < k ==> x[m] == y[m]
    ensures UnitsLess(x, y)
  {
    assert x[..k] == y[..k];
  }

  /** Different characters decide by their units, whatever follows. */
  lemma UnequalStart(a: char, b: char, x: seq<nat>, y: seq<nat>)
    requires a != b
    ensures UnitsLess(UnitsOf(a) + x, UnitsOf(b) + y) <==> Rank(a) < Rank(b)
  {
    var s, t := UnitsOf(a) + x, UnitsOf(b) + y;
    var k := if s[0] != t[0] then 0 else 1;
    assert |s| > k && |t| > k && s[..k] == t[..k] && s[k] != t[k] && (s[k] < t[k] <==> Rank(a) < Rank(b));
    DecidedAt(s, t, k);
  }

  lemma DecidedAt(x: seq<nat>, y: seq<nat>, k: nat)
    requires k < |x| && k < |y| && x[..k] == y[..k] && x[k] != y[k]
    ensures UnitsLess(x, y) <==> x[k] < y[k]
  {
    if UnitsLess(x, y) {
      var j :| 0 <= j < |y| && j <= |x| && x[..j] == y[..j] && (j == |x| || x[j] < y[j]);
      PrefixAt(x, y, j);
      PrefixAt(x, y, k);
    }
  }

  /** The order is that of the UTF-16 code units, as the source's language compares strings. */
  lemma {:induction false} LessIsUnitOrder(a: string, b: string)
    ensures Less(a, b) <==> UnitsLess(Units(a), Units(b))
  {
    hide UnitsLess, UnitsOf, Rank;
    if a == [] || b == [] {
      EmptyUnits(Units(a), Units(b));
    } else if a[0] == b[0] {
      LessIsUnitOrder(a[1..], b[1..]);
      EqualStart(UnitsOf(a[0]), Units(a[1..]), Units(b[1..]));
    } else {
      UnequalStart(a[0], b[0], Units(a[1..]), Units(b[1..]));
    }
  }

  lemma EmptyUnits(x: seq<nat>, y: seq<nat>)
    ensures x == [] || y == [] ==> (UnitsLess(x, y) <==> x == [] && y != [])
  {
    if x == [] && y != [] { assert x[..0] == y[..0] && 0 == |x|; }
  }

  datatype Pair<+T> = Pair(key: string, value: T)

  ghost predicate DistinctKeys<T>(s: seq<Pair<T>>) {
    forall i, j :: 0 <= i < j < |s| ==> s[i].key != s[j].key
  }

  ghost predicate Sorted<T>(s: seq<Pair<T>>) {
    forall i, j :: 0 <= i < j < |s| ==> Less(s[i].key, s[j].key)
  }

  function Insert<T(!new)>(x: Pair<T>, s: seq<Pair<T>>): (r: seq<Pair<T>>)
    ensures |r| == |s| + 1
    ensures forall y :: y in r <==> y == x || y in s
  {
    if s == [] then [x]
    else if Less(s[0].key, x.key) then [s[0]] + Insert(x, s[1..])
    else [x] + s
  }

  /** Sorting entries by key. */
  function Sort<T(!new)>(s: seq<Pair<T>>): (r: seq<Pair<T>>)
    ensures |r| == |s|
    ensures forall y :: y in r <==> y in s
  {
    if s == [] then [] else Insert(s[0], Sort(s[1..]))
  }

  lemma {:induction false} InsertSorted<T(!new)>(x: Pair<T>, s: seq<Pair<T>>)
    requires Sorted(s) && forall i :: 0 <= i < |s| ==> s[i].key != x.key
    ensures Sorted(Insert(x, s))
  {
    if s != [] {
      var r := Insert(x, s);
      if Less(s[0].key, x.key) {
        var rest := Insert(x, s[1..]);
        InsertSorted(x, s[1..]);
        forall i | 0 <= i < |rest| ensures Less(s[0].key, rest[i].key) {
          assert rest[i] in rest;
          if rest[i] != x {
            var k :| 0 <= k < |s[1..]| && s[1..][k] == rest[i];
            assert s[k + 1] == rest[i];
          }
        }
      } else {
        LessTotal(s[0].key, x.key);
        forall i | 0 <= i < |s| ensures Less(x.key, s[i].key) {
          if i > 0 { LessTransitive(x.key, s[0].key, s[i].key); }
        }
      }
    }
  }

  lemma {:induction false} SortSorted<T(!new)>(s: seq<Pair<T>>)
    requires DistinctKeys(s)
    ensures Sorted(Sort(s))
  {
    if s != [] {
      SortSorted(s[1..]);
      var rest := Sort(s[1..]);
      forall i | 0 <= i < |rest| ensures rest[i].key != s[0].key {
        assert rest[i] in s[1..];
        var k :| 0 <= k < |s[1..]| && s[1..][k] == rest[i];
        assert s[k + 1] == rest[i];
      }
      InsertSorted(s[0], rest);
    }
  }

  lemma SortedDistinct<T(!new)>(s: seq<Pair<T>>)
    requires Sorted(s)
    ensures DistinctKeys(s)
  {
    forall i, j | 0 <= i < j < |s| ensures s[i].key != s[j].key {
      LessIrreflexive(s[i].key);
    }
  }

  /** A sorted list is determined by its members. */
  lemma {:induction false} SortedUnique<T(!new)>(a: seq<Pair<T>>, b: seq<Pair<T>>)
    requires Sorted(a) && Sorted(b)
    requires forall x :: x in a <==> x in b
    ensures a == b
    decreases |a|
  {
    if a == [] {
      assert forall i :: 0 <= i < |b| ==> b[i] in b;
    } else {
      assert a[0] in b;
      assert b != [];
      assert b[0] in a;
      HeadsAgree(a, b);
      var a', b' := a[1..], b[1..];
      forall x ensures x in a' <==> x in b' {
        TailMembers(a, x);
        TailMembers(b, x);
      }
      SortedUnique(a', b');
      assert a == [a[0]] + a' && b == [b[0]] + b';
    }
  }

  lemma HeadsAgree<T(!new)>(a: seq<Pair<T>>, b: seq<Pair<T>>)
    requires Sorted(a) && Sorted(b) && a != [] && b != [] && a[0] in b && b[0] in a
    ensures a[0] == b[0]
  {
    var i :| 0 <= i < |a| && a[i] == b[0];
    var j :| 0 <= j < |b| && b[j] == a[0];
    if i > 0 && j > 0 {
      LessTransitive(a[0].key, b[0].key, a[0].key);
      LessIrreflexive(a[0].key);
    }
  }

  lemma TailMembers<T(!new)>(a: seq<Pair<T>>, x: Pair<T>)
    requires Sorted(a) && a != []
    ensures x in a[1..] <==> x in a && x != a[0]
  {
    if x in a[1..] {
      var k :| 0 <= k < |a[1..]| && a[1..][k] == x;
      assert a[k + 1] == x;
      LessIrreflexive(a[0].key);
    }
    if x in a && x != a[0] {
      var k :| 0 <= k < |a| && a[k] == x;
      assert a[1..][k - 1] == x;
    }
  }

  /** Lists with the same entries sort to the same list. */
  lemma SortCanonical<T(!new)>(a: seq<Pair<T>>, b: seq<Pair<T>>)
    requires DistinctKeys(a) && DistinctKeys(b)
    requires forall x :: x in a <==> x in b
    ensures Sort(a) == Sort(b)
  {
    SortSorted(a);
    SortSorted(b);
    SortedUnique(Sort(a), Sort(b));
  }
}
