/** The frame fingerprint's `stableJson` (`network/FrameFingerprint.js`) and when it prints the
    canonical text. */
module StableJson {
  import opened Ordering
  import opened CanonicalJson
  import Text

  ghost function Stable(v: Json): string
    decreases v, 1
  {
    match v
    case Arr(items) => if items == [] then "[]" else "[" + Stable(items[0]) + StableItems(items[1..])
    case Obj(fields) => PrintPairs(Sort(StablePairs(fields)))
    case _ => Print(v)
  }

  ghost function StableItems(items: seq<Json>): string
    decreases items, 0
  {
    if items == [] then "]" else "," + Stable(items[0]) + StableItems(items[1..])
  }

  ghost function StablePairs(fields: seq<Pair<Json>>): (r: seq<Pair<string>>)
    ensures |r| == |fields|
    ensures forall i :: 0 <= i < |r| ==> r[i] == Pair(fields[i].key, Stable(fields[i].value))
    decreases fields, 0
  {
    if fields == [] then []
    else [Pair(fields[0].key, Stable(fields[0].value))] + StablePairs(fields[1..])
  }

  function PrintPairs(ps: seq<Pair<string>>): string {
    if ps == [] then "{}" else "{" + Quote(ps[0].key) + ":" + ps[0].value + MorePairs(ps[1..])
  }

  function MorePairs(ps: seq<Pair<string>>): string {
    if ps == [] then "}" else "," + Quote(ps[0].key) + ":" + ps[0].value + MorePairs(ps[1..])
  }

  function Texts(fields: seq<Pair<Json>>): (r: seq<Pair<string>>)
    ensures |r| == |fields|
    ensures forall i :: 0 <= i < |r| ==> r[i] == Pair(fields[i].key, Print(fields[i].value))
  {
    if fields == [] then [] else [Pair(fields[0].key, Print(fields[0].value))] + Texts(fields[1..])
  }

  lemma {:induction false} MoreAsPairs(fields: seq<Pair<Json>>)
    ensures PrintFields(fields) == MorePairs(Texts(fields))
  {
    hide Print, Quote;
    if fields != [] {
      MoreAsPairs(fields[1..]);
      assert Texts(fields)[1..] == Texts(fields[1..]);
    }
  }

  lemma PrintAsPairs(fields: seq<Pair<Json>>)
    ensures Print(Obj(fields)) == PrintPairs(Texts(fields))
  {
    if fields != [] {
      MoreAsPairs(fields[1..]);
      assert Texts(fields)[1..] == Texts(fields[1..]);
    }
  }

  lemma {:induction false} InsertTexts(x: Pair<Json>, s: seq<Pair<Json>>)
    ensures Texts(Insert(x, s)) == Insert(Pair(x.key, Print(x.value)), Texts(s))
  {
    hide Print, Less;
    if s != [] {
      assert Texts(s)[1..] == Texts(s[1..]);
      InsertTexts(x, s[1..]);
    }
  }

  lemma {:induction false} SortTexts(s: seq<Pair<Json>>)
    ensures Texts(Sort(s)) == Sort(Texts(s))
  {
    hide Print, Less;
    if s != [] {
      assert Texts(s)[1..] == Texts(s[1..]);
      SortTexts(s[1..]);
      InsertTexts(s[0], Sort(s[1..]));
    }
  }

  // ---- what it prints: the value with every object's fields sorted

  function SortedValue(v: Json): Json
    decreases v, 1
  {
    match v
    case Arr(items) => Arr(SortedItems(items))
    case Obj(fields) => Obj(Sort(SortedFields(fields)))
    case _ => v
  }

  function SortedItems(items: seq<Json>): (r: seq<Json>)
    ensures |r| == |items|
    ensures forall i :: 0 <= i < |r| ==> r[i] == SortedValue(items[i])
    decreases items, 0
  {
    if items == [] then [] else [SortedValue(items[0])] + SortedItems(items[1..])
  }

  function SortedFields(fields: seq<Pair<Json>>): (r: seq<Pair<Json>>)
    ensures |r| == |fields|
    ensures forall i :: 0 <= i < |r| ==> r[i] == Pair(fields[i].key, SortedValue(fields[i].value))
    decreases fields, 0
  {
    if fields == [] then []
    else [Pair(fields[0].key, SortedValue(fields[0].value))] + SortedFields(fields[1..])
  }

  lemma {:induction false} StableText(v: Json)
    ensures Stable(v) == Print(SortedValue(v))
    decreases v, 1
  {
    hide Sort, PrintPairs, Quote;
    if v.Arr? {
      if v.items != [] {
        StableText(v.items[0]);
        StableItemsText(v.items[1..]);
        assert SortedItems(v.items)[1..] == SortedItems(v.items[1..]);
      }
    } else if v.Obj? {
      var s := SortedFields(v.fields);
      forall i | 0 <= i < |v.fields| ensures StablePairs(v.fields)[i] == Texts(s)[i] {
        StableText(v.fields[i].value);
      }
      assert StablePairs(v.fields) == Texts(s);
      PrintAsPairs(Sort(s));
      SortTexts(s);
    }
  }

  lemma {:induction false} StableItemsText(items: seq<Json>)
    ensures StableItems(items) == PrintItems(SortedItems(items))
    decreases items, 0
  {
    if items != [] {
      StableText(items[0]);
      StableItemsText(items[1..]);
      assert SortedItems(items)[1..] == SortedItems(items[1..]);
    }
  }

  lemma SortedFieldsDistinct(fields: seq<Pair<Json>>)
    requires DistinctKeys(fields)
    ensures Sorted(Sort(SortedFields(fields))) && DistinctKeys(Sort(SortedFields(fields)))
    ensures forall x :: x in Sort(SortedFields(fields)) <==> x in SortedFields(fields)
  {
    SortSorted(SortedFields(fields));
    SortedDistinct(Sort(SortedFields(fields)));
  }

  lemma {:induction false} SortedWell(v: Json)
    requires WellFormed(v)
    ensures WellFormed(SortedValue(v))
    decreases v
  {
    hide Sort;
    if v.Arr? {
      forall i | 0 <= i < |v.items| ensures WellFormed(SortedItems(v.items)[i]) { SortedWell(v.items[i]); }
    } else if v.Obj? {
      var s := SortedFields(v.fields);
      var r := Sort(s);
      SortedFieldsDistinct(v.fields);
      forall i | 0 <= i < |r| ensures r[i].key != "__proto__" && WellFormed(r[i].value) {
        assert r[i] in s;
        var j :| 0 <= j < |s| && s[j] == r[i];
        SortedWell(v.fields[j].value);
      }
    }
  }

  // ---- where the two orders of keys agree

  /** The object model lists k before l whatever order they were assigned in. */
  ghost predicate Precedes(k: string, l: string) {
    IsIndex(k) && (IsIndex(l) ==> IndexValue(k) < IndexValue(l))
  }

  /** An index-like key sorts before every other kind of key and before every larger index. */
  ghost predicate Ordered(fields: seq<Pair<Json>>) {
    forall x, y :: x in fields && y in fields && Precedes(x.key, y.key) ==> Less(x.key, y.key)
  }

  ghost predicate KeysInOrder(v: Json) {
    match v
    case Arr(items) => forall i :: 0 <= i < |items| ==> KeysInOrder(items[i])
    case Obj(fields) => Ordered(fields) && forall i :: 0 <= i < |fields| ==> KeysInOrder(fields[i].value)
    case _ => true
  }

  lemma IndexValueInjective(k: string, l: string)
    ensures IsIndex(k) && IsIndex(l) && IndexValue(k) == IndexValue(l) ==> k == l
  {
  }

  ghost predicate NumericSorted(p: seq<Pair<Json>>) {
    forall i, j :: 0 <= i < j < |p| ==> IndexValue(p[i].key) <= IndexValue(p[j].key)
  }

  lemma {:induction false} NumericInsertSorted(x: Pair<Json>, s: seq<Pair<Json>>)
    requires NumericSorted(s)
    ensures NumericSorted(NumericInsert(x, s))
  {
    hide IndexValue;
    if s != [] && IndexValue(s[0].key) < IndexValue(x.key) {
      var rest := NumericInsert(x, s[1..]);
      NumericInsertSorted(x, s[1..]);
      forall i | 0 <= i < |rest| ensures IndexValue(s[0].key) <= IndexValue(rest[i].key) {
        assert rest[i] in rest;
        if rest[i] != x {
          var k :| 0 <= k < |s[1..]| && s[1..][k] == rest[i];
          assert s[k + 1] == rest[i];
        }
      }
    }
  }

  lemma {:induction false} NumericOrderSorted(s: seq<Pair<Json>>)
    ensures NumericSorted(NumericOrder(s))
  {
    hide NumericInsert, IndexValue;
    if s != [] {
      NumericOrderSorted(s[1..]);
      NumericInsertSorted(s[0], NumericOrder(s[1..]));
    }
  }

  lemma {:induction false} PickSorted(s: seq<Pair<Json>>, index: bool)
    requires Sorted(s)
    ensures Sorted(Pick(s, index))
  {
    hide Less, IsIndex;
    if s != [] {
      var rest := Pick(s[1..], index);
      PickSorted(s[1..], index);
      forall i | 0 <= i < |rest| ensures Less(s[0].key, rest[i].key) {
        assert rest[i] in rest;
        var j :| 0 <= j < |s[1..]| && s[1..][j] == rest[i];
        assert s[j + 1] == rest[i];
      }
    }
  }

  /** The parts of an arranged list. */
  lemma ArrangeParts(s: seq<Pair<Json>>)
    requires Sorted(s)
    ensures
      var p, q := NumericOrder(Pick(s, true)), Pick(s, false);
      && Arrange(s) == p + q && NumericSorted(p) && DistinctKeys(p) && Sorted(q)
      && (forall x :: x in p <==> x in s && IsIndex(x.key))
      && (forall x :: x in q <==> x in s && !IsIndex(x.key))
  {
    hide Less, IsIndex, Pick, NumericOrder;
    SortedDistinct(s);
    PickDistinct(s, true);
    NumericDistinct(Pick(s, true));
    NumericOrderSorted(Pick(s, true));
    PickSorted(s, false);
  }

  lemma OrderedArranges(s: seq<Pair<Json>>)
    requires Sorted(s) && Ordered(s)
    ensures Sorted(Arrange(s))
  {
    hide Less, IsIndex, Pick, NumericOrder, IndexValue, Arrange;
    ArrangeParts(s);
    var p, q := NumericOrder(Pick(s, true)), Pick(s, false);
    var r := p + q;
    forall i, j | 0 <= i < j < |r| ensures Less(r[i].key, r[j].key) {
      if j < |p| {
        assert p[i] in p && p[j] in p;
        IndexValueInjective(p[i].key, p[j].key);
        assert Precedes(p[i].key, p[j].key);
      } else if i < |p| {
        assert p[i] in p && q[j - |p|] in q;
        assert Precedes(r[i].key, r[j].key);
      } else {
        assert r[i] == q[i - |p|] && r[j] == q[j - |p|];
      }
    }
  }

  lemma ArrangedOrdered(s: seq<Pair<Json>>)
    requires Sorted(s) && Sorted(Arrange(s))
    ensures Ordered(s)
  {
    hide Less, IsIndex, Pick, NumericOrder, IndexValue, Arrange, Sorted, NumericSorted;
    ArrangeParts(s);
    var p, q := NumericOrder(Pick(s, true)), Pick(s, false);
    forall x, y | x in s && y in s && Precedes(x.key, y.key) ensures Less(x.key, y.key) {
      if y in p { WithinIndices(p, q, x, y); } else { AcrossParts(p, q, x, y); }
    }
  }

  lemma WithinIndices(p: seq<Pair<Json>>, q: seq<Pair<Json>>, x: Pair<Json>, y: Pair<Json>)
    requires NumericSorted(p) && Sorted(p + q) && x in p && y in p && IndexValue(x.key) < IndexValue(y.key)
    ensures Less(x.key, y.key)
  {
    hide Less, IndexValue;
    var i :| 0 <= i < |p| && p[i] == x;
    var j :| 0 <= j < |p| && p[j] == y;
    assert i < j;
    assert (p + q)[i] == x && (p + q)[j] == y;
  }

  lemma AcrossParts(p: seq<Pair<Json>>, q: seq<Pair<Json>>, x: Pair<Json>, y: Pair<Json>)
    requires Sorted(p + q) && x in p && y in q
    ensures Less(x.key, y.key)
  {
    hide Less;
    var i :| 0 <= i < |p| && p[i] == x;
    var j :| 0 <= j < |q| && q[j] == y;
    assert (p + q)[i] == x && (p + q)[|p| + j] == y;
  }

  /** Lists with the same keys in the same places that have the same members are equal. */
  lemma SamePlaces(a: seq<Pair<Json>>, b: seq<Pair<Json>>)
    requires |a| == |b| && DistinctKeys(a) && forall i :: 0 <= i < |a| ==> a[i].key == b[i].key
    requires forall x :: x in a ==> x in b
    ensures a == b
  {
    forall i | 0 <= i < |a| ensures a[i] == b[i] {
      assert a[i] in b;
      var j :| 0 <= j < |b| && b[j] == a[i];
      assert a[j].key == a[i].key;
    }
  }

  lemma OrderedKeys(a: seq<Pair<Json>>, b: seq<Pair<Json>>)
    requires |a| == |b| && forall i :: 0 <= i < |a| ==> a[i].key == b[i].key
    requires Ordered(a)
    ensures Ordered(b)
  {
    hide Less, Precedes;
    forall x, y | x in b && y in b && Precedes(x.key, y.key) ensures Less(x.key, y.key) {
      var i :| 0 <= i < |b| && b[i] == x;
      var j :| 0 <= j < |b| && b[j] == y;
      assert a[i] in a && a[j] in a;
    }
  }

  lemma OrderedMembers(a: seq<Pair<Json>>, b: seq<Pair<Json>>)
    requires forall x :: x in a <==> x in b
    ensures Ordered(a) <==> Ordered(b)
  {
  }

  /** One object: the two texts list the same fields in the same order. */
  lemma ObjectStep(fields: seq<Pair<Json>>)
    requires DistinctKeys(fields)
    ensures
      var a, b := SortedFields(fields), CanonicalFields(fields);
      Sort(a) == Arrange(Sort(b)) <==> a == b && Ordered(fields)
  {
    hide Sort, Arrange, Ordered, SortedValue, Canonical;
    var a, b := SortedFields(fields), CanonicalFields(fields);
    SortedFieldsDistinct(fields);
    CanonicalObjectFields(fields);
    SortSorted(b);
    OrderedMembers(Sort(b), b);
    if Sort(a) == Arrange(Sort(b)) {
      SamePlaces(a, b);
      ArrangedOrdered(Sort(b));
      OrderedKeys(b, fields);
    }
    if a == b && Ordered(fields) {
      OrderedKeys(fields, b);
      OrderedArranges(Sort(b));
      SortedUnique(Sort(a), Arrange(Sort(b)));
    }
  }

  lemma {:induction false} SortedIsCanonical(v: Json)
    requires WellFormed(v)
    ensures SortedValue(v) == Canonical(v) <==> KeysInOrder(v)
    decreases v
  {
    hide Sort, Arrange, Ordered;
    if v.Arr? {
      forall i | 0 <= i < |v.items|
        ensures SortedItems(v.items)[i] == CanonicalItems(v.items)[i] <==> KeysInOrder(v.items[i])
      {
        SortedIsCanonical(v.items[i]);
      }
      if KeysInOrder(v) { assert SortedItems(v.items) == CanonicalItems(v.items); }
    } else if v.Obj? {
      var a, b := SortedFields(v.fields), CanonicalFields(v.fields);
      forall i | 0 <= i < |v.fields| ensures a[i] == b[i] <==> KeysInOrder(v.fields[i].value) {
        SortedIsCanonical(v.fields[i].value);
      }
      if KeysInOrder(v) { assert a == b; }
      ObjectStep(v.fields);
    }
  }

  /** The two printers agree exactly on the values in which every object's index-like keys sort
      before its other keys and before its larger indices. */
  lemma StableIffKeysInOrder(v: Json)
    requires WellFormed(v)
    ensures Stable(v) == CanonicalText(v) <==> KeysInOrder(v)
  {
    hide Print, Stable, KeysInOrder;
    StableText(v);
    SortedIsCanonical(v);
    SortedWell(v);
    CanonicalWell(v);
    if Stable(v) == CanonicalText(v) { PrintInjective(SortedValue(v), Canonical(v)); }
  }

  // ---- special cases

  /** No key anywhere is array-index-like. */
  ghost predicate NoIndexKeys(v: Json) {
    match v
    case Arr(items) => forall i :: 0 <= i < |items| ==> NoIndexKeys(items[i])
    case Obj(fields) => forall i :: 0 <= i < |fields| ==> !IsIndex(fields[i].key) && NoIndexKeys(fields[i].value)
    case _ => true
  }

  lemma {:induction false} PickNone(s: seq<Pair<Json>>)
    requires forall x :: x in s ==> !IsIndex(x.key)
    ensures Pick(s, true) == [] && Pick(s, false) == s
  {
    if s != [] {
      assert s[0] in s;
      assert forall x :: x in s[1..] ==> x in s;
      PickNone(s[1..]);
    }
  }

  lemma {:induction false} NoIndexSorted(v: Json)
    requires NoIndexKeys(v)
    ensures SortedValue(v) == Canonical(v)
    decreases v
  {
    hide Sort, Arrange;
    if v.Arr? {
      forall i | 0 <= i < |v.items| ensures SortedItems(v.items)[i] == CanonicalItems(v.items)[i] {
        NoIndexSorted(v.items[i]);
      }
    } else if v.Obj? {
      var a, b := SortedFields(v.fields), CanonicalFields(v.fields);
      forall i | 0 <= i < |v.fields| ensures a[i] == b[i] { NoIndexSorted(v.fields[i].value); }
      assert a == b;
      NoIndexArranged(v.fields);
    }
  }

  lemma NoIndexArranged(fields: seq<Pair<Json>>)
    requires forall i :: 0 <= i < |fields| ==> !IsIndex(fields[i].key)
    ensures Arrange(Sort(CanonicalFields(fields))) == Sort(CanonicalFields(fields))
  {
    var c := CanonicalFields(fields);
    forall x | x in Sort(c) ensures !IsIndex(x.key) {
      var j :| 0 <= j < |c| && c[j] == x;
    }
    PickNone(Sort(c));
  }

  /** Without index-like keys the two printers agree. */
  lemma StableIsCanonical(v: Json)
    requires NoIndexKeys(v)
    ensures Stable(v) == CanonicalText(v)
  {
    hide Print, Stable, NoIndexKeys;
    StableText(v);
    NoIndexSorted(v);
  }

  /** With them they may disagree: 9 comes before 10 as an index, after it as a string. */
  lemma IndexKeysDiffer()
    ensures
      var v := Obj([Pair("9", Null), Pair("10", Null)]);
      WellFormed(v) && Stable(v) != CanonicalText(v)
  {
    hide Stable, CanonicalText;
    var nine, ten := Pair("9", Null), Pair("10", Null);
    var v := Obj([nine, ten]);
    NineAndTen();
    assert nine in v.fields && ten in v.fields && !Less("9", "10");
    StableIffKeysInOrder(v);
  }

  lemma NineAndTen()
    ensures Precedes("9", "10")
  {
    assert Text.Decimal(9) == "9" && Text.Decimal(10) == "10";
    Text.DecimalInjective(IndexValue("9"), 9);
    Text.DecimalInjective(IndexValue("10"), 10);
  }
}
