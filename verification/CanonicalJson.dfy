/** Canonical JSON text (`util/canonicalize.js`). */
module CanonicalJson {
  import opened Ordering
  import Text

  /** A JSON value. Numbers are the tokens `JSON.stringify` prints for them; object fields are in
      own-property order. */
  datatype Json =
    | Null
    | Bool(b: bool)
    | Num(token: string)
    | Str(s: string)
    | Arr(items: seq<Json>)
    | Obj(fields: seq<Pair<Json>>)

  predicate NumChar(c: char) {
    Text.IsDigit(c) || c == '-' || c == '+' || c == '.' || c == 'e'
  }

  /** Values JSON can carry: number tokens are tokens, keys are distinct, and no key is the one
      that assignment would swallow. */
  ghost predicate WellFormed(v: Json) {
    match v
    case Num(token) => token != "" && forall i :: 0 <= i < |token| ==> NumChar(token[i])
    case Arr(items) => forall i :: 0 <= i < |items| ==> WellFormed(items[i])
    case Obj(fields) =>
      && DistinctKeys(fields)
      && forall i :: 0 <= i < |fields| ==> fields[i].key != "__proto__" && WellFormed(fields[i].value)
    case _ => true
  }

  // ---- JSON.stringify

  function HexPair(n: nat): string
    requires n < 0x100
  {
    [Text.HexDigit(n / 16), Text.HexDigit(n % 16)]
  }

  function Escape(c: char): (s: string)
    ensures s != ""
  {
    if c == '\"' then "\\\""
    else if c == '\\' then "\\\\"
    else if c as int == 8 then "\\b"
    else if c as int == 12 then "\\f"
    else if c == '\n' then "\\n"
    else if c == '\r' then "\\r"
    else if c == '\t' then "\\t"
    else if c as int < 0x20 then "\\u00" + HexPair(c as int)
    else [c]
  }

  function Escaped(s: string): string {
    if s == [] then [] else Escape(s[0]) + Escaped(s[1..])
  }

  function Quote(s: string): string {
    "\"" + Escaped(s) + "\""
  }

  function Print(v: Json): (s: string)
    decreases v, 1
  {
    match v
    case Null => "null"
    case Bool(b) => if b then "true" else "false"
    case Num(token) => token
    case Str(s) => Quote(s)
    case Arr(items) => if items == [] then "[]" else "[" + Print(items[0]) + PrintItems(items[1..])
    case Obj(fields) =>
      if fields == [] then "{}"
      else "{" + Quote(fields[0].key) + ":" + Print(fields[0].value) + PrintFields(fields[1..])
  }

  /** The items after the first, with the closing bracket. */
  function PrintItems(items: seq<Json>): string
    decreases items, 0
  {
    if items == [] then "]" else "," + Print(items[0]) + PrintItems(items[1..])
  }

  function PrintFields(fields: seq<Pair<Json>>): string
    decreases fields, 0
  {
    if fields == [] then "}"
    else "," + Quote(fields[0].key) + ":" + Print(fields[0].value) + PrintFields(fields[1..])
  }

  // ---- printing is injective: no value's text is a proper prefix of another's, up to a delimiter

  /** The same text read at two places agrees character by character. */
  lemma SameHead(a: string, x: string, b: string, y: string, i: nat)
    requires a + x == b + y && i < |a| && i < |b|
    ensures a[i] == b[i]
  {
    assert (a + x)[i] == a[i] && (b + y)[i] == b[i];
  }

  lemma SameTail(a: string, x: string, b: string, y: string)
    requires a + x == b + y && |a| == |b|
    ensures a == b && x == y
  {
    assert a == (a + x)[..|a|] && b == (b + y)[..|b|];
    assert x == (a + x)[|a|..] && y == (b + y)[|b|..];
  }

  predicate Plain(c: char) {
    c != '\"' && c != '\\' && c as int >= 0x20
  }

  lemma EscapeShape(c: char)
    ensures Plain(c) ==> Escape(c) == [c]
    ensures !Plain(c) ==> |Escape(c)| >= 2 && Escape(c)[0] == '\\'
    ensures !Plain(c) && |Escape(c)| != 2 ==>
              |Escape(c)| == 6 && Escape(c)[1] == 'u' && c as int < 0x20
              && Escape(c)[4] == Text.HexDigit(c as int / 16) && Escape(c)[5] == Text.HexDigit(c as int % 16)
    ensures !Plain(c) && |Escape(c)| == 2 ==> Escape(c)[1] != 'u'
  {
  }

  lemma EscapeShort(a: char, b: char)
    requires !Plain(a) && !Plain(b) && |Escape(a)| == 2 && |Escape(b)| == 2 && Escape(a)[1] == Escape(b)[1]
    ensures a == b
  {
  }

  lemma EscapePrefix(a: char, x: string, b: char, y: string)
    requires Escape(a) + x == Escape(b) + y
    ensures a == b && x == y
  {
    EscapeShape(a);
    EscapeShape(b);
    SameHead(Escape(a), x, Escape(b), y, 0);
    if !Plain(a) && !Plain(b) {
      SameHead(Escape(a), x, Escape(b), y, 1);
      if |Escape(a)| == 2 {
        EscapeShort(a, b);
      } else {
        SameHead(Escape(a), x, Escape(b), y, 4);
        SameHead(Escape(a), x, Escape(b), y, 5);
      }
    }
    SameTail(Escape(a), x, Escape(b), y);
  }

  lemma {:induction false} EscapedPrefix(a: string, x: string, b: string, y: string)
    requires Escaped(a) + ("\"" + x) == Escaped(b) + ("\"" + y)
    ensures a == b && x == y
    decreases |a|
  {
    hide Escape;
    if a != [] && b != [] {
      var a', b' := Escaped(a[1..]) + ("\"" + x), Escaped(b[1..]) + ("\"" + y);
      assert Escaped(a) + ("\"" + x) == Escape(a[0]) + a';
      assert Escaped(b) + ("\"" + y) == Escape(b[0]) + b';
      EscapePrefix(a[0], a', b[0], b');
      EscapedPrefix(a[1..], x, b[1..], y);
      assert a == [a[0]] + a[1..] && b == [b[0]] + b[1..];
    } else if a != [] {
      NotQuoteFirst(a, x, y);
    } else if b != [] {
      NotQuoteFirst(b, y, x);
    } else {
      assert [] + ("\"" + x) == "\"" + x && [] + ("\"" + y) == "\"" + y;
      SameTail("\"", x, "\"", y);
    }
  }

  lemma NotQuoteFirst(a: string, x: string, y: string)
    requires a != []
    ensures Escaped(a) + ("\"" + x) != [] + ("\"" + y)
  {
    EscapeShape(a[0]);
    assert (Escaped(a) + ("\"" + x))[0] == Escape(a[0])[0];
    assert ([] + ("\"" + y))[0] == '\"';
  }

  lemma QuotePrefix(a: string, x: string, b: string, y: string)
    requires Quote(a) + x == Quote(b) + y
    ensures a == b && x == y
  {
    hide Escaped;
    assert Quote(a) + x == "\"" + (Escaped(a) + ("\"" + x));
    assert Quote(b) + y == "\"" + (Escaped(b) + ("\"" + y));
    SameTail("\"", Escaped(a) + ("\"" + x), "\"", Escaped(b) + ("\"" + y));
    EscapedPrefix(a, x, b, y);
  }

  /** What may follow a value: nothing, or a character no number contains. */
  predicate Delimited(r: string) {
    r == "" || !NumChar(r[0])
  }

  lemma {:induction false} TokenPrefix(a: string, x: string, b: string, y: string)
    requires forall i :: 0 <= i < |a| ==> NumChar(a[i])
    requires forall i :: 0 <= i < |b| ==> NumChar(b[i])
    requires Delimited(x) && Delimited(y) && a + x == b + y
    ensures a == b && x == y
  {
    var l, r := a + x, b + y;
    assert forall i :: 0 <= i < |a| ==> l[i] == a[i];
    assert forall i :: 0 <= i < |b| ==> r[i] == b[i];
    assert x != "" ==> l[|a|] == x[0];
    assert y != "" ==> r[|b|] == y[0];
    assert |a| == |b|;
    SameTail(a, x, b, y);
  }

  /** The kind of a value shows in its first character. */
  function Lead(v: Json): char {
    match v
    case Null => 'n'
    case Bool(b) => if b then 't' else 'f'
    case Num(token) => if token == "" then '0' else token[0]
    case Str(_) => '\"'
    case Arr(_) => '['
    case Obj(_) => '{'
  }

  lemma FirstChar(v: Json)
    requires WellFormed(v)
    ensures Print(v) != "" && Print(v)[0] == Lead(v)
  {
  }

  /** Reading one value off the front of a text is unambiguous. */
  lemma {:induction false} PrintPrefix(v: Json, x: string, w: Json, y: string)
    requires WellFormed(v) && WellFormed(w) && Delimited(x) && Delimited(y)
    requires Print(v) + x == Print(w) + y
    ensures v == w && x == y
    decreases v, 1
  {
    hide Quote;
    FirstChar(v);
    FirstChar(w);
    SameHead(Print(v), x, Print(w), y, 0);
    match v {
      case Null => SameTail(Print(v), x, Print(w), y);
      case Bool(b) => SameTail(Print(v), x, Print(w), y);
      case Num(token) => TokenPrefix(token, x, w.token, y);
      case Str(s) => QuotePrefix(s, x, w.s, y);
      case Arr(items) => ItemsPrefix(items, x, w.items, y);
      case Obj(fields) => FieldsPrefix(fields, x, w.fields, y);
    }
  }

  ghost predicate AllWell(items: seq<Json>) {
    forall i :: 0 <= i < |items| ==> WellFormed(items[i])
  }

  ghost predicate FieldsWell(fields: seq<Pair<Json>>) {
    forall i :: 0 <= i < |fields| ==> WellFormed(fields[i].value)
  }

  /** A value, then the rest of its list. */
  lemma OneItem(v: Json, rest: string, x: string)
    ensures Print(v) + rest + x == Print(v) + (rest + x)
    ensures "," + Print(v) + rest + x == "," + (Print(v) + (rest + x))
    ensures "[" + Print(v) + rest + x == "[" + (Print(v) + (rest + x))
  {
  }

  lemma ItemsDelimited(items: seq<Json>, x: string)
    ensures Delimited(PrintItems(items) + x)
  {
  }

  lemma {:induction false} MoreItems(a: seq<Json>, x: string, b: seq<Json>, y: string)
    requires AllWell(a) && AllWell(b) && PrintItems(a) + x == PrintItems(b) + y
    ensures a == b && x == y
    decreases a, 0
  {
    hide Print;
    SameHead(PrintItems(a), x, PrintItems(b), y, 0);
    if a == [] {
      SameTail("]", x, "]", y);
    } else {
      var r, t := PrintItems(a[1..]), PrintItems(b[1..]);
      OneItem(a[0], r, x);
      OneItem(b[0], t, y);
      SameTail(",", Print(a[0]) + (r + x), ",", Print(b[0]) + (t + y));
      ItemsDelimited(a[1..], x);
      ItemsDelimited(b[1..], y);
      PrintPrefix(a[0], r + x, b[0], t + y);
      MoreItems(a[1..], x, b[1..], y);
      assert a == [a[0]] + a[1..] && b == [b[0]] + b[1..];
    }
  }

  lemma {:induction false} ItemsPrefix(a: seq<Json>, x: string, b: seq<Json>, y: string)
    requires AllWell(a) && AllWell(b)
    requires Print(Arr(a)) + x == Print(Arr(b)) + y
    ensures a == b && x == y
    decreases a, 2
  {
    if a == [] || b == [] {
      EmptyItems(a, x, b, y);
    } else {
      var r, t := PrintItems(a[1..]), PrintItems(b[1..]);
      OneItem(a[0], r, x);
      OneItem(b[0], t, y);
      SameTail("[", Print(a[0]) + (r + x), "[", Print(b[0]) + (t + y));
      ItemsDelimited(a[1..], x);
      ItemsDelimited(b[1..], y);
      PrintPrefix(a[0], r + x, b[0], t + y);
      MoreItems(a[1..], x, b[1..], y);
      assert a == [a[0]] + a[1..] && b == [b[0]] + b[1..];
    }
  }

  /** "[]" is told apart from a non-empty array by its second character. */
  lemma EmptyItems(a: seq<Json>, x: string, b: seq<Json>, y: string)
    requires AllWell(a) && AllWell(b) && (a == [] || b == [])
    requires Print(Arr(a)) + x == Print(Arr(b)) + y
    ensures a == b && x == y
  {
    SecondChar(a);
    SecondChar(b);
    SameHead(Print(Arr(a)), x, Print(Arr(b)), y, 1);
    SameTail(Print(Arr(a)), x, Print(Arr(b)), y);
  }

  lemma SecondChar(a: seq<Json>)
    requires AllWell(a)
    ensures |Print(Arr(a))| >= 2 && (Print(Arr(a))[1] == ']' <==> a == [])
  {
    if a != [] {
      FirstChar(a[0]);
      assert Print(Arr(a))[1] == Print(a[0])[0];
    }
  }

  lemma FieldsDelimited(fields: seq<Pair<Json>>, x: string)
    ensures Delimited(PrintFields(fields) + x)
  {
  }

  lemma OneField(k: string, v: Json, rest: string, x: string)
    ensures "," + Quote(k) + ":" + Print(v) + rest + x == "," + (Quote(k) + (":" + (Print(v) + (rest + x))))
    ensures "{" + Quote(k) + ":" + Print(v) + rest + x == "{" + (Quote(k) + (":" + (Print(v) + (rest + x))))
  {
    hide Quote, Print;
    Nested(",", Quote(k), ":", Print(v), rest, x);
    Nested("{", Quote(k), ":", Print(v), rest, x);
  }

  lemma Nested(a: string, b: string, c: string, d: string, e: string, f: string)
    ensures a + b + c + d + e + f == a + (b + (c + (d + (e + f))))
  {
    assert c + d + e + f == c + (d + (e + f));
    assert a + b + c + d + e + f == a + b + (c + d + e + f);
  }

  /** A key, a colon, a value and what follows them. */
  lemma FieldPrefix(f: Pair<Json>, x: string, g: Pair<Json>, y: string)
    requires WellFormed(f.value) && WellFormed(g.value) && Delimited(x) && Delimited(y)
    requires Quote(f.key) + (":" + (Print(f.value) + x)) == Quote(g.key) + (":" + (Print(g.value) + y))
    ensures f == g && x == y
    decreases f, 2
  {
    QuotePrefix(f.key, ":" + (Print(f.value) + x), g.key, ":" + (Print(g.value) + y));
    SameTail(":", Print(f.value) + x, ":", Print(g.value) + y);
    PrintPrefix(f.value, x, g.value, y);
  }

  lemma {:induction false} MoreFields(a: seq<Pair<Json>>, x: string, b: seq<Pair<Json>>, y: string)
    requires FieldsWell(a) && FieldsWell(b) && PrintFields(a) + x == PrintFields(b) + y
    ensures a == b && x == y
    decreases a, 0
  {
    hide Print, Quote;
    SameHead(PrintFields(a), x, PrintFields(b), y, 0);
    if a == [] {
      SameTail("}", x, "}", y);
    } else {
      var f, g, r, t := a[0], b[0], PrintFields(a[1..]) + x, PrintFields(b[1..]) + y;
      OneField(f.key, f.value, PrintFields(a[1..]), x);
      OneField(g.key, g.value, PrintFields(b[1..]), y);
      SameTail(",", Quote(f.key) + (":" + (Print(f.value) + r)), ",", Quote(g.key) + (":" + (Print(g.value) + t)));
      FieldsDelimited(a[1..], x);
      FieldsDelimited(b[1..], y);
      FieldPrefix(f, r, g, t);
      MoreFields(a[1..], x, b[1..], y);
      assert a == [a[0]] + a[1..] && b == [b[0]] + b[1..];
    }
  }

  lemma {:induction false} FieldsPrefix(a: seq<Pair<Json>>, x: string, b: seq<Pair<Json>>, y: string)
    requires FieldsWell(a) && FieldsWell(b)
    requires Print(Obj(a)) + x == Print(Obj(b)) + y
    ensures a == b && x == y
    decreases a, 2
  {
    if a == [] || b == [] {
      EmptyFields(a, x, b, y);
    } else {
      var f, g, r, t := a[0], b[0], PrintFields(a[1..]) + x, PrintFields(b[1..]) + y;
      OneField(f.key, f.value, PrintFields(a[1..]), x);
      OneField(g.key, g.value, PrintFields(b[1..]), y);
      SameTail("{", Quote(f.key) + (":" + (Print(f.value) + r)), "{", Quote(g.key) + (":" + (Print(g.value) + t)));
      FieldsDelimited(a[1..], x);
      FieldsDelimited(b[1..], y);
      FieldPrefix(f, r, g, t);
      MoreFields(a[1..], x, b[1..], y);
      assert a == [a[0]] + a[1..] && b == [b[0]] + b[1..];
    }
  }

  lemma EmptyFields(a: seq<Pair<Json>>, x: string, b: seq<Pair<Json>>, y: string)
    requires (a == [] || b == []) && Print(Obj(a)) + x == Print(Obj(b)) + y
    ensures a == b && x == y
  {
    assert |Print(Obj(a))| >= 2 && (Print(Obj(a))[1] == '}' <==> a == []);
    assert |Print(Obj(b))| >= 2 && (Print(Obj(b))[1] == '}' <==> b == []);
    SameHead(Print(Obj(a)), x, Print(Obj(b)), y, 1);
    SameTail(Print(Obj(a)), x, Print(Obj(b)), y);
  }

  /** Distinct well-formed values print differently. */
  lemma PrintInjective(v: Json, w: Json)
    requires WellFormed(v) && WellFormed(w) && Print(v) == Print(w)
    ensures v == w
  {
    assert Print(v) + "" == Print(w) + "";
    PrintPrefix(v, "", w, "");
  }

  // ---- canonicalize

  /** Keys that JavaScript orders numerically before all others. */
  ghost predicate IsIndex(k: string) {
    exists n: nat :: n < 0xffff_ffff && k == Text.Decimal(n)
  }

  /** Own-property order of an object whose keys were assigned in this order: array indices
      ascending, then the rest as assigned. */
  ghost function Arrange(s: seq<Pair<Json>>): seq<Pair<Json>> {
    NumericOrder(Pick(s, true)) + Pick(s, false)
  }

  ghost function Pick(s: seq<Pair<Json>>, index: bool): (r: seq<Pair<Json>>)
    ensures forall x :: x in r <==> x in s && IsIndex(x.key) == index
    ensures |r| <= |s|
  {
    if s == [] then []
    else if IsIndex(s[0].key) == index then [s[0]] + Pick(s[1..], index)
    else Pick(s[1..], index)
  }

  ghost function IndexValue(k: string): (n: nat)
    ensures IsIndex(k) ==> k == Text.Decimal(n)
  {
    if IsIndex(k) then var n: nat :| n < 0xffff_ffff && k == Text.Decimal(n); n else 0
  }

  ghost function NumericInsert(x: Pair<Json>, s: seq<Pair<Json>>): (r: seq<Pair<Json>>)
    ensures |r| == |s| + 1
    ensures forall y :: y in r <==> y == x || y in s
  {
    if s == [] then [x]
    else if IndexValue(s[0].key) < IndexValue(x.key) then [s[0]] + NumericInsert(x, s[1..])
    else [x] + s
  }

  ghost function NumericOrder(s: seq<Pair<Json>>): (r: seq<Pair<Json>>)
    ensures |r| == |s|
    ensures forall y :: y in r <==> y in s
  {
    if s == [] then [] else NumericInsert(s[0], NumericOrder(s[1..]))
  }

  lemma ArrangeMembers(s: seq<Pair<Json>>, x: Pair<Json>)
    ensures x in Arrange(s) <==> x in s
  {
  }

  ghost function Canonical(v: Json): Json
    decreases v, 1
  {
    match v
    case Arr(items) => Arr(CanonicalItems(items))
    case Obj(fields) => Obj(Arrange(Sort(CanonicalFields(fields))))
    case _ => v
  }

  ghost function CanonicalItems(items: seq<Json>): (r: seq<Json>)
    ensures |r| == |items|
    ensures forall i :: 0 <= i < |r| ==> r[i] == Canonical(items[i])
    decreases items, 0
  {
    if items == [] then [] else [Canonical(items[0])] + CanonicalItems(items[1..])
  }

  ghost function CanonicalFields(fields: seq<Pair<Json>>): (r: seq<Pair<Json>>)
    ensures |r| == |fields|
    ensures forall i :: 0 <= i < |r| ==> r[i] == Pair(fields[i].key, Canonical(fields[i].value))
    decreases fields, 0
  {
    if fields == [] then []
    else [Pair(fields[0].key, Canonical(fields[0].value))] + CanonicalFields(fields[1..])
  }

  ghost function CanonicalText(v: Json): string {
    Print(Canonical(v))
  }

  // ---- equality up to key order

  ghost predicate Same(v: Json, w: Json)
    decreases v
  {
    match (v, w)
    case (Arr(a), Arr(b)) => |a| == |b| && forall i :: 0 <= i < |a| ==> Same(a[i], b[i])
    case (Obj(a), Obj(b)) =>
      (forall i :: 0 <= i < |a| ==> SameIn(a[i], b)) && (forall j :: 0 <= j < |b| ==> SameFrom(a, b[j]))
    case _ => v == w
  }

  ghost predicate SameIn(f: Pair<Json>, b: seq<Pair<Json>>)
    decreases f
  {
    exists j :: 0 <= j < |b| && f.key == b[j].key && Same(f.value, b[j].value)
  }

  ghost predicate SameFrom(a: seq<Pair<Json>>, g: Pair<Json>)
    decreases a
  {
    exists i :: 0 <= i < |a| && a[i].key == g.key && Same(a[i].value, g.value)
  }

  /** The fields of an object are a set to its canonical form. */
  lemma CanonicalObject(a: seq<Pair<Json>>, b: seq<Pair<Json>>)
    requires DistinctKeys(a) && DistinctKeys(b)
    requires forall x :: x in CanonicalFields(a) <==> x in CanonicalFields(b)
    ensures Canonical(Obj(a)) == Canonical(Obj(b))
  {
    SortCanonical(CanonicalFields(a), CanonicalFields(b));
  }

  lemma CanonicalMembers(a: seq<Pair<Json>>, x: Pair<Json>)
    ensures x in Canonical(Obj(a)).fields <==> x in CanonicalFields(a)
  {
    ArrangeMembers(Sort(CanonicalFields(a)), x);
  }

  /** Canonicalization decides equality up to key order. */
  lemma {:induction false} SameCanonical(v: Json, w: Json)
    requires WellFormed(v) && WellFormed(w)
    ensures Same(v, w) <==> Canonical(v) == Canonical(w)
    decreases v, 1
  {
    hide Arrange, Sort, SameIn, SameFrom, Covers;
    if v.Arr? && w.Arr? {
      SameItems(v.items, w.items);
    } else if v.Obj? && w.Obj? {
      SameFields(v.fields, w.fields);
      FieldsCanonical(v.fields, w.fields);
    }
  }

  lemma {:induction false} SameItems(a: seq<Json>, b: seq<Json>)
    requires AllWell(a) && AllWell(b)
    ensures |a| == |b| && (forall i :: 0 <= i < |a| ==> Same(a[i], b[i])) <==> CanonicalItems(a) == CanonicalItems(b)
    decreases a, 2
  {
    hide Canonical, Same;
    if |a| == |b| {
      forall i | 0 <= i < |a|
        ensures Same(a[i], b[i]) <==> Canonical(a[i]) == Canonical(b[i])
      {
        SameCanonical(a[i], b[i]);
      }
      ItemsCanonical(a, b);
    }
  }

  lemma {:induction false} SameFields(a: seq<Pair<Json>>, b: seq<Pair<Json>>)
    requires FieldsWell(a) && FieldsWell(b)
    ensures (forall i :: 0 <= i < |a| ==> SameIn(a[i], b)) <==> Covers(a, b)
    ensures (forall j :: 0 <= j < |b| ==> SameFrom(a, b[j])) <==> Covers(b, a)
    decreases a, 2
  {
    hide Canonical;
    forall i, j | 0 <= i < |a| && 0 <= j < |b|
      ensures Same(a[i].value, b[j].value) <==> Canonical(a[i].value) == Canonical(b[j].value)
    {
      SameCanonical(a[i].value, b[j].value);
    }
    forall i | 0 <= i < |a| ensures SameIn(a[i], b) <==> Covered(a[i], b) {}
    forall j | 0 <= j < |b| ensures SameFrom(a, b[j]) <==> Covered(b[j], a) {}
  }

  lemma ItemsCanonical(a: seq<Json>, b: seq<Json>)
    requires |a| == |b|
    ensures CanonicalItems(a) == CanonicalItems(b) <==> forall i :: 0 <= i < |a| ==> Canonical(a[i]) == Canonical(b[i])
  {
    if CanonicalItems(a) == CanonicalItems(b) {
      forall i | 0 <= i < |a| ensures Canonical(a[i]) == Canonical(b[i]) {
        assert CanonicalItems(a)[i] == CanonicalItems(b)[i];
      }
    }
  }

  ghost predicate Covers(a: seq<Pair<Json>>, b: seq<Pair<Json>>) {
    forall i :: 0 <= i < |a| ==> Covered(a[i], b)
  }

  ghost predicate Covered(f: Pair<Json>, b: seq<Pair<Json>>) {
    exists j :: 0 <= j < |b| && f.key == b[j].key && Canonical(f.value) == Canonical(b[j].value)
  }

  ghost predicate Within(p: seq<Pair<Json>>, q: seq<Pair<Json>>) {
    forall x :: x in p ==> x in q
  }

  lemma CoversMembers(a: seq<Pair<Json>>, b: seq<Pair<Json>>)
    ensures Covers(a, b) <==> Within(CanonicalFields(a), CanonicalFields(b))
  {
    hide Canonical;
    var ca, cb := CanonicalFields(a), CanonicalFields(b);
    if Covers(a, b) {
      forall x | x in ca ensures x in cb {
        var i :| 0 <= i < |ca| && ca[i] == x;
        assert Covered(a[i], b);
        var j :| 0 <= j < |b| && a[i].key == b[j].key && Canonical(a[i].value) == Canonical(b[j].value);
        assert cb[j] == x;
      }
    }
    if Within(ca, cb) {
      forall i | 0 <= i < |a| ensures Covered(a[i], b) {
        assert ca[i] in ca;
        var j :| 0 <= j < |cb| && cb[j] == ca[i];
        assert a[i].key == b[j].key && Canonical(a[i].value) == Canonical(b[j].value);
      }
    }
  }

  lemma FieldsCanonical(a: seq<Pair<Json>>, b: seq<Pair<Json>>)
    requires DistinctKeys(a) && DistinctKeys(b)
    ensures Canonical(Obj(a)) == Canonical(Obj(b)) <==> Covers(a, b) && Covers(b, a)
  {
    CoversMembers(a, b);
    CoversMembers(b, a);
    if Covers(a, b) && Covers(b, a) {
      CanonicalObject(a, b);
    }
    if Canonical(Obj(a)) == Canonical(Obj(b)) {
      forall x ensures x in CanonicalFields(a) <==> x in CanonicalFields(b) {
        CanonicalMembers(a, x);
        CanonicalMembers(b, x);
      }
    }
  }

  // ---- canonical values are well-formed, and fixed points

  lemma {:induction false} PickDistinct(s: seq<Pair<Json>>, index: bool)
    requires DistinctKeys(s)
    ensures DistinctKeys(Pick(s, index))
  {
    if s != [] {
      var rest := Pick(s[1..], index);
      PickDistinct(s[1..], index);
      forall i | 0 <= i < |rest| ensures rest[i].key != s[0].key {
        assert rest[i] in s[1..];
        var j :| 0 <= j < |s[1..]| && s[1..][j] == rest[i];
        assert s[j + 1] == rest[i];
      }
    }
  }

  lemma {:induction false} NumericInsertDistinct(x: Pair<Json>, s: seq<Pair<Json>>)
    requires DistinctKeys(s) && forall i :: 0 <= i < |s| ==> s[i].key != x.key
    ensures DistinctKeys(NumericInsert(x, s))
  {
    if s != [] && IndexValue(s[0].key) < IndexValue(x.key) {
      var rest := NumericInsert(x, s[1..]);
      NumericInsertDistinct(x, s[1..]);
      forall i | 0 <= i < |rest| ensures rest[i].key != s[0].key {
        assert rest[i] in rest;
        if rest[i] != x {
          var j :| 0 <= j < |s[1..]| && s[1..][j] == rest[i];
          assert s[j + 1] == rest[i];
        }
      }
    }
  }

  lemma {:induction false} NumericDistinct(s: seq<Pair<Json>>)
    requires DistinctKeys(s)
    ensures DistinctKeys(NumericOrder(s))
  {
    if s != [] {
      var rest := NumericOrder(s[1..]);
      NumericDistinct(s[1..]);
      forall i | 0 <= i < |rest| ensures rest[i].key != s[0].key {
        assert rest[i] in s[1..];
        var j :| 0 <= j < |s[1..]| && s[1..][j] == rest[i];
        assert s[j + 1] == rest[i];
      }
      NumericInsertDistinct(s[0], rest);
    }
  }

  lemma ArrangeDistinct(s: seq<Pair<Json>>)
    requires DistinctKeys(s)
    ensures DistinctKeys(Arrange(s))
  {
    var p, q := NumericOrder(Pick(s, true)), Pick(s, false);
    PickDistinct(s, true);
    PickDistinct(s, false);
    NumericDistinct(Pick(s, true));
    forall i, j | 0 <= i < |p| && 0 <= j < |q| ensures p[i].key != q[j].key {
      assert p[i] in p && q[j] in q;
      assert p[i] in Pick(s, true);
    }
  }

  /** The fields of a canonical object: the canonical fields, with distinct keys. */
  lemma CanonicalObjectFields(fields: seq<Pair<Json>>)
    requires DistinctKeys(fields)
    ensures
      var r := Arrange(Sort(CanonicalFields(fields)));
      DistinctKeys(r) && forall x :: x in r <==> x in CanonicalFields(fields)
  {
    hide Canonical;
    var sorted := Sort(CanonicalFields(fields));
    SortSorted(CanonicalFields(fields));
    SortedDistinct(sorted);
    ArrangeDistinct(sorted);
    forall x ensures x in Arrange(sorted) <==> x in CanonicalFields(fields) {
      ArrangeMembers(sorted, x);
    }
  }

  lemma {:induction false} CanonicalWell(v: Json)
    requires WellFormed(v)
    ensures WellFormed(Canonical(v))
    decreases v
  {
    if v.Arr? {
      forall i | 0 <= i < |v.items| ensures WellFormed(CanonicalItems(v.items)[i]) {
        CanonicalWell(v.items[i]);
      }
    } else if v.Obj? {
      var r := Arrange(Sort(CanonicalFields(v.fields)));
      CanonicalObjectFields(v.fields);
      forall i | 0 <= i < |r| ensures r[i].key != "__proto__" && WellFormed(r[i].value) {
        assert r[i] in CanonicalFields(v.fields);
        var j :| 0 <= j < |v.fields| && CanonicalFields(v.fields)[j] == r[i];
        CanonicalWell(v.fields[j].value);
      }
    }
  }

  /** The canonical text is a faithful encoding: equal texts exactly for values that are equal
      up to the order of object keys. */
  lemma CanonicalTextFaithful(v: Json, w: Json)
    requires WellFormed(v) && WellFormed(w)
    ensures CanonicalText(v) == CanonicalText(w) <==> Same(v, w)
  {
    hide Print;
    SameCanonical(v, w);
    CanonicalWell(v);
    CanonicalWell(w);
    if CanonicalText(v) == CanonicalText(w) {
      PrintInjective(Canonical(v), Canonical(w));
    }
  }

  lemma SameFieldList(r: seq<Pair<Json>>)
    requires forall i :: 0 <= i < |r| ==> Canonical(r[i].value) == r[i].value
    ensures CanonicalFields(r) == r
  {
    hide Canonical;
  }

  lemma {:induction false} CanonicalIdempotent(v: Json)
    requires WellFormed(v)
    ensures Canonical(Canonical(v)) == Canonical(v)
    decreases v
  {
    hide Sort, Arrange;
    if v.Arr? {
      forall i | 0 <= i < |v.items|
        ensures Canonical(CanonicalItems(v.items)[i]) == CanonicalItems(v.items)[i]
      {
        CanonicalIdempotent(v.items[i]);
      }
      assert CanonicalItems(CanonicalItems(v.items)) == CanonicalItems(v.items);
    } else if v.Obj? {
      var c := CanonicalFields(v.fields);
      var r := Arrange(Sort(c));
      CanonicalObjectFields(v.fields);
      forall i | 0 <= i < |r| ensures Canonical(r[i].value) == r[i].value {
        assert r[i] in c;
        var j :| 0 <= j < |c| && c[j] == r[i];
        CanonicalIdempotent(v.fields[j].value);
      }
      SameFieldList(r);
      SortCanonical(r, c);
    }
  }
}
