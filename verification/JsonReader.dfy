/** A reader of JSON text after RFC 8259, without white space and surrogate escapes, and the proof that it
    reads back what `util/canonicalize.js` prints. */
module JsonReader {
  import opened Basics
  import opened Ordering
  import opened CanonicalJson
  import Text

  /** A value, or part of one, and the text behind it. */
  datatype Seen<+T> = Seen(value: T, rest: string)

  // ---- section 7 of RFC 8259: strings

  function HexValue(c: char): (n: int)
    ensures -1 <= n < 16
  {
    if '0' <= c <= '9' then c as int - '0' as int
    else if 'a' <= c <= 'f' then c as int - 'a' as int + 10
    else if 'A' <= c <= 'F' then c as int - 'A' as int + 10
    else -1
  }

  /** The character that a letter behind a backslash stands for. */
  function Unescape(c: char): Option<char> {
    if c == '\"' || c == '\\' || c == '/' then Some(c)
    else if c == 'b' then Some(8 as char)
    else if c == 'f' then Some(12 as char)
    else if c == 'n' then Some(10 as char)
    else if c == 'r' then Some(13 as char)
    else if c == 't' then Some(9 as char)
    else None
  }

  /** Four hexadecimal digits of a code unit that is a character by itself. */
  function CodeUnit(s: string): Option<char>
    requires |s| >= 4
  {
    var a, b, c, d := HexValue(s[0]), HexValue(s[1]), HexValue(s[2]), HexValue(s[3]);
    if a < 0 || b < 0 || c < 0 || d < 0 then None
    else
      var n := a * 0x1000 + b * 0x100 + c * 0x10 + d;
      if 0xd800 <= n < 0xe000 then None else Some(n as char)
  }

  /** One character of a string, plain or escaped. */
  function ReadChar(s: string): (r: Option<Seen<char>>)
    ensures r.Some? ==> |r.value.rest| < |s|
  {
    if s == "" || s[0] == '\"' || s[0] as int < 0x20 then None
    else if s[0] != '\\' then Some(Seen(s[0], s[1..]))
    else if |s| < 2 then None
    else if s[1] == 'u' then
      if |s| < 6 || CodeUnit(s[2..]).None? then None else Some(Seen(CodeUnit(s[2..]).value, s[6..]))
    else if Unescape(s[1]).None? then None
    else Some(Seen(Unescape(s[1]).value, s[2..]))
  }

  /** What stands between the opening quotation mark and the closing one. */
  function ReadString(s: string): (r: Option<Seen<string>>)
    ensures r.Some? ==> |r.value.rest| < |s|
    decreases |s|
  {
    if s != "" && s[0] == '\"' then Some(Seen("", s[1..]))
    else match ReadChar(s)
      case None => None
      case Some(c) =>
        match ReadString(c.rest)
        case None => None
        case Some(more) => Some(Seen([c.value] + more.value, more.rest))
  }

  // ---- sections 2 to 6: values

  function NumberEnd(s: string): (k: nat)
    ensures k <= |s| && (forall i :: 0 <= i < k ==> NumChar(s[i])) && (k < |s| ==> !NumChar(s[k]))
  {
    if s == "" || !NumChar(s[0]) then 0 else NumberEnd(s[1..]) + 1
  }

  function Expect<T>(s: string, word: string, value: T): Option<Seen<T>> {
    if word <= s then Some(Seen(value, s[|word|..])) else None
  }

  function Read(s: string): (r: Option<Seen<Json>>)
    ensures r.Some? ==> |r.value.rest| < |s|
    decreases |s|, 1
  {
    if s == "" then None
    else if s[0] == 'n' then Expect(s, "null", Null)
    else if s[0] == 't' then Expect(s, "true", Bool(true))
    else if s[0] == 'f' then Expect(s, "false", Bool(false))
    else if s[0] == '\"' then
      (match ReadString(s[1..]) case None => None case Some(t) => Some(Seen(Str(t.value), t.rest)))
    else if s[0] == '[' then
      if |s| > 1 && s[1] == ']' then Some(Seen(Arr([]), s[2..]))
      else (match ReadItems(s[1..]) case None => None case Some(t) => Some(Seen(Arr(t.value), t.rest)))
    else if s[0] == '{' then
      if |s| > 1 && s[1] == '}' then Some(Seen(Obj([]), s[2..]))
      else (match ReadFields(s[1..]) case None => None case Some(t) => Some(Seen(Obj(t.value), t.rest)))
    else if NumChar(s[0]) then Some(Seen(Num(s[..NumberEnd(s)]), s[NumberEnd(s)..]))
    else None
  }

  /** One item, and after a comma more of them, up to the closing bracket. */
  function ReadItems(s: string): (r: Option<Seen<seq<Json>>>)
    ensures r.Some? ==> |r.value.rest| < |s|
    decreases |s|, 2
  {
    match Read(s)
    case None => None
    case Some(first) =>
      if first.rest == "" then None
      else if first.rest[0] == ']' then Some(Seen([first.value], first.rest[1..]))
      else if first.rest[0] != ',' then None
      else match ReadItems(first.rest[1..])
        case None => None
        case Some(more) => Some(Seen([first.value] + more.value, more.rest))
  }

  /** A key, a colon and a value. */
  function ReadField(s: string): (r: Option<Seen<Pair<Json>>>)
    ensures r.Some? ==> |r.value.rest| < |s|
    decreases |s|, 2
  {
    if s == "" || s[0] != '\"' then None
    else match ReadString(s[1..])
      case None => None
      case Some(key) =>
        if key.rest == "" || key.rest[0] != ':' then None
        else match Read(key.rest[1..])
          case None => None
          case Some(v) => Some(Seen(Pair(key.value, v.value), v.rest))
  }

  function ReadFields(s: string): (r: Option<Seen<seq<Pair<Json>>>>)
    ensures r.Some? ==> |r.value.rest| < |s|
    decreases |s|, 3
  {
    match ReadField(s)
    case None => None
    case Some(first) =>
      if first.rest == "" then None
      else if first.rest[0] == '}' then Some(Seen([first.value], first.rest[1..]))
      else if first.rest[0] != ',' then None
      else match ReadFields(first.rest[1..])
        case None => None
        case Some(more) => Some(Seen([first.value] + more.value, more.rest))
  }

  /** A text is one value and nothing else. */
  function Parse(s: string): Option<Json> {
    match Read(s) case Some(Seen(v, "")) => Some(v) case _ => None
  }

  // ---- reading back what was printed

  lemma Split(a: string, b: string)
    ensures (a + b)[..|a|] == a && (a + b)[|a|..] == b
  {
  }

  lemma HexRead(i: nat)
    requires i < 16
    ensures HexValue(Text.HexDigit(i)) == i
  {
  }

  lemma EscapeRead(c: char, x: string)
    ensures ReadChar(Escape(c) + x) == Some(Seen(c, x))
  {
    var e, s := Escape(c), Escape(c) + x;
    Split(e, x);
    assert forall i :: 0 <= i < |e| ==> s[i] == e[i];
    if !Plain(c) && |e| == 6 {
      ControlRead(c, x);
    }
  }

  lemma ControlRead(c: char, x: string)
    requires c as int < 0x20 && |Escape(c)| == 6
    ensures ReadChar(Escape(c) + x) == Some(Seen(c, x))
  {
    var e, s := Escape(c), Escape(c) + x;
    Split(e, x);
    HexRead(c as int / 16);
    HexRead(c as int % 16);
    assert forall i :: 0 <= i < 6 ==> s[i] == e[i];
    assert s[2..][0] == '0' && s[2..][1] == '0' && s[2..][2] == e[4] && s[2..][3] == e[5];
    assert CodeUnit(s[2..]) == Some(c);
  }

  lemma {:induction false} StringRead(t: string, x: string)
    ensures ReadString(Escaped(t) + ("\"" + x)) == Some(Seen(t, x))
    decreases |t|
  {
    hide ReadChar, Escape;
    var tail := "\"" + x;
    if t == "" {
      assert Escaped(t) + tail == tail;
    } else {
      var more := Escaped(t[1..]) + tail;
      assert Escaped(t) + tail == Escape(t[0]) + more;
      EscapeRead(t[0], more);
      StringRead(t[1..], x);
      NotQuoteFirst(t, x, x);
      QuoteStarts(Escape(t[0]) + more);
      assert [t[0]] + t[1..] == t;
    }
  }

  lemma QuoteStarts(s: string)
    requires ReadChar(s).Some?
    ensures s != "" && s[0] != '\"'
  {
  }

  lemma QuoteRead(t: string, x: string)
    ensures var s := Quote(t) + x; s != "" && s[0] == '\"' && ReadString(s[1..]) == Some(Seen(t, x))
  {
    hide ReadString, Escaped;
    StringRead(t, x);
    assert (Quote(t) + x)[1..] == Escaped(t) + ("\"" + x);
  }

  lemma {:induction false} TokenRead(token: string, x: string)
    requires Delimited(x) && forall i :: 0 <= i < |token| ==> NumChar(token[i])
    ensures NumberEnd(token + x) == |token|
    decreases |token|
  {
    if token == "" {
      assert token + x == x;
    } else {
      assert (token + x)[1..] == token[1..] + x;
      TokenRead(token[1..], x);
    }
  }

  // ---- how each kind of value is read, by its first character

  lemma ReadWord(v: Json, x: string)
    requires v.Null? || v.Bool?
    ensures Read(Print(v) + x) == Some(Seen(v, x))
  {
    Split(Print(v), x);
  }

  lemma ReadToken(token: string, x: string)
    requires token != "" && Delimited(x) && forall i :: 0 <= i < |token| ==> NumChar(token[i])
    ensures Read(token + x) == Some(Seen(Num(token), x))
  {
    hide ReadString, ReadItems, ReadFields;
    var s := token + x;
    Split(token, x);
    TokenRead(token, x);
    assert s[0] == token[0];
  }

  lemma ReadQuoted(s: string)
    requires s != "" && s[0] == '\"'
    ensures
      var t := ReadString(s[1..]);
      Read(s) == if t.None? then None else Some(Seen(Str(t.value.value), t.value.rest))
  {
    hide ReadString;
  }

  lemma ReadList(s: string)
    requires |s| > 1 && s[0] == '['
    ensures
      var t := ReadItems(s[1..]);
      Read(s) == if s[1] == ']' then Some(Seen(Arr([]), s[2..]))
                 else if t.None? then None else Some(Seen(Arr(t.value.value), t.value.rest))
  {
    hide ReadItems;
  }

  lemma ReadObject(s: string)
    requires |s| > 1 && s[0] == '{'
    ensures
      var t := ReadFields(s[1..]);
      Read(s) == if s[1] == '}' then Some(Seen(Obj([]), s[2..]))
                 else if t.None? then None else Some(Seen(Obj(t.value.value), t.value.rest))
  {
    hide ReadFields;
  }

  /** Reading a printed value gives the value, and leaves what stands behind it. */
  lemma {:induction false} ReadPrinted(v: Json, x: string)
    requires WellFormed(v) && Delimited(x)
    ensures Read(Print(v) + x) == Some(Seen(v, x))
    decreases v, 1
  {
    hide Quote, Read, ReadString, ReadItems, ReadFields, NumberEnd;
    match v {
      case Null => ReadWord(v, x);
      case Bool(_) => ReadWord(v, x);
      case Num(token) => ReadToken(token, x);
      case Str(t) =>
        QuoteRead(t, x);
        ReadQuoted(Quote(t) + x);
      case Arr(items) => ArrayRead(items, x);
      case Obj(fields) => ObjectRead(fields, x);
    }
  }

  lemma {:induction false} ArrayRead(items: seq<Json>, x: string)
    requires AllWell(items)
    ensures Read(Print(Arr(items)) + x) == Some(Seen(Arr(items), x))
    decreases items, 2
  {
    hide Read, ReadItems;
    var s := Print(Arr(items)) + x;
    SecondChar(items);
    assert s[0] == '[' && s[1] == Print(Arr(items))[1];
    ReadList(s);
    if items == [] {
      assert s[2..] == x;
    } else {
      var more := Print(items[0]) + (PrintItems(items[1..]) + x);
      OneItem(items[0], PrintItems(items[1..]), x);
      assert s == "[" + more && ("[" + more)[1..] == more;
      ItemsRead(items, x);
    }
  }

  lemma {:induction false} ObjectRead(fields: seq<Pair<Json>>, x: string)
    requires FieldsWell(fields)
    ensures Read(Print(Obj(fields)) + x) == Some(Seen(Obj(fields), x))
    decreases fields, 2
  {
    hide Read, ReadFields, Escaped;
    var s := Print(Obj(fields)) + x;
    if fields == [] {
      assert s == "{}" + x && s[2..] == x;
      ReadObject(s);
    } else {
      var f := fields[0];
      var more := Quote(f.key) + (":" + (Print(f.value) + (PrintFields(fields[1..]) + x)));
      OneField(f.key, f.value, PrintFields(fields[1..]), x);
      assert s == "{" + more && ("{" + more)[1..] == more && more[0] == '\"';
      ReadObject(s);
      FieldsRead(fields, x);
    }
  }

  lemma {:induction false} ItemsRead(items: seq<Json>, x: string)
    requires items != [] && AllWell(items)
    ensures ReadItems(Print(items[0]) + (PrintItems(items[1..]) + x)) == Some(Seen(items, x))
    decreases items, 0
  {
    hide Read, Print;
    var first, rest := items[0], items[1..];
    ItemsDelimited(rest, x);
    ReadPrinted(first, PrintItems(rest) + x);
    assert items == [first] + rest;
    if rest == [] {
      assert items == [first] && PrintItems(rest) + x == "]" + x && ("]" + x)[1..] == x;
    } else {
      OneItem(rest[0], PrintItems(rest[1..]), x);
      var more := Print(rest[0]) + (PrintItems(rest[1..]) + x);
      assert PrintItems(rest) + x == "," + more && ("," + more)[1..] == more;
      ItemsRead(rest, x);
    }
  }

  lemma {:induction false} FieldsRead(fields: seq<Pair<Json>>, x: string)
    requires fields != [] && FieldsWell(fields)
    ensures
      var f := fields[0];
      ReadFields(Quote(f.key) + (":" + (Print(f.value) + (PrintFields(fields[1..]) + x)))) == Some(Seen(fields, x))
    decreases fields, 0
  {
    hide ReadField, Print, Quote;
    var f, rest := fields[0], fields[1..];
    FieldsDelimited(rest, x);
    FieldRead(f, PrintFields(rest) + x);
    assert fields == [f] + rest;
    if rest == [] {
      assert fields == [f] && PrintFields(rest) + x == "}" + x && ("}" + x)[1..] == x;
    } else {
      var g := rest[0];
      OneField(g.key, g.value, PrintFields(rest[1..]), x);
      var more := Quote(g.key) + (":" + (Print(g.value) + (PrintFields(rest[1..]) + x)));
      assert PrintFields(rest) + x == "," + more && ("," + more)[1..] == more;
      FieldsRead(rest, x);
    }
  }

  lemma FieldRead(f: Pair<Json>, x: string)
    requires WellFormed(f.value) && Delimited(x)
    ensures ReadField(Quote(f.key) + (":" + (Print(f.value) + x))) == Some(Seen(f, x))
    decreases f, 2
  {
    hide Read, ReadString, Print, Quote;
    var tail := ":" + (Print(f.value) + x);
    QuoteRead(f.key, tail);
    assert tail[1..] == Print(f.value) + x;
    ReadPrinted(f.value, x);
  }

  /** The text of a well-formed value is JSON for that value. */
  lemma ParsePrinted(v: Json)
    requires WellFormed(v)
    ensures Parse(Print(v)) == Some(v)
  {
    hide Read, Print;
    ReadPrinted(v, "");
    assert Print(v) + "" == Print(v);
  }

  /** The canonical text of a value is JSON for the value in canonical key order. */
  lemma ParseCanonical(v: Json)
    requires WellFormed(v)
    ensures Parse(CanonicalText(v)) == Some(Canonical(v))
  {
    hide Parse, Print;
    CanonicalWell(v);
    ParsePrinted(Canonical(v));
  }
}
