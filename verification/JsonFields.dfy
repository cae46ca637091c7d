/** Fields of JSON objects, also after canonical printing and reading back. */
module JsonFields {
  import opened Basics
  import opened CanonicalJson
  import opened Ordering
  import Text

  type Fields = seq<Pair<Json>>

  /** `new TextEncoder().encode(canonicalJSONStringify(v))` */
  ghost function TextBytes(v: Json): Bytes {
    Text.Utf8(CanonicalText(v))
  }

  /** The printed bytes determine the canonical value. */
  lemma TextBytesFaithful(v: Json, w: Json)
    requires WellFormed(v) && WellFormed(w) && TextBytes(v) == TextBytes(w)
    ensures Canonical(v) == Canonical(w)
  {
    hide Canonical, Print, Text.Utf8, WellFormed;
    Text.Utf8Injective(CanonicalText(v), CanonicalText(w));
    CanonicalWell(v);
    CanonicalWell(w);
    PrintInjective(Canonical(v), Canonical(w));
  }

  function FieldIn(fields: Fields, key: string): Option<Json> {
    if fields == [] then None
    else if fields[0].key == key then Some(fields[0].value)
    else FieldIn(fields[1..], key)
  }

  function Field(v: Json, key: string): Option<Json> {
    if v.Obj? then FieldIn(v.fields, key) else None
  }

  lemma {:induction false} FieldMember(fields: Fields, key: string)
    ensures FieldIn(fields, key).Some? ==> Pair(key, FieldIn(fields, key).value) in fields
    ensures FieldIn(fields, key).None? ==> forall x :: x in fields ==> x.key != key
  {
    if fields != [] {
      FieldMember(fields[1..], key);
      assert fields == [fields[0]] + fields[1..];
    }
  }

  lemma FieldIs(fields: Fields, key: string, value: Json)
    requires DistinctKeys(fields) && Pair(key, value) in fields
    ensures FieldIn(fields, key) == Some(value)
  {
    FieldMember(fields, key);
    var x := Pair(key, FieldIn(fields, key).value);
    var i :| 0 <= i < |fields| && fields[i] == x;
    var j :| 0 <= j < |fields| && fields[j] == Pair(key, value);
    assert i == j;
  }

  /** A field of the canonical form is the canonical form of the field. */
  lemma CanonicalField(fields: Fields, key: string)
    requires DistinctKeys(fields)
    ensures
      var f := FieldIn(fields, key);
      Field(Canonical(Obj(fields)), key) == if f.Some? then Some(Canonical(f.value)) else None
  {
    hide Canonical, Arrange, Sort, FieldIn;
    var r := Arrange(Sort(CanonicalFields(fields)));
    assert Canonical(Obj(fields)) == Obj(r) by { CanonicalIs(fields); }
    CanonicalObjectFields(fields);
    FieldMember(fields, key);
    var f := FieldIn(fields, key);
    if f.Some? {
      CanonicalMember(fields, key, f.value);
      FieldIs(r, key, Canonical(f.value));
    } else {
      FieldMember(r, key);
      forall x | x in r ensures x.key != key {
        var j :| 0 <= j < |fields| && CanonicalFields(fields)[j] == x;
        assert fields[j] in fields;
      }
    }
  }

  lemma CanonicalIs(fields: Fields)
    ensures Canonical(Obj(fields)) == Obj(Arrange(Sort(CanonicalFields(fields))))
  {
  }

  lemma CanonicalMember(fields: Fields, key: string, value: Json)
    requires Pair(key, value) in fields
    ensures Pair(key, Canonical(value)) in CanonicalFields(fields)
  {
    hide Canonical;
    var i :| 0 <= i < |fields| && fields[i] == Pair(key, value);
    assert CanonicalFields(fields)[i] == Pair(key, Canonical(value));
  }

  function StrOf(v: Option<Json>): string {
    match v case Some(Str(s)) => s case _ => ""
  }

  lemma CanonicalStr(s: string)
    ensures Canonical(Str(s)) == Str(s)
  {
  }

  lemma FieldReads(f: Fields, key: string, s: string)
    requires DistinctKeys(f) && Pair(key, Str(s)) in f
    ensures Field(Canonical(Obj(f)), key) == Some(Str(s))
  {
    hide Canonical, Field, FieldIn;
    FieldIs(f, key, Str(s));
    CanonicalField(f, key);
    CanonicalStr(s);
  }

  /** Objects with the same canonical form agree on each field, up to its canonical form. */
  lemma FieldsAgree(f: Fields, g: Fields, key: string, v: Json, w: Json)
    requires DistinctKeys(f) && DistinctKeys(g) && Canonical(Obj(f)) == Canonical(Obj(g))
    requires Pair(key, v) in f && Pair(key, w) in g
    ensures Canonical(v) == Canonical(w)
  {
    hide Canonical, Field, FieldIn;
    FieldIs(f, key, v);
    FieldIs(g, key, w);
    CanonicalField(f, key);
    CanonicalField(g, key);
  }
}
