// Structural equality of JSON-shaped values, as the trigger sync uses it to tell whether an entry was
// edited.

module JsonEquality {
  import opened Prelude

  // An object lists its fields in the order they were set.
  datatype Json =
    | Undefined
    | Null
    | Bool(b: bool)
    | Number(n: int)
    | Text(s: string)
    | Array(items: seq<Json>)
    | Object(fields: seq<Field>)

  datatype Field = Field(name: string, value: Json)

  predicate Structured(j: Json) {
    j.Array? || j.Object?
  }

  predicate Has(fields: seq<Field>, name: string) {
    exists i | 0 <= i < |fields| :: fields[i].name == name
  }

  function Place(fields: seq<Field>, name: string): (i: nat)
    requires Has(fields, name)
    ensures i < |fields| && fields[i].name == name
  {
    if fields[0].name == name then 0 else
      assert Has(fields[1..], name) by {
        var i :| 0 <= i < |fields| && fields[i].name == name;
        assert fields[1..][i - 1].name == name;
      }
      1 + Place(fields[1..], name)
  }

  function Lookup(fields: seq<Field>, name: string): Json
    requires Has(fields, name)
  {
    fields[Place(fields, name)].value
  }

  // The shortcut for one and the same object is left out: DeepEqualDecides shows that it never
  // changes the answer.
  predicate DeepEqual(a: Json, b: Json)
    decreases a
  {
    if !Structured(a) || !Structured(b) then a == b
    else if a.Array? || b.Array? then
      && a.Array? && b.Array? && |a.items| == |b.items|
      && forall i | 0 <= i < |a.items| :: DeepEqual(a.items[i], b.items[i])
    else
      && |a.fields| == |b.fields|
      && forall i | 0 <= i < |a.fields| ::
           Has(b.fields, a.fields[i].name) && DeepEqual(a.fields[i].value, Lookup(b.fields, a.fields[i].name))
  }

  // ----- what a value means, key order aside ------------------------------------------------

  datatype Value = Leaf(json: Json) | List(items: seq<Value>) | Record(fields: map<string, Value>)

  function Names(fields: seq<Field>): set<string> {
    set i | 0 <= i < |fields| :: fields[i].name
  }

  function Meaning(j: Json): Value
    decreases j
  {
    match j
    case Array(items) => List(seq(|items|, i requires 0 <= i < |items| => Meaning(items[i])))
    case Object(fields) => Record(Fields(fields))
    case _ => Leaf(j)
  }

  function Fields(f: seq<Field>): map<string, Value>
    decreases f
  {
    map name | name in Names(f) :: Meaning(f[Place(f, name)].value)
  }

  ghost predicate DistinctNames(fields: seq<Field>) {
    forall i, j | 0 <= i < j < |fields| :: fields[i].name != fields[j].name
  }

  // No object has two fields of one name.
  ghost predicate WellFormed(j: Json)
    decreases j
  {
    match j
    case Array(items) => forall i | 0 <= i < |items| :: WellFormed(items[i])
    case Object(fields) => DistinctNames(fields) && forall i | 0 <= i < |fields| :: WellFormed(fields[i].value)
    case _ => true
  }

  lemma NamesSplit(front: seq<Field>, last: Field)
    ensures Names(front + [last]) == Names(front) + {last.name}
  {
    var fields := front + [last];
    forall name | name in Names(front) ensures name in Names(fields) {
      var i :| 0 <= i < |front| && front[i].name == name;
      assert fields[i].name == name;
    }
    assert fields[|front|] == last;
  }

  lemma {:induction false} CountNames(fields: seq<Field>)
    requires DistinctNames(fields)
    ensures |Names(fields)| == |fields|
  {
    if fields != [] {
      var front, last := fields[..|fields| - 1], fields[|fields| - 1];
      CountNames(front);
      assert fields == front + [last];
      assert last.name !in Names(front);
      NamesSplit(front, last);
    } else {
      assert Names(fields) == {};
    }
  }

  lemma SubsetOfSameSize<T>(a: set<T>, b: set<T>)
    requires a <= b && |a| == |b|
    ensures a == b
  {
    assert b == a + (b - a);
    assert |b - a| == 0;
  }

  lemma {:induction false} PlaceIs(fields: seq<Field>, i: nat)
    requires DistinctNames(fields) && i < |fields|
    ensures Has(fields, fields[i].name) && Place(fields, fields[i].name) == i
  {
  }

  // Equal field counts and one-way containment give the same names.
  lemma SameNames(a: seq<Field>, b: seq<Field>)
    requires DistinctNames(a) && DistinctNames(b) && |a| == |b|
    requires forall i | 0 <= i < |a| :: Has(b, a[i].name)
    ensures Names(a) == Names(b)
  {
    CountNames(a);
    CountNames(b);
    forall name | name in Names(a) ensures name in Names(b) {
      var i :| 0 <= i < |a| && a[i].name == name;
      assert Has(b, a[i].name);
    }
    SubsetOfSameSize(Names(a), Names(b));
  }

  ghost predicate FieldsAgree(f: seq<Field>, g: seq<Field>) {
    |f| == |g| && forall i | 0 <= i < |f| :: Has(g, f[i].name) && Meaning(f[i].value) == Meaning(Lookup(g, f[i].name))
  }

  lemma {:induction false} AgreeingIsSame(f: seq<Field>, g: seq<Field>)
    requires DistinctNames(f) && DistinctNames(g) && FieldsAgree(f, g)
    ensures Fields(f) == Fields(g)
  {
    hide Meaning;
    SameNames(f, g);
    forall name | name in Names(f) ensures Fields(f)[name] == Fields(g)[name] {
      assert Has(g, f[Place(f, name)].name);
    }
  }

  lemma {:induction false} SameIsAgreeing(f: seq<Field>, g: seq<Field>)
    requires DistinctNames(f) && DistinctNames(g) && Fields(f) == Fields(g)
    ensures FieldsAgree(f, g)
  {
    hide Meaning;
    CountNames(f);
    CountNames(g);
    assert Names(f) == Fields(f).Keys == Fields(g).Keys == Names(g);
    forall i | 0 <= i < |f| ensures Has(g, f[i].name) && Meaning(f[i].value) == Meaning(Lookup(g, f[i].name)) {
      PlaceIs(f, i);
      assert f[i].name in Names(f);
      assert Fields(f)[f[i].name] == Fields(g)[f[i].name];
    }
  }

  lemma {:induction false} ObjectsDecide(f: seq<Field>, g: seq<Field>)
    requires WellFormed(Object(f)) && WellFormed(Object(g))
    ensures DeepEqual(Object(f), Object(g)) <==> FieldsAgree(f, g)
    decreases Object(f), 0
  {
    hide Meaning;
    forall i | 0 <= i < |f| && Has(g, f[i].name)
      ensures DeepEqual(f[i].value, Lookup(g, f[i].name)) <==> Meaning(f[i].value) == Meaning(Lookup(g, f[i].name))
    {
      DeepEqualDecides(f[i].value, Lookup(g, f[i].name));
    }
  }

  // deepEqual holds exactly of two values that mean the same, whatever the order of their fields.
  lemma {:induction false} DeepEqualDecides(a: Json, b: Json)
    requires WellFormed(a) && WellFormed(b)
    ensures DeepEqual(a, b) <==> Meaning(a) == Meaning(b)
    decreases a
  {
    if a.Object? && b.Object? {
      var f, g := a.fields, b.fields;
      ObjectsDecide(f, g);
      assert Meaning(a) == Record(Fields(f)) && Meaning(b) == Record(Fields(g));
      if FieldsAgree(f, g) {
        AgreeingIsSame(f, g);
      } else if Fields(f) == Fields(g) {
        SameIsAgreeing(f, g);
      }
    } else if a.Array? && b.Array? {
      var m, n := Meaning(a).items, Meaning(b).items;
      if |a.items| == |b.items| {
        forall i | 0 <= i < |a.items| ensures DeepEqual(a.items[i], b.items[i]) <==> m[i] == n[i] {
          DeepEqualDecides(a.items[i], b.items[i]);
        }
      } else {
        assert |m| != |n|;
      }
    }
  }

  lemma {:induction false} DeepEqualIsEquivalence(a: Json, b: Json, c: Json)
    requires WellFormed(a) && WellFormed(b) && WellFormed(c)
    ensures DeepEqual(a, a)
    ensures DeepEqual(a, b) ==> DeepEqual(b, a)
    ensures DeepEqual(a, b) && DeepEqual(b, c) ==> DeepEqual(a, c)
  {
    hide DeepEqual, Meaning, WellFormed;
    DeepEqualDecides(a, a);
    DeepEqualDecides(a, b);
    DeepEqualDecides(b, a);
    DeepEqualDecides(b, c);
    DeepEqualDecides(a, c);
  }
}
