// JavaScript values without shared sub-objects, seen as trees: an object reference is the place where
// the object sits.

module JsTree {
  import opened Prelude

  // A property name; names that are all digits are indices.
  datatype Key = Name(name: string) | Index(n: nat)

  type Loc = seq<Key>

  datatype Kind = Object | Array | MapObject

  datatype Primitive = BoolOf(b: bool) | NumberOf(n: int) | StringOf(s: string)

  // Undefined can be the value of a property that is there. An array may have holes; its length is
  // kept because deleting an element leaves it as it is.
  datatype Node =
    | Undefined
    | Null
    | Prim(value: Primitive)
    | Container(kind: Kind, length: nat, fields: map<Key, Node>)

  predicate Falsy(v: Node) {
    v.Undefined? || v.Null? || v == Prim(BoolOf(false)) || v == Prim(NumberOf(0)) || v == Prim(StringOf(""))
  }

  function Emptied(asArray: bool): Node {
    Container(if asArray then Array else Object, 0, map[])
  }

  // ----- places -----------------------------------------------------------------------------

  predicate Has(v: Node, loc: Loc) {
    loc == [] || (v.Container? && loc[0] in v.fields && Has(v.fields[loc[0]], loc[1..]))
  }

  function Get(v: Node, loc: Loc): Node
    requires Has(v, loc)
  {
    if loc == [] then v else Get(v.fields[loc[0]], loc[1..])
  }

  // The tree with the value at a place replaced.
  function Update(v: Node, loc: Loc, x: Node): Node
    requires Has(v, loc)
  {
    if loc == [] then x else v.(fields := v.fields[loc[0] := Update(v.fields[loc[0]], loc[1..], x)])
  }

  lemma {:induction false} HasAppend(v: Node, a: Loc, b: Loc)
    requires Has(v, a)
    ensures Has(v, a + b) <==> Has(Get(v, a), b)
    ensures Has(v, a + b) ==> Get(v, a + b) == Get(Get(v, a), b)
  {
    if a == [] {
      assert a + b == b;
    } else {
      assert (a + b)[1..] == a[1..] + b;
      HasAppend(v.fields[a[0]], a[1..], b);
    }
  }

  lemma {:induction false} GetUpdate(v: Node, loc: Loc, x: Node)
    requires Has(v, loc)
    ensures Has(Update(v, loc, x), loc) && Get(Update(v, loc, x), loc) == x
  {
    if loc != [] {
      GetUpdate(v.fields[loc[0]], loc[1..], x);
    }
  }

  lemma {:induction false} UpdateSame(v: Node, loc: Loc)
    requires Has(v, loc)
    ensures Update(v, loc, Get(v, loc)) == v
  {
    if loc != [] {
      UpdateSame(v.fields[loc[0]], loc[1..]);
      assert v.fields[loc[0] := v.fields[loc[0]]] == v.fields;
    }
  }

  lemma {:induction false} UpdateTwice(v: Node, loc: Loc, x: Node, y: Node)
    requires Has(v, loc) && Has(Update(v, loc, x), loc)
    ensures Update(Update(v, loc, x), loc, y) == Update(v, loc, y)
  {
    if loc != [] {
      UpdateTwice(v.fields[loc[0]], loc[1..], x, y);
      var k := loc[0];
      assert v.fields[k := Update(v.fields[k], loc[1..], x)][k := Update(v.fields[k], loc[1..], y)]
          == v.fields[k := Update(v.fields[k], loc[1..], y)];
    }
  }

  lemma {:induction false} UpdateInside(v: Node, a: Loc, b: Loc, x: Node)
    requires Has(v, a) && Has(v, a + b) && Has(Get(v, a), b)
    ensures Update(v, a + b, x) == Update(v, a, Update(Get(v, a), b, x))
  {
    if a == [] {
      assert a + b == b;
    } else {
      assert (a + b)[1..] == a[1..] + b;
      UpdateInside(v.fields[a[0]], a[1..], b, x);
    }
  }

  // ----- what there is to see at a place ----------------------------------------------------

  datatype Seen =
    | Absent
    | SeenUndefined
    | SeenNull
    | SeenPrimitive(value: Primitive)
    | SeenContainer(kind: Kind, length: nat)

  function Look(v: Node): Seen {
    match v
    case Undefined => SeenUndefined
    case Null => SeenNull
    case Prim(p) => SeenPrimitive(p)
    case Container(kind, length, _) => SeenContainer(kind, length)
  }

  function View(v: Node, loc: Loc): Seen {
    if Has(v, loc) then Look(Get(v, loc)) else Absent
  }

  // Two trees that look the same at every place are the same tree.
  lemma {:induction false} ViewsDecide(a: Node, b: Node)
    requires forall loc :: View(a, loc) == View(b, loc)
    ensures a == b
    decreases a
  {
    assert View(a, []) == View(b, []);
    if a.Container? {
      forall k ensures k in a.fields <==> k in b.fields {
        assert View(a, [k]) == View(b, [k]);
        assert k in a.fields ==> Has(a.fields[k], [k][1..]);
        assert k in b.fields ==> Has(b.fields[k], [k][1..]);
      }
      forall k | k in a.fields ensures a.fields[k] == b.fields[k] {
        forall loc ensures View(a.fields[k], loc) == View(b.fields[k], loc) {
          assert View(a, [k] + loc) == View(b, [k] + loc);
          assert ([k] + loc)[1..] == loc;
        }
        ViewsDecide(a.fields[k], b.fields[k]);
      }
      assert a.fields == b.fields;
    }
  }
}
