// Mongo filters and what they mean: which documents match. Documents are flattened, each path holding
// a scalar or an array of strings.

module FilterMeaning {
  import opened Prelude

  type Path = string

  datatype Scalar = Null | Bool(b: bool) | Num(n: int) | Str(s: string)

  datatype Value = Single(scalar: Scalar) | Strings(items: seq<string>)

  type Document = map<Path, Value>

  datatype Operand = Scalar(value: Scalar) | List(values: seq<Scalar>)

  // The condition on one path: a bare value, or an object of operators.
  datatype Cond = Bare(value: Scalar) | Operators(ops: map<string, Operand>)

  // A filter object: its combinators, when present as arrays, and its conditions by path.
  datatype Filter = Filter(
    orBranches: Branches,
    andBranches: Branches,
    norBranches: Branches,
    fields: map<Path, Cond>)

  datatype Branches = Absent | Branches(list: seq<Filter>)

  // How operators other than `$eq` and `$in` behave; nothing is known about it.
  type OtherOps = (string, Operand, Option<Value>) -> bool

  function ValueAt(d: Document, path: Path): Option<Value> {
    if path in d then Some(d[path]) else None
  }

  // Mongo equality: null also matches an absent field, and an array is matched by its elements.
  predicate Equals(wanted: Scalar, v: Option<Value>) {
    match v
    case None => wanted.Null?
    case Some(Single(s)) => s == wanted
    case Some(Strings(items)) => wanted.Str? && wanted.s in items
  }

  predicate OperatorHolds(other: OtherOps, op: string, operand: Operand, v: Option<Value>) {
    if op == "$eq" && operand.Scalar? then Equals(operand.value, v)
    else if op == "$in" && operand.List? then exists i | 0 <= i < |operand.values| :: Equals(operand.values[i], v)
    else other(op, operand, v)
  }

  predicate CondHolds(other: OtherOps, c: Cond, v: Option<Value>) {
    match c
    case Bare(wanted) => Equals(wanted, v)
    case Operators(ops) => forall op | op in ops :: OperatorHolds(other, op, ops[op], v)
  }

  predicate FieldsHold(other: OtherOps, fields: map<Path, Cond>, d: Document) {
    forall path | path in fields :: CondHolds(other, fields[path], ValueAt(d, path))
  }

  predicate Matches(other: OtherOps, f: Filter, d: Document)
    decreases f
  {
    && (f.orBranches.Branches? ==> exists g | g in f.orBranches.list :: Matches(other, g, d))
    && (f.andBranches.Branches? ==> forall g | g in f.andBranches.list :: Matches(other, g, d))
    && (f.norBranches.Branches? ==> forall g | g in f.norBranches.list :: !Matches(other, g, d))
    && FieldsHold(other, f.fields, d)
  }

  // ----- laws -------------------------------------------------------------------------------

  function OneField(path: Path, c: Cond): Filter {
    Filter(Absent, Absent, Absent, map[path := c])
  }

  function AnyOf(gs: seq<Filter>): Filter {
    Filter(Branches(gs), Absent, Absent, map[])
  }

  function AllOf(gs: seq<Filter>): Filter {
    Filter(Absent, Branches(gs), Absent, map[])
  }

  function NoneOf(gs: seq<Filter>): Filter {
    Filter(Absent, Absent, Branches(gs), map[])
  }

  // A filter asks for all its parts at once.
  lemma {:induction false} PartsTogether(other: OtherOps, f: Filter, d: Document)
    ensures Matches(other, f, d) <==>
              && Matches(other, f.(andBranches := Absent, norBranches := Absent, fields := map[]), d)
              && Matches(other, f.(orBranches := Absent, norBranches := Absent, fields := map[]), d)
              && Matches(other, f.(orBranches := Absent, andBranches := Absent, fields := map[]), d)
              && Matches(other, f.(orBranches := Absent, andBranches := Absent, norBranches := Absent), d)
    ensures forall path | path in f.fields && f == Filter(Absent, Absent, Absent, f.fields) ::
              Matches(other, f, d) <==>
              Matches(other, OneField(path, f.fields[path]), d) && Matches(other, f.(fields := f.fields - {path}), d)
  {
  }

  // Branches, taken apart; `$nor` is the negation of `$or`.
  lemma {:induction false} BranchesSplit(other: OtherOps, g: Filter, gs: seq<Filter>, hs: seq<Filter>, d: Document)
    ensures !Matches(other, AnyOf([]), d) && Matches(other, AllOf([]), d)
    ensures Matches(other, AnyOf([g]), d) <==> Matches(other, g, d)
    ensures Matches(other, AllOf([g]), d) <==> Matches(other, g, d)
    ensures Matches(other, AnyOf(gs + hs), d) <==> Matches(other, AnyOf(gs), d) || Matches(other, AnyOf(hs), d)
    ensures Matches(other, AllOf(gs + hs), d) <==> Matches(other, AllOf(gs), d) && Matches(other, AllOf(hs), d)
    ensures Matches(other, NoneOf(gs), d) <==> !Matches(other, AnyOf(gs), d)
  {
  }

  lemma {:induction false} OneFieldIs(other: OtherOps, path: Path, c: Cond, d: Document)
    ensures Matches(other, OneField(path, c), d) <==> CondHolds(other, c, ValueAt(d, path))
  {
    assert path in map[path := c];
  }

  lemma {:induction false} OneOperatorIs(other: OtherOps, path: Path, op: string, operand: Operand, d: Document)
    ensures Matches(other, OneField(path, Operators(map[op := operand])), d) <==> OperatorHolds(other, op, operand, ValueAt(d, path))
  {
    hide OperatorHolds, Matches;
    OneFieldIs(other, path, Operators(map[op := operand]), d);
    assert op in map[op := operand];
  }

  // `$eq` is the bare value, `$in` any one of its values.
  lemma {:induction false} InIsAnyOf(other: OtherOps, path: Path, x: Scalar, xs: seq<Scalar>, ys: seq<Scalar>, d: Document)
    ensures Matches(other, OneField(path, Operators(map["$eq" := Scalar(x)])), d) <==> Matches(other, OneField(path, Bare(x)), d)
    ensures Matches(other, OneField(path, Operators(map["$in" := List([x])])), d) <==> Matches(other, OneField(path, Bare(x)), d)
    ensures !Matches(other, OneField(path, Operators(map["$in" := List([])])), d)
    ensures Matches(other, OneField(path, Operators(map["$in" := List(xs + ys)])), d) <==>
              || Matches(other, OneField(path, Operators(map["$in" := List(xs)])), d)
              || Matches(other, OneField(path, Operators(map["$in" := List(ys)])), d)
  {
    hide Matches;
    OneFieldIs(other, path, Bare(x), d);
    OneOperatorIs(other, path, "$eq", Scalar(x), d);
    OneOperatorIs(other, path, "$in", List([x]), d);
    OneOperatorIs(other, path, "$in", List([]), d);
    OneOperatorIs(other, path, "$in", List(xs + ys), d);
    OneOperatorIs(other, path, "$in", List(xs), d);
    OneOperatorIs(other, path, "$in", List(ys), d);
    InJoined(other, xs, ys, ValueAt(d, path));
    assert [x][0] == x;
  }

  lemma InJoined(other: OtherOps, xs: seq<Scalar>, ys: seq<Scalar>, v: Option<Value>)
    ensures OperatorHolds(other, "$in", List(xs + ys), v) <==>
              OperatorHolds(other, "$in", List(xs), v) || OperatorHolds(other, "$in", List(ys), v)
  {
    hide Equals;
    var all := xs + ys;
    forall i | 0 <= i < |xs| ensures all[i] == xs[i] {
    }
    forall i | 0 <= i < |ys| ensures all[|xs| + i] == ys[i] {
    }
  }

  // A missing field equals null alone, an array any of its elements.
  lemma {:induction false} BareMeans(other: OtherOps, path: Path, x: Scalar, d: Document)
    ensures Matches(other, OneField(path, Bare(x)), d) <==>
              if path !in d then x == Null
              else d[path] == Single(x) || (d[path].Strings? && exists i | 0 <= i < |d[path].items| :: x == Str(d[path].items[i]))
  {
    hide Matches;
    OneFieldIs(other, path, Bare(x), d);
  }
}
