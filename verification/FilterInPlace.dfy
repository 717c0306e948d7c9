// The rewriting as it happens: filter objects on the heap, overwritten in place, branch by branch and
// path by path.

module FilterInPlace {
  import opened Prelude
  import opened FilterMeaning
  import opened FilterRewrite

  // The value under `$or`, `$and` or `$nor`.
  datatype Branch = NotAnArray | Conditions(list: seq<FilterObject>)

  class FilterObject {
    const orBranch: Branch
    const andBranch: Branch
    const norBranch: Branch
    var fields: map<Path, Cond>
    ghost const depth: nat

    constructor (orBranch: Branch, andBranch: Branch, norBranch: Branch, fields: map<Path, Cond>, ghost depth: nat)
      ensures this.orBranch == orBranch && this.andBranch == andBranch && this.norBranch == norBranch
      ensures this.fields == fields && this.depth == depth
    {
      this.orBranch, this.andBranch, this.norBranch, this.fields, this.depth := orBranch, andBranch, norBranch, fields, depth;
    }

    // A tree: every branch holds trees of smaller depth, and no object is shared.
    ghost predicate IsTree()
      decreases depth, 2
    {
      && AreTrees(orBranch, depth) && AreTrees(andBranch, depth) && AreTrees(norBranch, depth)
      && this !in Objects(orBranch, depth) + Objects(andBranch, depth) + Objects(norBranch, depth)
      && Objects(orBranch, depth) !! Objects(andBranch, depth)
      && Objects(orBranch, depth) !! Objects(norBranch, depth)
      && Objects(andBranch, depth) !! Objects(norBranch, depth)
    }

    ghost function Repr(): set<FilterObject>
      requires IsTree()
      decreases depth, 3
    {
      {this} + Objects(orBranch, depth) + Objects(andBranch, depth) + Objects(norBranch, depth)
    }

    ghost function Value(): Filter
      requires IsTree()
      reads Repr()
      decreases depth, 3
    {
      Filter(BranchValue(orBranch, depth), BranchValue(andBranch, depth), BranchValue(norBranch, depth), fields)
    }
  }

  ghost predicate AreTrees(b: Branch, depth: nat)
    decreases depth, 1, 0
  {
    b.Conditions? ==> ListOfTrees(b.list, depth)
  }

  ghost predicate ListOfTrees(list: seq<FilterObject>, depth: nat)
    decreases depth, 0, |list|, 0
  {
    list == [] ||
    var n := |list| - 1;
    && ListOfTrees(list[..n], depth)
    && list[n].depth < depth && list[n].IsTree()
    && list[n].Repr() !! ListObjects(list[..n], depth)
  }

  ghost function ListObjects(list: seq<FilterObject>, depth: nat): set<FilterObject>
    requires ListOfTrees(list, depth)
    decreases depth, 0, |list|, 1
  {
    if list == [] then {} else ListObjects(list[..|list| - 1], depth) + list[|list| - 1].Repr()
  }

  ghost function Objects(b: Branch, depth: nat): set<FilterObject>
    requires AreTrees(b, depth)
    decreases depth, 1, 1
  {
    if b.Conditions? then ListObjects(b.list, depth) else {}
  }

  ghost function ListValue(list: seq<FilterObject>, depth: nat): (r: seq<Filter>)
    requires ListOfTrees(list, depth)
    reads ListObjects(list, depth)
    ensures |r| == |list|
    decreases depth, 0, |list|
  {
    if list == [] then [] else ListValue(list[..|list| - 1], depth) + [list[|list| - 1].Value()]
  }

  ghost function BranchValue(b: Branch, depth: nat): Branches
    requires AreTrees(b, depth)
    reads Objects(b, depth)
    decreases depth, 1
  {
    if b.Conditions? then Branches.Branches(ListValue(b.list, depth)) else Absent
  }

  // A list of trees, item by item.
  lemma {:induction false} ListItem(list: seq<FilterObject>, depth: nat, i: nat)
    requires ListOfTrees(list, depth) && i < |list|
    ensures ListOfTrees(list[..i], depth)
    ensures list[i].depth < depth && list[i].IsTree()
    ensures list[i].Repr() !! ListObjects(list[..i], depth)
    ensures ListObjects(list[..i], depth) + list[i].Repr() <= ListObjects(list, depth)
    decreases |list|
  {
    var n := |list| - 1;
    if i < n {
      ListItem(list[..n], depth, i);
      assert list[..n][..i] == list[..i];
    }
  }

  lemma {:induction false} Apart(list: seq<FilterObject>, depth: nat, i: nat, k: nat)
    requires ListOfTrees(list, depth) && i < k < |list|
    ensures list[i].IsTree() && list[k].IsTree() && list[i].Repr() !! list[k].Repr()
  {
    ListItem(list, depth, i);
    ListItem(list, depth, k);
    ListItem(list[..k], depth, i);
    assert list[..k][..i] == list[..i];
  }

  lemma {:induction false} ItemValue(list: seq<FilterObject>, depth: nat, i: nat)
    requires ListOfTrees(list, depth) && i < |list|
    ensures list[i].IsTree() && ListValue(list, depth)[i] == list[i].Value()
    decreases |list|
  {
    var n := |list| - 1;
    if i < n {
      ItemValue(list[..n], depth, i);
    }
  }

  // The value of a branch is that of its conditions, one by one.
  ghost predicate Holds(b: Branch, depth: nat, value: Branches)
    requires AreTrees(b, depth)
    reads Objects(b, depth)
  {
    && (b.Conditions? <==> value.Branches?)
    && (b.Conditions? ==>
         && |value.list| == |b.list|
         && forall i | 0 <= i < |b.list| :: (ListItem(b.list, depth, i); value.list[i] == b.list[i].Value()))
  }

  lemma ValueIs(t: FilterObject)
    requires t.IsTree()
    ensures t.Value().fields == t.fields
    ensures Holds(t.orBranch, t.depth, t.Value().orBranches)
    ensures Holds(t.andBranch, t.depth, t.Value().andBranches)
    ensures Holds(t.norBranch, t.depth, t.Value().norBranches)
  {
    BranchHolds(t.orBranch, t.depth);
    BranchHolds(t.andBranch, t.depth);
    BranchHolds(t.norBranch, t.depth);
  }

  lemma BranchHolds(b: Branch, depth: nat)
    requires AreTrees(b, depth)
    ensures Holds(b, depth, BranchValue(b, depth))
  {
    if b.Conditions? {
      forall i | 0 <= i < |b.list| ensures b.list[i].IsTree() && ListValue(b.list, depth)[i] == b.list[i].Value() {
        ItemValue(b.list, depth, i);
      }
    }
  }

  // What can be reached from an object exists.
  lemma {:induction false} ListAllocated(list: seq<FilterObject>, depth: nat)
    requires ListOfTrees(list, depth)
    ensures forall o | o in ListObjects(list, depth) :: allocated(o)
    decreases depth, 0, |list|
  {
    if list != [] {
      var n := |list| - 1;
      ListAllocated(list[..n], depth);
      TreeAllocated(list[n]);
    }
  }

  lemma {:induction false} BranchAllocated(b: Branch, depth: nat)
    requires AreTrees(b, depth)
    ensures forall o | o in Objects(b, depth) :: allocated(o)
    decreases depth, 1
  {
    if b.Conditions? {
      ListAllocated(b.list, depth);
    }
  }

  lemma {:induction false} TreeAllocated(t: FilterObject)
    requires t.IsTree()
    ensures forall o | o in t.Repr() :: allocated(o)
    decreases t.depth, 2
  {
    BranchAllocated(t.orBranch, t.depth);
    BranchAllocated(t.andBranch, t.depth);
    BranchAllocated(t.norBranch, t.depth);
  }

  // ----- the rewriting ----------------------------------------------------------------------

  // What a call leaves: the rewritten value, or the error that is thrown.
  ghost predicate Leaves<T>(rewritten: Result<T, FilterError>, after: T, thrown: Option<FilterError>) {
    match rewritten
    case Success(value) => thrown == None && after == value
    case Failure(e) => thrown == Some(e)
  }

  method ProtectFilterByPaths(s: Schema, filter: FilterObject) returns (thrown: Option<FilterError>)
    requires filter.IsTree() && forall path | path in s.paths :: path in s.protection
    modifies filter.Repr()
    ensures Leaves(Rewrite(s, old(filter.Value())), filter.Value(), thrown)
    decreases filter.depth, 2
  {
    hide RewriteFields, RewriteBranches, AreTrees, Objects, BranchValue;
    ghost var depth := filter.depth;
    BranchAllocated(filter.orBranch, depth);
    BranchAllocated(filter.andBranch, depth);
    BranchAllocated(filter.norBranch, depth);
    thrown := ProtectBranch(s, filter.orBranch, depth);
    assert BranchValue(filter.andBranch, depth) == old(BranchValue(filter.andBranch, depth));
    assert BranchValue(filter.norBranch, depth) == old(BranchValue(filter.norBranch, depth));
    if thrown.Some? {
      return;
    }
    thrown := ProtectBranch(s, filter.andBranch, depth);
    assert BranchValue(filter.norBranch, depth) == old(BranchValue(filter.norBranch, depth));
    if thrown.Some? {
      return;
    }
    thrown := ProtectBranch(s, filter.norBranch, depth);
    if thrown.Some? {
      return;
    }
    thrown := ProtectPaths(s, filter);
  }

  // The protected paths in turn, on the conditions of this object alone.
  method ProtectPaths(s: Schema, filter: FilterObject) returns (thrown: Option<FilterError>)
    requires forall path | path in s.paths :: path in s.protection
    modifies filter`fields
    ensures Leaves(RewriteFields(s, |s.paths|, old(filter.fields)), filter.fields, thrown)
  {
    hide RewriteFields, MaskScalar, MaskScalars;
    thrown := None;
    var i := 0;
    FieldsStep(s, 0, old(filter.fields));
    while i < |s.paths|
      invariant 0 <= i <= |s.paths| && thrown == None
      invariant RewriteFields(s, i, old(filter.fields)) == Success(filter.fields)
    {
      var path := s.paths[i];
      i := i + 1;
      FieldsStep(s, i, old(filter.fields));
      if path !in filter.fields {
        continue;
      }
      var value := filter.fields[path];
      if value == Bare(Null) {
        assert filter.fields[path := value] == filter.fields;
        continue;
      }
      var p := s.protection[path];
      if !Masks(p) {
        thrown := Some(StrategyNotMask(path));
        FailureStays(s, i, old(filter.fields));
        return;
      }
      if value.Bare? && value.value.Str? {
        filter.fields := filter.fields[path := Bare(MaskScalar(s.crypto, p, value.value))];
      } else if IsEq(value) {
        filter.fields := filter.fields[path := Operators(map["$eq" := Operand.Scalar(MaskScalar(s.crypto, p, value.ops["$eq"].value))])];
      } else if IsIn(value) {
        if Null in value.ops["$in"].values {
          thrown := Some(NullInList(path));
          FailureStays(s, i, old(filter.fields));
          return;
        }
        filter.fields := filter.fields[path := Operators(map["$in" := List(MaskScalars(s.crypto, p, value.ops["$in"].values))])];
      } else {
        thrown := Some(UnsupportedOperator(path));
        FailureStays(s, i, old(filter.fields));
        return;
      }
    }
  }

  lemma {:induction false} FailureStays(s: Schema, n: nat, fields: map<Path, Cond>)
    requires n <= |s.paths| && forall path | path in s.paths :: path in s.protection
    requires RewriteFields(s, n, fields).Failure?
    ensures RewriteFields(s, |s.paths|, fields) == RewriteFields(s, n, fields)
    decreases |s.paths| - n
  {
    if n < |s.paths| {
      FieldsStep(s, n + 1, fields);
      FailureStays(s, n + 1, fields);
    }
  }

  method ProtectBranch(s: Schema, branch: Branch, ghost depth: nat) returns (thrown: Option<FilterError>)
    requires AreTrees(branch, depth) && forall path | path in s.paths :: path in s.protection
    modifies Objects(branch, depth)
    ensures Leaves(RewriteBranches(s, old(BranchValue(branch, depth))), BranchValue(branch, depth), thrown)
    decreases depth, 1
  {
    hide RewriteList, ListValue, ListObjects, ListOfTrees;
    thrown := None;
    if branch.Conditions? {
      thrown := ProtectList(s, branch.list, depth);
    }
  }

  method ProtectList(s: Schema, list: seq<FilterObject>, ghost depth: nat) returns (thrown: Option<FilterError>)
    requires ListOfTrees(list, depth) && forall path | path in s.paths :: path in s.protection
    modifies ListObjects(list, depth)
    ensures Leaves(RewriteList(s, old(ListValue(list, depth))), ListValue(list, depth), thrown)
    decreases depth, 0
  {
    hide RewriteList, Rewrite, ListValue, ListObjects, ListOfTrees, FilterObject.IsTree, FilterObject.Repr, FilterObject.Value;
    thrown := None;
    ghost var before := ListValue(list, depth);
    var i := 0;
    ItemsAreTrees(list, depth);
    NoItems(s, list, depth);
    while i < |list|
      invariant 0 <= i <= |list| && thrown == None && ListOfTrees(list[..i], depth)
      invariant RewriteList(s, before[..i]) == Success(ListValue(list[..i], depth))
      invariant forall k | i <= k < |list| :: list[k].IsTree() && list[k].Value() == before[k]
    {
      NextItem(list, depth, i);
      RestAllocated(list, depth, i);
      ListStep(s, before, i);
      thrown := ProtectFilterByPaths(s, list[i]);
      NextItem(list, depth, i);
      i := i + 1;
      if thrown.Some? {
        ListFailureStays(s, before, i);
        return;
      }
    }
    assert list[..i] == list && before[..i] == before;
  }

  // The next item is apart from what is before it and from what is after it.
  lemma {:induction false} NextItem(list: seq<FilterObject>, depth: nat, i: nat)
    requires ListOfTrees(list, depth) && i < |list|
    ensures ListOfTrees(list[..i], depth) && ListOfTrees(list[..i + 1], depth)
    ensures list[i].depth < depth && list[i].IsTree() && list[i].Repr() <= ListObjects(list, depth)
    ensures list[i].Repr() !! ListObjects(list[..i], depth)
    ensures forall k | i < k < |list| :: list[k].IsTree() && list[i].Repr() !! list[k].Repr()
    ensures ListValue(list[..i + 1], depth) == ListValue(list[..i], depth) + [list[i].Value()]
  {
    ListItem(list, depth, i);
    if i + 1 < |list| {
      ListItem(list, depth, i + 1);
    } else {
      assert list[..i + 1] == list;
    }
    assert list[..i + 1][..i] == list[..i];
    forall k | i < k < |list| ensures list[k].IsTree() && list[i].Repr() !! list[k].Repr() {
      Apart(list, depth, i, k);
    }
  }

  lemma {:induction false} RestAllocated(list: seq<FilterObject>, depth: nat, i: nat)
    requires ListOfTrees(list, depth) && i < |list|
    ensures ListOfTrees(list[..i], depth) && forall o | o in ListObjects(list[..i], depth) :: allocated(o)
    ensures forall k | i < k < |list| :: list[k].IsTree() && forall o | o in list[k].Repr() :: allocated(o)
  {
    ListItem(list, depth, i);
    ListAllocated(list[..i], depth);
    forall k | i < k < |list| ensures list[k].IsTree() && forall o | o in list[k].Repr() :: allocated(o) {
      ListItem(list, depth, k);
      TreeAllocated(list[k]);
    }
  }

  lemma {:induction false} ListStep(s: Schema, fs: seq<Filter>, i: nat)
    requires i < |fs| && forall path | path in s.paths :: path in s.protection
    ensures RewriteList(s, fs[..i + 1]) ==
              match RewriteList(s, fs[..i])
              case Failure(e) => Failure(e)
              case Success(done) =>
                match Rewrite(s, fs[i])
                case Failure(e) => Failure(e)
                case Success(last) => Success(done + [last])
  {
    assert fs[..i + 1][..i] == fs[..i];
  }

  lemma {:induction false} ListFailureStays(s: Schema, fs: seq<Filter>, n: nat)
    requires n <= |fs| && forall path | path in s.paths :: path in s.protection
    requires RewriteList(s, fs[..n]).Failure?
    ensures RewriteList(s, fs) == RewriteList(s, fs[..n])
    decreases |fs| - n
  {
    if n < |fs| {
      ListStep(s, fs, n);
      ListFailureStays(s, fs, n + 1);
    } else {
      assert fs[..n] == fs;
    }
  }

  lemma {:induction false} NoItems(s: Schema, list: seq<FilterObject>, depth: nat)
    requires ListOfTrees(list, depth) && forall path | path in s.paths :: path in s.protection
    ensures ListOfTrees(list[..0], depth) && ListValue(list[..0], depth) == []
    ensures RewriteList(s, ListValue(list, depth)[..0]) == Success([])
  {
  }

  lemma {:induction false} ItemsAreTrees(list: seq<FilterObject>, depth: nat)
    requires ListOfTrees(list, depth)
    ensures forall k | 0 <= k < |list| :: list[k].IsTree() && list[k].Value() == ListValue(list, depth)[k]
  {
    forall k | 0 <= k < |list| ensures list[k].IsTree() && list[k].Value() == ListValue(list, depth)[k] {
      ItemValue(list, depth, k);
    }
  }
}
