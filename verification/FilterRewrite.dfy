// Rewriting a plaintext filter for data that is stored masked, and why it keeps its meaning: the
// rewritten filter matches the protected document exactly when the original matches the plain one.

module FilterRewrite {
  import opened Prelude
  import P = Protection
  import opened FilterMeaning

  datatype FilterError =
    | StrategyNotMask(path: Path)       // hash and encrypt are not deterministic
    | UnsupportedOperator(path: Path)   // anything but equality, $eq and $in
    | NullInList(path: Path)            // masking null throws a TypeError

  // The protected paths of a schema with their settings, and the crypto primitives.
  datatype Schema = Schema(paths: seq<Path>, protection: map<Path, P.DataProtection>, crypto: P.Crypto)

  ghost predicate ValidSchema(s: Schema) {
    && P.Lawful(s.crypto)
    && (forall path | path in s.paths :: path in s.protection)
    && (forall i, j | 0 <= i < j < |s.paths| :: s.paths[i] != s.paths[j])
    && (forall path | path in s.paths :: P.VersionTag(s.protection[path].activeVersion))
  }

  predicate Masks(p: P.DataProtection) {
    P.ConfigFor(p, p.activeVersion).Some? && P.ConfigFor(p, p.activeVersion).value.strategy == P.Mask
  }

  // mask() applied to one string under the active version.
  function Masked(c: P.Crypto, p: P.DataProtection, s: string): string
    requires Masks(p)
  {
    P.MaskWith(c, P.ConfigFor(p, p.activeVersion).value.settings, p.activeVersion, P.One(s)).text
  }

  // mask() of anything that is not a string has no first character to look at and returns it as is.
  function MaskScalar(c: P.Crypto, p: P.DataProtection, e: Scalar): Scalar
    requires Masks(p)
  {
    if e.Str? then Str(Masked(c, p, e.s)) else e
  }

  function MaskScalars(c: P.Crypto, p: P.DataProtection, es: seq<Scalar>): seq<Scalar>
    requires Masks(p)
  {
    seq(|es|, i requires 0 <= i < |es| => MaskScalar(c, p, es[i]))
  }

  // ----- the rewriting ----------------------------------------------------------------------

  predicate IsEq(c: Cond) {
    c.Operators? && c.ops.Keys == {"$eq"} && c.ops["$eq"].Scalar? && c.ops["$eq"].value.Str?
  }

  predicate IsIn(c: Cond) {
    c.Operators? && c.ops.Keys == {"$in"} && c.ops["$in"].List?
  }

  function RewriteCond(s: Schema, path: Path, cond: Cond): Result<Cond, FilterError>
    requires path in s.protection
  {
    var p := s.protection[path];
    if cond == Bare(Null) then Success(cond)
    else if !Masks(p) then Failure(StrategyNotMask(path))
    else if cond.Bare? && cond.value.Str? then Success(Bare(MaskScalar(s.crypto, p, cond.value)))
    else if IsEq(cond) then Success(Operators(map["$eq" := Operand.Scalar(MaskScalar(s.crypto, p, cond.ops["$eq"].value))]))
    else if IsIn(cond) then
      if Null in cond.ops["$in"].values then Failure(NullInList(path))
      else Success(Operators(map["$in" := List(MaskScalars(s.crypto, p, cond.ops["$in"].values))]))
    else Failure(UnsupportedOperator(path))
  }

  function RewritePath(s: Schema, path: Path, fields: map<Path, Cond>): Result<map<Path, Cond>, FilterError>
    requires path in s.protection
  {
    if path !in fields then Success(fields)
    else
      match RewriteCond(s, path, fields[path])
      case Success(cond) => Success(fields[path := cond])
      case Failure(e) => Failure(e)
  }

  function RewriteFields(s: Schema, n: nat, fields: map<Path, Cond>): Result<map<Path, Cond>, FilterError>
    requires n <= |s.paths| && forall path | path in s.paths :: path in s.protection
  {
    if n == 0 then Success(fields)
    else
      match RewriteFields(s, n - 1, fields)
      case Success(done) => RewritePath(s, s.paths[n - 1], done)
      case Failure(e) => Failure(e)
  }

  function RewriteList(s: Schema, fs: seq<Filter>): (r: Result<seq<Filter>, FilterError>)
    requires forall path | path in s.paths :: path in s.protection
    ensures r.Success? ==> |r.value| == |fs|
    decreases fs, 0
  {
    if fs == [] then Success([])
    else
      match RewriteList(s, fs[..|fs| - 1])
      case Failure(e) => Failure(e)
      case Success(done) =>
        match Rewrite(s, fs[|fs| - 1])
        case Failure(e) => Failure(e)
        case Success(last) => Success(done + [last])
  }

  function RewriteBranches(s: Schema, b: Branches): Result<Branches, FilterError>
    requires forall path | path in s.paths :: path in s.protection
    decreases b, 1
  {
    match b
    case Absent => Success(Absent)
    case Branches(list) =>
      match RewriteList(s, list)
      case Success(done) => Success(Branches.Branches(done))
      case Failure(e) => Failure(e)
  }

  // Branches first, `$or`, `$and`, `$nor` in this order, then the protected paths in turn; the first
  // failure is thrown.
  function Rewrite(s: Schema, f: Filter): Result<Filter, FilterError>
    requires forall path | path in s.paths :: path in s.protection
    decreases f, 2
  {
    match RewriteBranches(s, f.orBranches)
    case Failure(e) => Failure(e)
    case Success(ors) =>
      match RewriteBranches(s, f.andBranches)
      case Failure(e) => Failure(e)
      case Success(ands) =>
        match RewriteBranches(s, f.norBranches)
        case Failure(e) => Failure(e)
        case Success(nors) =>
          match RewriteFields(s, |s.paths|, f.fields)
          case Failure(e) => Failure(e)
          case Success(fields) => Success(Filter(ors, ands, nors, fields))
  }

  // ----- which filters are accepted ---------------------------------------------------------

  ghost predicate AcceptableCond(p: P.DataProtection, cond: Cond) {
    || cond == Bare(Null)
    || (&& P.ConfigFor(p, p.activeVersion).Some? && P.ConfigFor(p, p.activeVersion).value.strategy == P.Mask
        && match cond
           case Bare(value) => value.Str?
           case Operators(ops) =>
             || (exists a: string :: ops == map["$eq" := Operand.Scalar(Str(a))])
             || (ops.Keys == {"$in"} && ops["$in"].List? && Null !in ops["$in"].values))
  }

  ghost predicate AcceptableFields(s: Schema, fields: map<Path, Cond>)
    requires forall path | path in s.paths :: path in s.protection
  {
    forall path | path in s.paths && path in fields :: AcceptableCond(s.protection[path], fields[path])
  }

  ghost predicate Acceptable(s: Schema, f: Filter)
    requires forall path | path in s.paths :: path in s.protection
    decreases f
  {
    && (f.orBranches.Branches? ==> forall g | g in f.orBranches.list :: Acceptable(s, g))
    && (f.andBranches.Branches? ==> forall g | g in f.andBranches.list :: Acceptable(s, g))
    && (f.norBranches.Branches? ==> forall g | g in f.norBranches.list :: Acceptable(s, g))
    && AcceptableFields(s, f.fields)
  }

  lemma CondAcceptedIff(s: Schema, path: Path, cond: Cond)
    requires path in s.protection
    ensures RewriteCond(s, path, cond).Success? <==> AcceptableCond(s.protection[path], cond)
  {
    if IsEq(cond) {
      assert cond.ops == map["$eq" := Operand.Scalar(Str(cond.ops["$eq"].value.s))];
    }
  }

  // Why a condition on a protected path is rejected.
  ghost predicate Reason(p: P.DataProtection, cond: Cond, path: Path, e: FilterError) {
    match e
    case StrategyNotMask(at) =>
      at == path && cond != Bare(Null) && !exists config :: P.Resolved(p, p.activeVersion, Some(config)) && config.strategy == P.Mask
    case UnsupportedOperator(at) =>
      && at == path
      && !(cond.Bare? && (cond.value.Null? || cond.value.Str?))
      && !(cond.Operators? && exists a: string :: cond.ops == map["$eq" := Operand.Scalar(Str(a))])
      && !(cond.Operators? && exists list: seq<Scalar> :: cond.ops == map["$in" := List(list)])
    case NullInList(at) =>
      at == path && cond.Operators? && exists list: seq<Scalar> :: cond.ops == map["$in" := List(list)] && Null in list
  }

  lemma CondRejected(s: Schema, path: Path, cond: Cond)
    requires path in s.protection && RewriteCond(s, path, cond).Failure?
    ensures Reason(s.protection[path], cond, path, RewriteCond(s, path, cond).error)
  {
    var p := s.protection[path];
    forall config | P.Resolved(p, p.activeVersion, Some(config)) ensures P.ConfigFor(p, p.activeVersion) == Some(config) {
      P.ResolvedIs(p, p.activeVersion, Some(config));
    }
    if IsIn(cond) {
      assert cond.ops == map["$in" := List(cond.ops["$in"].values)];
    }
  }

  // A condition on a path that stands in the filter or in one of its branches.
  ghost predicate Occurs(f: Filter, path: Path, cond: Cond)
    decreases f
  {
    || (path in f.fields && f.fields[path] == cond)
    || (f.orBranches.Branches? && exists g | g in f.orBranches.list :: Occurs(g, path, cond))
    || (f.andBranches.Branches? && exists g | g in f.andBranches.list :: Occurs(g, path, cond))
    || (f.norBranches.Branches? && exists g | g in f.norBranches.list :: Occurs(g, path, cond))
  }

  ghost predicate Blamed(s: Schema, f: Filter, e: FilterError)
    requires forall path | path in s.paths :: path in s.protection
  {
    exists path, cond | path in s.paths && Occurs(f, path, cond) :: Reason(s.protection[path], cond, path, e)
  }

  lemma {:induction false} FieldsRejected(s: Schema, n: nat, fields: map<Path, Cond>) returns (path: Path)
    requires ValidSchema(s) && n <= |s.paths| && RewriteFields(s, n, fields).Failure?
    ensures path in s.paths && path in fields && Reason(s.protection[path], fields[path], path, RewriteFields(s, n, fields).error)
  {
    hide RewriteFields, RewriteCond, Reason, P.Lawful, AcceptableCond;
    FieldsStep(s, n, fields);
    if RewriteFields(s, n - 1, fields).Failure? {
      path := FieldsRejected(s, n - 1, fields);
    } else {
      path := s.paths[n - 1];
      FieldsRewritten(s, n - 1, fields);
      DoneKeys(s, n - 1, fields, RewriteFields(s, n - 1, fields).value);
      DoneStep(s, n - 1, fields, RewriteFields(s, n - 1, fields).value);
      CondRejected(s, path, fields[path]);
    }
  }

  lemma {:induction false} ListRejected(s: Schema, fs: seq<Filter>) returns (f: Filter)
    requires ValidSchema(s) && RewriteList(s, fs).Failure?
    ensures f in fs && Blamed(s, f, RewriteList(s, fs).error)
    decreases fs, 0
  {
    hide Reason, Occurs, P.Lawful, RewriteBranches, RewriteFields;
    var front, last := fs[..|fs| - 1], fs[|fs| - 1];
    if RewriteList(s, front).Failure? {
      f := ListRejected(s, front);
      assert f in fs;
    } else {
      RejectedBecause(s, last);
      f := last;
    }
  }

  // A branch that is to blame puts the blame on the filter.
  lemma BranchBlamed(s: Schema, f: Filter, g: Filter, e: FilterError)
    requires ValidSchema(s) && Blamed(s, g, e)
    requires (f.orBranches.Branches? && g in f.orBranches.list) || (f.andBranches.Branches? && g in f.andBranches.list)
             || (f.norBranches.Branches? && g in f.norBranches.list)
    ensures Blamed(s, f, e)
  {
    hide Reason, P.Lawful;
    var path, cond :| path in s.paths && Occurs(g, path, cond) && Reason(s.protection[path], cond, path, e);
    assert Occurs(f, path, cond);
  }

  // Whoever is told why a filter was rejected finds, in it or in one of its branches, a condition on that
  // protected path of which it is true.
  lemma {:induction false} RejectedBecause(s: Schema, f: Filter)
    requires ValidSchema(s) && Rewrite(s, f).Failure?
    ensures Blamed(s, f, Rewrite(s, f).error)
    decreases f, 2
  {
    hide Reason, Occurs, P.Lawful, RewriteFields, Blamed;
    BranchRejected(s, f, f.orBranches);
    BranchRejected(s, f, f.andBranches);
    BranchRejected(s, f, f.norBranches);
    FieldBlamed(s, f);
  }

  lemma {:induction false} FieldBlamed(s: Schema, f: Filter)
    requires ValidSchema(s)
    ensures RewriteFields(s, |s.paths|, f.fields).Failure? ==> Blamed(s, f, RewriteFields(s, |s.paths|, f.fields).error)
  {
    hide Reason, RewriteFields, P.Lawful;
    if RewriteFields(s, |s.paths|, f.fields).Failure? {
      var path := FieldsRejected(s, |s.paths|, f.fields);
      assert Occurs(f, path, f.fields[path]);
    }
  }

  lemma {:induction false} BranchRejected(s: Schema, f: Filter, b: Branches)
    requires ValidSchema(s) && (b == f.orBranches || b == f.andBranches || b == f.norBranches)
    ensures RewriteBranches(s, b).Failure? ==> Blamed(s, f, RewriteBranches(s, b).error)
    decreases b, 1
  {
    hide Reason, Occurs, P.Lawful, RewriteList, Blamed;
    if b.Branches? && RewriteBranches(s, b).Failure? {
      var g := ListRejected(s, b.list);
      BranchBlamed(s, f, g, RewriteBranches(s, b).error);
    }
  }

  ghost predicate AcceptedUpTo(s: Schema, n: nat, fields: map<Path, Cond>)
    requires n <= |s.paths| && forall path | path in s.paths :: path in s.protection
  {
    forall i | 0 <= i < n && s.paths[i] in fields :: AcceptableCond(s.protection[s.paths[i]], fields[s.paths[i]])
  }

  // The first n protected paths are rewritten, the other fields are as they were.
  ghost predicate DoneUpTo(s: Schema, n: nat, fields: map<Path, Cond>, done: map<Path, Cond>)
    requires n <= |s.paths| && forall path | path in s.paths :: path in s.protection
  {
    && done.Keys == fields.Keys
    && (forall path | path in fields && path !in s.paths[..n] :: done[path] == fields[path])
    && (forall path | path in fields && path in s.paths[..n] :: Success(done[path]) == RewriteCond(s, path, fields[path]))
  }

  lemma NextPath(s: Schema, n: nat)
    requires ValidSchema(s) && n < |s.paths|
    ensures s.paths[n] !in s.paths[..n] && forall path :: path in s.paths[..n + 1] <==> path in s.paths[..n] || path == s.paths[n]
  {
    assert s.paths[..n + 1] == s.paths[..n] + [s.paths[n]];
  }

  lemma DoneStep(s: Schema, n: nat, fields: map<Path, Cond>, done: map<Path, Cond>)
    requires ValidSchema(s) && n < |s.paths| && DoneUpTo(s, n, fields, done)
    ensures var path := s.paths[n];
            && (path !in fields ==> DoneUpTo(s, n + 1, fields, done))
            && (path in fields ==> done[path] == fields[path])
            && (path in fields && RewriteCond(s, path, fields[path]).Success? ==>
                  DoneUpTo(s, n + 1, fields, done[path := RewriteCond(s, path, fields[path]).value]))
  {
    NextPath(s, n);
    hide RewriteCond, ValidSchema;
  }

  lemma FieldsStep(s: Schema, n: nat, fields: map<Path, Cond>)
    requires n <= |s.paths| && forall path | path in s.paths :: path in s.protection
    ensures n == 0 ==> RewriteFields(s, n, fields) == Success(fields)
    ensures n > 0 ==> RewriteFields(s, n, fields) ==
                        match RewriteFields(s, n - 1, fields)
                        case Success(done) => RewritePath(s, s.paths[n - 1], done)
                        case Failure(e) => Failure(e)
  {
  }

  lemma NothingRewritten(s: Schema, fields: map<Path, Cond>)
    requires ValidSchema(s)
    ensures AcceptedUpTo(s, 0, fields) && DoneUpTo(s, 0, fields, fields)
  {
  }

  lemma AcceptedStep(s: Schema, n: nat, fields: map<Path, Cond>)
    requires ValidSchema(s) && n < |s.paths|
    ensures AcceptedUpTo(s, n + 1, fields) <==>
              AcceptedUpTo(s, n, fields) && (s.paths[n] in fields ==> AcceptableCond(s.protection[s.paths[n]], fields[s.paths[n]]))
  {
    hide AcceptableCond;
  }

  // One more path over what the first n of them left.
  lemma PathStep(s: Schema, n: nat, fields: map<Path, Cond>, done: map<Path, Cond>)
    requires ValidSchema(s) && n < |s.paths| && DoneUpTo(s, n, fields, done)
    ensures var path := s.paths[n];
            var r := RewritePath(s, path, done);
            && (r.Success? <==> (path in fields ==> AcceptableCond(s.protection[path], fields[path])))
            && (r.Success? ==> DoneUpTo(s, n + 1, fields, r.value))
  {
    hide RewriteCond, AcceptableCond, DoneUpTo;
    var path := s.paths[n];
    DoneKeys(s, n, fields, done);
    DoneStep(s, n, fields, done);
    if path in fields {
      CondAcceptedIff(s, path, fields[path]);
    }
  }

  // Field by field, what a successful rewriting gives; the first n protected paths are done.
  lemma {:induction false} FieldsRewritten(s: Schema, n: nat, fields: map<Path, Cond>)
    requires ValidSchema(s) && n <= |s.paths|
    ensures RewriteFields(s, n, fields).Success? <==> AcceptedUpTo(s, n, fields)
    ensures RewriteFields(s, n, fields).Success? ==> DoneUpTo(s, n, fields, RewriteFields(s, n, fields).value)
  {
    hide RewriteFields, RewritePath, AcceptedUpTo, DoneUpTo, AcceptableCond, P.Lawful;
    FieldsStep(s, n, fields);
    if n > 0 {
      FieldsRewritten(s, n - 1, fields);
      AcceptedStep(s, n - 1, fields);
      if RewriteFields(s, n - 1, fields).Success? {
        PathStep(s, n - 1, fields, RewriteFields(s, n - 1, fields).value);
      }
    } else {
      NothingRewritten(s, fields);
    }
  }

  lemma DoneKeys(s: Schema, n: nat, fields: map<Path, Cond>, done: map<Path, Cond>)
    requires n <= |s.paths| && (forall path | path in s.paths :: path in s.protection) && DoneUpTo(s, n, fields, done)
    ensures forall path :: path in done <==> path in fields
  {
  }

  lemma {:induction false} ListRewritten(s: Schema, fs: seq<Filter>)
    requires ValidSchema(s)
    ensures RewriteList(s, fs).Success? <==> forall f | f in fs :: Acceptable(s, f)
    ensures RewriteList(s, fs).Success? ==> forall i | 0 <= i < |fs| :: Rewrite(s, fs[i]) == Success(RewriteList(s, fs).value[i])
    decreases fs, 0
  {
    if fs != [] {
      var front, last := fs[..|fs| - 1], fs[|fs| - 1];
      ListRewritten(s, front);
      AcceptedIff(s, last);
      assert forall f | f in front :: f in fs;
      assert forall f | f in fs :: f in front || f == last;
    }
  }

  lemma {:induction false} BranchesRewritten(s: Schema, b: Branches)
    requires ValidSchema(s)
    ensures RewriteBranches(s, b).Success? <==> (b.Branches? ==> forall f | f in b.list :: Acceptable(s, f))
    decreases b, 1
  {
    hide Acceptable, RewriteList, ValidSchema;
    if b.Branches? {
      ListRewritten(s, b.list);
    }
  }

  lemma {:induction false} AllFieldsRewritten(s: Schema, fields: map<Path, Cond>)
    requires ValidSchema(s)
    ensures RewriteFields(s, |s.paths|, fields).Success? <==> AcceptableFields(s, fields)
  {
    hide RewriteFields, AcceptableCond;
    FieldsRewritten(s, |s.paths|, fields);
    assert forall path | path in s.paths :: exists i :: 0 <= i < |s.paths| && s.paths[i] == path;
  }

  // A filter is rewritten, and not rejected, exactly when every condition on a protected path is null
  // or an equality, `$eq` or null-free `$in` on a path that masks; branches included.
  lemma {:induction false} AcceptedIff(s: Schema, f: Filter)
    requires ValidSchema(s)
    ensures Rewrite(s, f).Success? <==> Acceptable(s, f)
    decreases f, 2
  {
    hide RewriteBranches, RewriteFields, AcceptableFields, ValidSchema;
    BranchesRewritten(s, f.orBranches);
    BranchesRewritten(s, f.andBranches);
    BranchesRewritten(s, f.norBranches);
    AllFieldsRewritten(s, f.fields);
  }

  // ----- documents as they are stored -------------------------------------------------------

  predicate Falsy(e: Scalar) {
    e == Null || e == Bool(false) || e == Num(0) || e == Str("")
  }

  // The setter on one value. `sealed` stands for hash and encrypt, of which nothing is assumed; None
  // means that the field is dropped.
  function ProtectValue(s: Schema, sealed: (Path, string) -> string, path: Path, v: Value): Option<Value>
    requires path in s.protection
  {
    var p := s.protection[path];
    match v
    case Single(e) =>
      if Falsy(e) then None
      else if Masks(p) then Some(Single(MaskScalar(s.crypto, p, e)))
      else if e.Str? then Some(Single(Str(sealed(path, e.s))))
      else Some(v)
    case Strings(items) =>
      if Masks(p)
      then Some(Strings(P.MaskWith(s.crypto, P.ConfigFor(p, p.activeVersion).value.settings, p.activeVersion, P.Many(items)).texts))
      else Some(Strings(seq(|items|, i requires 0 <= i < |items| => sealed(path, items[i]))))
  }

  function Protect(s: Schema, sealed: (Path, string) -> string, d: Document): Document
    requires forall path | path in s.paths :: path in s.protection
  {
    map path | path in d && (path in s.paths ==> ProtectValue(s, sealed, path, d[path]).Some?) ::
      if path in s.paths then ProtectValue(s, sealed, path, d[path]).value else d[path]
  }

  function TextValue(t: P.Text): Value {
    match t
    case One(x) => Single(Str(x))
    case Many(xs) => Strings(xs)
  }

  // null, false, 0 and "" are dropped; of a text that is not masked each string is sealed, a masked one is
  // stored as the setter has it; other values are kept.
  lemma ProtectValueIs(s: Schema, sealed: (Path, string) -> string, path: Path, v: Value)
    requires ValidSchema(s) && path in s.paths
    ensures var stored := ProtectValue(s, sealed, path, v);
            match v
            case Single(e) =>
              && (stored.None? <==> e in {Null, Bool(false), Num(0), Str("")})
              && (stored.Some? && !e.Str? ==> stored == Some(v))
              && (stored.Some? && e.Str? && !Masks(s.protection[path]) ==> stored == Some(Single(Str(sealed(path, e.s)))))
            case Strings(items) =>
              && stored.Some? && stored.value.Strings? && |stored.value.items| == |items|
              && (!Masks(s.protection[path]) ==> forall k | 0 <= k < |items| :: stored.value.items[k] == sealed(path, items[k]))
  {
    hide P.Lawful;
  }

  lemma MaskedAsSet(s: Schema, sealed: (Path, string) -> string, path: Path, t: P.Text, bits: nat)
    requires ValidSchema(s) && path in s.paths && Masks(s.protection[path]) && t != P.One("")
    ensures var stored := P.Setter(s.crypto, s.protection[path], bits, t);
            && stored.Success? && stored.value.Some?
            && ProtectValue(s, sealed, path, TextValue(t)) == Some(TextValue(stored.value.value))
  {
    hide P.Lawful;
  }

  // ----- arrays as they are stored ----------------------------------------------------------

  function MaskOf(c: P.Crypto, p: P.DataProtection, a: string): string
    requires Masks(p)
  {
    c.mask(P.ConfigFor(p, p.activeVersion).value.settings, p.activeVersion, a)
  }

  function StoredItems(c: P.Crypto, p: P.DataProtection, items: seq<string>): seq<string>
    requires Masks(p)
  {
    P.MaskWith(c, P.ConfigFor(p, p.activeVersion).value.settings, p.activeVersion, P.Many(items)).texts
  }

  predicate LooksPrefixed(p: P.DataProtection, stored: string) {
    p.activeVersion + ":" <= stored
  }

  // Behind the first element nothing is stored that looks as if it carried the version prefix.
  predicate NoLookalikes(c: P.Crypto, p: P.DataProtection, items: seq<string>)
    requires Masks(p)
  {
    forall i | 1 <= i < |StoredItems(c, p, items)| :: !LooksPrefixed(p, StoredItems(c, p, items)[i])
  }

  // The array has no more than one non-empty string to look for, and it comes first.
  predicate Uniform(c: P.Crypto, p: P.DataProtection, items: seq<string>)
    requires Masks(p)
  {
    forall i | 1 <= i < |items| :: items[i] == items[0] || (items[0] != "" && items[i] == "" && MaskOf(c, p, "") == "")
  }

  ghost predicate PlainLooking(s: Schema, d: Document)
    requires forall path | path in s.paths :: path in s.protection
  {
    forall path | path in s.paths && path in d && d[path].Strings? && Masks(s.protection[path]) ::
      NoLookalikes(s.crypto, s.protection[path], d[path].items)
  }

  ghost predicate UniformFields(s: Schema, d: Document)
    requires forall path | path in s.paths :: path in s.protection
  {
    forall path | path in s.paths && path in d && d[path].Strings? && Masks(s.protection[path]) ::
      Uniform(s.crypto, s.protection[path], d[path].items)
  }

  // No protected field holds "", 0 or false, which the setter drops although they are not null.
  ghost predicate NothingDropped(s: Schema, d: Document) {
    forall path | path in s.paths && path in d && d[path].Single? :: d[path].scalar !in {Bool(false), Num(0), Str("")}
  }

  // ----- meaning ----------------------------------------------------------------------------

  lemma MaskedFacts(c: P.Crypto, p: P.DataProtection, a: string, b: string)
    requires P.Lawful(c) && Masks(p) && P.VersionTag(p.activeVersion)
    ensures Masked(c, p, a) == "" <==> a == ""
    ensures Masked(c, p, a) == Masked(c, p, b) <==> a == b
  {
    if a != "" && b != "" {
      P.MaskedEqualIff(c, P.ConfigFor(p, p.activeVersion).value.settings, p.activeVersion, a, b);
    }
  }

  // The version prefix goes to the first element alone; an array that starts with "" is stored as it is.
  lemma StoredAre(c: P.Crypto, p: P.DataProtection, items: seq<string>)
    requires P.Lawful(c) && Masks(p)
    ensures items == [] || items[0] == "" ==> StoredItems(c, p, items) == items
    ensures items != [] && items[0] != "" ==>
              var stored := StoredItems(c, p, items);
              && |stored| == |items| && stored[0] == Masked(c, p, items[0])
              && forall i | 1 <= i < |items| :: stored[i] == MaskOf(c, p, items[i])
  {
  }

  lemma MaskedLooksPrefixed(c: P.Crypto, p: P.DataProtection, a: string)
    requires P.Lawful(c) && Masks(p) && P.VersionTag(p.activeVersion) && a != ""
    ensures LooksPrefixed(p, Masked(c, p, a)) && MaskOf(c, p, a) != ""
  {
    assert Masked(c, p, a)[..|p.activeVersion| + 1] == p.activeVersion + ":";
  }

  // Of the stored elements the first alone can be what a non-empty string is rewritten to.
  lemma OnlyFirst(c: P.Crypto, p: P.DataProtection, items: seq<string>, wanted: string)
    requires P.Lawful(c) && Masks(p) && P.VersionTag(p.activeVersion) && NoLookalikes(c, p, items) && wanted != ""
    ensures Masked(c, p, wanted) in StoredItems(c, p, items) <==> items != [] && wanted == items[0]
  {
    hide P.Lawful, P.MaskWith, StoredItems, Masked, MaskOf;
    MaskedLooksPrefixed(c, p, wanted);
    StoredAre(c, p, items);
    var stored, w := StoredItems(c, p, items), Masked(c, p, wanted);
    if items != [] {
      MaskedFacts(c, p, wanted, items[0]);
      if w in stored {
        var i :| 0 <= i < |stored| && stored[i] == w;
        assert i == 0;
      }
    }
  }

  lemma EmptyStored(c: P.Crypto, p: P.DataProtection, items: seq<string>)
    requires P.Lawful(c) && Masks(p) && P.VersionTag(p.activeVersion)
    ensures "" in StoredItems(c, p, items) <==> "" in items && (items[0] == "" || MaskOf(c, p, "") == "")
  {
    hide P.Lawful, P.MaskWith, StoredItems, Masked, MaskOf;
    StoredAre(c, p, items);
    if items != [] && items[0] != "" {
      MaskedFacts(c, p, items[0], "");
      var stored := StoredItems(c, p, items);
      forall i | 1 <= i < |items| ensures stored[i] == "" <==> items[i] == "" && MaskOf(c, p, "") == "" {
        if items[i] != "" {
          MaskedLooksPrefixed(c, p, items[i]);
        }
      }
      if "" in items && MaskOf(c, p, "") == "" {
        var i :| 0 <= i < |items| && items[i] == "";
        assert stored[i] == "";
      }
    }
  }

  // An array is found by the rewritten string exactly when it is found by the plain one: for every string
  // if it is uniform, and not for some of its own elements otherwise.
  lemma ArrayKept(c: P.Crypto, p: P.DataProtection, items: seq<string>, wanted: string)
    requires P.Lawful(c) && Masks(p) && P.VersionTag(p.activeVersion)
    requires NoLookalikes(c, p, items) && Uniform(c, p, items)
    ensures Masked(c, p, wanted) in StoredItems(c, p, items) <==> wanted in items
  {
    hide P.Lawful, P.MaskWith, StoredItems, Masked, MaskOf, NoLookalikes;
    if wanted != "" {
      OnlyFirst(c, p, items, wanted);
    } else {
      MaskedFacts(c, p, "", "");
      EmptyStored(c, p, items);
    }
  }

  lemma ArrayMissed(c: P.Crypto, p: P.DataProtection, items: seq<string>) returns (wanted: string)
    requires P.Lawful(c) && Masks(p) && P.VersionTag(p.activeVersion)
    requires NoLookalikes(c, p, items) && !Uniform(c, p, items)
    ensures wanted in items && Masked(c, p, wanted) !in StoredItems(c, p, items)
  {
    hide P.Lawful, P.MaskWith, StoredItems, Masked, MaskOf, NoLookalikes;
    var i :| 1 <= i < |items| && items[i] != items[0] && !(items[0] != "" && items[i] == "" && MaskOf(c, p, "") == "");
    wanted := items[i];
    if wanted != "" {
      OnlyFirst(c, p, items, wanted);
    } else {
      MaskedFacts(c, p, "", "");
      EmptyStored(c, p, items);
    }
  }

  lemma EqualityKept(s: Schema, sealed: (Path, string) -> string, path: Path, wanted: Scalar, d: Document)
    requires ValidSchema(s) && path in s.paths && PlainLooking(s, d) && UniformFields(s, d) && NothingDropped(s, d)
    requires Masks(s.protection[path]) && wanted != Null
    ensures Equals(MaskScalar(s.crypto, s.protection[path], wanted), ValueAt(Protect(s, sealed, d), path))
            <==> Equals(wanted, ValueAt(d, path))
  {
    if path in d && wanted.Str? {
      if d[path].Strings? {
        ArrayKept(s.crypto, s.protection[path], d[path].items, wanted.s);
      } else if d[path].scalar.Str? {
        MaskedFacts(s.crypto, s.protection[path], wanted.s, d[path].scalar.s);
      }
    }
  }

  lemma NullKept(s: Schema, sealed: (Path, string) -> string, path: Path, d: Document)
    requires ValidSchema(s) && path in s.paths && PlainLooking(s, d) && UniformFields(s, d) && NothingDropped(s, d)
    ensures Equals(Null, ValueAt(Protect(s, sealed, d), path)) <==> Equals(Null, ValueAt(d, path))
  {
  }

  lemma CondKept(s: Schema, sealed: (Path, string) -> string, other: OtherOps, path: Path, cond: Cond, d: Document)
    requires ValidSchema(s) && path in s.paths && PlainLooking(s, d) && UniformFields(s, d) && NothingDropped(s, d)
    requires RewriteCond(s, path, cond).Success?
    ensures CondHolds(other, RewriteCond(s, path, cond).value, ValueAt(Protect(s, sealed, d), path))
            <==> CondHolds(other, cond, ValueAt(d, path))
  {
    var after, before := ValueAt(Protect(s, sealed, d), path), ValueAt(d, path);
    if cond == Bare(Null) {
      NullKept(s, sealed, path, d);
    } else if cond.Bare? {
      EqualityKept(s, sealed, path, cond.value, d);
    } else if IsEq(cond) {
      EqualityKept(s, sealed, path, cond.ops["$eq"].value, d);
      SingleOperator(other, cond, "$eq", before);
      SingleOperator(other, RewriteCond(s, path, cond).value, "$eq", after);
    } else {
      var values := cond.ops["$in"].values;
      var masked := MaskScalars(s.crypto, s.protection[path], values);
      forall i | 0 <= i < |values| ensures Equals(masked[i], after) <==> Equals(values[i], before) {
        EqualityKept(s, sealed, path, values[i], d);
      }
      SingleOperator(other, cond, "$in", before);
      SingleOperator(other, RewriteCond(s, path, cond).value, "$in", after);
    }
  }

  lemma SingleOperator(other: OtherOps, cond: Cond, op: string, v: Option<Value>)
    requires cond.Operators? && cond.ops.Keys == {op}
    ensures CondHolds(other, cond, v) <==> OperatorHolds(other, op, cond.ops[op], v)
  {
  }

  lemma {:induction false} FieldsKept(s: Schema, sealed: (Path, string) -> string, other: OtherOps, fields: map<Path, Cond>, d: Document)
    requires ValidSchema(s) && PlainLooking(s, d) && UniformFields(s, d) && NothingDropped(s, d)
    requires RewriteFields(s, |s.paths|, fields).Success?
    ensures FieldsHold(other, RewriteFields(s, |s.paths|, fields).value, Protect(s, sealed, d))
            <==> FieldsHold(other, fields, d)
  {
    FieldsRewritten(s, |s.paths|, fields);
    assert s.paths[..|s.paths|] == s.paths;
    var done := RewriteFields(s, |s.paths|, fields).value;
    hide RewriteFields, CondHolds, RewriteCond, ProtectValue;
    forall path | path in fields
      ensures CondHolds(other, done[path], ValueAt(Protect(s, sealed, d), path)) <==> CondHolds(other, fields[path], ValueAt(d, path))
    {
      if path in s.paths {
        CondKept(s, sealed, other, path, fields[path], d);
      } else {
        assert ValueAt(Protect(s, sealed, d), path) == ValueAt(d, path);
      }
    }
  }

  lemma {:induction false} ListKept(s: Schema, sealed: (Path, string) -> string, other: OtherOps, fs: seq<Filter>, d: Document)
    requires ValidSchema(s) && PlainLooking(s, d) && UniformFields(s, d) && NothingDropped(s, d) && RewriteList(s, fs).Success?
    ensures forall i | 0 <= i < |fs| ::
              Matches(other, RewriteList(s, fs).value[i], Protect(s, sealed, d)) <==> Matches(other, fs[i], d)
    decreases fs, 0
  {
    hide Matches, RewriteFields;
    ListRewritten(s, fs);
    forall i | 0 <= i < |fs|
      ensures Matches(other, RewriteList(s, fs).value[i], Protect(s, sealed, d)) <==> Matches(other, fs[i], d)
    {
      MeaningKept(s, sealed, other, fs[i], d);
    }
  }

  // The main result.
  lemma {:induction false} MeaningKept(s: Schema, sealed: (Path, string) -> string, other: OtherOps, f: Filter, d: Document)
    requires ValidSchema(s) && PlainLooking(s, d) && UniformFields(s, d) && NothingDropped(s, d)
    requires Rewrite(s, f).Success?
    ensures Matches(other, Rewrite(s, f).value, Protect(s, sealed, d)) <==> Matches(other, f, d)
    decreases f, 1
  {
    var g := Rewrite(s, f).value;
    FieldsKept(s, sealed, other, f.fields, d);
    BranchesKept(s, sealed, other, f.orBranches, d);
    BranchesKept(s, sealed, other, f.andBranches, d);
    BranchesKept(s, sealed, other, f.norBranches, d);
  }

  lemma {:induction false} BranchesKept(s: Schema, sealed: (Path, string) -> string, other: OtherOps, b: Branches, d: Document)
    requires ValidSchema(s) && PlainLooking(s, d) && UniformFields(s, d) && NothingDropped(s, d)
    requires RewriteBranches(s, b).Success?
    ensures RewriteBranches(s, b).value.Branches? <==> b.Branches?
    ensures b.Branches? ==>
              var c := RewriteBranches(s, b).value;
              && ((exists g | g in c.list :: Matches(other, g, Protect(s, sealed, d))) <==> (exists g | g in b.list :: Matches(other, g, d)))
              && ((forall g | g in c.list :: Matches(other, g, Protect(s, sealed, d))) <==> (forall g | g in b.list :: Matches(other, g, d)))
    decreases b, 0
  {
    if b.Branches? {
      ListKept(s, sealed, other, b.list, d);
      SameAnswers(other, b.list, d, RewriteBranches(s, b).value.list, Protect(s, sealed, d));
    }
  }

  // Two lists of filters that answer alike, one by one, answer alike under $or, $and and $nor.
  lemma SameAnswers(other: OtherOps, fs: seq<Filter>, d: Document, gs: seq<Filter>, e: Document)
    requires |fs| == |gs| && forall i | 0 <= i < |fs| :: Matches(other, gs[i], e) <==> Matches(other, fs[i], d)
    ensures (exists g | g in gs :: Matches(other, g, e)) <==> (exists f | f in fs :: Matches(other, f, d))
    ensures (forall g | g in gs :: Matches(other, g, e)) <==> (forall f | f in fs :: Matches(other, f, d))
  {
    hide Matches;
    if f :| f in fs && Matches(other, f, d) {
      var i :| 0 <= i < |fs| && fs[i] == f;
      assert gs[i] in gs;
    }
    if g :| g in gs && Matches(other, g, e) {
      var i :| 0 <= i < |gs| && gs[i] == g;
      assert fs[i] in fs;
    }
    if f :| f in fs && !Matches(other, f, d) {
      var i :| 0 <= i < |fs| && fs[i] == f;
      assert gs[i] in gs;
    }
    if g :| g in gs && !Matches(other, g, e) {
      var i :| 0 <= i < |gs| && gs[i] == g;
      assert fs[i] in fs;
    }
  }

  // ----- the condition is exact -------------------------------------------------------------

  // Every accepted filter keeps its answer on this document.
  ghost predicate AllFiltersKept(s: Schema, sealed: (Path, string) -> string, other: OtherOps, d: Document)
    requires forall path | path in s.paths :: path in s.protection
  {
    forall f | Rewrite(s, f).Success? ::
      Matches(other, Rewrite(s, f).value, Protect(s, sealed, d)) <==> Matches(other, f, d)
  }

  // A dropped value turns up under `{ path: null }`, which never matched it in plain.
  lemma DroppedBreaksNull(s: Schema, sealed: (Path, string) -> string, other: OtherOps, d: Document, path: Path) returns (f: Filter)
    requires ValidSchema(s) && path in s.paths && path in d && d[path].Single?
    requires d[path].scalar in {Bool(false), Num(0), Str("")}
    ensures Rewrite(s, f) == Success(f)
    ensures Matches(other, f, Protect(s, sealed, d)) && !Matches(other, f, d)
  {
    f := Filter(Absent, Absent, Absent, map[path := Bare(Null)]);
    AcceptedIff(s, f);
    FieldsRewritten(s, |s.paths|, f.fields);
    assert s.paths[..|s.paths|] == s.paths;
    assert Rewrite(s, f).value.fields == f.fields;
  }

  // An array that is not uniform has an element by which it is no longer found.
  lemma NotUniformIsMissed(s: Schema, sealed: (Path, string) -> string, other: OtherOps, d: Document, path: Path)
    returns (f: Filter)
    requires ValidSchema(s) && PlainLooking(s, d) && path in s.paths && path in d && d[path].Strings?
    requires Masks(s.protection[path]) && !Uniform(s.crypto, s.protection[path], d[path].items)
    ensures Rewrite(s, f).Success?
    ensures Matches(other, f, d) && !Matches(other, Rewrite(s, f).value, Protect(s, sealed, d))
  {
    var p, items := s.protection[path], d[path].items;
    var wanted := ArrayMissed(s.crypto, p, items);
    f := Filter(Absent, Absent, Absent, map[path := Bare(Str(wanted))]);
    AcceptedIff(s, f);
    FieldsRewritten(s, |s.paths|, f.fields);
    assert s.paths[..|s.paths|] == s.paths;
    hide RewriteFields, AcceptableFields, P.MaskWith, Masked, ValidSchema;
    assert Rewrite(s, f).value.fields[path] == Bare(Str(Masked(s.crypto, p, wanted)));
  }

  // All accepted filters keep their meaning on a document if and only if no protected field holds "", 0
  // or false, and every masked array is uniform.
  lemma MeaningKeptIff(s: Schema, sealed: (Path, string) -> string, other: OtherOps, d: Document)
    requires ValidSchema(s) && PlainLooking(s, d)
    ensures AllFiltersKept(s, sealed, other, d) <==> NothingDropped(s, d) && UniformFields(s, d)
  {
    hide Uniform, NoLookalikes, Matches, Rewrite;
    if NothingDropped(s, d) && UniformFields(s, d) {
      forall f | Rewrite(s, f).Success?
        ensures Matches(other, Rewrite(s, f).value, Protect(s, sealed, d)) <==> Matches(other, f, d)
      {
        MeaningKept(s, sealed, other, f, d);
      }
    } else if !NothingDropped(s, d) {
      var path :| path in s.paths && path in d && d[path].Single? && d[path].scalar in {Bool(false), Num(0), Str("")};
      var f := DroppedBreaksNull(s, sealed, other, d, path);
      assert Rewrite(s, f).Success?;
    } else {
      var path :| path in s.paths && path in d && d[path].Strings? && Masks(s.protection[path]) &&
                  !Uniform(s.crypto, s.protection[path], d[path].items);
      var f := NotUniformIsMissed(s, sealed, other, d, path);
      assert Rewrite(s, f).Success?;
    }
  }

  // So it is with every array of two different strings: only the first is stored with the version prefix,
  // and an equality on the other is rewritten to something that is not stored.
  lemma {:induction false} ArrayElementNotFound(s: Schema, sealed: (Path, string) -> string, other: OtherOps, path: Path, a: string, b: string)
    requires ValidSchema(s) && path in s.paths && Masks(s.protection[path]) && a != "" && b != "" && a != b
    ensures var f := Filter(Absent, Absent, Absent, map[path := Bare(Str(b))]);
            var d := map[path := Strings([a, b])];
            Matches(other, f, d) && Rewrite(s, f).Success? &&
            !Matches(other, Rewrite(s, f).value, Protect(s, sealed, d))
  {
    var f := Filter(Absent, Absent, Absent, map[path := Bare(Str(b))]);
    var d: Document := map[path := Strings([a, b])];
    var p := s.protection[path];
    var settings := P.ConfigFor(p, p.activeVersion).value.settings;
    AcceptedIff(s, f);
    FieldsRewritten(s, |s.paths|, f.fields);
    assert s.paths[..|s.paths|] == s.paths;
    MaskedFacts(s.crypto, p, a, b);
    var mb := s.crypto.mask(settings, p.activeVersion, b);
    var stored := [Masked(s.crypto, p, a), mb];
    var masked := P.MaskWith(s.crypto, settings, p.activeVersion, P.Many([a, b])).texts;
    assert |masked| == 2 && masked[0] == stored[0] && masked[1] == mb;
    assert masked == stored;
    assert ProtectValue(s, sealed, path, d[path]) == Some(Strings(stored));
    assert |Masked(s.crypto, p, b)| > |mb|;
    assert Masked(s.crypto, p, b) !in stored;
    assert Rewrite(s, f).value.fields[path] == Bare(Str(Masked(s.crypto, p, b)));
  }
}
