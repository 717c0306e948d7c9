// The shallow path transform as a function on trees, and what it does at every single place.

module PathTransform {
  import opened Prelude
  import opened JsTree

  datatype Segment = Star | Field(key: Key)

  // A dotted path, split, without its trailing `*`.
  type Path = seq<Segment>

  // What becomes of the value a path reaches: replaced, deleted (an `undefined` result), or left for
  // a promise to settle later.
  datatype Effect = Put(value: Node) | Drop | Keep

  predicate IsIndex(s: Segment) {
    s.Field? && s.key.Index?
  }

  function Written(v: Node, k: Key, e: Effect): Node
    requires v.Container?
  {
    match e
    case Put(x) => v.(fields := v.fields[k := x])
    case Drop => v.(fields := v.fields - {k})
    case Keep => v
  }

  // A null on the way is replaced by an empty container and the path ends there; Map entries keep
  // their null. Under `*` the next segment picks the container, else the current one.
  predicate Bends(kind: Kind, child: Node) {
    kind != MapObject && child.Null?
  }

  function BentTo(path: Path): Node
    requires path != []
  {
    Emptied(if path[0].Star? then |path| > 1 && IsIndex(path[1]) else IsIndex(path[0]))
  }

  function Below(kind: Kind, child: Node, path: Path, effect: Node -> Effect): Node
    requires path != []
    decreases path, 0
  {
    if Bends(kind, child) then BentTo(path) else Apply(child, path[1..], effect)
  }

  function Apply(v: Node, path: Path, effect: Node -> Effect): Node
    decreases path, 1
  {
    if path == [] || !v.Container? then v
    else
      match path[0]
      case Star => v.(fields := map k | k in v.fields :: Below(v.kind, v.fields[k], path, effect))
      case Field(k) =>
        if k !in v.fields then v
        else if |path| == 1 then Written(v, k, effect(v.fields[k]))
        else v.(fields := v.fields[k := Below(v.kind, v.fields[k], path, effect)])
  }

  // `key in src` on a truthy primitive is a TypeError.
  predicate Throws(v: Node, path: Path) {
    path != [] && !Falsy(v) &&
    match path[0]
    case Star => v.Container? && exists k | k in v.fields :: Throws(v.fields[k], path[1..])
    case Field(k) => v.Prim? || (k in v.fields && |path| > 1 && Throws(v.fields[k], path[1..]))
  }

  // ----- places that a path reaches ---------------------------------------------------------

  // The place goes along the path, as far as it goes.
  predicate Fits(path: Path, loc: Loc) {
    loc == [] || (path != [] && (path[0].Star? || path[0].key == loc[0]) && Fits(path[1..], loc[1..]))
  }

  // A place the transform is applied to.
  predicate HitAt(v: Node, path: Path, loc: Loc) {
    path != [] && path[|path| - 1].Field? && |loc| == |path| && Fits(path, loc) && Has(v, loc)
  }

  // A null on the way.
  predicate BentAt(v: Node, path: Path, loc: Loc) {
    && loc != [] && |loc| <= |path| && Fits(path, loc)
    && (|loc| < |path| || path[|loc| - 1].Star?)
    && View(v, loc) == SeenNull
    && Has(v, loc[..|loc| - 1]) && Get(v, loc[..|loc| - 1]).Container? && Get(v, loc[..|loc| - 1]).kind != MapObject
  }

  // A truthy primitive where the path wants to look up a property.
  predicate BlockedAt(v: Node, path: Path, loc: Loc) {
    && |loc| < |path| && Fits(path, loc) && path[|loc|].Field?
    && Has(v, loc) && Get(v, loc).Prim?
    && Get(v, loc).value != BoolOf(false) && Get(v, loc).value != NumberOf(0) && Get(v, loc).value != StringOf("")
  }

  lemma {:induction false} HasHead(v: Node, loc: Loc)
    requires loc != []
    ensures Has(v, loc) <==> v.Container? && loc[0] in v.fields && Has(v.fields[loc[0]], loc[1..])
  {
  }

  // The transform throws exactly when some place blocks it.
  lemma {:induction false} ThrowsIff(v: Node, path: Path)
    ensures Throws(v, path) <==> exists loc :: BlockedAt(v, path, loc)
    decreases path
  {
    if loc :| BlockedAt(v, path, loc) {
      BlockedThrows(v, path, loc);
    }
    if Throws(v, path) {
      var loc := ThrowsBlocked(v, path);
    }
  }

  lemma {:induction false} BlockedThrows(v: Node, path: Path, loc: Loc)
    requires BlockedAt(v, path, loc)
    ensures Throws(v, path)
    decreases path
  {
    if loc != [] {
      assert path[1..][|loc| - 1] == path[|loc|];
      BlockedThrows(v.fields[loc[0]], path[1..], loc[1..]);
    }
  }

  lemma {:induction false} ThrowsBlocked(v: Node, path: Path) returns (loc: Loc)
    requires Throws(v, path)
    ensures BlockedAt(v, path, loc)
    decreases path
  {
    if v.Prim? {
      loc := [];
    } else {
      var k :| k in v.fields && Throws(v.fields[k], path[1..]) && (path[0].Star? || path[0].key == k);
      var rest := ThrowsBlocked(v.fields[k], path[1..]);
      loc := [k] + rest;
      assert loc[1..] == rest;
      assert path[1..][|rest|] == path[|loc|];
    }
  }

  // ----- place by place ---------------------------------------------------------------------

  function After(e: Effect, rest: Loc, before: Seen): Seen {
    match e
    case Put(x) => View(x, rest)
    case Drop => Absent
    case Keep => before
  }

  // What is to be seen at a place once the path has been applied.
  ghost predicate SeenAfter(v: Node, path: Path, effect: Node -> Effect, loc: Loc, seen: Seen) {
    if |loc| >= |path| && HitAt(v, path, loc[..|path|])
    then seen == After(effect(Get(v, loc[..|path|])), loc[|path|..], View(v, loc))
    else if BentAt(v, path, loc)
    then seen == Look(BentTo(path[|loc| - 1..]))
    else seen == View(v, loc)
  }

  lemma ViewHead(v: Node, loc: Loc)
    requires loc != []
    ensures View(v, loc) == if v.Container? && loc[0] in v.fields then View(v.fields[loc[0]], loc[1..]) else Absent
  {
  }

  // The head of a path and of a place that agree can be taken off both.
  lemma {:induction false} HitHead(v: Node, path: Path, loc: Loc)
    requires |path| > 1 && |loc| == |path| && v.Container? && loc[0] in v.fields
    requires path[0].Star? || path[0].key == loc[0]
    ensures HitAt(v, path, loc) <==> HitAt(v.fields[loc[0]], path[1..], loc[1..])
    ensures HitAt(v, path, loc) ==> Get(v, loc) == Get(v.fields[loc[0]], loc[1..])
  {
    assert path[1..][|path| - 2] == path[|path| - 1];
  }

  lemma BentHead(v: Node, path: Path, loc: Loc)
    requires |path| > 1 && |loc| > 1 && v.Container? && loc[0] in v.fields
    requires path[0].Star? || path[0].key == loc[0]
    ensures BentAt(v, path, loc) <==> BentAt(v.fields[loc[0]], path[1..], loc[1..])
  {
    var tail, rest, parent := path[1..], loc[1..], loc[..|loc| - 1];
    assert parent[1..] == rest[..|rest| - 1];
    if |loc| <= |path| {
      assert path[|loc| - 1] == tail[|rest| - 1];
    }
  }

  lemma SeenAfterHead(v: Node, path: Path, effect: Node -> Effect, loc: Loc, seen: Seen)
    requires |path| > 1 && loc != [] && v.Container? && loc[0] in v.fields
    requires path[0].Star? || path[0].key == loc[0]
    requires !Bends(v.kind, v.fields[loc[0]])
    requires SeenAfter(v.fields[loc[0]], path[1..], effect, loc[1..], seen)
    ensures SeenAfter(v, path, effect, loc, seen)
  {
    var child, rest, tail := v.fields[loc[0]], loc[1..], path[1..];
    ViewHead(v, loc);
    if |loc| >= |path| {
      var m := loc[..|path|];
      assert m[1..] == rest[..|tail|] && loc[|path|..] == rest[|tail|..];
      HitHead(v, path, m);
    }
    if rest == [] {
      NotBentHere(v, path, loc);
    } else {
      BentHead(v, path, loc);
      if |loc| <= |path| {
        assert path[|loc| - 1..] == tail[|rest| - 1..];
      }
    }
  }

  lemma NotBentHere(v: Node, path: Path, loc: Loc)
    requires |loc| == 1 && v.Container? && loc[0] in v.fields && !Bends(v.kind, v.fields[loc[0]])
    ensures !BentAt(v, path, loc)
  {
    assert loc[..0] == [];
    ViewHead(v, loc);
  }

  lemma BentHere(v: Node, path: Path, loc: Loc)
    requires |loc| == 1 && v.Container? && loc[0] in v.fields && Bends(v.kind, v.fields[loc[0]])
    requires path != [] && (path[0].Star? || (path[0].key == loc[0] && |path| > 1))
    ensures BentAt(v, path, loc)
  {
    assert loc[..0] == [];
    ViewHead(v, loc);
    assert Fits(path[1..], loc[1..]);
  }

  // Below a null, or off the path, there is nothing to hit or bend.
  lemma OffPath(v: Node, path: Path, loc: Loc)
    requires path == [] || loc == [] || !v.Container? || loc[0] !in v.fields || !(path[0].Star? || path[0].key == loc[0])
             || (|loc| > 1 && v.fields[loc[0]].Null?)
    ensures !BentAt(v, path, loc)
    ensures |loc| >= |path| && HitAt(v, path, loc[..|path|]) ==>
              |path| == 1 && loc != [] && v.Container? && loc[0] in v.fields && path[0] == Field(loc[0])
  {
    if loc != [] {
      ViewHead(v, loc);
      if |loc| > 1 && v.Container? && loc[0] in v.fields {
        ViewHead(v.fields[loc[0]], loc[1..]);
      }
    }
    if path != [] && |loc| >= |path| {
      var m := loc[..|path|];
      assert m[0] == loc[0];
      assert Has(v, m) ==> v.Container? && m[0] in v.fields && Has(v.fields[m[0]], m[1..]);
      assert |path| > 1 ==> m[1..] != [];
    }
  }

  // A null that is replaced hides everything below it, and there was nothing below it.
  lemma BelowBent(v: Node, path: Path, effect: Node -> Effect, loc: Loc)
    requires path != [] && loc != [] && v.Container? && loc[0] in v.fields
    requires path[0].Star? || (path[0].key == loc[0] && |path| > 1)
    requires Bends(v.kind, v.fields[loc[0]])
    ensures SeenAfter(v, path, effect, loc, View(BentTo(path), loc[1..]))
  {
    hide Apply, Fits;
    ViewHead(v, loc);
    if |loc| == 1 {
      BentHere(v, path, loc);
      NotHitHere(v, path, loc);
      assert path[0..] == path;
      assert loc[1..] == [];
    } else {
      OffPath(v, path, loc);
      NothingBelow(v.fields[loc[0]], loc[1..]);
      NothingBelow(BentTo(path), loc[1..]);
    }
  }

  lemma NothingBelow(v: Node, rest: Loc)
    requires rest != [] && (v.Container? ==> v.fields == map[])
    ensures View(v, rest) == Absent
  {
    HasHead(v, rest);
  }

  // A first segment that is not the last, or a `*`, has no hit in its own place.
  lemma NotHitHere(v: Node, path: Path, loc: Loc)
    requires |loc| == 1 && path != [] && (path[0].Star? || |path| > 1)
    ensures !(|loc| >= |path| && HitAt(v, path, loc[..|path|]))
  {
  }

  // Under a last `*` only nulls are touched.
  lemma BelowStar(v: Node, path: Path, effect: Node -> Effect, loc: Loc)
    requires |path| == 1 && path[0].Star? && loc != [] && v.Container? && loc[0] in v.fields
    requires !Bends(v.kind, v.fields[loc[0]])
    ensures SeenAfter(v, path, effect, loc, View(v.fields[loc[0]], loc[1..]))
  {
    hide Apply, Fits;
    ViewHead(v, loc);
    if |loc| == 1 {
      NotBentHere(v, path, loc);
    }
  }

  lemma {:induction false} BelowSeen(v: Node, path: Path, effect: Node -> Effect, loc: Loc)
    requires path != [] && loc != [] && v.Container? && loc[0] in v.fields
    requires path[0].Star? || (path[0].key == loc[0] && |path| > 1)
    requires !Bends(v.kind, v.fields[loc[0]]) && |path| > 1 ==>
               SeenAfter(v.fields[loc[0]], path[1..], effect, loc[1..], View(Below(v.kind, v.fields[loc[0]], path, effect), loc[1..]))
    ensures SeenAfter(v, path, effect, loc, View(Below(v.kind, v.fields[loc[0]], path, effect), loc[1..]))
  {
    hide SeenAfter, View, Bends, BentTo;
    var child := v.fields[loc[0]];
    if Bends(v.kind, child) {
      BelowBent(v, path, effect, loc);
    } else if |path| == 1 {
      assert Below(v.kind, child, path, effect) == child;
      BelowStar(v, path, effect, loc);
    } else {
      SeenAfterHead(v, path, effect, loc, View(Below(v.kind, child, path, effect), loc[1..]));
    }
  }

  // The main characterisation: exactly the hits are replaced or deleted, nulls on the way become
  // containers, and every other place keeps what it had.
  lemma {:induction false} ApplySeen(v: Node, path: Path, effect: Node -> Effect, loc: Loc)
    ensures SeenAfter(v, path, effect, loc, View(Apply(v, path, effect), loc))
    decreases path
  {
    var after := Apply(v, path, effect);
    if path == [] || !v.Container? || loc == [] || loc[0] !in v.fields || !(path[0].Star? || path[0].key == loc[0]) {
      OffPath(v, path, loc);
      if loc != [] {
        ViewHead(v, loc);
        ViewHead(after, loc);
      }
    } else {
      var child := v.fields[loc[0]];
      ViewHead(after, loc);
      if path[0].Field? && |path| == 1 {
        WrittenSeen(v, path, effect, loc);
      } else {
        if !Bends(v.kind, child) && |path| > 1 {
          ApplySeen(child, path[1..], effect, loc[1..]);
        }
        BelowSeen(v, path, effect, loc);
      }
    }
  }

  lemma {:induction false} WrittenSeen(v: Node, path: Path, effect: Node -> Effect, loc: Loc)
    requires |path| == 1 && loc != [] && v.Container? && loc[0] in v.fields && path[0] == Field(loc[0])
    ensures SeenAfter(v, path, effect, loc, View(Apply(v, path, effect), loc))
  {
    var k, m := loc[0], loc[..1];
    OneStep(v, path, m);
    ViewHead(v, loc);
    ViewHead(Written(v, k, effect(v.fields[k])), loc);
    assert Apply(v, path, effect) == Written(v, k, effect(v.fields[k]));
    hide Apply, HitAt, Has, Get, BentAt, Fits;
    assert loc[|path|..] == loc[1..];
  }

  // The one hit of a path with one segment.
  lemma {:induction false} OneStep(v: Node, path: Path, m: Loc)
    requires |path| == 1 && |m| == 1 && v.Container? && m[0] in v.fields && path[0] == Field(m[0])
    ensures HitAt(v, path, m) && Get(v, m) == v.fields[m[0]]
  {
    HasHead(v, m);
    assert m[1..] == [] && path[1..] == [];
    assert Has(v.fields[m[0]], m[1..]) && Fits(path[1..], m[1..]);
    assert Get(v, m) == Get(v.fields[m[0]], m[1..]);
  }

  // What a null on the way is replaced by: an empty array if the segment that leads to it is an index, or
  // if it is a `*` and the next segment is an index; an empty object otherwise.
  lemma {:induction false} NullReplaced(v: Node, path: Path, effect: Node -> Effect, loc: Loc)
    requires BentAt(v, path, loc)
    ensures var n := |loc|;
            var asArray := (path[n - 1].Field? && path[n - 1].key.Index?) ||
                           (path[n - 1].Star? && n < |path| && path[n].Field? && path[n].key.Index?);
            View(Apply(v, path, effect), loc) == SeenContainer(if asArray then Array else Object, 0)
    ensures forall rest | rest != [] :: View(Apply(v, path, effect), loc + rest) == Absent
  {
    hide Apply, Fits, Has, Get;
    ApplySeen(v, path, effect, loc);
    assert loc[..|loc|] == loc;
    forall rest | rest != [] ensures View(Apply(v, path, effect), loc + rest) == Absent {
      ApplySeen(v, path, effect, loc + rest);
      BelowNull(v, path, loc, rest);
    }
  }

  lemma BelowNull(v: Node, path: Path, loc: Loc, rest: Loc)
    requires BentAt(v, path, loc) && rest != []
    ensures View(v, loc + rest) == Absent && !BentAt(v, path, loc + rest)
    ensures |loc + rest| >= |path| ==> !HitAt(v, path, (loc + rest)[..|path|])
  {
    hide Fits;
    HasAppend(v, loc, rest);
    if |loc + rest| >= |path| {
      var m := (loc + rest)[..|path|];
      if |path| > |loc| {
        assert m == loc + rest[..|path| - |loc|];
        HasAppend(v, loc, rest[..|path| - |loc|]);
      }
    }
  }
}
