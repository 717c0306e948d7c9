// transformShallowByPaths itself: an index loop that walks a source and a destination reference down
// a document, recursing only on `*`, writing results in place and leaving promises for later. A
// reference into the document is the place it points to.

module ShallowTransform {
  import opened Prelude
  import opened JsTree
  import opened PathTransform
  import opened PathOrder

  // What the caller's transform does with a value: it returns a result, or a promise of one, or throws.
  // A promise that is rejected counts as a throw.
  datatype Reply = Now(result: Node) | Later(result: Node) | Fails

  type Transform = (Node, Path) -> Reply

  function Outcome(result: Node): Effect {
    if result.Undefined? then Drop else Put(result)
  }

  function ReplyEffect(reply: Reply): Effect {
    match reply
    case Now(r) => Outcome(r)
    case Later(_) => Keep
    case Fails => Keep
  }

  // What becomes of the value in the end.
  function FinalEffect(reply: Reply): Effect {
    match reply
    case Now(r) => Outcome(r)
    case Later(r) => Outcome(r)
    case Fails => Keep
  }

  // What is written while the paths are walked, and what is written in the end.
  function Immediate(t: Transform, path: Path): Node -> Effect {
    x => ReplyEffect(t(x, path))
  }

  function Settled(t: Transform, path: Path): Node -> Effect {
    x => FinalEffect(t(x, path))
  }

  // The promises left behind by one path below a place.
  ghost function LateWrites(src: Node, dst: Loc, path: Path, whole: Path, t: Transform): set<Write>
    decreases path
  {
    if path == [] || !src.Container? then {}
    else
      match path[0]
      case Star => set k, w | k in src.fields && w in LateWrites(src.fields[k], dst + [k], path[1..], whole, t) :: w
      case Field(k) =>
        if k !in src.fields then {}
        else if |path| > 1 then LateWrites(src.fields[k], dst + [k], path[1..], whole, t)
        else if t(src.fields[k], whole).Later? then {Write(dst + [k], Outcome(t(src.fields[k], whole).result))}
        else {}
  }

  // The write that is left behind for a place below `dst`.
  ghost predicate LateAt(src: Node, dst: Loc, path: Path, whole: Path, t: Transform, w: Write, loc: Loc) {
    && HitAt(src, path, loc) && w.loc == dst + loc
    && t(Get(src, loc), whole).Later? && w.effect == Outcome(t(Get(src, loc), whole).result)
  }

  lemma {:induction false} LateWriteFrom(src: Node, dst: Loc, path: Path, whole: Path, t: Transform, w: Write) returns (loc: Loc)
    requires w in LateWrites(src, dst, path, whole, t)
    ensures LateAt(src, dst, path, whole, t, w, loc)
    decreases path
  {
    var k :| k in src.fields && (path[0].Star? || path[0].key == k) &&
             (|path| > 1 || path[0].Star? ==> w in LateWrites(src.fields[k], dst + [k], path[1..], whole, t));
    if |path| > 1 {
      var rest := LateWriteFrom(src.fields[k], dst + [k], path[1..], whole, t, w);
      loc := [k] + rest;
      assert loc[1..] == rest;
      HitHead(src, path, loc);
      assert dst + [k] + rest == dst + loc;
    } else {
      assert LateWrites(src.fields[k], dst + [k], path[1..], whole, t) == {};
      loc := [k];
      assert Fits(path[1..], loc[1..]);
      ViewHead(src, loc);
    }
  }

  lemma {:induction false} LateWriteTo(src: Node, dst: Loc, path: Path, whole: Path, t: Transform, w: Write, loc: Loc)
    requires LateAt(src, dst, path, whole, t, w, loc)
    ensures w in LateWrites(src, dst, path, whole, t)
    decreases path
  {
    var k := loc[0];
    if |path| > 1 {
      HitHead(src, path, loc);
      assert dst + [k] + loc[1..] == dst + loc;
      LateWriteTo(src.fields[k], dst + [k], path[1..], whole, t, w, loc[1..]);
    } else {
      assert loc[1..] == [] && Get(src, loc) == Get(src.fields[k], loc[1..]);
      assert w == Write(dst + [k], Outcome(t(src.fields[k], whole).result)) by {
        assert loc == [k];
      }
    }
  }

  // The promises of a path are exactly those of its hits.
  lemma {:induction false} LateWritesAre(src: Node, dst: Loc, path: Path, whole: Path, t: Transform, w: Write)
    ensures w in LateWrites(src, dst, path, whole, t) <==> exists loc :: LateAt(src, dst, path, whole, t, w, loc)
  {
    if w in LateWrites(src, dst, path, whole, t) {
      var loc := LateWriteFrom(src, dst, path, whole, t, w);
    }
    if loc :| LateAt(src, dst, path, whole, t, w, loc) {
      LateWriteTo(src, dst, path, whole, t, w, loc);
    }
  }

  // ----- when the call throws ---------------------------------------------------------------

  // The walk looks up a property of a truthy primitive, or the transform throws on a value it reaches.
  predicate Stopped(v: Node, path: Path, whole: Path, t: Transform) {
    path != [] && !Falsy(v) &&
    match path[0]
    case Star => v.Container? && exists k | k in v.fields :: Stopped(v.fields[k], path[1..], whole, t)
    case Field(k) =>
      v.Prim? || (k in v.fields && if |path| > 1 then Stopped(v.fields[k], path[1..], whole, t) else t(v.fields[k], whole).Fails?)
  }

  // A value the path reaches and the transform throws on.
  predicate RefusedAt(v: Node, path: Path, whole: Path, t: Transform, loc: Loc) {
    HitAt(v, path, loc) && t(Get(v, loc), whole).Fails?
  }

  ghost predicate Refused(v: Node, path: Path, whole: Path, t: Transform) {
    exists loc :: RefusedAt(v, path, whole, t, loc)
  }

  lemma RefusedHead(v: Node, path: Path, whole: Path, t: Transform, k: Key, rest: Loc)
    requires |path| > 1 && v.Container? && k in v.fields && (path[0].Star? || path[0].key == k)
    ensures RefusedAt(v, path, whole, t, [k] + rest) <==> RefusedAt(v.fields[k], path[1..], whole, t, rest)
  {
    var loc := [k] + rest;
    assert loc[1..] == rest;
    if |loc| == |path| {
      HitHead(v, path, loc);
    }
  }

  lemma RefusedHere(v: Node, path: Path, whole: Path, t: Transform, k: Key)
    requires path == [Field(k)] && v.Container? && k in v.fields
    ensures RefusedAt(v, path, whole, t, [k]) <==> t(v.fields[k], whole).Fails?
  {
    assert Fits(path[1..], [k][1..]) && Has(v.fields[k], [k][1..]);
    assert Get(v, [k]) == Get(v.fields[k], [k][1..]);
  }

  lemma {:induction false} RefusedStops(v: Node, path: Path, whole: Path, t: Transform, loc: Loc)
    requires RefusedAt(v, path, whole, t, loc)
    ensures Stopped(v, path, whole, t)
    decreases path
  {
    HasHead(v, loc);
    assert loc == [loc[0]] + loc[1..];
    if |path| > 1 {
      RefusedHead(v, path, whole, t, loc[0], loc[1..]);
      RefusedStops(v.fields[loc[0]], path[1..], whole, t, loc[1..]);
    } else {
      assert loc == [loc[0]];
      RefusedHere(v, path, whole, t, loc[0]);
    }
  }

  lemma {:induction false} ThrowsStops(v: Node, path: Path, whole: Path, t: Transform)
    requires Throws(v, path)
    ensures Stopped(v, path, whole, t)
    decreases path
  {
    if v.Container? {
      var k :| k in v.fields && Throws(v.fields[k], path[1..]) && (path[0].Star? || path[0].key == k);
      ThrowsStops(v.fields[k], path[1..], whole, t);
    }
  }

  lemma {:induction false} StoppedBy(v: Node, path: Path, whole: Path, t: Transform)
    requires Stopped(v, path, whole, t)
    ensures Throws(v, path) || Refused(v, path, whole, t)
    decreases path
  {
    if v.Container? {
      if |path| > 1 {
        var k :| k in v.fields && Stopped(v.fields[k], path[1..], whole, t) && (path[0].Star? || path[0].key == k);
        StoppedBy(v.fields[k], path[1..], whole, t);
        if loc :| RefusedAt(v.fields[k], path[1..], whole, t, loc) {
          RefusedHead(v, path, whole, t, k, loc);
        }
      } else {
        RefusedHere(v, path, whole, t, path[0].key);
      }
    }
  }

  // The walk along one path throws exactly when some place blocks it or the transform throws on some
  // value it reaches.
  lemma {:induction false} StoppedIff(v: Node, path: Path, whole: Path, t: Transform)
    ensures Stopped(v, path, whole, t) <==> Throws(v, path) || Refused(v, path, whole, t)
  {
    hide Stopped, Throws, RefusedAt;
    if Stopped(v, path, whole, t) {
      StoppedBy(v, path, whole, t);
    } else {
      if Throws(v, path) {
        ThrowsStops(v, path, whole, t);
      }
      if loc :| RefusedAt(v, path, whole, t, loc) {
        RefusedStops(v, path, whole, t, loc);
      }
    }
  }

  // ----- the traversal ----------------------------------------------------------------------

  // The tree while the children of a container are being walked; those in `done` are finished.
  function PartlyDone(v: Node, done: set<Key>, path: Path, effect: Node -> Effect): Node
    requires v.Container? && path != []
  {
    v.(fields := map k | k in v.fields :: if k in done then Below(v.kind, v.fields[k], path, effect) else v.fields[k])
  }

  ghost function LateBelow(v: Node, done: set<Key>, dst: Loc, path: Path, whole: Path, t: Transform): set<Write>
    requires v.Container? && path != []
  {
    set k, w | k in v.fields && k in done && w in LateWrites(v.fields[k], dst + [k], path[1..], whole, t) :: w
  }

  // One step down a named field leaves the work that remains the same.
  lemma {:induction false} StepDown(root: Node, dst: Loc, k: Key, path: Path, effect: Node -> Effect)
    requires Has(root, dst) && |path| > 1 && path[0] == Field(k)
    requires Get(root, dst).Container? && k in Get(root, dst).fields
    ensures Has(root, dst + [k]) && Get(root, dst + [k]) == Get(root, dst).fields[k]
    ensures Update(root, dst, Apply(Get(root, dst), path, effect))
            == Update(root, dst + [k], Below(Get(root, dst).kind, Get(root, dst).fields[k], path, effect))
  {
    var src := Get(root, dst);
    ChildPlace(root, dst, k);
    UpdateInside(root, dst, [k], Below(src.kind, src.fields[k], path, effect));
    assert Update(src, [k], Below(src.kind, src.fields[k], path, effect))
        == src.(fields := src.fields[k := Below(src.kind, src.fields[k], path, effect)]);
  }

  lemma {:induction false} ChildPlace(root: Node, dst: Loc, k: Key)
    requires Has(root, dst) && Get(root, dst).Container? && k in Get(root, dst).fields
    ensures Has(root, dst + [k]) && Has(Get(root, dst), [k]) && Get(root, dst + [k]) == Get(root, dst).fields[k]
  {
    assert Has(Get(root, dst).fields[k], [k][1..]);
    HasAppend(root, dst, [k]);
  }

  // Finishing one more child of a partly done container.
  lemma {:induction false} ChildDone(root: Node, dst: Loc, v: Node, done: set<Key>, k: Key, path: Path, effect: Node -> Effect)
    requires Has(root, dst) && v.Container? && path != [] && k in v.fields && k !in done
    ensures var before := Update(root, dst, PartlyDone(v, done, path, effect));
            && Has(before, dst) && Has(before, dst + [k]) && Get(before, dst + [k]) == v.fields[k]
            && Update(before, dst + [k], Below(v.kind, v.fields[k], path, effect))
               == Update(root, dst, PartlyDone(v, done + {k}, path, effect))
  {
    var partly := PartlyDone(v, done, path, effect);
    var before := Update(root, dst, partly);
    var x := Below(v.kind, v.fields[k], path, effect);
    GetUpdate(root, dst, partly);
    ChildPlace(before, dst, k);
    UpdateInside(before, dst, [k], x);
    UpdateTwice(root, dst, partly, Update(partly, [k], x));
    assert Update(partly, [k], x) == partly.(fields := partly.fields[k := x]);
    assert partly.fields[k := x] == PartlyDone(v, done + {k}, path, effect).fields;
  }

  lemma WalkStarts(v: Node, path: Path, effect: Node -> Effect, dst: Loc, whole: Path, t: Transform)
    requires v.Container? && path != []
    ensures PartlyDone(v, {}, path, effect) == v && LateBelow(v, {}, dst, path, whole, t) == {}
  {
    assert PartlyDone(v, {}, path, effect).fields == v.fields;
  }

  lemma {:induction false} WalkEnds(v: Node, path: Path, effect: Node -> Effect, dst: Loc, whole: Path, t: Transform)
    requires v.Container? && path != [] && path[0].Star?
    ensures PartlyDone(v, v.fields.Keys, path, effect) == Apply(v, path, effect)
    ensures LateBelow(v, v.fields.Keys, dst, path, whole, t) == LateWrites(v, dst, path, whole, t)
    ensures Stopped(v, path, whole, t) <==> !forall k | k in v.fields :: !Stopped(v.fields[k], path[1..], whole, t)
  {
    assert PartlyDone(v, v.fields.Keys, path, effect).fields == Apply(v, path, effect).fields;
  }

  lemma {:induction false} LateGrows(v: Node, done: set<Key>, k: Key, dst: Loc, path: Path, whole: Path, t: Transform)
    requires v.Container? && path != [] && k in v.fields
    ensures LateBelow(v, done + {k}, dst, path, whole, t)
            == LateBelow(v, done, dst, path, whole, t) + LateWrites(v.fields[k], dst + [k], path[1..], whole, t)
  {
    hide LateWrites;
  }

  // Nothing left to do at a value.
  lemma {:induction false} Stops(v: Node, dst: Loc, path: Path, whole: Path, t: Transform, effect: Node -> Effect)
    requires path == [] || Falsy(v) || (path[0].Star? && !v.Container?)
             || (v.Container? && path[0].Field? && path[0].key !in v.fields)
    ensures Apply(v, path, effect) == v && !Stopped(v, path, whole, t) && LateWrites(v, dst, path, whole, t) == {}
  {
  }

  // At the last segment the transform is called.
  lemma {:induction false} Lands(v: Node, dst: Loc, path: Path, t: Transform, whole: Path)
    requires |path| == 1 && path[0].Field? && v.Container? && path[0].key in v.fields
    ensures var k := path[0].key;
            && Apply(v, path, Immediate(t, whole)) == Written(v, k, ReplyEffect(t(v.fields[k], whole)))
            && (Stopped(v, path, whole, t) <==> t(v.fields[k], whole).Fails?)
            && LateWrites(v, dst, path, whole, t)
               == if t(v.fields[k], whole).Later? then {Write(dst + [k], Outcome(t(v.fields[k], whole).result))} else {}
  {
  }

  // Before the last segment the same work remains one step down.
  lemma {:induction false} GoesDown(v: Node, dst: Loc, path: Path, t: Transform, whole: Path, effect: Node -> Effect)
    requires |path| > 1 && path[0].Field? && v.Container? && path[0].key in v.fields
    ensures var k := path[0].key;
            && (Stopped(v, path, whole, t) <==> Stopped(v.fields[k], path[1..], whole, t))
            && LateWrites(v, dst, path, whole, t) == LateWrites(v.fields[k], dst + [k], path[1..], whole, t)
            && Below(v.kind, v.fields[k], path, effect)
               == if Bends(v.kind, v.fields[k]) then BentTo(path) else Apply(v.fields[k], path[1..], effect)
  {
  }

  // ----- several paths ----------------------------------------------------------------------

  function Tasks(t: Transform, paths: seq<Path>): seq<Task> {
    seq(|paths|, i requires 0 <= i < |paths| => Task(paths[i], Immediate(t, paths[i])))
  }

  function SettledTasks(t: Transform, paths: seq<Path>): seq<Task> {
    seq(|paths|, i requires 0 <= i < |paths| => Task(paths[i], Settled(t, paths[i])))
  }

  // The promises left behind by all the paths, each walked over what the earlier ones left.
  ghost function LateAfter(v: Node, paths: seq<Path>, t: Transform): set<Write> {
    if paths == [] then {}
    else
      var front, last := paths[..|paths| - 1], paths[|paths| - 1];
      LateAfter(v, front, t) + LateWrites(ApplyAll(v, Tasks(t, front)), [], last, last, t)
  }

  // The walk along the n-th path throws on what the earlier ones left.
  ghost predicate PathThrows(v: Node, paths: seq<Path>, n: nat, t: Transform)
    requires n < |paths|
  {
    Stopped(ApplyAll(v, Tasks(t, paths[..n])), paths[n], paths[n], t)
  }

  lemma {:induction false} OneMorePath(v: Node, paths: seq<Path>, n: nat, t: Transform)
    requires n < |paths|
    ensures ApplyAll(v, Tasks(t, paths[..n + 1])) == Apply(ApplyAll(v, Tasks(t, paths[..n])), paths[n], Immediate(t, paths[n]))
    ensures LateAfter(v, paths[..n + 1], t)
            == LateAfter(v, paths[..n], t) + LateWrites(ApplyAll(v, Tasks(t, paths[..n])), [], paths[n], paths[n], t)
  {
    assert paths[..n + 1][..n] == paths[..n];
    var tasks := Tasks(t, paths[..n + 1]);
    assert tasks[..n] == Tasks(t, paths[..n]);
    assert tasks[n] == Task(paths[n], Immediate(t, paths[n]));
  }

  lemma {:induction false} NoPathsYet(v: Node, paths: seq<Path>, t: Transform)
    ensures ApplyAll(v, Tasks(t, paths[..0])) == v && LateAfter(v, paths[..0], t) == {}
  {
    assert paths[..0] == [] && Tasks(t, paths[..0]) == [];
  }

  lemma {:induction false} AtRoot(v: Node, path: Path, effect: Node -> Effect)
    ensures Has(v, []) && Get(v, []) == v
    ensures Apply(v, path, effect) == if v.Null? then v else Update(v, [], Apply(v, path, effect))
  {
  }

  ghost function Elements(ws: seq<Write>): set<Write> {
    set i | 0 <= i < |ws| :: ws[i]
  }

  ghost predicate Lists(ws: seq<Write>, all: set<Write>) {
    Elements(ws) == all && forall i, j | 0 <= i < j < |ws| :: ws[i] != ws[j]
  }

  // No two of the paths overlap.
  ghost predicate Separate(paths: seq<Path>) {
    forall i, j | 0 <= i < j < |paths| :: PathsApart(paths[i], paths[j])
  }

  lemma TasksApart(paths: seq<Path>, t: Transform)
    requires Separate(paths)
    ensures AllApart(Tasks(t, paths)) && AllApart(SettledTasks(t, paths))
  {
    hide PathsApart;
  }

  lemma FrontApart(paths: seq<Path>, t: Transform, n: nat)
    requires Separate(paths) && n < |paths|
    ensures AllApart(Tasks(t, paths[..n])) && ApartFromAll(Tasks(t, paths[..n]), paths[n])
  {
    hide PathsApart;
  }

  lemma {:induction false} BlockedAsBefore(v: Node, paths: seq<Path>, n: nat, t: Transform)
    requires Separate(paths) && n < |paths|
    ensures Throws(ApplyAll(v, Tasks(t, paths[..n])), paths[n]) <==> Throws(v, paths[n])
  {
    var moved := ApplyAll(v, Tasks(t, paths[..n]));
    FrontApart(paths, t, n);
    ThrowsIff(moved, paths[n]);
    ThrowsIff(v, paths[n]);
    hide ApplyAll, Throws, BlockedAt, AllApart, ApartFromAll;
    forall loc ensures BlockedAt(moved, paths[n], loc) <==> BlockedAt(v, paths[n], loc) {
      BlockedKept(v, Tasks(t, paths[..n]), paths[n], loc);
    }
  }

  lemma {:induction false} RefusedAsBefore(v: Node, paths: seq<Path>, n: nat, t: Transform)
    requires Separate(paths) && n < |paths|
    ensures Refused(ApplyAll(v, Tasks(t, paths[..n])), paths[n], paths[n], t) <==> Refused(v, paths[n], paths[n], t)
  {
    var moved, path := ApplyAll(v, Tasks(t, paths[..n])), paths[n];
    FrontApart(paths, t, n);
    hide ApplyAll, AllApart, ApartFromAll, Fits;
    forall loc ensures RefusedAt(moved, path, path, t, loc) <==> RefusedAt(v, path, path, t, loc) {
      if Fits(path, loc) && |loc| == |path| {
        HitKept(v, Tasks(t, paths[..n]), path, loc);
      }
    }
  }

  // A path throws on what the earlier ones left exactly when it throws on the document as it was.
  lemma {:induction false} ThrowsAsBefore(v: Node, paths: seq<Path>, n: nat, t: Transform)
    requires Separate(paths) && n < |paths|
    ensures PathThrows(v, paths, n, t) <==> Stopped(v, paths[n], paths[n], t)
  {
    hide Stopped, Throws, Refused, ApplyAll, Separate;
    StoppedIff(ApplyAll(v, Tasks(t, paths[..n])), paths[n], paths[n], t);
    StoppedIff(v, paths[n], paths[n], t);
    BlockedAsBefore(v, paths, n, t);
    RefusedAsBefore(v, paths, n, t);
  }

  // A write left behind by the n-th path for a place of the original document.
  ghost predicate LateFor(v: Node, paths: seq<Path>, t: Transform, w: Write, n: nat) {
    && n < |paths| && HitAt(v, paths[n], w.loc)
    && t(Get(v, w.loc), paths[n]).Later? && w.effect == Outcome(t(Get(v, w.loc), paths[n]).result)
  }

  lemma {:induction false} LateUnmoved(v: Node, paths: seq<Path>, t: Transform, n: nat, w: Write)
    requires Separate(paths) && n < |paths|
    ensures w in LateWrites(ApplyAll(v, Tasks(t, paths[..n])), [], paths[n], paths[n], t) <==> LateFor(v, paths, t, w, n)
  {
    var moved := ApplyAll(v, Tasks(t, paths[..n]));
    FrontApart(paths, t, n);
    LateWritesAre(moved, [], paths[n], paths[n], t, w);
    hide ApplyAll, LateWrites, AllApart, ApartFromAll;
    if Fits(paths[n], w.loc) && |w.loc| == |paths[n]| {
      HitKept(v, Tasks(t, paths[..n]), paths[n], w.loc);
    }
    if loc :| LateAt(moved, [], paths[n], paths[n], t, w, loc) {
      assert w.loc == loc;
    }
    if LateFor(v, paths, t, w, n) {
      assert LateAt(moved, [], paths[n], paths[n], t, w, w.loc);
    }
  }

  ghost predicate LateForSome(v: Node, paths: seq<Path>, t: Transform, w: Write, n: nat) {
    exists m: nat :: m < n && LateFor(v, paths, t, w, m)
  }

  lemma LateForOneMore(v: Node, paths: seq<Path>, t: Transform, w: Write, n: nat)
    ensures LateForSome(v, paths, t, w, n + 1) <==> LateForSome(v, paths, t, w, n) || LateFor(v, paths, t, w, n)
  {
    hide LateFor;
    if m: nat :| m < n + 1 && LateFor(v, paths, t, w, m) {
      assert m < n || m == n;
    }
  }

  lemma {:induction false} LateAfterAre(v: Node, paths: seq<Path>, t: Transform, n: nat, w: Write)
    requires Separate(paths) && n <= |paths|
    ensures w in LateAfter(v, paths[..n], t) <==> LateForSome(v, paths, t, w, n)
  {
    if n > 0 {
      hide *;
      LateAfterAre(v, paths, t, n - 1, w);
      OneMorePath(v, paths, n - 1, t);
      LateUnmoved(v, paths, t, n - 1, w);
      LateForOneMore(v, paths, t, w, n - 1);
    } else {
      assert paths[..0] == [];
    }
  }

  lemma {:induction false} LateListed(v: Node, paths: seq<Path>, t: Transform, order: seq<Write>, w: Write)
    requires Separate(paths) && Lists(order, LateAfter(v, paths, t))
    ensures w in order <==> LateForSome(v, paths, t, w, |paths|)
  {
    assert paths[..|paths|] == paths;
    LateAfterAre(v, paths, t, |paths|, w);
    hide Separate, LateAfter, LateForSome;
    assert w in order <==> w in Elements(order);
  }

  lemma {:induction false} LateScattered(v: Node, paths: seq<Path>, t: Transform, order: seq<Write>)
    requires Separate(paths) && Lists(order, LateAfter(v, paths, t))
    ensures Scattered(ApplyAll(v, Tasks(t, paths)), order)
  {
    hide Separate, LateAfter, LateFor, ApplyAll, Apart, Has;
    forall i | 0 <= i < |order|
      ensures order[i].loc != [] && Has(ApplyAll(v, Tasks(t, paths)), order[i].loc)
    {
      LateListed(v, paths, t, order, order[i]);
      var n: nat :| n < |paths| && LateFor(v, paths, t, order[i], n);
      LateKept(v, paths, t, order[i], n);
    }
    forall i, j | 0 <= i < j < |order| ensures Apart(order[i].loc, order[j].loc) {
      LateListed(v, paths, t, order, order[i]);
      LateListed(v, paths, t, order, order[j]);
      var m: nat :| m < |paths| && LateFor(v, paths, t, order[i], m);
      var n: nat :| n < |paths| && LateFor(v, paths, t, order[j], n);
      LateApart(v, paths, t, order[i], m, order[j], n);
    }
  }

  // Until it settles, the place of a promise keeps the value it had.
  lemma {:induction false} LateKept(v: Node, paths: seq<Path>, t: Transform, w: Write, n: nat)
    requires Separate(paths) && LateFor(v, paths, t, w, n)
    ensures w.loc != [] && Has(ApplyAll(v, Tasks(t, paths)), w.loc)
  {
    var tasks := Tasks(t, paths);
    TasksApart(paths, t);
    assert w.loc[..|paths[n]|] == w.loc;
    assert tasks[n] in tasks && HitOn(v, tasks[n].path, w.loc);
    ApplyAllSeen(v, tasks, w.loc);
    assert tasks[n].effect(Get(v, w.loc)) == Keep;
    assert SeenFor(v, tasks[n], w.loc, View(ApplyAll(v, tasks), w.loc));
  }

  lemma LateApart(v: Node, paths: seq<Path>, t: Transform, w: Write, m: nat, x: Write, n: nat)
    requires Separate(paths) && LateFor(v, paths, t, w, m) && LateFor(v, paths, t, x, n) && w != x
    ensures Apart(w.loc, x.loc)
  {
    if m == n {
      assert |w.loc| == |x.loc| && w.loc != x.loc;
    } else if m < n {
      HitsApart(paths[m], paths[n], w.loc, x.loc);
    } else {
      HitsApart(paths[n], paths[m], x.loc, w.loc);
    }
  }

  // At a place that the n-th path hits, an unsettled promise is all that the walk leaves to do.
  lemma {:induction false} HitSeen(v: Node, paths: seq<Path>, t: Transform, n: nat, q: Loc)
    requires Separate(paths) && n < |paths| && HitOn(v, paths[n], q)
    ensures var reply := t(Get(v, q[..|paths[n]|]), paths[n]);
            var walked, goal := View(ApplyAll(v, Tasks(t, paths)), q), View(ApplyAll(v, SettledTasks(t, paths)), q);
            && goal == After(FinalEffect(reply), q[|paths[n]|..], View(v, q))
            && (!reply.Later? ==> walked == goal)
            && (reply.Later? ==> walked == View(v, q))
  {
    var tasks, settled := Tasks(t, paths), SettledTasks(t, paths);
    TasksApart(paths, t);
    ApplyAllSeen(v, tasks, q);
    ApplyAllSeen(v, settled, q);
    hide ApplyAll, Get, Has, View, AllApart, PathsApart, Unhit;
    assert tasks[n] in tasks && settled[n] in settled;
    assert SeenFor(v, tasks[n], q, View(ApplyAll(v, tasks), q));
    assert SeenFor(v, settled[n], q, View(ApplyAll(v, settled), q));
  }

  // Only the promise of that very hit is ever written over such a place.
  lemma OnlyItsPromise(v: Node, paths: seq<Path>, t: Transform, n: nat, q: Loc, w: Write, k: nat)
    requires Separate(paths) && n < |paths| && HitOn(v, paths[n], q)
    requires LateFor(v, paths, t, w, k) && Covers(w, q)
    ensures w.loc == q[..|paths[n]|] && LateFor(v, paths, t, w, n)
  {
    TasksApart(paths, t);
    assert q[..|paths[k]|] == w.loc;
    if k != n {
      OneHitOn(v, Tasks(t, paths), n, k, q);
      assert false;
    }
  }

  lemma {:induction false} SettledSeen(v: Node, paths: seq<Path>, t: Transform, order: seq<Write>, q: Loc)
    requires Separate(paths) && Lists(order, LateAfter(v, paths, t))
    ensures var walked, goal := View(ApplyAll(v, Tasks(t, paths)), q), View(ApplyAll(v, SettledTasks(t, paths)), q);
            && (forall i | 0 <= i < |order| && Covers(order[i], q) :: goal == After(order[i].effect, q[|order[i].loc|..], walked))
            && ((forall i | 0 <= i < |order| :: !Covers(order[i], q)) ==> goal == walked)
  {
    if n :| 0 <= n < |paths| && HitOn(v, paths[n], q) {
      HitSeen(v, paths, t, n, q);
      SettledHere(v, paths, t, order, n, q);
    } else {
      NoHits(v, paths, t, q);
      TasksApart(paths, t);
      ApplyAllSeen(v, Tasks(t, paths), q);
      ApplyAllSeen(v, SettledTasks(t, paths), q);
      SameBends(v, Tasks(t, paths), SettledTasks(t, paths), q);
      NotCovered(v, paths, t, order, q);
    }
  }

  lemma {:induction false} SettledHere(v: Node, paths: seq<Path>, t: Transform, order: seq<Write>, n: nat, q: Loc)
    requires Separate(paths) && Lists(order, LateAfter(v, paths, t)) && n < |paths| && HitOn(v, paths[n], q)
    ensures var m := q[..|paths[n]|];
            var reply := t(Get(v, m), paths[n]);
            && (forall i | 0 <= i < |order| && Covers(order[i], q) :: reply.Later? && order[i] == Write(m, Outcome(reply.result)))
            && (reply.Later? ==> exists i :: 0 <= i < |order| && Covers(order[i], q))
  {
    hide Separate, LateAfter;
    var m := q[..|paths[n]|];
    var reply := t(Get(v, m), paths[n]);
    forall i | 0 <= i < |order| && Covers(order[i], q) ensures reply.Later? && order[i] == Write(m, Outcome(reply.result)) {
      LateListed(v, paths, t, order, order[i]);
      var k: nat :| k < |paths| && LateFor(v, paths, t, order[i], k);
      OnlyItsPromise(v, paths, t, n, q, order[i], k);
    }
    if reply.Later? {
      var w := Write(m, Outcome(reply.result));
      assert LateFor(v, paths, t, w, n);
      LateListed(v, paths, t, order, w);
      var i :| 0 <= i < |order| && order[i] == w;
      assert Covers(order[i], q);
    }
  }

  lemma {:induction false} NotCovered(v: Node, paths: seq<Path>, t: Transform, order: seq<Write>, q: Loc)
    requires Separate(paths) && Lists(order, LateAfter(v, paths, t))
    requires forall n | 0 <= n < |paths| :: !HitOn(v, paths[n], q)
    ensures forall i | 0 <= i < |order| :: !Covers(order[i], q)
  {
    hide Separate, LateAfter;
    forall i | 0 <= i < |order| ensures !Covers(order[i], q) {
      LateListed(v, paths, t, order, order[i]);
      var k: nat :| k < |paths| && LateFor(v, paths, t, order[i], k);
      if Covers(order[i], q) {
        CoveredIsHit(v, paths, t, order[i], k, q);
      }
    }
  }

  lemma CoveredIsHit(v: Node, paths: seq<Path>, t: Transform, w: Write, k: nat, q: Loc)
    requires LateFor(v, paths, t, w, k) && Covers(w, q)
    ensures HitOn(v, paths[k], q)
  {
    assert q[..|paths[k]|] == w.loc;
  }

  lemma NoHits(v: Node, paths: seq<Path>, t: Transform, q: Loc)
    requires forall n | 0 <= n < |paths| :: !HitOn(v, paths[n], q)
    ensures forall task | task in Tasks(t, paths) :: !HitOn(v, task.path, q)
    ensures forall task | task in SettledTasks(t, paths) :: !HitOn(v, task.path, q)
  {
    forall task | task in Tasks(t, paths) ensures !HitOn(v, task.path, q) {
      var n :| 0 <= n < |paths| && Tasks(t, paths)[n] == task;
    }
    forall task | task in SettledTasks(t, paths) ensures !HitOn(v, task.path, q) {
      var n :| 0 <= n < |paths| && SettledTasks(t, paths)[n] == task;
    }
  }

  // Walking the paths and then settling the promises, in any order, is applying the settled results.
  lemma {:induction false} TwoPhases(v: Node, paths: seq<Path>, t: Transform, order: seq<Write>)
    requires Separate(paths) && Lists(order, LateAfter(v, paths, t))
    ensures WriteAll(ApplyAll(v, Tasks(t, paths)), order) == ApplyAll(v, SettledTasks(t, paths))
  {
    hide ApplyAll, WriteAll, Separate, Scattered, LateAfter, View, After, Tasks, SettledTasks;
    var walked := ApplyAll(v, Tasks(t, paths));
    LateScattered(v, paths, t, order);
    forall q ensures View(WriteAll(walked, order), q) == View(ApplyAll(v, SettledTasks(t, paths)), q) {
      WritesSeen(walked, order, q);
      SettledSeen(v, paths, t, order, q);
    }
    ViewsDecide(WriteAll(walked, order), ApplyAll(v, SettledTasks(t, paths)));
  }

  // What is still to be done once the walk has come down to `dst` with `rest` of the path left.
  ghost predicate OnTrack(root: Node, src: Node, dst: Loc, rest: Path, effect: Node -> Effect, goal: Node) {
    Has(root, dst) &&
    if src.Null? then root == goal
    else src == Get(root, dst) && Update(root, dst, Apply(src, rest, effect)) == goal
  }

  lemma {:induction false} StartsOnTrack(root: Node, source: Node, target: Loc, path: Path, effect: Node -> Effect)
    requires Has(root, target) && (source.Null? || source == Get(root, target))
    ensures OnTrack(root, source, target, path, effect,
                    if source.Null? then root else Update(root, target, Apply(source, path, effect)))
  {
  }

  lemma {:induction false} OnTrackPlace(root: Node, src: Node, dst: Loc, rest: Path, effect: Node -> Effect, goal: Node)
    requires OnTrack(root, src, dst, rest, effect, goal) && !Falsy(src)
    ensures Has(root, dst) && src == Get(root, dst) && goal == Update(root, dst, Apply(src, rest, effect))
  {
  }

  lemma {:induction false} Blocks(v: Node, path: Path, whole: Path, t: Transform)
    requires path != [] && path[0].Field? && v.Prim? && !Falsy(v)
    ensures Stopped(v, path, whole, t)
  {
  }

  // Nothing more changes when the walk stops.
  lemma {:induction false} StopsOnTrack(root: Node, src: Node, dst: Loc, rest: Path, effect: Node -> Effect, goal: Node)
    requires OnTrack(root, src, dst, rest, effect, goal) && Apply(src, rest, effect) == src
    ensures root == goal
  {
    if !src.Null? {
      UpdateSame(root, dst);
    }
  }

  lemma {:induction false} DownOnTrack(root: Node, src: Node, dst: Loc, rest: Path, t: Transform, whole: Path, goal: Node)
    requires OnTrack(root, src, dst, rest, Immediate(t, whole), goal) && |rest| > 1 && rest[0].Field?
    requires src.Container? && rest[0].key in src.fields
    ensures var k, effect := rest[0].key, Immediate(t, whole);
            && Has(root, dst + [k])
            && OnTrack(if Bends(src.kind, src.fields[k]) then Update(root, dst + [k], BentTo(rest)) else root,
                       src.fields[k], dst + [k], rest[1..], effect, goal)
  {
    var k, effect := rest[0].key, Immediate(t, whole);
    StepDown(root, dst, k, rest, effect);
    GetUpdate(root, dst + [k], BentTo(rest));
    GoesDown(src, dst, rest, t, whole, effect);
    UpdateSame(root, dst + [k]);
  }

  class Document {
    var root: Node
    var pending: set<Write>

    constructor (root: Node)
      ensures this.root == root && pending == {}
    {
      this.root := root;
      pending := {};
    }

    // responseValidation, or the promise of it. Returns false when the transform throws.
    method Respond(src: Node, dst: Loc, k: Key, reply: Reply) returns (ok: bool)
      requires Has(root, dst) && src == Get(root, dst) && src.Container? && k in src.fields
      modifies this
      ensures ok <==> !reply.Fails?
      ensures ok ==> root == Update(old(root), dst, Written(src, k, ReplyEffect(reply)))
      ensures ok ==> pending == old(pending) + match reply case Later(r) => {Write(dst + [k], Outcome(r))} case _ => {}
    {
      ok := true;
      match reply
      case Now(result) =>
        root := Update(root, dst, Written(src, k, Outcome(result)));
      case Later(result) =>
        UpdateSame(root, dst);
        pending := pending + {Write(dst + [k], Outcome(result))};
      case Fails =>
        ok := false;
    }

    // The `*` case: every child in turn, in any order.
    method TraverseAll(src: Node, dst: Loc, path: Path, i: nat, t: Transform) returns (ok: bool)
      requires i < |path| && path[i].Star? && Has(root, dst) && src == Get(root, dst) && !Falsy(src)
      modifies this
      ensures ok <==> !Stopped(src, path[i..], path, t)
      ensures ok ==> root == Update(old(root), dst, Apply(src, path[i..], Immediate(t, path)))
      ensures ok ==> pending == old(pending) + LateWrites(src, dst, path[i..], path, t)
      decreases |path| - i, 2
    {
      ghost var rest, start, late := path[i..], root, pending;
      UpdateSame(root, dst);
      if !src.Container? {
        Stops(src, dst, rest, path, t, Immediate(t, path));
        return true;
      }
      WalkStarts(src, rest, Immediate(t, path), dst, path, t);
      WalkEnds(src, rest, Immediate(t, path), dst, path, t);
      hide Apply, Stopped, LateWrites, Update, Has, Get, PartlyDone, LateBelow, Below, Immediate, Falsy;
      assert rest[1..] == path[i + 1..];
      ghost var done := {};
      ok, done := TraverseChildren(src, dst, path, i, t, start, late);
    }

    // The loop over the keys; `done` is the set of children that were finished.
    method TraverseChildren(src: Node, dst: Loc, path: Path, i: nat, t: Transform, ghost start: Node, ghost late: set<Write>)
      returns (ok: bool, ghost done: set<Key>)
      requires i < |path| && path[i].Star? && Has(start, dst) && src.Container?
      requires root == Update(start, dst, PartlyDone(src, {}, path[i..], Immediate(t, path)))
      requires pending == late + LateBelow(src, {}, dst, path[i..], path, t)
      modifies this
      ensures ok <==> forall k | k in src.fields :: !Stopped(src.fields[k], path[i + 1..], path, t)
      ensures ok ==> root == Update(start, dst, PartlyDone(src, src.fields.Keys, path[i..], Immediate(t, path)))
      ensures ok ==> pending == late + LateBelow(src, src.fields.Keys, dst, path[i..], path, t)
      decreases |path| - i, 1
    {
      hide *;
      var todo := src.fields.Keys;
      done := {};
      while todo != {}
        invariant todo == src.fields.Keys - done && done <= src.fields.Keys
        invariant root == Update(start, dst, PartlyDone(src, done, path[i..], Immediate(t, path)))
        invariant pending == late + LateBelow(src, done, dst, path[i..], path, t)
        invariant forall k | k in done :: !Stopped(src.fields[k], path[i + 1..], path, t)
        decreases todo
      {
        var k :| k in todo;
        ok := TraverseChild(src, done, dst, k, path, i, t, start);
        if !ok {
          return;
        }
        LateGrows(src, done, k, dst, path[i..], path, t);
        assert path[i..][1..] == path[i + 1..];
        todo, done := todo - {k}, done + {k};
      }
      assert done == src.fields.Keys;
      ok := true;
    }

    // One child: its null is replaced first, then the walk goes on with the value that was there.
    method TraverseChild(src: Node, ghost done: set<Key>, dst: Loc, k: Key, path: Path, i: nat, t: Transform, ghost start: Node)
      returns (ok: bool)
      requires i < |path| && path[i].Star? && Has(start, dst) && src.Container? && k in src.fields && k !in done
      requires root == Update(start, dst, PartlyDone(src, done, path[i..], Immediate(t, path)))
      modifies this
      ensures ok <==> !Stopped(src.fields[k], path[i + 1..], path, t)
      ensures ok ==> root == Update(start, dst, PartlyDone(src, done + {k}, path[i..], Immediate(t, path)))
      ensures ok ==> pending == old(pending) + LateWrites(src.fields[k], dst + [k], path[i + 1..], path, t)
      decreases |path| - i, 0
    {
      ghost var rest, effect := path[i..], Immediate(t, path);
      var child := src.fields[k];
      assert rest[1..] == path[i + 1..];
      ChildDone(start, dst, src, done, k, rest, effect);
      assert Below(src.kind, child, rest, effect) == if Bends(src.kind, child) then BentTo(rest) else Apply(child, rest[1..], effect);
      hide Apply, Stopped, LateWrites, Update, Has, Get, PartlyDone, Below, Immediate;
      if Bends(src.kind, child) {
        GetUpdate(root, dst + [k], BentTo(rest));
        root := Update(root, dst + [k], BentTo(path[i..]));
      }
      ok := Traverse(child, dst + [k], path, i + 1, t);
      if ok && child.Null? && !Bends(src.kind, child) {
        Stops(child, dst + [k], path[i + 1..], path, t, effect);
        UpdateSame(old(root), dst + [k]);
      }
    }

    // `source` is the value read from `target`; a null stays null even where its place was given a
    // container. Returns false for a TypeError.
    method Traverse(source: Node, target: Loc, path: Path, start: nat, t: Transform) returns (ok: bool)
      requires start <= |path| && Has(root, target) && (source.Null? || source == Get(root, target))
      modifies this
      ensures ok <==> !Stopped(source, path[start..], path, t)
      ensures ok ==> root == if source.Null? then old(root)
                             else Update(old(root), target, Apply(source, path[start..], Immediate(t, path)))
      ensures ok ==> pending == old(pending) + LateWrites(source, target, path[start..], path, t)
      decreases |path| - start, 3
    {
      hide Apply, Stopped, LateWrites, Update, Has, Get, Below, OnTrack, Immediate;
      var src, dst, i := source, target, start;
      ghost var goal := if source.Null? then root else Update(root, target, Apply(source, path[start..], Immediate(t, path)));
      StartsOnTrack(root, source, target, path[start..], Immediate(t, path));
      while i < |path|
        invariant start <= i <= |path| && pending == old(pending)
        invariant Stopped(src, path[i..], path, t) <==> Stopped(source, path[start..], path, t)
        invariant LateWrites(src, dst, path[i..], path, t) == LateWrites(source, target, path[start..], path, t)
        invariant OnTrack(root, src, dst, path[i..], Immediate(t, path), goal)
      {
        ghost var rest := path[i..];
        if Falsy(src) {
          Stops(src, dst, rest, path, t, Immediate(t, path));
          StopsOnTrack(root, src, dst, rest, Immediate(t, path), goal);
          return true;
        }
        OnTrackPlace(root, src, dst, rest, Immediate(t, path), goal);
        match path[i]
        case Star =>
          ok := TraverseAll(src, dst, path, i, t);
          return;
        case Field(k) =>
          if src.Prim? {
            Blocks(src, rest, path, t);
            return false;
          }
          if k !in src.fields {
            Stops(src, dst, rest, path, t, Immediate(t, path));
            StopsOnTrack(root, src, dst, rest, Immediate(t, path), goal);
            return true;
          }
          var value := src.fields[k];
          if i == |path| - 1 {
            Lands(src, dst, rest, t, path);
            ok := Respond(src, dst, k, t(value, path));
            return;
          }
          DownOnTrack(root, src, dst, rest, t, path, goal);
          GoesDown(src, dst, rest, t, path, Immediate(t, path));
          assert rest[1..] == path[i + 1..];
          if Bends(src.kind, value) {
            root := Update(root, dst + [k], BentTo(path[i..]));
          }
          src, dst, i := value, dst + [k], i + 1;
      }
      Stops(src, dst, path[i..], path, t, Immediate(t, path));
      StopsOnTrack(root, src, dst, path[i..], Immediate(t, path), goal);
      ok := true;
    }

    // All the paths, one after the other, from the root.
    method TransformPaths(paths: seq<Path>, t: Transform) returns (ok: bool)
      requires pending == {}
      modifies this
      ensures ok <==> forall n: nat | n < |paths| :: !PathThrows(old(root), paths, n, t)
      ensures ok ==> root == ApplyAll(old(root), Tasks(t, paths)) && pending == LateAfter(old(root), paths, t)
    {
      hide *;
      ghost var start := root;
      NoPathsYet(start, paths, t);
      var n := 0;
      while n < |paths|
        invariant 0 <= n <= |paths|
        invariant root == ApplyAll(start, Tasks(t, paths[..n])) && pending == LateAfter(start, paths[..n], t)
        invariant forall m: nat | m < n :: !PathThrows(start, paths, m, t)
      {
        ok := TraversePath(start, paths, n, t);
        if !ok {
          return;
        }
        n := n + 1;
      }
      assert paths[..n] == paths;
      ok := true;
    }

    method TraversePath(ghost start: Node, paths: seq<Path>, n: nat, t: Transform) returns (ok: bool)
      requires n < |paths|
      requires root == ApplyAll(start, Tasks(t, paths[..n])) && pending == LateAfter(start, paths[..n], t)
      modifies this
      ensures ok <==> !PathThrows(start, paths, n, t)
      ensures ok ==> root == ApplyAll(start, Tasks(t, paths[..n + 1])) && pending == LateAfter(start, paths[..n + 1], t)
    {
      hide Stopped, Apply, LateWrites, Immediate, ApplyAll, LateAfter, Tasks, Update;
      assert paths[n][0..] == paths[n];
      AtRoot(root, paths[n], Immediate(t, paths[n]));
      OneMorePath(start, paths, n, t);
      ok := Traverse(root, [], paths[n], 0, t);
    }

    // One promise settles.
    method SettleOne(w: Write)
      modifies this
      ensures root == WriteAt(old(root), w.loc, w.effect) && pending == old(pending) - {w}
    {
      root := WriteAt(root, w.loc, w.effect);
      pending := pending - {w};
    }

    // All of them, in the order in which they happen to settle.
    method Settle(order: seq<Write>)
      modifies this
      ensures root == WriteAll(old(root), order) && pending == old(pending) - Elements(order)
    {
      var n := 0;
      while n < |order|
        invariant 0 <= n <= |order|
        invariant root == WriteAll(old(root), order[..n]) && pending == old(pending) - Elements(order[..n])
      {
        assert order[..n + 1][..n] == order[..n];
        SettleOne(order[n]);
        n := n + 1;
      }
      assert order[..n] == order;
    }

    // The whole call: it throws exactly when, on the document given, some path meets a truthy primitive
    // where it looks up a property or the transform throws on a value that a path reaches;
    // otherwise, once every promise has settled, in whatever order, the document is what applying the
    // settled results along all the paths makes of it.
    method TransformShallowByPaths(paths: seq<Path>, t: Transform, order: seq<Write>) returns (ok: bool)
      requires pending == {} && Separate(paths) && Lists(order, LateAfter(root, paths, t))
      modifies this
      ensures ok <==> forall n | 0 <= n < |paths| :: !Throws(old(root), paths[n]) && !Refused(old(root), paths[n], paths[n], t)
      ensures ok ==> pending == {} && root == ApplyAll(old(root), SettledTasks(t, paths))
    {
      hide LateAfter, ApplyAll, WriteAll, Throws, Stopped, Refused, PathThrows, Separate;
      forall n: nat | n < |paths|
        ensures PathThrows(root, paths, n, t) <==> Throws(root, paths[n]) || Refused(root, paths[n], paths[n], t)
      {
        ThrowsAsBefore(root, paths, n, t);
        StoppedIff(root, paths[n], paths[n], t);
      }
      TwoPhases(root, paths, t, order);
      ok := TransformPaths(paths, t);
      if ok {
        Settle(order);
      }
    }
  }
}
