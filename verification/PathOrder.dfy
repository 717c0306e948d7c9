// Order independence: applying non-overlapping paths one after the other is the same as writing their
// hits one by one, in whatever order the paths are listed and the asynchronous results settle.

module PathOrder {
  import opened Prelude
  import opened JsTree
  import opened PathTransform

  // ----- single writes ----------------------------------------------------------------------

  datatype Write = Write(loc: Loc, effect: Effect)

  // A settled result written to the place its transform was called for.
  function WriteAt(v: Node, loc: Loc, e: Effect): Node {
    if loc == [] || !v.Container? then v
    else if |loc| == 1 then Written(v, loc[0], e)
    else if loc[0] !in v.fields then v
    else v.(fields := v.fields[loc[0] := WriteAt(v.fields[loc[0]], loc[1..], e)])
  }

  function WriteAll(v: Node, ws: seq<Write>): Node {
    if ws == [] then v
    else WriteAt(WriteAll(v, ws[..|ws| - 1]), ws[|ws| - 1].loc, ws[|ws| - 1].effect)
  }

  lemma {:induction false} WriteSeen(v: Node, loc: Loc, e: Effect, q: Loc)
    requires loc != [] && Has(v, loc)
    ensures View(WriteAt(v, loc, e), q) == if loc <= q then After(e, q[|loc|..], View(v, q)) else View(v, q)
    decreases loc
  {
    var after := WriteAt(v, loc, e);
    if q != [] {
      ViewHead(v, q);
      ViewHead(after, q);
      if |loc| > 1 && q[0] == loc[0] {
        WriteSeen(v.fields[loc[0]], loc[1..], e, q[1..]);
        assert loc <= q <==> loc[1..] <= q[1..];
        assert loc <= q ==> q[|loc|..] == q[1..][|loc[1..]|..];
      }
    }
  }

  // Neither place lies inside the other.
  ghost predicate Apart(a: Loc, b: Loc) {
    !(a <= b) && !(b <= a)
  }

  ghost predicate Scattered(v: Node, ws: seq<Write>) {
    && (forall i | 0 <= i < |ws| :: ws[i].loc != [] && Has(v, ws[i].loc))
    && (forall i, j | 0 <= i < j < |ws| :: Apart(ws[i].loc, ws[j].loc))
  }

  ghost predicate Covers(w: Write, q: Loc) {
    w.loc <= q
  }

  // Writes to scattered places do not see each other.
  // No earlier write reaches where the last one goes.
  lemma LastUncovered(v: Node, ws: seq<Write>, q: Loc)
    requires Scattered(v, ws) && ws != []
    ensures var n := |ws| - 1;
            && Scattered(v, ws[..n]) && View(v, ws[n].loc) != Absent
            && (forall i | 0 <= i < n :: !Covers(ws[i], ws[n].loc))
            && (ws[n].loc <= q ==> forall i | 0 <= i < n :: !Covers(ws[i], q))
  {
    hide Has, Get;
    var n := |ws| - 1;
    forall i | 0 <= i < n ensures !Covers(ws[i], ws[n].loc) && (ws[n].loc <= q ==> !Covers(ws[i], q)) {
      assert Apart(ws[i].loc, ws[n].loc);
      if ws[n].loc <= q && ws[i].loc <= q {
        PrefixesCompare(ws[i].loc, ws[n].loc, q);
      }
    }
  }

  lemma {:induction false} WritesSeen(v: Node, ws: seq<Write>, q: Loc)
    requires Scattered(v, ws)
    ensures forall i | 0 <= i < |ws| && Covers(ws[i], q) ::
              View(WriteAll(v, ws), q) == After(ws[i].effect, q[|ws[i].loc|..], View(v, q))
    ensures (forall i | 0 <= i < |ws| :: !Covers(ws[i], q)) ==> View(WriteAll(v, ws), q) == View(v, q)
    decreases |ws|
  {
    if ws != [] {
      hide Has, Get, WriteAt;
      var front, last := ws[..|ws| - 1], ws[|ws| - 1];
      var before := WriteAll(v, front);
      LastUncovered(v, ws, q);
      WritesSeen(v, front, q);
      WritesSeen(v, front, last.loc);
      assert View(before, last.loc) == View(v, last.loc) != Absent;
      WriteSeen(before, last.loc, last.effect, q);
    }
  }

  lemma PrefixesCompare(a: Loc, b: Loc, q: Loc)
    requires a <= q && b <= q
    ensures !Apart(a, b)
  {
    assert |a| <= |b| ==> b[..|a|] == q[..|a|] == a;
    assert |b| <= |a| ==> a[..|b|] == q[..|b|] == b;
  }

  // ----- several paths ----------------------------------------------------------------------

  datatype Task = Task(path: Path, effect: Node -> Effect)

  // At some segment that both have, the two paths name different keys.
  ghost predicate PathsApart(p: Path, q: Path) {
    exists i :: 0 <= i < |p| && i < |q| && p[i].Field? && q[i].Field? && p[i] != q[i]
  }

  ghost predicate AllApart(tasks: seq<Task>) {
    forall i, j | 0 <= i < j < |tasks| :: PathsApart(tasks[i].path, tasks[j].path)
  }

  function ApplyAll(v: Node, tasks: seq<Task>): Node {
    if tasks == [] then v
    else Apply(ApplyAll(v, tasks[..|tasks| - 1]), tasks[|tasks| - 1].path, tasks[|tasks| - 1].effect)
  }

  lemma {:induction false} FitsAt(path: Path, loc: Loc, i: nat)
    requires Fits(path, loc) && i < |loc|
    ensures i < |path| && (path[i].Star? || path[i].key == loc[i])
  {
    if i > 0 {
      FitsAt(path[1..], loc[1..], i - 1);
    }
  }

  lemma {:induction false} FitsPrefix(path: Path, loc: Loc, n: nat)
    requires Fits(path, loc) && n <= |loc|
    ensures Fits(path, loc[..n])
  {
    if n > 0 {
      FitsPrefix(path[1..], loc[1..], n - 1);
      assert loc[..n][1..] == loc[1..][..n - 1];
    }
  }

  lemma ApartBothWays(p: Path, q: Path)
    requires PathsApart(p, q)
    ensures PathsApart(q, p)
  {
    var i :| 0 <= i < |p| && i < |q| && p[i].Field? && q[i].Field? && p[i] != q[i];
    assert q[i].Field? && p[i].Field? && q[i] != p[i];
  }

  // A place along both of two such paths is short of the end of either.
  lemma {:induction false} AlongBoth(p: Path, q: Path, loc: Loc)
    requires PathsApart(p, q) && Fits(p, loc) && Fits(q, loc)
    ensures |loc| < |p| && |loc| < |q|
  {
    var i :| 0 <= i < |p| && i < |q| && p[i].Field? && q[i].Field? && p[i] != q[i];
    if i < |loc| {
      FitsAt(p, loc, i);
      FitsAt(q, loc, i);
      assert false;
    }
  }

  ghost predicate HitOn(v: Node, path: Path, q: Loc) {
    |q| >= |path| && HitAt(v, path, q[..|path|])
  }

  // What is along q is neither a hit of p nor inside one.
  lemma {:induction false} NoHitAlong(v: Node, p: Path, q: Path, loc: Loc)
    requires PathsApart(p, q) && Fits(q, loc)
    ensures !HitOn(v, p, loc)
  {
    if HitOn(v, p, loc) {
      FitsPrefix(q, loc, |p|);
      AlongBoth(p, q, loc[..|p|]);
      assert false;
    }
  }

  // What is at or inside the end of q is neither along p nor inside a hit of p.
  lemma {:induction false} EndIsOwn(v: Node, p: Path, q: Path, end: Loc, loc: Loc)
    requires PathsApart(p, q) && Fits(q, end) && |end| == |q| && end <= loc
    ensures !Fits(p, loc) && !HitOn(v, p, loc)
  {
    assert loc[..|end|] == end;
    if Fits(p, loc) {
      FitsPrefix(p, loc, |end|);
      AlongBoth(p, q, end);
      assert false;
    }
    if HitOn(v, p, loc) {
      var m := loc[..|p|];
      if |p| <= |end| {
        assert m == end[..|p|];
        FitsPrefix(q, end, |p|);
        AlongBoth(p, q, m);
      } else {
        assert m[..|end|] == end;
        FitsPrefix(p, m, |end|);
        AlongBoth(p, q, end);
      }
      assert false;
    }
  }

  ghost predicate ApartFromAll(tasks: seq<Task>, q: Path) {
    forall i | 0 <= i < |tasks| :: PathsApart(tasks[i].path, q)
  }

  lemma LastApart(tasks: seq<Task>)
    requires AllApart(tasks) && tasks != []
    ensures AllApart(tasks[..|tasks| - 1])
    ensures ApartFromAll(tasks[..|tasks| - 1], tasks[|tasks| - 1].path)
  {
    hide PathsApart;
  }

  // ----- what several paths leave -----------------------------------------------------------

  // What the first of the tasks that finds a null here makes of it.
  ghost function BendSeen(v: Node, tasks: seq<Task>, q: Loc): Option<Seen> {
    if tasks == [] then None
    else
      var n := |tasks| - 1;
      var earlier := BendSeen(v, tasks[..n], q);
      if earlier.Some? then earlier
      else if BentAt(v, tasks[n].path, q) then Some(Look(BentTo(tasks[n].path[|q| - 1..])))
      else None
  }

  // What is to be seen where nothing is hit.
  ghost function Unhit(v: Node, tasks: seq<Task>, q: Loc): Seen {
    var bend := BendSeen(v, tasks, q);
    if bend.Some? then bend.value else View(v, q)
  }

  ghost predicate SeenFor(v: Node, task: Task, q: Loc, seen: Seen) {
    HitOn(v, task.path, q) &&
    seen == After(task.effect(Get(v, q[..|task.path|])), q[|task.path|..], View(v, q))
  }

  // A hit carries its result, a null on the way is a container, the rest is as it was.
  ghost predicate SeenForAll(v: Node, tasks: seq<Task>, q: Loc, seen: Seen) {
    && (forall t | t in tasks && HitOn(v, t.path, q) :: SeenFor(v, t, q, seen))
    && ((forall t | t in tasks :: !HitOn(v, t.path, q)) ==> seen == Unhit(v, tasks, q))
  }

  ghost predicate BendsWith(v: Node, tasks: seq<Task>, q: Loc, i: nat, seen: Seen) {
    i < |tasks| && BentAt(v, tasks[i].path, q) && seen == Look(BentTo(tasks[i].path[|q| - 1..]))
  }

  // There is something to be seen instead of a null exactly when some task finds that null.
  lemma {:induction false} BendSeenIs(v: Node, tasks: seq<Task>, q: Loc)
    ensures BendSeen(v, tasks, q).Some? ==> exists i: nat :: BendsWith(v, tasks, q, i, BendSeen(v, tasks, q).value)
    ensures (exists i | 0 <= i < |tasks| :: BentAt(v, tasks[i].path, q)) ==> BendSeen(v, tasks, q).Some?
    decreases |tasks|
  {
    hide BentAt, BentTo;
    if tasks != [] {
      var n := |tasks| - 1;
      var front := tasks[..n];
      BendSeenIs(v, front, q);
      if BendSeen(v, front, q).Some? {
        var i: nat :| BendsWith(v, front, q, i, BendSeen(v, front, q).value);
        assert BendsWith(v, tasks, q, i, BendSeen(v, tasks, q).value);
      } else if BentAt(v, tasks[n].path, q) {
        assert BendsWith(v, tasks, q, n, BendSeen(v, tasks, q).value);
      }
      if i :| 0 <= i < |tasks| && BentAt(v, tasks[i].path, q) {
        assert i < n ==> front[i] == tasks[i];
      }
    }
  }

  // Only a null is ever bent, and then a container is seen.
  lemma {:induction false} BendsANull(v: Node, tasks: seq<Task>, q: Loc)
    ensures BendSeen(v, tasks, q).Some? ==> View(v, q) == SeenNull && BendSeen(v, tasks, q).value.SeenContainer?
  {
    BendSeenIs(v, tasks, q);
  }

  // Along a path apart from all the tasks there are no hits of theirs.
  lemma {:induction false} Along(v: Node, tasks: seq<Task>, p: Path, loc: Loc)
    requires AllApart(tasks) && ApartFromAll(tasks, p) && Fits(p, loc)
    ensures View(ApplyAll(v, tasks), loc) == Unhit(v, tasks, loc)
    decreases |tasks|, 2
  {
    ApplyAllSeen(v, tasks, loc);
    hide ApplyAll, HitOn, PathsApart, Unhit, View;
    forall t | t in tasks ensures !HitOn(v, t.path, loc) {
      var i :| 0 <= i < |tasks| && tasks[i] == t;
      NoHitAlong(v, tasks[i].path, p, loc);
    }
  }

  // At and inside its end nothing has changed.
  lemma {:induction false} AtTheEnd(v: Node, tasks: seq<Task>, p: Path, end: Loc, loc: Loc)
    requires AllApart(tasks) && ApartFromAll(tasks, p) && Fits(p, end) && |end| == |p| && end <= loc
    ensures View(ApplyAll(v, tasks), loc) == View(v, loc)
    decreases |tasks|, 2
  {
    ApplyAllSeen(v, tasks, loc);
    BendSeenIs(v, tasks, loc);
    hide ApplyAll, HitOn, PathsApart, View, Fits;
    forall i | 0 <= i < |tasks| ensures !HitOn(v, tasks[i].path, loc) && !BentAt(v, tasks[i].path, loc) {
      EndIsOwn(v, tasks[i].path, p, end, loc);
    }
    forall t | t in tasks ensures !HitOn(v, t.path, loc) {
      var i :| 0 <= i < |tasks| && tasks[i] == t;
    }
  }

  // So a hit of the path is where it was and holds what it held.
  lemma {:induction false} HitKept(v: Node, tasks: seq<Task>, p: Path, m: Loc)
    requires AllApart(tasks) && ApartFromAll(tasks, p) && Fits(p, m) && |m| == |p|
    ensures Has(ApplyAll(v, tasks), m) <==> Has(v, m)
    ensures Has(v, m) ==> Get(ApplyAll(v, tasks), m) == Get(v, m)
    decreases |tasks|, 3
  {
    var after := ApplyAll(v, tasks);
    AtTheEnd(v, tasks, p, m, m);
    if Has(v, m) {
      hide ApplyAll, AllApart, ApartFromAll, Fits;
      forall rest ensures View(Get(after, m), rest) == View(Get(v, m), rest) {
        AtTheEnd(v, tasks, p, m, m + rest);
        HasAppend(v, m, rest);
        HasAppend(after, m, rest);
      }
      ViewsDecide(Get(after, m), Get(v, m));
    }
  }

  lemma {:induction false} ParentOfNull(v: Node, loc: Loc)
    requires loc != [] && Has(v, loc)
    ensures Has(v, loc[..|loc| - 1]) && Get(v, loc[..|loc| - 1]).Container?
  {
    var n := |loc| - 1;
    assert loc == loc[..n] + loc[n..];
    HasPrefix(v, loc[..n], loc[n..]);
  }

  lemma {:induction false} HasPrefix(v: Node, a: Loc, b: Loc)
    requires Has(v, a + b) && b != []
    ensures Has(v, a) && Get(v, a).Container?
  {
    if a == [] {
      assert a + b == b;
    } else {
      assert (a + b)[1..] == a[1..] + b;
      HasPrefix(v.fields[a[0]], a[1..], b);
    }
  }

  // The path finds the nulls that it would have found, but for those already replaced.
  lemma {:induction false} BentKept(v: Node, tasks: seq<Task>, p: Path, loc: Loc)
    requires AllApart(tasks) && ApartFromAll(tasks, p)
    ensures BentAt(ApplyAll(v, tasks), p, loc) <==> BentAt(v, p, loc) && BendSeen(v, tasks, loc).None?
    decreases |tasks|, 3
  {
    var after := ApplyAll(v, tasks);
    if loc != [] && Fits(p, loc) {
      var parent := loc[..|loc| - 1];
      FitsPrefix(p, loc, |loc| - 1);
      Along(v, tasks, p, loc);
      Along(v, tasks, p, parent);
      BendsANull(v, tasks, loc);
      BendsANull(v, tasks, parent);
      hide ApplyAll, BendSeen, Fits, AllApart, ApartFromAll;
      if View(v, loc) == SeenNull {
        ParentOfNull(v, loc);
      }
    }
  }

  // And it is blocked exactly where it would have been.
  lemma {:induction false} BlockedKept(v: Node, tasks: seq<Task>, p: Path, loc: Loc)
    requires AllApart(tasks) && ApartFromAll(tasks, p)
    ensures BlockedAt(ApplyAll(v, tasks), p, loc) <==> BlockedAt(v, p, loc)
  {
    if Fits(p, loc) {
      Along(v, tasks, p, loc);
      BendsANull(v, tasks, loc);
    }
  }

  // Two tasks never hit the same place, nor one inside the other, nor find a null inside a hit.
  lemma OneHitOn(v: Node, tasks: seq<Task>, i: nat, j: nat, q: Loc)
    requires AllApart(tasks) && i < |tasks| && j < |tasks| && i != j && HitOn(v, tasks[i].path, q)
    ensures !HitOn(v, tasks[j].path, q) && !BentAt(v, tasks[j].path, q)
  {
    var p, r := tasks[i].path, tasks[j].path;
    assert PathsApart(r, p) by {
      if i < j {
        assert PathsApart(p, r);
        ApartBothWays(p, r);
      }
    }
    assert q[..|p|] <= q;
    EndIsOwn(v, r, p, q[..|p|], q);
  }

  // No null is found at a hit of the same path or inside it.
  lemma NotBentOnHit(v: Node, path: Path, q: Loc)
    requires HitOn(v, path, q)
    ensures !BentAt(v, path, q)
  {
  }

  // What one more task adds, in terms of the document as it was before all of them.
  lemma {:induction false} LastSeen(v: Node, tasks: seq<Task>, q: Loc)
    requires AllApart(tasks) && tasks != []
    ensures var n := |tasks| - 1;
            var before, after := View(ApplyAll(v, tasks[..n]), q), View(ApplyAll(v, tasks), q);
            && (HitOn(v, tasks[n].path, q) ==> SeenFor(v, tasks[n], q, after))
            && (!HitOn(v, tasks[n].path, q) ==>
                  after == if BentAt(v, tasks[n].path, q) && BendSeen(v, tasks[..n], q).None?
                           then Look(BentTo(tasks[n].path[|q| - 1..])) else before)
    decreases |tasks|, 0
  {
    var n := |tasks| - 1;
    var front, path, before := tasks[..n], tasks[n].path, ApplyAll(v, tasks[..n]);
    LastApart(tasks);
    ApplySeen(before, path, tasks[n].effect, q);
    BentKept(v, front, path, q);
    assert ApplyAll(v, tasks) == Apply(before, path, tasks[n].effect);
    hide Apply, ApplyAll, BentAt, AllApart, ApartFromAll, BendSeen, View, Has, Get;
    if |q| >= |path| && Fits(path, q[..|path|]) {
      var m := q[..|path|];
      HitKept(v, front, path, m);
      if HitOn(v, path, q) {
        assert m <= q;
        AtTheEnd(v, front, path, m, q);
      }
    }
  }

  // Place by place, what several non-overlapping paths do together, on any document.
  lemma {:induction false} ApplyAllSeen(v: Node, tasks: seq<Task>, q: Loc)
    requires AllApart(tasks)
    ensures SeenForAll(v, tasks, q, View(ApplyAll(v, tasks), q))
    decreases |tasks|, 1
  {
    if tasks != [] {
      var n := |tasks| - 1;
      LastApart(tasks);
      ApplyAllSeen(v, tasks[..n], q);
      LastSeen(v, tasks, q);
      OneMoreSeen(v, tasks, q, View(ApplyAll(v, tasks[..n]), q), View(ApplyAll(v, tasks), q));
    }
  }

  lemma {:induction false} OneMoreSeen(v: Node, tasks: seq<Task>, q: Loc, before: Seen, after: Seen)
    requires AllApart(tasks) && tasks != [] && SeenForAll(v, tasks[..|tasks| - 1], q, before)
    requires var n := |tasks| - 1;
             && (HitOn(v, tasks[n].path, q) ==> SeenFor(v, tasks[n], q, after))
             && (!HitOn(v, tasks[n].path, q) ==>
                   after == if BentAt(v, tasks[n].path, q) && BendSeen(v, tasks[..n], q).None?
                            then Look(BentTo(tasks[n].path[|q| - 1..])) else before)
    ensures SeenForAll(v, tasks, q, after)
  {
    hide HitOn, BentAt, BentTo, AllApart, View;
    var n := |tasks| - 1;
    var front := tasks[..n];
    forall t | t in tasks && HitOn(v, t.path, q) ensures SeenFor(v, t, q, after) {
      var i :| 0 <= i < |tasks| && tasks[i] == t;
      if i < n {
        OneHitOn(v, tasks, i, n, q);
        assert front[i] == t && SeenFor(v, t, q, before);
      }
    }
    if forall t | t in tasks :: !HitOn(v, t.path, q) {
      assert forall t | t in front :: t in tasks;
      assert tasks[n] in tasks;
    }
  }

  // ----- the order does not matter ----------------------------------------------------------

  // One write per place that some task hits, in any order, each with the result its transform gives
  // for the value that was there at the start.
  ghost predicate WritesHit(v: Node, task: Task, w: Write) {
    HitAt(v, task.path, w.loc) && w.effect == task.effect(Get(v, w.loc))
  }

  ghost predicate HitBySome(v: Node, tasks: seq<Task>, w: Write) {
    exists i | 0 <= i < |tasks| :: WritesHit(v, tasks[i], w)
  }

  ghost predicate Enumerates(v: Node, tasks: seq<Task>, ws: seq<Write>) {
    && (forall w | 0 <= w < |ws| :: HitBySome(v, tasks, ws[w]))
    && (forall t, loc | t in tasks && HitAt(v, t.path, loc) :: exists w :: 0 <= w < |ws| && ws[w].loc == loc)
    && (forall w, x | 0 <= w < x < |ws| :: ws[w].loc != ws[x].loc)
  }

  lemma HitsScattered(v: Node, tasks: seq<Task>, ws: seq<Write>)
    requires AllApart(tasks) && Enumerates(v, tasks, ws)
    ensures Scattered(v, ws)
  {
    forall w, x | 0 <= w < x < |ws| ensures Apart(ws[w].loc, ws[x].loc) {
      var a, b := ws[w].loc, ws[x].loc;
      assert HitBySome(v, tasks, ws[w]) && HitBySome(v, tasks, ws[x]);
      var i :| 0 <= i < |tasks| && WritesHit(v, tasks[i], ws[w]);
      var j :| 0 <= j < |tasks| && WritesHit(v, tasks[j], ws[x]);
      if i == j {
        assert |a| == |b| && a != b;
      } else if i < j {
        assert PathsApart(tasks[i].path, tasks[j].path);
        HitsApart(tasks[i].path, tasks[j].path, a, b);
      } else {
        assert PathsApart(tasks[j].path, tasks[i].path);
        HitsApart(tasks[j].path, tasks[i].path, b, a);
      }
    }
  }

  lemma {:induction false} HitsApart(p: Path, q: Path, a: Loc, b: Loc)
    requires PathsApart(p, q) && Fits(p, a) && Fits(q, b) && |a| == |p| && |b| == |q|
    ensures Apart(a, b)
  {
    ApartBothWays(p, q);
    if a <= b {
      EndIsOwn(Null, q, p, a, b);
      assert false;
    }
    if b <= a {
      EndIsOwn(Null, p, q, b, a);
      assert false;
    }
  }

  // The paths with nothing done at their hits: only the nulls on the way are replaced.
  ghost function Bending(tasks: seq<Task>): seq<Task> {
    seq(|tasks|, i requires 0 <= i < |tasks| => Task(tasks[i].path, (_: Node) => Keep))
  }

  ghost function Bent(v: Node, tasks: seq<Task>): Node {
    ApplyAll(v, Bending(tasks))
  }

  lemma {:induction false} SameBends(v: Node, a: seq<Task>, b: seq<Task>, q: Loc)
    requires |a| == |b| && forall i | 0 <= i < |a| :: a[i].path == b[i].path
    ensures BendSeen(v, a, q) == BendSeen(v, b, q)
    decreases |a|
  {
    hide BentAt;
    if a != [] {
      SameBends(v, a[..|a| - 1], b[..|b| - 1], q);
    }
  }

  lemma BentSeen(v: Node, tasks: seq<Task>, q: Loc)
    requires AllApart(tasks)
    ensures View(Bent(v, tasks), q) == Unhit(v, tasks, q)
  {
    var bending := Bending(tasks);
    hide PathsApart, BentAt;
    assert AllApart(bending) by {
      assert forall i, j | 0 <= i < j < |tasks| :: PathsApart(tasks[i].path, tasks[j].path);
    }
    ApplyAllSeen(v, bending, q);
    SameBends(v, bending, tasks, q);
    hide ApplyAll, BendSeen, HitOn, View, Get;
    if t :| t in bending && HitOn(v, t.path, q) {
      assert SeenFor(v, t, q, View(Bent(v, tasks), q));
      var i :| 0 <= i < |bending| && bending[i] == t;
      assert t.effect(Get(v, q[..|t.path|])) == Keep;
      HitNotBent(v, tasks, i, q);
    }
  }

  lemma HitNotBent(v: Node, tasks: seq<Task>, i: nat, q: Loc)
    requires AllApart(tasks) && i < |tasks| && HitOn(v, tasks[i].path, q)
    ensures Unhit(v, tasks, q) == View(v, q)
  {
    hide HitOn, BentAt, BentTo;
    BendSeenIs(v, tasks, q);
    forall j | 0 <= j < |tasks| ensures !BentAt(v, tasks[j].path, q) {
      if j == i {
        NotBentOnHit(v, tasks[i].path, q);
      } else {
        OneHitOn(v, tasks, i, j, q);
      }
    }
  }

  // The main result: applying the paths one after the other is replacing the nulls on their way and
  // then writing all the hits, in any order of the writes.
  lemma {:induction false} AnyOrder(v: Node, tasks: seq<Task>, ws: seq<Write>)
    requires AllApart(tasks) && Enumerates(v, tasks, ws)
    ensures WriteAll(Bent(v, tasks), ws) == ApplyAll(v, tasks)
  {
    var bent := Bent(v, tasks);
    BentScattered(v, tasks, ws);
    forall q ensures View(WriteAll(bent, ws), q) == View(ApplyAll(v, tasks), q) {
      hide *;
      WritesSeen(bent, ws, q);
      ApplyAllSeen(v, tasks, q);
      BentSeen(v, tasks, q);
      SameCover(v, tasks, ws, q);
      CoverDecides(v, tasks, ws, q, View(WriteAll(bent, ws), q), View(ApplyAll(v, tasks), q));
    }
    ViewsDecide(WriteAll(bent, ws), ApplyAll(v, tasks));
  }

  lemma BentScattered(v: Node, tasks: seq<Task>, ws: seq<Write>)
    requires AllApart(tasks) && Enumerates(v, tasks, ws)
    ensures Scattered(Bent(v, tasks), ws)
  {
    HitsScattered(v, tasks, ws);
    hide Bent, AllApart, Apart, HitAt, Has, Get;
    forall w | 0 <= w < |ws| ensures Has(Bent(v, tasks), ws[w].loc) {
      HitPlaceStays(v, tasks, ws, w);
    }
  }

  lemma HitPlaceStays(v: Node, tasks: seq<Task>, ws: seq<Write>, w: nat)
    requires AllApart(tasks) && Enumerates(v, tasks, ws) && w < |ws|
    ensures Has(Bent(v, tasks), ws[w].loc)
  {
    hide Bent, AllApart, HitAt, Get;
    assert HitBySome(v, tasks, ws[w]);
    var i :| 0 <= i < |tasks| && WritesHit(v, tasks[i], ws[w]);
    HitStays(v, tasks, i, ws[w].loc);
  }

  lemma {:induction false} HitStays(v: Node, tasks: seq<Task>, i: nat, loc: Loc)
    requires AllApart(tasks) && i < |tasks| && HitAt(v, tasks[i].path, loc)
    ensures Has(Bent(v, tasks), loc)
  {
    assert loc[..|tasks[i].path|] == loc;
    assert HitOn(v, tasks[i].path, loc) && View(v, loc) != Absent;
    hide Bent, AllApart, HitOn, HitAt, Unhit, Get;
    HitNotBent(v, tasks, i, loc);
    BentSeen(v, tasks, loc);
  }

  // A place is covered by a write exactly when a task hits it, and then both show the same there.
  ghost predicate SameCovers(v: Node, tasks: seq<Task>, ws: seq<Write>, q: Loc) {
    && (forall w | 0 <= w < |ws| && Covers(ws[w], q) :: exists t :: t in tasks && ShowsAs(v, t, q, ws[w]))
    && (forall t | t in tasks && HitOn(v, t.path, q) :: exists w :: 0 <= w < |ws| && Covers(ws[w], q))
  }

  ghost predicate ShowsAs(v: Node, task: Task, q: Loc, w: Write) {
    && HitOn(v, task.path, q)
    && Covers(w, q)
    && forall seen :: SeenFor(v, task, q, seen) <==> seen == After(w.effect, q[|w.loc|..], View(v, q))
  }

  lemma SameCover(v: Node, tasks: seq<Task>, ws: seq<Write>, q: Loc)
    requires Enumerates(v, tasks, ws)
    ensures SameCovers(v, tasks, ws, q)
  {
    forall w | 0 <= w < |ws| && Covers(ws[w], q)
      ensures exists t :: t in tasks && ShowsAs(v, t, q, ws[w])
    {
      assert HitBySome(v, tasks, ws[w]);
      var i :| 0 <= i < |tasks| && WritesHit(v, tasks[i], ws[w]);
      var t := tasks[i];
      assert q[..|t.path|] == ws[w].loc;
      assert ShowsAs(v, t, q, ws[w]);
    }
  }

  lemma CoverDecides(v: Node, tasks: seq<Task>, ws: seq<Write>, q: Loc, written: Seen, applied: Seen)
    requires AllApart(tasks) && SameCovers(v, tasks, ws, q) && SeenForAll(v, tasks, q, applied)
    requires forall w | 0 <= w < |ws| && Covers(ws[w], q) ::
               written == After(ws[w].effect, q[|ws[w].loc|..], Unhit(v, tasks, q))
    requires (forall w | 0 <= w < |ws| :: !Covers(ws[w], q)) ==> written == Unhit(v, tasks, q)
    ensures written == applied
  {
    hide Unhit, HitOn, AllApart, View, After, SeenFor;
    if w :| 0 <= w < |ws| && Covers(ws[w], q) {
      var t :| t in tasks && ShowsAs(v, t, q, ws[w]);
      var i :| 0 <= i < |tasks| && tasks[i] == t;
      HitNotBent(v, tasks, i, q);
      assert SeenFor(v, t, q, applied);
    }
  }

  // ----- the order of the paths -------------------------------------------------------------

  // Wherever both paths find a null they would put the same container in its place.
  ghost predicate Agree(v: Node, p: Path, q: Path) {
    forall loc | BentAt(v, p, loc) && BentAt(v, q, loc) :: BentTo(p[|loc| - 1..]) == BentTo(q[|loc| - 1..])
  }

  ghost predicate AllAgree(v: Node, tasks: seq<Task>) {
    forall i, j | 0 <= i < |tasks| && 0 <= j < |tasks| :: Agree(v, tasks[i].path, tasks[j].path)
  }

  // The same paths, listed in some order; no path is there twice, being apart from all the others.
  ghost predicate Reorders(tasks: seq<Task>, others: seq<Task>) {
    AllApart(others) && forall t :: t in tasks <==> t in others
  }

  // Tasks that agree leave the same in place of a null as the others do, if there is one.
  lemma {:induction false} Covered(v: Node, tasks: seq<Task>, others: seq<Task>, q: Loc)
    requires AllAgree(v, tasks) && (forall t | t in others :: t in tasks) && BendSeen(v, others, q).Some?
    ensures BendSeen(v, tasks, q) == BendSeen(v, others, q)
  {
    hide AllAgree, Agree, View;
    BendSeenIs(v, others, q);
    BendSeenIs(v, tasks, q);
    var j: nat :| BendsWith(v, others, q, j, BendSeen(v, others, q).value);
    assert others[j] in tasks;
    var k :| 0 <= k < |tasks| && tasks[k] == others[j];
    assert BentAt(v, tasks[k].path, q);
    var i: nat :| BendsWith(v, tasks, q, i, BendSeen(v, tasks, q).value);
    AgreeAt(v, tasks, i, k, q);
  }

  lemma AgreeAt(v: Node, tasks: seq<Task>, i: nat, k: nat, q: Loc)
    requires AllAgree(v, tasks) && i < |tasks| && k < |tasks| && BentAt(v, tasks[i].path, q) && BentAt(v, tasks[k].path, q)
    ensures BentTo(tasks[i].path[|q| - 1..]) == BentTo(tasks[k].path[|q| - 1..])
  {
    hide BentTo, View, Fits, Has, Get;
    assert Agree(v, tasks[i].path, tasks[k].path);
  }

  lemma SameUnhit(v: Node, tasks: seq<Task>, others: seq<Task>, q: Loc)
    requires AllAgree(v, tasks) && Reorders(tasks, others)
    ensures Unhit(v, tasks, q) == Unhit(v, others, q)
  {
    hide AllApart, AllAgree, View;
    BendSeenIs(v, tasks, q);
    if BendSeen(v, others, q).Some? {
      Covered(v, tasks, others, q);
    } else if BendSeen(v, tasks, q).Some? {
      var i: nat :| BendsWith(v, tasks, q, i, BendSeen(v, tasks, q).value);
      assert tasks[i] in others;
      var k :| 0 <= k < |others| && others[k] == tasks[i];
      BendSeenIs(v, others, q);
      assert false;
    }
  }

  lemma {:induction false} SameInAnyOrder(v: Node, tasks: seq<Task>, others: seq<Task>)
    requires AllApart(tasks) && AllAgree(v, tasks) && Reorders(tasks, others)
    ensures ApplyAll(v, others) == ApplyAll(v, tasks)
  {
    hide ApplyAll, AllApart, View, HitOn, Unhit, AllAgree;
    forall q ensures View(ApplyAll(v, others), q) == View(ApplyAll(v, tasks), q) {
      ApplyAllSeen(v, tasks, q);
      ApplyAllSeen(v, others, q);
      SameUnhit(v, tasks, others, q);
      if t :| t in tasks && HitOn(v, t.path, q) {
        assert t in others;
      }
    }
    ViewsDecide(ApplyAll(v, others), ApplyAll(v, tasks));
  }

  ghost function MovedFirst(tasks: seq<Task>, i: nat): seq<Task>
    requires i < |tasks|
  {
    [tasks[i]] + tasks[..i] + tasks[i + 1..]
  }

  lemma MovedFirstAt(tasks: seq<Task>, i: nat, k: nat)
    requires i < |tasks| && k < |tasks|
    ensures |MovedFirst(tasks, i)| == |tasks|
    ensures MovedFirst(tasks, i)[k] == tasks[if k == 0 then i else if k <= i then k - 1 else k]
  {
  }

  lemma MovedFirstSame(tasks: seq<Task>, i: nat, t: Task)
    requires i < |tasks|
    ensures |MovedFirst(tasks, i)| == |tasks| && (t in tasks <==> t in MovedFirst(tasks, i))
  {
    assert tasks == tasks[..i] + [tasks[i]] + tasks[i + 1..];
  }

  lemma MovedFirstReorders(tasks: seq<Task>, i: nat)
    requires AllApart(tasks) && i < |tasks|
    ensures Reorders(tasks, MovedFirst(tasks, i))
  {
    hide PathsApart, MovedFirst;
    var moved := MovedFirst(tasks, i);
    MovedFirstAt(tasks, i, 0);
    forall t ensures t in tasks <==> t in moved {
      MovedFirstSame(tasks, i, t);
    }
    forall a, b | 0 <= a < b < |moved| ensures PathsApart(moved[a].path, moved[b].path) {
      MovedFirstAt(tasks, i, a);
      MovedFirstAt(tasks, i, b);
      if a == 0 && b <= i {
        assert PathsApart(tasks[b - 1].path, tasks[i].path);
        ApartBothWays(tasks[b - 1].path, tasks[i].path);
      }
    }
  }

  lemma {:induction false} FirstBends(v: Node, tasks: seq<Task>, q: Loc)
    requires tasks != [] && BentAt(v, tasks[0].path, q)
    ensures BendSeen(v, tasks, q) == Some(Look(BentTo(tasks[0].path[|q| - 1..])))
    decreases |tasks|
  {
    hide BentAt, BentTo;
    if |tasks| > 1 {
      FirstBends(v, tasks[..|tasks| - 1], q);
    } else {
      assert BendSeen(v, tasks[..0], q) == None;
    }
  }

  lemma NoHitOnBent(v: Node, tasks: seq<Task>, i: nat, q: Loc)
    requires AllApart(tasks) && i < |tasks| && BentAt(v, tasks[i].path, q)
    ensures forall t | t in tasks :: !HitOn(v, t.path, q)
  {
    hide HitOn, BentAt;
    forall t | t in tasks ensures !HitOn(v, t.path, q) {
      var j :| 0 <= j < |tasks| && tasks[j] == t;
      if HitOn(v, t.path, q) {
        HitBendsNowhere(v, tasks, j, i, q);
        assert false;
      }
    }
  }

  lemma HitBendsNowhere(v: Node, tasks: seq<Task>, j: nat, i: nat, q: Loc)
    requires AllApart(tasks) && i < |tasks| && j < |tasks| && HitOn(v, tasks[j].path, q)
    ensures !BentAt(v, tasks[i].path, q)
  {
    if i == j {
      NotBentOnHit(v, tasks[i].path, q);
    } else {
      OneHitOn(v, tasks, j, i, q);
    }
  }

  // The path that comes first decides what becomes of the nulls it finds.
  lemma {:induction false} FirstDecides(v: Node, tasks: seq<Task>, i: nat, q: Loc)
    requires AllApart(tasks) && i < |tasks| && BentAt(v, tasks[i].path, q)
    ensures View(ApplyAll(v, MovedFirst(tasks, i)), q) == Look(BentTo(tasks[i].path[|q| - 1..]))
  {
    hide ApplyAll, BentAt, BentTo, HitOn, PathsApart, View;
    var moved := MovedFirst(tasks, i);
    MovedFirstReorders(tasks, i);
    FirstBends(v, moved, q);
    NoHitOnBent(v, moved, 0, q);
    ApplyAllSeen(v, moved, q);
  }

  // Of several paths the first that finds a null decides what becomes of it: an empty array if its segment
  // that leads there is an index, or is a `*` before an index; an empty object otherwise.
  lemma {:induction false} NullBecomes(v: Node, tasks: seq<Task>, i: nat, q: Loc)
    requires AllApart(tasks) && i < |tasks| && BentAt(v, tasks[i].path, q)
    requires forall j | 0 <= j < i :: !BentAt(v, tasks[j].path, q)
    ensures var path, n := tasks[i].path, |q|;
            var asArray := (path[n - 1].Field? && path[n - 1].key.Index?) ||
                           (path[n - 1].Star? && n < |path| && path[n].Field? && path[n].key.Index?);
            View(ApplyAll(v, tasks), q) == SeenContainer(if asArray then Array else Object, 0)
    ensures forall rest | rest != [] :: View(ApplyAll(v, tasks), q + rest) == Absent
  {
    hide ApplyAll, AllApart, Apply, Fits;
    NoHitOnBent(v, tasks, i, q);
    ApplyAllSeen(v, tasks, q);
    FirstOf(v, tasks, i, q);
    forall rest | rest != [] ensures View(ApplyAll(v, tasks), q + rest) == Absent {
      BelowNullAll(v, tasks, i, q, rest);
    }
  }

  lemma {:induction false} FirstOf(v: Node, tasks: seq<Task>, i: nat, q: Loc)
    requires i < |tasks| && BentAt(v, tasks[i].path, q) && forall j | 0 <= j < i :: !BentAt(v, tasks[j].path, q)
    ensures BendSeen(v, tasks, q) == Some(Look(BentTo(tasks[i].path[|q| - 1..])))
    decreases |tasks|
  {
    hide BentAt, BentTo;
    var n := |tasks| - 1;
    if i < n {
      FirstOf(v, tasks[..n], i, q);
    } else {
      NoBendSeen(v, tasks[..n], q);
    }
  }

  lemma {:induction false} NoBendSeen(v: Node, tasks: seq<Task>, q: Loc)
    requires forall t | t in tasks :: !BentAt(v, t.path, q)
    ensures BendSeen(v, tasks, q) == None
  {
    hide BentAt, BentTo;
    if tasks != [] {
      NoBendSeen(v, tasks[..|tasks| - 1], q);
    }
  }

  // There is nothing below a null, and no path goes on there.
  lemma {:induction false} BelowNullAll(v: Node, tasks: seq<Task>, i: nat, q: Loc, rest: Loc)
    requires AllApart(tasks) && i < |tasks| && BentAt(v, tasks[i].path, q) && rest != []
    ensures View(ApplyAll(v, tasks), q + rest) == Absent
  {
    hide ApplyAll, AllApart, Apply, Fits, BentTo;
    NothingUnderNull(v, q, rest);
    NoHitOnBent(v, tasks, i, q);
    forall t | t in tasks ensures !HitOn(v, t.path, q + rest) && !BentAt(v, t.path, q + rest) {
      if HitOn(v, t.path, q + rest) {
        HitUnderNull(v, t.path, q, rest);
        assert false;
      }
    }
    ApplyAllSeen(v, tasks, q + rest);
    NoBendSeen(v, tasks, q + rest);
  }

  lemma NothingUnderNull(v: Node, q: Loc, rest: Loc)
    requires View(v, q) == SeenNull && rest != []
    ensures View(v, q + rest) == Absent
  {
    HasAppend(v, q, rest);
  }

  lemma HitUnderNull(v: Node, path: Path, q: Loc, rest: Loc)
    requires View(v, q) == SeenNull && HitOn(v, path, q + rest)
    ensures HitOn(v, path, q)
  {
    hide Fits;
    var m := (q + rest)[..|path|];
    if |path| > |q| {
      assert m == q + rest[..|path| - |q|];
      NothingUnderNull(v, q, rest[..|path| - |q|]);
    } else {
      assert m == q[..|path|];
    }
  }

  lemma {:induction false} Disagreement(v: Node, tasks: seq<Task>, i: nat, j: nat)
    requires AllApart(tasks) && i < |tasks| && j < |tasks| && !Agree(v, tasks[i].path, tasks[j].path)
    ensures ApplyAll(v, MovedFirst(tasks, i)) != ApplyAll(v, MovedFirst(tasks, j))
  {
    hide ApplyAll, AllApart, MovedFirst, View, Fits, Has, Get;
    var p, q := tasks[i].path, tasks[j].path;
    var loc :| BentAt(v, p, loc) && BentAt(v, q, loc) && BentTo(p[|loc| - 1..]) != BentTo(q[|loc| - 1..]);
    FirstDecides(v, tasks, i, loc);
    FirstDecides(v, tasks, j, loc);
  }

  // The order of the paths does not matter on a document if and only if, wherever two of them find the
  // same null, they would put the same container in its place.
  lemma {:induction false} OrderIndependentIff(v: Node, tasks: seq<Task>)
    requires AllApart(tasks)
    ensures (forall others | Reorders(tasks, others) :: ApplyAll(v, others) == ApplyAll(v, tasks)) <==> AllAgree(v, tasks)
  {
    hide ApplyAll, AllApart, Agree, MovedFirst;
    if AllAgree(v, tasks) {
      forall others | Reorders(tasks, others) ensures ApplyAll(v, others) == ApplyAll(v, tasks) {
        SameInAnyOrder(v, tasks, others);
      }
    } else {
      var i, j :| 0 <= i < |tasks| && 0 <= j < |tasks| && !Agree(v, tasks[i].path, tasks[j].path);
      Disagreement(v, tasks, i, j);
      MovedFirstReorders(tasks, i);
      MovedFirstReorders(tasks, j);
    }
  }

  // The same of two paths, one after the other.
  lemma {:induction false} TwoPathsIff(v: Node, p: Path, e: Node -> Effect, q: Path, f: Node -> Effect)
    requires PathsApart(p, q)
    ensures Apply(Apply(v, p, e), q, f) == Apply(Apply(v, q, f), p, e) <==> Agree(v, p, q)
  {
    hide ApplyAll, Apply, PathsApart, Agree;
    var tasks := [Task(p, e), Task(q, f)];
    TwoPaths(v, p, e, q, f);
    TwoPaths(v, q, f, p, e);
    assert AllApart(tasks);
    MovedFirstReorders(tasks, 0);
    MovedFirstReorders(tasks, 1);
    assert MovedFirst(tasks, 0) == tasks && MovedFirst(tasks, 1) == [Task(q, f), Task(p, e)];
    if Agree(v, p, q) {
      TwoAgree(v, p, q);
      assert AllAgree(v, tasks);
      SameInAnyOrder(v, tasks, MovedFirst(tasks, 1));
    } else {
      Disagreement(v, tasks, 0, 1);
    }
  }

  lemma TwoAgree(v: Node, p: Path, q: Path)
    requires Agree(v, p, q)
    ensures Agree(v, q, p) && Agree(v, p, p) && Agree(v, q, q)
  {
    hide BentAt, BentTo;
  }

  lemma {:induction false} TwoPaths(v: Node, p: Path, e: Node -> Effect, q: Path, f: Node -> Effect)
    ensures ApplyAll(v, [Task(p, e), Task(q, f)]) == Apply(Apply(v, p, e), q, f)
  {
    var tasks := [Task(p, e), Task(q, f)];
    hide Apply;
    assert tasks[..1] == [Task(p, e)] && tasks[..1][..0] == [];
    assert ApplyAll(v, tasks[..1]) == Apply(ApplyAll(v, tasks[..1][..0]), p, e);
  }

  // No path meets a null on its way.
  ghost predicate NoneBent(v: Node, tasks: seq<Task>) {
    forall i, loc | 0 <= i < |tasks| :: !BentAt(v, tasks[i].path, loc)
  }

  // Paths can disagree: under `*` the next segment picks the container that replaces a null, so two
  // non-overlapping paths can want different ones.
  lemma WantDifferent(k: Key, b: Key, n: nat)
    requires b.Name?
    ensures !Agree(Container(Object, 0, map[k := Null]), [Star, Field(Index(n)), Field(b)], [Star, Field(b), Field(b)])
  {
    var v := Container(Object, 0, map[k := Null]);
    var p: Path := [Star, Field(Index(n)), Field(b)];
    var q: Path := [Star, Field(b), Field(b)];
    BentHere(v, p, [k]);
    BentHere(v, q, [k]);
    assert p[0..] == p && q[0..] == q;
    assert BentTo(p) == Emptied(true) && BentTo(q) == Emptied(false);
    hide BentAt, BentTo;
  }

  lemma NullMakesOrderMatter(k: Key, b: Key, n: nat, effect: Node -> Effect)
    requires b.Name?
    ensures var v := Container(Object, 0, map[k := Null]);
            var first := Task([Star, Field(Index(n)), Field(b)], effect);
            var second := Task([Star, Field(b), Field(b)], effect);
            && PathsApart(first.path, second.path)
            && !Throws(v, first.path) && !Throws(v, second.path)
            && ApplyAll(v, [first, second]) != ApplyAll(v, [second, first])
  {
    hide Apply, ApplyAll, Agree, BentTo;
    var v := Container(Object, 0, map[k := Null]);
    var p: Path := [Star, Field(Index(n)), Field(b)];
    var q: Path := [Star, Field(b), Field(b)];
    assert p[1].Field? && q[1].Field? && p[1] != q[1];
    WantDifferent(k, b, n);
    TwoPathsIff(v, p, effect, q, effect);
    TwoPaths(v, p, effect, q, effect);
    TwoPaths(v, q, effect, p, effect);
  }
}
