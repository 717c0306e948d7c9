// Undoing one path transform by another over the same paths: when the second takes back, value by
// value, what the first has put, the tree is as it was.

module PathInverse {
  import opened Prelude
  import opened JsTree
  import opened PathTransform
  import opened PathOrder

  // The place is on the way of the path, short of its hits.
  predicate OnTheWay(path: Path, loc: Loc) {
    Fits(path, loc) && (|loc| < |path| || path == [] || path[|path| - 1].Star?)
  }

  ghost predicate SamePaths(a: seq<Task>, b: seq<Task>) {
    |a| == |b| && forall i | 0 <= i < |a| :: a[i].path == b[i].path
  }

  lemma {:induction false} FitsLength(path: Path, loc: Loc)
    requires Fits(path, loc)
    ensures |loc| <= |path|
  {
    if loc != [] {
      FitsLength(path[1..], loc[1..]);
    }
  }

  lemma Differ(tasks: seq<Task>, i: nat, j: nat)
    requires AllApart(tasks) && i < |tasks| && j < |tasks| && i != j
    ensures PathsApart(tasks[i].path, tasks[j].path)
  {
    hide PathsApart;
    if j < i {
      ApartBothWays(tasks[j].path, tasks[i].path);
    }
  }

  // No hit of any of the paths is on the way of one of them.
  lemma NoHitOnTheWay(v: Node, tasks: seq<Task>, i: nat, loc: Loc)
    requires AllApart(tasks) && i < |tasks| && OnTheWay(tasks[i].path, loc)
    ensures forall t | t in tasks :: !HitOn(v, t.path, loc)
  {
    hide AllApart, PathsApart, Fits;
    forall t | t in tasks ensures !HitOn(v, t.path, loc) {
      var j :| 0 <= j < |tasks| && tasks[j] == t;
      if j != i {
        Differ(tasks, j, i);
        NoHitAlong(v, t.path, tasks[i].path, loc);
      } else {
        FitsLength(t.path, loc);
      }
    }
  }

  // On the way of a path only nulls change.
  lemma {:induction false} WaySeen(v: Node, tasks: seq<Task>, i: nat, loc: Loc)
    requires AllApart(tasks) && i < |tasks| && OnTheWay(tasks[i].path, loc)
    ensures View(ApplyAll(v, tasks), loc) == Unhit(v, tasks, loc)
  {
    hide ApplyAll, AllApart, HitOn, View, Unhit;
    NoHitOnTheWay(v, tasks, i, loc);
    ApplyAllSeen(v, tasks, loc);
  }

  lemma NotBentIsView(v: Node, tasks: seq<Task>, q: Loc)
    requires NoneBent(v, tasks)
    ensures Unhit(v, tasks, q) == View(v, q)
  {
    hide BentAt, View;
    BendSeenIs(v, tasks, q);
  }

  // A null on the way has been there before.
  lemma {:induction false} WasNull(v: Node, tasks: seq<Task>, i: nat, loc: Loc)
    requires AllApart(tasks) && NoneBent(v, tasks) && i < |tasks|
    ensures BentAt(ApplyAll(v, tasks), tasks[i].path, loc) ==> BentAt(v, tasks[i].path, loc)
  {
    hide AllApart, NoneBent, ApplyAll, Unhit;
    if BentAt(ApplyAll(v, tasks), tasks[i].path, loc) {
      var parent := loc[..|loc| - 1];
      FitsPrefix(tasks[i].path, loc, |loc| - 1);
      WaySeen(v, tasks, i, loc);
      WaySeen(v, tasks, i, parent);
      NotBentIsView(v, tasks, loc);
      NotBentIsView(v, tasks, parent);
    }
  }

  lemma {:induction false} StaysUnbent(v: Node, tasks: seq<Task>)
    requires AllApart(tasks) && NoneBent(v, tasks)
    ensures NoneBent(ApplyAll(v, tasks), tasks)
  {
    hide AllApart, BentAt, ApplyAll;
    forall i, loc | 0 <= i < |tasks| ensures !BentAt(ApplyAll(v, tasks), tasks[i].path, loc) {
      WasNull(v, tasks, i, loc);
    }
  }

  lemma {:induction false} OnlyItsTask(v: Node, tasks: seq<Task>, i: nat, m: Loc)
    requires AllApart(tasks) && i < |tasks| && Fits(tasks[i].path, m) && |m| == |tasks[i].path|
    ensures forall j | 0 <= j < |tasks| && HitOn(v, tasks[j].path, m) :: j == i
  {
    hide AllApart, PathsApart, HitOn, Fits;
    forall j | 0 <= j < |tasks| && HitOn(v, tasks[j].path, m) ensures j == i {
      if j != i {
        Differ(tasks, j, i);
        EndIsOwn(v, tasks[j].path, tasks[i].path, m, m);
        assert false;
      }
    }
  }

  // A hit holds, afterwards, exactly what it was given.
  lemma {:induction false} HitHolds(v: Node, tasks: seq<Task>, i: nat, m: Loc)
    requires AllApart(tasks) && i < |tasks| && HitAt(v, tasks[i].path, m)
    requires tasks[i].effect(Get(v, m)).Put?
    ensures var after := ApplyAll(v, tasks);
            HitAt(after, tasks[i].path, m) && Get(after, m) == tasks[i].effect(Get(v, m)).value
  {
    var after, x := ApplyAll(v, tasks), tasks[i].effect(Get(v, m)).value;
    forall rest ensures View(after, m + rest) == View(x, rest) {
      HitShows(v, tasks, i, m, rest);
    }
    hide ApplyAll, AllApart, HitAt;
    assert View(after, m + []) == View(x, []) && m + [] == m;
    assert Has(after, m);
    forall rest ensures View(Get(after, m), rest) == View(x, rest) {
      assert View(after, m + rest) == View(x, rest);
      HasAppend(after, m, rest);
    }
    ViewsDecide(Get(after, m), x);
    StillHit(v, after, tasks[i].path, m);
  }

  lemma {:induction false} HitShows(v: Node, tasks: seq<Task>, i: nat, m: Loc, rest: Loc)
    requires AllApart(tasks) && i < |tasks| && HitAt(v, tasks[i].path, m)
    requires tasks[i].effect(Get(v, m)).Put?
    ensures View(ApplyAll(v, tasks), m + rest) == View(tasks[i].effect(Get(v, m)).value, rest)
  {
    hide ApplyAll, AllApart, Unhit, Fits;
    var q := m + rest;
    assert q[..|m|] == m && q[|m|..] == rest;
    assert HitOn(v, tasks[i].path, q) && tasks[i] in tasks;
    ApplyAllSeen(v, tasks, q);
    assert SeenFor(v, tasks[i], q, View(ApplyAll(v, tasks), q));
  }

  lemma {:induction false} StillHit(v: Node, after: Node, path: Path, m: Loc)
    requires HitAt(v, path, m) ==> Has(after, m)
    ensures HitAt(v, path, m) ==> HitAt(after, path, m)
  {
  }

  lemma {:induction false} AbsentMissed(v: Node, tasks: seq<Task>, i: nat, m: Loc)
    requires AllApart(tasks) && i < |tasks| && Fits(tasks[i].path, m) && |m| == |tasks[i].path| && !Has(v, m)
    ensures (forall t | t in tasks :: !HitOn(v, t.path, m)) && View(ApplyAll(v, tasks), m) == Absent
  {
    assert m[..|m|] == m;
    assert !HitOn(v, tasks[i].path, m) && View(v, m) == Absent;
    OnlyItsTask(v, tasks, i, m);
    hide ApplyAll, AllApart, HitOn, View, Fits, Has;
    forall t | t in tasks ensures !HitOn(v, t.path, m) {
      var j :| 0 <= j < |tasks| && tasks[j] == t;
    }
    ApplyAllSeen(v, tasks, m);
    BendsANull(v, tasks, m);
  }

  // No place becomes a hit.
  lemma {:induction false} NoNewHit(v: Node, tasks: seq<Task>, i: nat, m: Loc)
    requires AllApart(tasks) && i < |tasks| && HitAt(ApplyAll(v, tasks), tasks[i].path, m)
    ensures HitAt(v, tasks[i].path, m)
  {
    hide ApplyAll, AllApart;
    if !Has(v, m) {
      AbsentMissed(v, tasks, i, m);
    }
  }

  // The second of the tasks takes back what the first has put.
  ghost predicate TakesBack(v: Node, tasks: seq<Task>, undo: seq<Task>) {
    SamePaths(tasks, undo) &&
    forall i, m | 0 <= i < |tasks| && HitAt(v, tasks[i].path, m) ::
      var put := tasks[i].effect(Get(v, m)); put.Put? && undo[i].effect(put.value) == Put(Get(v, m))
  }

  lemma SameApart(tasks: seq<Task>, undo: seq<Task>)
    requires SamePaths(tasks, undo) && AllApart(tasks)
    ensures AllApart(undo)
  {
    hide PathsApart;
    assert forall i, j | 0 <= i < j < |tasks| :: PathsApart(tasks[i].path, tasks[j].path);
  }

  lemma SameUnbent(v: Node, tasks: seq<Task>, undo: seq<Task>)
    requires SamePaths(tasks, undo) && NoneBent(v, tasks)
    ensures NoneBent(v, undo)
  {
    hide BentAt;
    forall i, loc | 0 <= i < |undo| ensures !BentAt(v, undo[i].path, loc) {
      assert !BentAt(v, tasks[i].path, loc);
    }
  }

  lemma {:induction false} BackAtHit(v: Node, tasks: seq<Task>, undo: seq<Task>, i: nat, q: Loc)
    requires AllApart(tasks) && TakesBack(v, tasks, undo)
    requires i < |tasks| && HitOn(v, tasks[i].path, q)
    ensures View(ApplyAll(ApplyAll(v, tasks), undo), q) == View(v, q)
  {
    hide ApplyAll, AllApart, HitAt, Fits;
    var after, path := ApplyAll(v, tasks), tasks[i].path;
    var m, rest := q[..|path|], q[|path|..];
    assert HitAt(v, path, m) && q == m + rest;
    HitHolds(v, tasks, i, m);
    SameApart(tasks, undo);
    HitLength(v, path, m);
    HitShows(after, undo, i, m, rest);
    HasAppend(v, m, rest);
  }

  lemma {:induction false} HitLength(v: Node, path: Path, m: Loc)
    requires HitAt(v, path, m)
    ensures |m| == |path| && Has(v, m)
  {
  }

  lemma {:induction false} BackElsewhere(v: Node, tasks: seq<Task>, undo: seq<Task>, q: Loc)
    requires AllApart(tasks) && NoneBent(v, tasks) && SamePaths(tasks, undo)
    requires forall i | 0 <= i < |tasks| :: !HitOn(v, tasks[i].path, q)
    ensures View(ApplyAll(ApplyAll(v, tasks), undo), q) == View(v, q)
  {
    hide ApplyAll, AllApart, NoneBent, HitAt, View, Unhit;
    var after := ApplyAll(v, tasks);
    StaysUnbent(v, tasks);
    SameApart(tasks, undo);
    SameUnbent(after, tasks, undo);
    forall t | t in undo ensures !HitOn(after, t.path, q) {
      var i :| 0 <= i < |undo| && undo[i] == t;
      if HitOn(after, t.path, q) {
        NoNewHit(v, tasks, i, q[..|t.path|]);
        assert false;
      }
    }
    ApplyAllSeen(after, undo, q);
    forall t | t in tasks ensures !HitOn(v, t.path, q) {
      var i :| 0 <= i < |tasks| && tasks[i] == t;
    }
    ApplyAllSeen(v, tasks, q);
    NotBentIsView(v, tasks, q);
    NotBentIsView(after, undo, q);
  }

  // With no null on the way the tree is as it was.
  lemma {:induction false} Restores(v: Node, tasks: seq<Task>, undo: seq<Task>)
    requires AllApart(tasks) && NoneBent(v, tasks) && TakesBack(v, tasks, undo)
    ensures ApplyAll(ApplyAll(v, tasks), undo) == v
  {
    hide AllApart, NoneBent, ApplyAll, View, HitOn;
    var back := ApplyAll(ApplyAll(v, tasks), undo);
    forall q ensures View(back, q) == View(v, q) {
      if i :| 0 <= i < |tasks| && HitOn(v, tasks[i].path, q) {
        BackAtHit(v, tasks, undo, i, q);
      } else {
        BackElsewhere(v, tasks, undo, q);
      }
    }
    ViewsDecide(back, v);
  }

  // A null on the way never comes back, whatever the second one does.
  lemma {:induction false} NullIsLost(v: Node, tasks: seq<Task>, undo: seq<Task>, i: nat, loc: Loc)
    requires AllApart(tasks) && SamePaths(tasks, undo) && i < |tasks| && BentAt(v, tasks[i].path, loc)
    ensures ApplyAll(ApplyAll(v, tasks), undo) != v
  {
    var after := ApplyAll(v, tasks);
    assert View(v, loc) == SeenNull && OnTheWay(tasks[i].path, loc);
    hide ApplyAll, AllApart, BentAt, View, OnTheWay;
    WaySeen(v, tasks, i, loc);
    BendSeenIs(v, tasks, loc);
    BendsANull(v, tasks, loc);
    SameApart(tasks, undo);
    WaySeen(after, undo, i, loc);
    BendsANull(after, undo, loc);
  }

  // So of two transforms the second of which takes back each value the first one puts, the second
  // undoes the first if and only if no null stands on the way.
  lemma {:induction false} RestoresIff(v: Node, tasks: seq<Task>, undo: seq<Task>)
    requires AllApart(tasks) && TakesBack(v, tasks, undo)
    ensures ApplyAll(ApplyAll(v, tasks), undo) == v <==> NoneBent(v, tasks)
  {
    hide AllApart, ApplyAll, BentAt;
    if NoneBent(v, tasks) {
      Restores(v, tasks, undo);
    } else {
      var i, loc :| 0 <= i < |tasks| && BentAt(v, tasks[i].path, loc);
      NullIsLost(v, tasks, undo, i, loc);
    }
  }
}
