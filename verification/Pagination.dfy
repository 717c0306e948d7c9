// Page and cursor pagination over a collection ordered by `_id`, and what a walk along the cursors
// returns while other clients insert, change and delete documents.

module Pagination {
  import opened Prelude
  import opened FilterMeaning

  // An `_id`. Only its order and its truthiness matter: of all the ids, 0 alone is falsy.
  type Id = int

  datatype Record = Record(id: Id, doc: Document)

  // A collection is the sequence of its documents in `_id` order, the order both statics read it in.
  type Collection = seq<Record>

  // What the filter asks of a document; it does not name `_id`.
  type Query = Document -> bool

  ghost predicate Ascending(s: seq<Record>) {
    forall i, j | 0 <= i < j < |s| :: s[i].id < s[j].id
  }

  // ----- combining a search with a filter ---------------------------------------------------

  predicate IsEmpty(f: Filter) {
    f.orBranches.Absent? && f.andBranches.Absent? && f.norBranches.Absent? && f.fields == map[]
  }

  function CombineFilters(search: Filter, filter: Filter): Filter {
    if IsEmpty(search) then filter
    else if IsEmpty(filter) then search
    else Filter(Absent, Branches.Branches([search, filter]), Absent, map[])
  }

  // The combination asks for both, whatever keys the two have in common.
  lemma {:induction false} CombinedMeansBoth(other: OtherOps, search: Filter, filter: Filter, d: Document)
    ensures Matches(other, CombineFilters(search, filter), d) <==> Matches(other, search, d) && Matches(other, filter, d)
  {
    if !IsEmpty(search) && !IsEmpty(filter) {
      assert search in [search, filter] && filter in [search, filter];
    }
  }

  // ----- find -------------------------------------------------------------------------------

  predicate Truthy(cursor: Option<Id>) {
    cursor.Some? && cursor.value != 0
  }

  // `_id: { $gt: cursor }` joins the query only for a truthy cursor.
  predicate Asked(q: Query, cursor: Option<Id>, r: Record) {
    q(r.doc) && (Truthy(cursor) ==> r.id > cursor.value)
  }

  function Find(c: Collection, q: Query, cursor: Option<Id>): seq<Record> {
    if c == [] then [] else (if Asked(q, cursor, c[0]) then [c[0]] else []) + Find(c[1..], q, cursor)
  }

  lemma {:induction false} FindFinds(c: Collection, q: Query, cursor: Option<Id>)
    ensures forall r :: r in Find(c, q, cursor) <==> r in c && Asked(q, cursor, r)
  {
    if c != [] {
      FindFinds(c[1..], q, cursor);
      assert c == [c[0]] + c[1..];
    }
  }

  lemma {:induction false} FindAscends(c: Collection, q: Query, cursor: Option<Id>)
    requires Ascending(c)
    ensures Ascending(Find(c, q, cursor))
  {
    if c != [] {
      FindAscends(c[1..], q, cursor);
      var rest := Find(c[1..], q, cursor);
      forall j | 0 <= j < |rest| ensures rest[j].id > c[0].id {
        FindFinds(c[1..], q, cursor);
        assert rest[j] in c[1..];
      }
    }
  }

  // The first k documents are the ones up to the id.
  ghost predicate SplitAt(found: seq<Record>, id: Id, k: nat) {
    k <= |found| && forall i | 0 <= i < |found| :: found[i].id <= id <==> i < k
  }

  lemma {:induction false} FindStep(c: Collection, q: Query, cursor: Option<Id>)
    requires c != []
    ensures Asked(q, cursor, c[0]) ==> Find(c, q, cursor) == [c[0]] + Find(c[1..], q, cursor)
    ensures !Asked(q, cursor, c[0]) ==> Find(c, q, cursor) == Find(c[1..], q, cursor)
  {
  }

  // Asking beyond a cursor skips what is not beyond it.
  lemma {:induction false} FindBeyond(c: Collection, q: Query, id: Id, k: nat)
    requires id != 0 && SplitAt(Find(c, q, None), id, k)
    ensures k <= |Find(c, q, None)| && Find(c, q, Some(id)) == Find(c, q, None)[k..]
  {
    hide Find, SplitAt;
    if c != [] {
      FindStep(c, q, None);
      FindStep(c, q, Some(id));
      if q(c[0].doc) {
        SplitBehind(c[0], Find(c[1..], q, None), id, k);
        FindBeyond(c[1..], q, id, if k > 0 then k - 1 else 0);
      } else {
        FindBeyond(c[1..], q, id, k);
      }
    } else {
      NothingFound(q, id, k);
    }
  }

  // With a first document in front, the split is one place further.
  lemma SplitBehind(first: Record, rest: seq<Record>, id: Id, k: nat)
    requires SplitAt([first] + rest, id, k)
    ensures k <= |rest| + 1 && (first.id > id <==> k == 0)
    ensures SplitAt(rest, id, if k > 0 then k - 1 else 0)
    ensures ([first] + rest)[k..] == if k == 0 then [first] + rest[0..] else rest[k - 1..]
  {
    var all := [first] + rest;
    assert all[0] == first && forall i | 0 <= i < |rest| :: rest[i] == all[i + 1];
  }

  lemma NothingFound(q: Query, id: Id, k: nat)
    requires SplitAt(Find([], q, None), id, k)
    ensures k == 0 && Find([], q, None) == [] == Find([], q, Some(id))
  {
  }

  // ----- paginate ---------------------------------------------------------------------------

  function Min(a: nat, b: nat): nat {
    if a < b then a else b
  }

  function Take<T>(s: seq<T>, n: nat): seq<T> {
    s[..Min(n, |s|)]
  }

  function Skip<T>(s: seq<T>, n: nat): seq<T> {
    s[Min(n, |s|)..]
  }

  // How many documents come before page n + 1.
  function Offset(n: nat, limit: nat): nat {
    n * limit
  }

  datatype Page = Page(docs: seq<Record>, total: nat, totalPages: nat, hasNextPage: bool, hasPrevPage: bool)

  function CeilDiv(a: nat, b: nat): nat
    requires b > 0
  {
    (a + b - 1) / b
  }

  function Paginate(c: Collection, q: Query, page: nat, limit: nat): Page
    requires page >= 1 && limit >= 1
  {
    var found := Find(c, q, None);
    Page(Take(Skip(found, Offset(page - 1, limit)), limit), |found|, CeilDiv(|found|, limit),
         Offset(page, limit) < |found|, page > 1)
  }

  lemma CeilDivBound(a: nat, b: nat, n: nat)
    requires b > 0
    ensures n * b < a <==> n < CeilDiv(a, b)
  {
    var d, r := CeilDiv(a, b), (a + b - 1) % b;
    assert a + b - 1 == d * b + r;
    if n < d {
      assert d * b == n * b + (d - n) * b;
      assert (d - n) * b >= b by { ProductAtLeast(d - n, b); }
    } else {
      assert n * b == d * b + (n - d) * b;
      assert (n - d) * b >= 0;
    }
  }

  lemma ProductAtLeast(a: nat, b: nat)
    requires a >= 1
    ensures a * b >= b
  {
    assert a * b == (a - 1) * b + b;
  }

  // The two ways the result tells whether there are more pages agree.
  lemma FlagsAgree(c: Collection, q: Query, page: nat, limit: nat)
    requires page >= 1 && limit >= 1
    ensures var r := Paginate(c, q, page, limit);
            && (r.hasNextPage <==> page < r.totalPages)
            && (page > r.totalPages ==> r.docs == [])
            && (r.hasNextPage ==> |r.docs| == limit)
            && (r.hasPrevPage <==> page != 1)
            && (r.docs != [] && r.hasPrevPage ==> Paginate(c, q, page - 1, limit).hasNextPage)
  {
    var found := Find(c, q, None);
    CeilDivBound(|found|, limit, page);
    CeilDivBound(|found|, limit, page - 1);
    assert Offset(page, limit) == Offset(page - 1, limit) + limit;
  }

  // ----- paginateCursor ---------------------------------------------------------------------

  datatype CursorPage = CursorPage(docs: seq<Record>, nextCursor: Option<Id>, hasNextPage: bool)

  // One document more than the limit is fetched, to see whether there is a next page.
  function PaginateCursor(c: Collection, q: Query, cursor: Option<Id>, limit: nat): CursorPage
    requires limit >= 1
  {
    var docs := Take(Find(c, q, cursor), limit + 1);
    var hasNextPage := |docs| > limit;
    var results := if hasNextPage then docs[..limit] else docs;
    CursorPage(results, if hasNextPage then Some(results[|results| - 1].id) else None, hasNextPage)
  }

  // A page leaves nothing out on the way: what is asked for and not on it is still to come.
  lemma NothingSkipped(c: Collection, q: Query, cursor: Option<Id>, limit: nat, r: Record)
    requires limit >= 1 && Ascending(c) && r in c && Asked(q, cursor, r)
    ensures var page := PaginateCursor(c, q, cursor, limit);
            r in page.docs || (page.hasNextPage && page.nextCursor.Some? && r.id > page.nextCursor.value)
  {
    var found := Find(c, q, cursor);
    FindFinds(c, q, cursor);
    FindAscends(c, q, cursor);
    var i :| 0 <= i < |found| && found[i] == r;
    var docs := PaginateCursor(c, q, cursor, limit).docs;
    assert docs == found[..|docs|];
    if i < |docs| {
      assert docs[i] == r;
    }
  }

  lemma PageInOrder(c: Collection, q: Query, cursor: Option<Id>, limit: nat)
    requires limit >= 1 && Ascending(c)
    ensures var page := PaginateCursor(c, q, cursor, limit);
            && Ascending(page.docs) && |page.docs| <= limit
            && (forall r | r in page.docs :: r in c && Asked(q, cursor, r))
            && (page.hasNextPage ==> |page.docs| == limit && page.nextCursor == Some(page.docs[limit - 1].id))
            && (!page.hasNextPage ==> page.nextCursor == None)
  {
    var found := Find(c, q, cursor);
    FindFinds(c, q, cursor);
    FindAscends(c, q, cursor);
    var docs := PaginateCursor(c, q, cursor, limit).docs;
    assert docs == found[..|docs|];
    forall r | r in docs ensures r in found {
      var i :| 0 <= i < |docs| && docs[i] == r;
      assert found[i] == r;
    }
  }

  // ----- a walk -----------------------------------------------------------------------------

  // The cursor that the i-th call is made with.
  function CursorFor(pages: seq<CursorPage>, i: nat): Option<Id>
    requires i <= |pages|
  {
    if i == 0 then None else pages[i - 1].nextCursor
  }

  // The i-th page is read because the one before has a next page, from the collection as it is by
  // then.
  ghost predicate Reads(states: seq<Collection>, q: Query, limit: nat, pages: seq<CursorPage>, i: nat)
    requires limit >= 1 && i < |pages| == |states|
  {
    && Ascending(states[i])
    && (i > 0 ==> pages[i - 1].hasNextPage)
    && pages[i] == PaginateCursor(states[i], q, CursorFor(pages, i), limit)
  }

  ghost predicate Walk(states: seq<Collection>, q: Query, limit: nat, pages: seq<CursorPage>)
    requires limit >= 1
  {
    |pages| == |states| && forall i | 0 <= i < |pages| :: Reads(states, q, limit, pages, i)
  }

  // No page hands out a falsy cursor, which the next call would take for none.
  ghost predicate TruthyCursors(pages: seq<CursorPage>) {
    forall i | 0 <= i < |pages| :: pages[i].nextCursor != Some(0)
  }

  function Concat(pages: seq<CursorPage>): seq<Record> {
    if pages == [] then [] else Concat(pages[..|pages| - 1]) + pages[|pages| - 1].docs
  }

  predicate Ended(pages: seq<CursorPage>) {
    pages != [] && !pages[|pages| - 1].hasNextPage
  }

  lemma WalkPrefix(states: seq<Collection>, q: Query, limit: nat, pages: seq<CursorPage>, n: nat)
    requires limit >= 1 && Walk(states, q, limit, pages) && n <= |pages|
    ensures Walk(states[..n], q, limit, pages[..n])
    ensures TruthyCursors(pages) ==> TruthyCursors(pages[..n])
  {
    hide PaginateCursor, Ascending;
    forall i | 0 <= i < n ensures Reads(states[..n], q, limit, pages[..n], i) {
      assert Reads(states, q, limit, pages, i);
    }
  }

  lemma JoinAscending(a: seq<Record>, b: seq<Record>)
    requires Ascending(a) && Ascending(b)
    requires a != [] ==> forall j | 0 <= j < |b| :: b[j].id > a[|a| - 1].id
    ensures Ascending(a + b)
  {
    forall i, j | 0 <= i < j < |a + b| ensures (a + b)[i].id < (a + b)[j].id {
      if i < |a| <= j {
        assert b[j - |a|].id > a[|a| - 1].id;
        assert i < |a| - 1 ==> a[i].id < a[|a| - 1].id;
      }
    }
  }

  // Where a walk has got to: the cursor it hands on is the last id it has returned.
  ghost predicate At(returned: seq<Record>, cursor: Option<Id>) {
    returned != [] && cursor == Some(returned[|returned| - 1].id)
  }

  // One more page goes beyond all the pages before it.
  lemma PageContinues(c: Collection, q: Query, cursor: Option<Id>, limit: nat, returned: seq<Record>)
    requires limit >= 1 && Ascending(c) && Ascending(returned)
    requires returned == [] || (At(returned, cursor) && Truthy(cursor))
    ensures var page := PaginateCursor(c, q, cursor, limit);
            Ascending(returned + page.docs) && (page.hasNextPage ==> At(returned + page.docs, page.nextCursor))
  {
    PageInOrder(c, q, cursor, limit);
    var page := PaginateCursor(c, q, cursor, limit);
    hide PaginateCursor;
    forall j | 0 <= j < |page.docs| ensures returned != [] ==> page.docs[j].id > returned[|returned| - 1].id {
      assert page.docs[j] in page.docs;
    }
    JoinAscending(returned, page.docs);
  }

  // Strictly ascending over all the pages together: nothing is ever returned twice.
  lemma {:induction false} WalkAscends(states: seq<Collection>, q: Query, limit: nat, pages: seq<CursorPage>)
    requires limit >= 1 && Walk(states, q, limit, pages) && TruthyCursors(pages)
    ensures Ascending(Concat(pages))
    ensures pages != [] && pages[|pages| - 1].hasNextPage ==> At(Concat(pages), pages[|pages| - 1].nextCursor)
    decreases |pages|
  {
    if pages != [] {
      var n := |pages| - 1;
      WalkPrefix(states, q, limit, pages, n);
      WalkAscends(states[..n], q, limit, pages[..n]);
      assert Reads(states, q, limit, pages, n);
      assert n > 0 ==> pages[..n][|pages[..n]| - 1] == pages[n - 1] && pages[n - 1].nextCursor != Some(0);
      hide PaginateCursor, Ascending;
      PageContinues(states[n], q, CursorFor(pages, n), limit, Concat(pages[..n]));
    }
  }

  // A document with this id matches the query in this state of the collection.
  ghost predicate Matching(c: Collection, q: Query, id: Id) {
    exists r :: r in c && r.id == id && q(r.doc)
  }

  ghost predicate Returned(s: seq<Record>, id: Id) {
    exists r :: r in s && r.id == id
  }

  // What matches in every state of the walk and is not beyond the cursor has been returned.
  lemma {:induction false} WalkReturns(states: seq<Collection>, q: Query, limit: nat, pages: seq<CursorPage>, id: Id)
    requires limit >= 1 && Walk(states, q, limit, pages) && TruthyCursors(pages) && pages != []
    requires forall i | 0 <= i < |states| :: Matching(states[i], q, id)
    requires var last := pages[|pages| - 1]; last.hasNextPage ==> last.nextCursor.Some? && id <= last.nextCursor.value
    ensures Returned(Concat(pages), id)
    decreases |pages|
  {
    var n := |pages| - 1;
    var cursor := CursorFor(pages, n);
    assert Reads(states, q, limit, pages, n);
    assert n > 0 ==> pages[n - 1].nextCursor != Some(0);
    var r :| r in states[n] && r.id == id && q(r.doc);
    hide PaginateCursor, Ascending;
    if Truthy(cursor) && id <= cursor.value {
      WalkPrefix(states, q, limit, pages, n);
      assert pages[..n][|pages[..n]| - 1] == pages[n - 1];
      WalkReturns(states[..n], q, limit, pages[..n], id);
      var s :| s in Concat(pages[..n]) && s.id == id;
      assert s in Concat(pages);
    } else {
      NothingSkipped(states[n], q, cursor, limit, r);
      assert r in pages[n].docs;
      assert r in Concat(pages);
    }
  }

  ghost predicate ReturnedOnce(s: seq<Record>, id: Id) {
    exists k | 0 <= k < |s| :: s[k].id == id && forall j | 0 <= j < |s| && s[j].id == id :: j == k
  }

  // A walk that has come to its end has returned every document that was there throughout, once.
  lemma {:induction false} CompleteWalk(states: seq<Collection>, q: Query, limit: nat, pages: seq<CursorPage>, id: Id)
    requires limit >= 1 && Walk(states, q, limit, pages) && TruthyCursors(pages) && Ended(pages)
    requires forall i | 0 <= i < |states| :: Matching(states[i], q, id)
    ensures ReturnedOnce(Concat(pages), id)
  {
    WalkReturns(states, q, limit, pages, id);
    WalkAscends(states, q, limit, pages);
    hide Walk, TruthyCursors, Concat;
    var s := Concat(pages);
    var r :| r in s && r.id == id;
    var k :| 0 <= k < |s| && s[k] == r;
    assert forall j | 0 <= j < |s| && s[j].id == id :: j == k;
  }

  // ----- walks that start again -------------------------------------------------------------

  // How often an id has been returned.
  function Times(s: seq<Record>, id: Id): nat {
    if s == [] then 0 else Times(s[..|s| - 1], id) + if s[|s| - 1].id == id then 1 else 0
  }

  lemma {:induction false} TimesJoined(a: seq<Record>, b: seq<Record>, id: Id)
    ensures Times(a + b, id) == Times(a, id) + Times(b, id)
  {
    if b == [] {
      assert a + b == a;
    } else {
      TimesJoined(a, b[..|b| - 1], id);
      assert (a + b)[..|a + b| - 1] == a + b[..|b| - 1];
    }
  }

  lemma {:induction false} TimesInOrder(s: seq<Record>, id: Id)
    requires Ascending(s)
    ensures Times(s, id) == if Returned(s, id) then 1 else 0
  {
    if s != [] {
      var front, last := s[..|s| - 1], s[|s| - 1];
      TimesInOrder(front, id);
      assert s == front + [last];
      assert last in s;
    }
  }

  // How many cursors handed out are falsy: each makes the next call start from the beginning.
  function FalsyCursors(pages: seq<CursorPage>): nat {
    if pages == [] then 0
    else FalsyCursors(pages[..|pages| - 1]) + if pages[|pages| - 1].nextCursor == Some(0) then 1 else 0
  }

  // The ids that a page reaches: beyond its cursor and not beyond the one it hands out.
  predicate Reaches(cursor: Option<Id>, page: CursorPage, id: Id) {
    (Truthy(cursor) ==> id > cursor.value) && (page.nextCursor.Some? ==> id <= page.nextCursor.value)
  }

  // A page returns an id once if a document with it matches and the page reaches it, and never else.
  lemma {:induction false} PageTimes(c: Collection, q: Query, cursor: Option<Id>, limit: nat, id: Id)
    requires limit >= 1 && Ascending(c)
    ensures var page := PaginateCursor(c, q, cursor, limit);
            && Times(page.docs, id) == (if Matching(c, q, id) && Reaches(cursor, page, id) then 1 else 0)
            && (page.hasNextPage <==> page.nextCursor.Some?)
            && (page.hasNextPage && Truthy(cursor) ==> page.nextCursor.value > cursor.value)
  {
    var page := PaginateCursor(c, q, cursor, limit);
    PageInOrder(c, q, cursor, limit);
    TimesInOrder(page.docs, id);
    hide PaginateCursor;
    if page.hasNextPage {
      assert page.docs[limit - 1] in page.docs;
    }
    if r :| r in page.docs && r.id == id {
      assert r in c;
      if page.hasNextPage {
        var i :| 0 <= i < |page.docs| && page.docs[i] == r;
        assert i < limit - 1 ==> page.docs[i].id < page.docs[limit - 1].id;
      }
    }
    if Matching(c, q, id) && Reaches(cursor, page, id) {
      var r :| r in c && r.id == id && q(r.doc);
      NothingSkipped(c, q, cursor, limit, r);
    }
  }

  // How often a walk that handed on this cursor can have returned an id: in each part that ended in a
  // falsy id if it is not beyond that, and in the part under way if it has come so far.
  function Expected(falsy: nat, cursor: Option<Id>, id: Id): nat {
    (if id <= 0 then falsy else 0) +
    (if cursor.None? || (Truthy(cursor) && id <= cursor.value) then 1 else 0)
  }

  // The i-th call is answered: the count goes on as expected.
  lemma ExpectedStep(falsy: nat, cursor: Option<Id>, page: CursorPage, id: Id)
    requires page.nextCursor.Some? && Truthy(cursor) ==> page.nextCursor.value > cursor.value
    ensures var before := if Truthy(cursor) then Expected(falsy, cursor, id) else if id <= 0 then falsy else 0;
            Expected(falsy + if page.nextCursor == Some(0) then 1 else 0, page.nextCursor, id) ==
              before + if Reaches(cursor, page, id) then 1 else 0
  {
  }

  ghost predicate Throughout(states: seq<Collection>, q: Query, id: Id) {
    forall i | 0 <= i < |states| :: Matching(states[i], q, id)
  }

  lemma {:induction false} WalkTimes(states: seq<Collection>, q: Query, limit: nat, pages: seq<CursorPage>, id: Id)
    requires limit >= 1 && Walk(states, q, limit, pages) && pages != []
    ensures var most := Expected(FalsyCursors(pages), pages[|pages| - 1].nextCursor, id);
            Times(Concat(pages), id) <= most && (Throughout(states, q, id) ==> Times(Concat(pages), id) == most)
    decreases |pages|
  {
    hide Ascending, PaginateCursor, Matching, Expected, Reaches, Times;
    var n := |pages| - 1;
    var front, cursor, page := pages[..n], CursorFor(pages, n), pages[n];
    assert Reads(states, q, limit, pages, n);
    PageTimes(states[n], q, cursor, limit, id);
    TimesJoined(Concat(front), page.docs, id);
    ExpectedStep(FalsyCursors(front), cursor, page, id);
    NoneSoFar(id);
    if n > 0 {
      WalkPrefix(states, q, limit, pages, n);
      WalkTimes(states[..n], q, limit, front, id);
      assert front[|front| - 1] == pages[n - 1];
      assert Throughout(states, q, id) ==> Throughout(states[..n], q, id);
      assert Reads(states, q, limit, pages, n - 1);
      PageTimes(states[n - 1], q, CursorFor(pages, n - 1), limit, id);
      FalsyExpected(FalsyCursors(front), cursor, id);
    } else {
      assert front == [];
    }
  }

  lemma {:induction false} NoneSoFar(id: Id)
    ensures Times([], id) == 0
  {
  }

  lemma FalsyExpected(falsy: nat, cursor: Option<Id>, id: Id)
    ensures cursor == Some(0) ==> Expected(falsy, cursor, id) == if id <= 0 then falsy else 0
  {
  }

  // Under concurrent changes, falsy cursors included: a walk that has come to its end has returned every
  // document that matched throughout once, or once more for each falsy cursor if its id is not above 0;
  // any other document no more often than that.
  lemma {:induction false} TimesReturned(states: seq<Collection>, q: Query, limit: nat, pages: seq<CursorPage>, id: Id)
    requires limit >= 1 && Walk(states, q, limit, pages) && Ended(pages)
    ensures var times := if id <= 0 then 1 + FalsyCursors(pages) else 1;
            Times(Concat(pages), id) <= times && (Throughout(states, q, id) ==> Times(Concat(pages), id) == times)
  {
    hide PaginateCursor, Times;
    var n := |pages| - 1;
    assert Reads(states, q, limit, pages, n);
    PageTimes(states[n], q, CursorFor(pages, n), limit, id);
    WalkTimes(states, q, limit, pages, id);
  }

  lemma {:induction false} FalsyIff(pages: seq<CursorPage>)
    ensures FalsyCursors(pages) == 0 <==> TruthyCursors(pages)
  {
    if pages != [] {
      var n := |pages| - 1;
      FalsyIff(pages[..n]);
      assert forall i | 0 <= i < n :: pages[..n][i] == pages[i];
    }
  }

  // So of the documents that matched throughout exactly those with an id not above 0 are returned twice,
  // and they are if and only if some page handed out a falsy cursor.
  lemma {:induction false} ReturnedTwiceIff(states: seq<Collection>, q: Query, limit: nat, pages: seq<CursorPage>, id: Id)
    requires limit >= 1 && Walk(states, q, limit, pages) && Ended(pages) && Throughout(states, q, id)
    ensures Times(Concat(pages), id) > 1 <==> id <= 0 && !TruthyCursors(pages)
  {
    hide Walk, Times, Concat, TruthyCursors;
    TimesReturned(states, q, limit, pages, id);
    FalsyIff(pages);
  }

  // ----- a collection that does not change --------------------------------------------------

  function Same(c: Collection, n: nat): seq<Collection> {
    seq(n, _ => c)
  }

  ghost predicate FixedWalk(c: Collection, q: Query, limit: nat, pages: seq<CursorPage>)
    requires limit >= 1
  {
    Ascending(c) && Walk(Same(c, |pages|), q, limit, pages)
  }

  // With this cursor the next page starts after the first `skip` documents found.
  ghost predicate Starts(found: seq<Record>, cursor: Option<Id>, skip: nat) {
    if Truthy(cursor) then 0 < skip <= |found| && found[skip - 1].id == cursor.value else skip == 0
  }

  lemma {:induction false} FalsyIsNone(c: Collection, q: Query, cursor: Option<Id>)
    requires !Truthy(cursor)
    ensures Find(c, q, cursor) == Find(c, q, None)
  {
    if c != [] {
      FalsyIsNone(c[1..], q, cursor);
    }
  }

  lemma {:induction false} FoundFrom(c: Collection, q: Query, cursor: Option<Id>, skip: nat)
    requires Ascending(c) && Starts(Find(c, q, None), cursor, skip)
    ensures skip <= |Find(c, q, None)| && Find(c, q, cursor) == Find(c, q, None)[skip..]
  {
    if Truthy(cursor) {
      FindAscends(c, q, None);
      assert SplitAt(Find(c, q, None), cursor.value, skip);
      FindBeyond(c, q, cursor.value, skip);
    } else {
      FalsyIsNone(c, q, cursor);
    }
  }

  // Fetching one more than the limit and dropping it is fetching the limit.
  lemma OneExtra<T>(s: seq<T>, limit: nat)
    ensures |s| > limit ==> Take(s, limit + 1)[..limit] == Take(s, limit) && |Take(s, limit + 1)| > limit
    ensures |s| <= limit ==> Take(s, limit + 1) == Take(s, limit)
  {
  }

  lemma {:induction false} PageFrom(c: Collection, q: Query, cursor: Option<Id>, limit: nat, skip: nat)
    requires limit >= 1 && Ascending(c) && Starts(Find(c, q, None), cursor, skip)
    ensures var found, page := Find(c, q, None), PaginateCursor(c, q, cursor, limit);
            && page.docs == Take(Skip(found, skip), limit)
            && (page.hasNextPage <==> skip + limit < |found|)
            && page.nextCursor == if page.hasNextPage then Some(found[skip + limit - 1].id) else None
  {
    hide Find, Ascending, Starts;
    FoundFrom(c, q, cursor, skip);
    var found := Find(c, q, None);
    assert Skip(found, skip) == found[skip..];
    OneExtra(found[skip..], limit);
  }

  // The i-th boundary between full pages: the id that ends page i and is handed out as the cursor.
  ghost predicate FalsyAt(found: seq<Record>, limit: nat, i: nat) {
    0 < Offset(i, limit) < |found| && found[Offset(i, limit) - 1].id == 0
  }

  ghost predicate FalsyBoundary(found: seq<Record>, limit: nat) {
    exists i: nat :: FalsyAt(found, limit, i)
  }

  lemma OffsetZero(limit: nat)
    ensures Offset(0, limit) == 0
  {
  }

  lemma StartsAtZero(found: seq<Record>, limit: nat)
    ensures Starts(found, None, Offset(0, limit))
  {
  }

  lemma NextMultiple(i: nat, limit: nat)
    ensures Offset(i + 1, limit) == Offset(i, limit) + limit
  {
  }

  // A page that starts where `paginate` starts its page i + 1 is that page, and hands on the start of
  // the next one unless the id there is falsy.
  lemma {:induction false} SamePage(c: Collection, q: Query, cursor: Option<Id>, limit: nat, i: nat)
    requires limit >= 1 && Ascending(c) && Starts(Find(c, q, None), cursor, Offset(i, limit))
    ensures var found, page, r := Find(c, q, None), PaginateCursor(c, q, cursor, limit), Paginate(c, q, i + 1, limit);
            && page.docs == r.docs && page.hasNextPage == r.hasNextPage
            && (page.hasNextPage <==> Offset(i + 1, limit) < |found|)
            && (FalsyAt(found, limit, i + 1) ==> Starts(found, page.nextCursor, 0))
            && (page.hasNextPage && !FalsyAt(found, limit, i + 1) ==> Starts(found, page.nextCursor, Offset(i + 1, limit)))
            && (page.nextCursor == Some(0) ==> FalsyAt(found, limit, i + 1))
  {
    hide Find, PaginateCursor, Offset;
    PageFrom(c, q, cursor, limit, Offset(i, limit));
    NextMultiple(i, limit);
  }

  // Page by page, the walk reads what `paginate` reads.
  lemma {:induction false} WalkIsPaginate(c: Collection, q: Query, limit: nat, pages: seq<CursorPage>, i: nat)
    requires limit >= 1 && FixedWalk(c, q, limit, pages) && i < |pages|
    requires !FalsyBoundary(Find(c, q, None), limit)
    ensures Starts(Find(c, q, None), CursorFor(pages, i), Offset(i, limit))
    ensures var r := Paginate(c, q, i + 1, limit); pages[i].docs == r.docs && pages[i].hasNextPage == r.hasNextPage
    decreases i
  {
    hide Find, PaginateCursor, Paginate, FalsyAt, Starts, Offset, Ascending;
    assert Reads(Same(c, |pages|), q, limit, pages, i);
    if i == 0 {
      StartsAtZero(Find(c, q, None), limit);
    } else {
      WalkIsPaginate(c, q, limit, pages, i - 1);
      assert Reads(Same(c, |pages|), q, limit, pages, i - 1);
      SamePage(c, q, CursorFor(pages, i - 1), limit, i - 1);
      assert !FalsyAt(Find(c, q, None), limit, i);
    }
    SamePage(c, q, CursorFor(pages, i), limit, i);
  }

  // ----- when a walk ends -------------------------------------------------------------------

  lemma OneFalsy(found: seq<Record>, limit: nat, a: nat, b: nat)
    requires Ascending(found) && FalsyAt(found, limit, a) && FalsyAt(found, limit, b)
    ensures a == b
  {
    if a < b {
      Multiples(a, b, limit);
    } else if b < a {
      Multiples(b, a, limit);
    }
  }

  // Of the first i pages, each leads to one of them again.
  lemma StaysAmong(c: Collection, q: Query, cursor: Option<Id>, limit: nat, i: nat, m: nat) returns (next: nat)
    requires limit >= 1 && Ascending(c) && Starts(Find(c, q, None), cursor, Offset(m, limit))
    requires FalsyAt(Find(c, q, None), limit, i) && m < i
    ensures var page := PaginateCursor(c, q, cursor, limit);
            page.hasNextPage && next < i && Starts(Find(c, q, None), page.nextCursor, Offset(next, limit))
  {
    hide *;
    var found := Find(c, q, None);
    FindAscends(c, q, None);
    SamePage(c, q, cursor, limit, m);
    FalsyInside(found, limit, i);
    AtMost(m + 1, i, limit);
    if FalsyAt(found, limit, m + 1) {
      OneFalsy(found, limit, m + 1, i);
      OffsetZero(limit);
      next := 0;
    } else {
      next := m + 1;
    }
  }

  lemma FalsyInside(found: seq<Record>, limit: nat, i: nat)
    requires FalsyAt(found, limit, i)
    ensures i > 0 && Offset(i, limit) < |found|
  {
  }

  // From a falsy boundary the walk starts again: its page j is one of the first i pages.
  lemma {:induction false} Restarts(c: Collection, q: Query, limit: nat, pages: seq<CursorPage>, i: nat, j: nat)
    returns (m: nat)
    requires limit >= 1 && FixedWalk(c, q, limit, pages) && j < |pages|
    requires FalsyAt(Find(c, q, None), limit, i)
    ensures m < i && Starts(Find(c, q, None), CursorFor(pages, j), Offset(m, limit)) && pages[j].hasNextPage
    decreases j
  {
    hide Find, PaginateCursor, Ascending, FalsyAt, Starts, Offset;
    assert Reads(Same(c, |pages|), q, limit, pages, j);
    if j == 0 {
      m := 0;
      StartsAtZero(Find(c, q, None), limit);
      FalsyInside(Find(c, q, None), limit, i);
    } else {
      var before := Restarts(c, q, limit, pages, i, j - 1);
      assert Reads(Same(c, |pages|), q, limit, pages, j - 1);
      m := StaysAmong(c, q, CursorFor(pages, j - 1), limit, i, before);
    }
    var next := StaysAmong(c, q, CursorFor(pages, j), limit, i, m);
  }

  lemma AtMost(a: nat, b: nat, limit: nat)
    requires a <= b
    ensures Offset(a, limit) <= Offset(b, limit)
  {
    assert b * limit == a * limit + (b - a) * limit;
  }

  lemma Multiples(a: nat, b: nat, limit: nat)
    requires a < b
    ensures Offset(a, limit) + limit <= Offset(b, limit)
  {
    assert b * limit == a * limit + (b - a) * limit;
    ProductAtLeast(b - a, limit);
  }

  lemma {:induction false} EndedMeansTruthy(c: Collection, q: Query, limit: nat, pages: seq<CursorPage>)
    requires limit >= 1 && FixedWalk(c, q, limit, pages) && Ended(pages)
    ensures !FalsyBoundary(Find(c, q, None), limit)
  {
    if FalsyBoundary(Find(c, q, None), limit) {
      var i: nat :| FalsyAt(Find(c, q, None), limit, i);
      var m := Restarts(c, q, limit, pages, i, |pages| - 1);
      assert false;
    }
  }

  // A walk that has not ended goes on to its end.
  lemma {:induction false} GoesOn(c: Collection, q: Query, limit: nat, pages: seq<CursorPage>)
    returns (whole: seq<CursorPage>)
    requires limit >= 1 && FixedWalk(c, q, limit, pages) && pages != [] && !FalsyBoundary(Find(c, q, None), limit)
    ensures FixedWalk(c, q, limit, whole) && Ended(whole)
    decreases 1 + |Find(c, q, None)| - |pages|
  {
    whole := pages;
    if pages[|pages| - 1].hasNextPage {
      var more := OneMore(c, q, limit, pages);
      whole := GoesOn(c, q, limit, more);
    }
  }

  lemma OneMore(c: Collection, q: Query, limit: nat, pages: seq<CursorPage>) returns (more: seq<CursorPage>)
    requires limit >= 1 && FixedWalk(c, q, limit, pages) && pages != [] && !FalsyBoundary(Find(c, q, None), limit)
    requires pages[|pages| - 1].hasNextPage
    ensures FixedWalk(c, q, limit, more) && |more| == |pages| + 1 && |pages| <= |Find(c, q, None)|
  {
    hide Find, PaginateCursor, FalsyBoundary, Offset, Ascending;
    var n := |pages|;
    WalkIsPaginate(c, q, limit, pages, n - 1);
    AtLeastItself(n, limit);
    more := pages + [PaginateCursor(c, q, CursorFor(pages, n), limit)];
    forall i: nat | i < |more| ensures Reads(Same(c, |more|), q, limit, more, i) {
      assert Reads(Same(c, n), q, limit, pages, if i < n then i else n - 1);
    }
  }

  lemma AtLeastItself(a: nat, limit: nat)
    requires limit >= 1
    ensures Offset(a, limit) >= a
  {
    assert a * limit == a * (limit - 1) + a;
  }

  // On a collection that does not change a walk comes to an end exactly when no full page but the
  // last ends in a falsy id; otherwise it reads the same pages for ever.
  lemma {:induction false} WalkEndsIff(c: Collection, q: Query, limit: nat)
    requires limit >= 1 && Ascending(c)
    ensures (exists pages :: FixedWalk(c, q, limit, pages) && Ended(pages)) <==> !FalsyBoundary(Find(c, q, None), limit)
  {
    if FalsyBoundary(Find(c, q, None), limit) {
      forall pages | FixedWalk(c, q, limit, pages) ensures !Ended(pages) {
        if Ended(pages) {
          EndedMeansTruthy(c, q, limit, pages);
        }
      }
    } else {
      var first := [PaginateCursor(c, q, None, limit)];
      assert Reads(Same(c, 1), q, limit, first, 0);
      var whole := GoesOn(c, q, limit, first);
    }
  }

  // ----- the walk and the pages -------------------------------------------------------------

  // Pages 1 to n, one after the other.
  function PagesUpTo(c: Collection, q: Query, limit: nat, n: nat): seq<Record>
    requires limit >= 1
  {
    if n == 0 then [] else PagesUpTo(c, q, limit, n - 1) + Paginate(c, q, n, limit).docs
  }

  lemma {:induction false} PagesAreThePrefix(c: Collection, q: Query, limit: nat, n: nat)
    requires limit >= 1
    ensures PagesUpTo(c, q, limit, n) == Take(Find(c, q, None), Offset(n, limit))
  {
    hide Find, Offset;
    OffsetZero(limit);
    if n > 0 {
      PagesAreThePrefix(c, q, limit, n - 1);
      NextMultiple(n - 1, limit);
    }
  }

  lemma {:induction false} ConcatIsPages(c: Collection, q: Query, limit: nat, pages: seq<CursorPage>, n: nat)
    requires limit >= 1 && FixedWalk(c, q, limit, pages) && n <= |pages|
    requires !FalsyBoundary(Find(c, q, None), limit)
    ensures Concat(pages[..n]) == PagesUpTo(c, q, limit, n)
    decreases n
  {
    hide *;
    ConcatStep(pages, n);
    PagesStep(c, q, limit, n);
    if n > 0 {
      ConcatIsPages(c, q, limit, pages, n - 1);
      WalkIsPaginate(c, q, limit, pages, n - 1);
    }
  }

  lemma ConcatStep(pages: seq<CursorPage>, n: nat)
    requires n <= |pages|
    ensures Concat(pages[..n]) == if n == 0 then [] else Concat(pages[..n - 1]) + pages[n - 1].docs
  {
    if n > 0 {
      assert pages[..n][..n - 1] == pages[..n - 1];
    }
  }

  lemma PagesStep(c: Collection, q: Query, limit: nat, n: nat)
    requires limit >= 1
    ensures PagesUpTo(c, q, limit, n) == if n == 0 then [] else PagesUpTo(c, q, limit, n - 1) + Paginate(c, q, n, limit).docs
  {
  }

  // A walk ends with the page that reaches the last document found, and not before.
  lemma {:induction false} EndsAtTheLast(c: Collection, q: Query, limit: nat, pages: seq<CursorPage>)
    requires limit >= 1 && FixedWalk(c, q, limit, pages) && Ended(pages)
    ensures !FalsyBoundary(Find(c, q, None), limit)
    ensures |Find(c, q, None)| <= Offset(|pages|, limit)
    ensures |pages| > 1 ==> Offset(|pages| - 1, limit) < |Find(c, q, None)|
  {
    hide Find, FalsyBoundary, Starts, PaginateCursor, Ascending, Offset;
    var n := |pages|;
    EndedMeansTruthy(c, q, limit, pages);
    WalkIsPaginate(c, q, limit, pages, n - 1);
    if n > 1 {
      WalkIsPaginate(c, q, limit, pages, n - 2);
      assert Reads(Same(c, n), q, limit, pages, n - 1);
    }
  }

  lemma AllIsTaken<T>(s: seq<T>, n: nat)
    requires |s| <= n
    ensures Take(s, n) == s
  {
  }

  lemma {:induction false} TotalPages(c: Collection, q: Query, limit: nat)
    requires limit >= 1
    ensures var r := Paginate(c, q, 1, limit); r.total == |Find(c, q, None)| && r.totalPages == CeilDiv(|Find(c, q, None)|, limit)
  {
  }

  // The page before reaches some document, and this one the last: it is the last of `totalPages`.
  lemma LastPage(total: nat, limit: nat, n: nat)
    requires limit >= 1 && n >= 1 && total <= Offset(n, limit) && (n > 1 ==> Offset(n - 1, limit) < total)
    ensures CeilDiv(total, limit) > 0 ==> n == CeilDiv(total, limit)
    ensures total <= Offset(CeilDiv(total, limit), limit)
  {
    hide CeilDiv;
    CeilDivBound(total, limit, n);
    CeilDivBound(total, limit, n - 1);
    CeilDivBound(total, limit, CeilDiv(total, limit));
  }

  // A walk that ends returns exactly what matches, in order, and exactly what the numbered pages 1 to
  // totalPages return together.
  lemma {:induction false} WholeWalk(c: Collection, q: Query, limit: nat, pages: seq<CursorPage>)
    requires limit >= 1 && FixedWalk(c, q, limit, pages) && Ended(pages)
    ensures Concat(pages) == Find(c, q, None) == PagesUpTo(c, q, limit, Paginate(c, q, 1, limit).totalPages)
    ensures Paginate(c, q, 1, limit).totalPages > 0 ==> |pages| == Paginate(c, q, 1, limit).totalPages
    ensures Paginate(c, q, 1, limit).total == |Concat(pages)|
  {
    assert pages != [];
    hide *;
    var found, n := Find(c, q, None), |pages|;
    EndsAtTheLast(c, q, limit, pages);
    ConcatIsPages(c, q, limit, pages, n);
    assert pages[..n] == pages;
    TotalPages(c, q, limit);
    LastPage(|found|, limit, n);
    PagesAreThePrefix(c, q, limit, n);
    PagesAreThePrefix(c, q, limit, CeilDiv(|found|, limit));
    AllIsTaken(found, Offset(n, limit));
    AllIsTaken(found, Offset(CeilDiv(|found|, limit), limit));
  }
}
