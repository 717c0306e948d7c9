// bulkWriteWithRetry: operations that a bulk write reports as failed are retried on their own, under
// the indexes of the batch they failed in.

module BulkWrite {
  import opened Prelude

  // The answer to one bulk write. Write errors carry the index of the failed operation in the batch;
  // the others have landed. After an error without them nothing is known but what the server did.
  datatype Response<T> =
    | AllLanded
    | WriteErrors(indexes: seq<nat>)
    | ConnectionError(landed: multiset<T>)

  ghost predicate Distinct(indexes: seq<nat>) {
    forall i, j | 0 <= i < j < |indexes| :: indexes[i] != indexes[j]
  }

  ghost predicate Answers<T>(r: Response<T>, ops: seq<T>) {
    match r
    case AllLanded => true
    case WriteErrors(indexes) => indexes != [] && Distinct(indexes) && Within(indexes, |ops|)
    case ConnectionError(landed) => landed <= multiset(ops)
  }

  function Pick<T>(ops: seq<T>, indexes: seq<nat>): seq<T>
    requires Within(indexes, |ops|)
  {
    seq(|indexes|, i requires 0 <= i < |indexes| => ops[indexes[i]])
  }

  // The operations at all the other indexes.
  ghost function Others<T>(ops: seq<T>, indexes: seq<nat>): multiset<T> {
    if ops == [] then multiset{}
    else
      var n := |ops| - 1;
      Others(ops[..n], indexes) + if n in indexes then multiset{} else multiset{ops[n]}
  }

  ghost function Landed<T>(r: Response<T>, ops: seq<T>): multiset<T>
    requires Answers(r, ops)
  {
    match r
    case AllLanded => multiset(ops)
    case WriteErrors(indexes) => Others(ops, indexes)
    case ConnectionError(landed) => landed
  }

  predicate Within(indexes: seq<nat>, n: nat) {
    forall i | 0 <= i < |indexes| :: indexes[i] < n
  }

  // Leaving out the one index that is the last of the batch.
  lemma WithoutLast(indexes: seq<nat>, k: nat)
    requires Distinct(indexes) && k < |indexes| && Within(indexes, indexes[k] + 1)
    ensures var rest := indexes[..k] + indexes[k + 1..]; Distinct(rest) && Within(rest, indexes[k])
  {
    var rest := indexes[..k] + indexes[k + 1..];
    forall i | 0 <= i < |rest| ensures rest[i] == indexes[if i < k then i else i + 1] && rest[i] != indexes[k] {
    }
  }

  lemma PickSplit<T>(front: seq<T>, last: T, indexes: seq<nat>, k: nat)
    requires k < |indexes| && indexes[k] == |front| && Within(indexes[..k] + indexes[k + 1..], |front|)
    ensures Within(indexes, |front| + 1)
    ensures multiset(Pick(front + [last], indexes)) == multiset(Pick(front, indexes[..k] + indexes[k + 1..])) + multiset{last}
  {
    var rest := indexes[..k] + indexes[k + 1..];
    forall i | 0 <= i < |indexes| ensures indexes[i] < |front| + 1 {
      assert i < k ==> rest[i] == indexes[i];
      assert i > k ==> rest[i - 1] == indexes[i];
    }
    var picked := Pick(front + [last], indexes);
    assert picked == picked[..k] + [last] + picked[k + 1..];
    assert Pick(front, rest) == picked[..k] + picked[k + 1..];
  }

  lemma {:induction false} OthersAgree<T>(ops: seq<T>, indexes: seq<nat>, rest: seq<nat>)
    requires forall i: nat | i < |ops| :: i in indexes <==> i in rest
    ensures Others(ops, indexes) == Others(ops, rest)
  {
    if ops != [] {
      OthersAgree(ops[..|ops| - 1], indexes, rest);
    }
  }

  // The operations at distinct indexes of a batch and those at the others make up the batch.
  lemma {:induction false} PickIsPart<T>(ops: seq<T>, indexes: seq<nat>)
    requires Distinct(indexes) && Within(indexes, |ops|)
    ensures multiset(Pick(ops, indexes)) + Others(ops, indexes) == multiset(ops)
    decreases |ops|
  {
    if ops == [] {
      assert forall i | 0 <= i < |indexes| :: indexes[i] < |ops|;
    } else {
      var n := |ops| - 1;
      assert ops == ops[..n] + [ops[n]];
      if k :| 0 <= k < |indexes| && indexes[k] == n {
        var rest := indexes[..k] + indexes[k + 1..];
        WithoutLast(indexes, k);
        PickIsPart(ops[..n], rest);
        PickSplit(ops[..n], ops[n], indexes, k);
        OthersAgree(ops[..n], indexes, rest);
      } else {
        PickIsPart(ops[..n], indexes);
        assert Pick(ops[..n], indexes) == Pick(ops, indexes);
      }
    }
  }

  // What has landed and what is retried make up the batch.
  lemma NothingLost<T>(ops: seq<T>, indexes: seq<nat>)
    requires Answers(WriteErrors(indexes), ops)
    ensures Landed(WriteErrors(indexes), ops) + multiset(Pick(ops, indexes)) == multiset(ops)
    ensures Pick(ops, indexes) != []
  {
    PickIsPart(ops, indexes);
  }

  class Model<T(==,!new)> {
    const respond: (nat, seq<T>) -> Response<T>
    var calls: nat
    ghost var landed: multiset<T>

    ghost predicate Valid()
      reads this
    {
      forall call, ops :: Answers(respond(call, ops), ops)
    }

    method BulkWrite(ops: seq<T>) returns (r: Response<T>)
      requires Valid()
      modifies this
      ensures Valid() && calls == old(calls) + 1
      ensures r == respond(old(calls), ops) && Answers(r, ops) && landed == old(landed) + Landed(r, ops)
    {
      r := respond(calls, ops);
      calls := calls + 1;
      landed := landed + Landed(r, ops);
    }
  }

  const MAX_BULK_WRITE_RETRIES: nat := 3
  const BULK_WRITE_RETRY_BASE_DELAY_MS: nat := 200

  function Doubled(attempt: nat): nat {
    if attempt == 0 then 1 else 2 * Doubled(attempt - 1)
  }

  // The delays still ahead of this attempt.
  function DelaysFrom(attempt: nat): nat
    decreases MAX_BULK_WRITE_RETRIES - attempt
  {
    if attempt >= MAX_BULK_WRITE_RETRIES then 0
    else BULK_WRITE_RETRY_BASE_DELAY_MS * Doubled(attempt) + DelaysFrom(attempt + 1)
  }

  lemma DelaysStep(attempt: nat)
    ensures attempt < MAX_BULK_WRITE_RETRIES ==>
              DelaysFrom(attempt) == BULK_WRITE_RETRY_BASE_DELAY_MS * Doubled(attempt) + DelaysFrom(attempt + 1)
  {
  }

  lemma AllDelays()
    ensures DelaysFrom(0) == 1400 && DelaysFrom(1) == 1200 && DelaysFrom(2) == 800 && DelaysFrom(3) == 0
  {
    assert Doubled(0) == 1 && Doubled(1) == 2 && Doubled(2) == 4;
  }

  datatype BulkError<T> = GaveUp(neverLanded: seq<T>) | NoWriteErrors(error: Response<T>)

  method BulkWriteWithRetry<T(==,!new)>(model: Model<T>, ops: seq<T>, attempt: nat := 0)
    returns (thrown: Option<BulkError<T>>, delayed: nat)
    requires model.Valid() && attempt <= MAX_BULK_WRITE_RETRIES
    modifies model
    ensures model.Valid()
    ensures model.calls <= old(model.calls) + 4 - attempt
    ensures model.calls > old(model.calls)
    ensures delayed == DelaysFrom(attempt) - DelaysFrom(attempt + (model.calls - old(model.calls) - 1))
    ensures attempt == 0 ==>
              delayed == match model.calls - old(model.calls) case 1 => 0 case 2 => 200 case 3 => 600 case _ => 1400
    ensures thrown.None? ==> model.landed == old(model.landed) + multiset(ops)
    ensures thrown.Some? && thrown.value.GaveUp? ==>
              && thrown.value.neverLanded != []
              && model.landed + multiset(thrown.value.neverLanded) == old(model.landed) + multiset(ops)
              && model.calls == old(model.calls) + 4 - attempt
    ensures thrown.Some? && thrown.value.NoWriteErrors? ==>
              model.landed <= old(model.landed) + multiset(ops) && thrown.value.error.ConnectionError?
    decreases MAX_BULK_WRITE_RETRIES - attempt
  {
    hide Pick, Distinct, Within, Doubled, DelaysFrom, Model.Valid, Others;
    AllDelays();
    DelaysStep(attempt);
    thrown, delayed := None, 0;
    var answer := model.BulkWrite(ops);
    if answer.AllLanded? {
      return;
    }
    if answer.ConnectionError? {
      thrown := Some(NoWriteErrors(answer));
      return;
    }
    NothingLost(ops, answer.indexes);
    var retryOps := Pick(ops, answer.indexes);
    if attempt >= MAX_BULK_WRITE_RETRIES {
      thrown := Some(GaveUp(retryOps));
      return;
    }
    var later: nat;
    thrown, later := BulkWriteWithRetry(model, retryOps, attempt + 1);
    delayed := BULK_WRITE_RETRY_BASE_DELAY_MS * Doubled(attempt) + later;
  }
}
