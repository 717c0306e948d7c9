// Key rotation of stored objects while nobody else writes: the walk over every page, what it leaves
// of each object, and the status check.

module RotationCore {
  import opened Prelude
  import opened StorageCrypto
  import opened ObjectStorageModel

  type Objects = map<Key, Stored>

  // ----- one key ----------------------------------------------------------------------------

  datatype Outcome = Migrated(after: Stored) | WouldMigrate | Skipped | Failed(error: CryptoError)

  function Turn(c: Config, active: Version, o: Stored, dryRun: bool, random: nat): Outcome {
    if o.version == Some(active) then Skipped
    else if dryRun then WouldMigrate
    else match Reading(c, o)
      case Failure(e) => Failed(e)
      case Success(f) =>
        match Written(c, f.bytes, f.contentType, random)
        case Failure(e) => Failed(e)
        case Success(after) => Migrated(after)
  }

  function Left(c: Config, active: Version, o: Stored, dryRun: bool, random: nat): Stored {
    var turn := Turn(c, active, o, dryRun, random);
    if turn.Migrated? then turn.after else o
  }

  // The connector rotates towards the version it writes under.
  ghost predicate Rotates(c: Config, active: Version) {
    c.encrypt.Some? && active == ActiveVersion(c.encrypt.value) && LawfulConfig(c)
  }

  // An object whose recorded checksum, if any, is that of its content.
  predicate Sound(c: Config, o: Stored) {
    Plaintext(c, o).Success? && o.checksum.Some? ==> o.checksum.value == c.prims.checksum(Plaintext(c, o).value)
  }

  // What a reader gets is the same before and after, whether the turn migrates, skips or fails.
  lemma TurnIsInvisible(c: Config, active: Version, o: Stored, dryRun: bool, random: nat)
    requires Rotates(c, active) && ReadsItself(c) && Sound(c, o)
    ensures Reading(c, Left(c, active, o, dryRun, random)) == Reading(c, o)
    ensures Sound(c, Left(c, active, o, dryRun, random))
  {
    if Turn(c, active, o, dryRun, random).Migrated? {
      var f := Reading(c, o).value;
      PutThenGet(c, f.bytes, f.contentType, random);
    }
  }

  predicate WriteKeySet(c: Config) {
    c.encrypt.Some? ==>
      var v := ActiveVersion(c.encrypt.value);
      if c.encrypt.value.mode.Symmetric? then v in c.env.aes else v in c.env.rsaPublic
  }

  // A turn fails exactly on an object still to be migrated that cannot be read or cannot be written.
  lemma FailsIff(c: Config, active: Version, o: Stored, dryRun: bool, random: nat)
    ensures Turn(c, active, o, dryRun, random).Failed? <==>
              !dryRun && o.version != Some(active) && (Plaintext(c, o).Failure? || !WriteKeySet(c))
  {
  }

  // ----- every key in turn ------------------------------------------------------------------

  datatype Tally = Tally(objects: Objects, scanned: nat, migrated: nat, skipped: nat, failed: seq<(Key, CryptoError)>)

  function Count(t: Tally, key: Key, outcome: Outcome): Tally {
    match outcome
    case Migrated(after) => t.(scanned := t.scanned + 1, migrated := t.migrated + 1, objects := t.objects[key := after])
    case WouldMigrate => t.(scanned := t.scanned + 1, migrated := t.migrated + 1)
    case Skipped => t.(scanned := t.scanned + 1, skipped := t.skipped + 1)
    case Failed(e) => t.(scanned := t.scanned + 1, failed := t.failed + [(key, e)])
  }

  function After(c: Config, active: Version, objects: Objects, keys: seq<Key>, dryRun: bool, random: Key -> nat): (t: Tally)
    ensures t.scanned == |keys| == t.migrated + t.skipped + |t.failed|
    decreases |keys|
  {
    if keys == [] then Tally(objects, 0, 0, 0, [])
    else
      var n := |keys| - 1;
      var t := After(c, active, objects, keys[..n], dryRun, random);
      if keys[n] !in t.objects then Count(t, keys[n], Skipped)
      else Count(t, keys[n], Turn(c, active, t.objects[keys[n]], dryRun, random(keys[n])))
  }

  ghost predicate Distinct(keys: seq<Key>) {
    forall i, j | 0 <= i < j < |keys| :: keys[i] != keys[j]
  }

  ghost predicate Held(objects: Objects, keys: seq<Key>) {
    Distinct(keys) && forall i | 0 <= i < |keys| :: keys[i] in objects
  }

  // Every key in its own place: the keys visited are left as their own turn leaves them, the others
  // untouched.
  ghost predicate PlaceByPlace(c: Config, active: Version, before: Objects, keys: seq<Key>, dryRun: bool, random: Key -> nat,
                               after: Objects)
  {
    && after.Keys == before.Keys
    && (forall k | k in before && k !in keys :: after[k] == before[k])
    && (forall k | k in before && k in keys :: after[k] == Left(c, active, before[k], dryRun, random(k)))
  }

  lemma LastIsNew(objects: Objects, keys: seq<Key>)
    requires Held(objects, keys) && keys != []
    ensures var n := |keys| - 1;
            && Held(objects, keys[..n]) && keys[n] !in keys[..n] && keys[n] in objects
            && forall k :: k in keys <==> k in keys[..n] || k == keys[n]
  {
    var n := |keys| - 1;
    assert keys == keys[..n] + [keys[n]];
    forall i | 0 <= i < n ensures keys[..n][i] != keys[n] {
      assert keys[i] != keys[n];
    }
  }

  lemma {:induction false} NoPlaces(c: Config, active: Version, objects: Objects, dryRun: bool, random: Key -> nat)
    ensures PlaceByPlace(c, active, objects, [], dryRun, random, After(c, active, objects, [], dryRun, random).objects)
  {
  }

  lemma OneMorePlace(c: Config, active: Version, objects: Objects, keys: seq<Key>, dryRun: bool, random: Key -> nat)
    requires Held(objects, keys) && keys != []
    requires var front := keys[..|keys| - 1];
             PlaceByPlace(c, active, objects, front, dryRun, random, After(c, active, objects, front, dryRun, random).objects)
    ensures PlaceByPlace(c, active, objects, keys, dryRun, random, After(c, active, objects, keys, dryRun, random).objects)
  {
    hide Turn, Held;
    LastIsNew(objects, keys);
    var n := |keys| - 1;
    var t := After(c, active, objects, keys[..n], dryRun, random);
    assert keys[n] in t.objects.Keys && t.objects[keys[n]] == objects[keys[n]];
  }

  lemma {:induction false} AfterPlaces(c: Config, active: Version, objects: Objects, keys: seq<Key>, dryRun: bool, random: Key -> nat)
    requires Held(objects, keys)
    ensures PlaceByPlace(c, active, objects, keys, dryRun, random, After(c, active, objects, keys, dryRun, random).objects)
    decreases |keys|
  {
    hide Turn, Held, PlaceByPlace;
    if keys != [] {
      LastIsNew(objects, keys);
      AfterPlaces(c, active, objects, keys[..|keys| - 1], dryRun, random);
      OneMorePlace(c, active, objects, keys, dryRun, random);
    } else {
      NoPlaces(c, active, objects, dryRun, random);
    }
  }

  // The last turn is taken on the object as it was at the start.
  lemma {:induction false} LastTurn(c: Config, active: Version, objects: Objects, keys: seq<Key>, dryRun: bool, random: Key -> nat)
    requires Held(objects, keys) && keys != []
    ensures var n := |keys| - 1;
            && Held(objects, keys[..n])
            && keys[n] in objects
            && After(c, active, objects, keys, dryRun, random) ==
               Count(After(c, active, objects, keys[..n], dryRun, random), keys[n],
                     Turn(c, active, objects[keys[n]], dryRun, random(keys[n])))
  {
    hide Turn, Held, Left;
    var n := |keys| - 1;
    LastIsNew(objects, keys);
    AfterPlaces(c, active, objects, keys[..n], dryRun, random);
  }

  // A dry run changes nothing and counts what a real run migrates or fails on.
  lemma {:induction false} DryRunPredicts(c: Config, active: Version, objects: Objects, keys: seq<Key>, random: Key -> nat, dryRandom: Key -> nat)
    requires Held(objects, keys)
    ensures var dry, wet := After(c, active, objects, keys, true, dryRandom), After(c, active, objects, keys, false, random);
            && dry.objects == objects && dry.failed == []
            && dry.migrated == wet.migrated + |wet.failed| && dry.skipped == wet.skipped
    decreases |keys|
  {
    hide Held;
    if keys != [] {
      LastTurn(c, active, objects, keys, true, dryRandom);
      LastTurn(c, active, objects, keys, false, random);
      DryRunPredicts(c, active, objects, keys[..|keys| - 1], random, dryRandom);
    }
  }

  ghost predicate AllActive(objects: Objects, keys: seq<Key>, active: Version) {
    forall k | k in keys && k in objects :: objects[k].version == Some(active)
  }

  lemma MigratedIsActive(c: Config, active: Version, o: Stored, dryRun: bool, random: nat)
    requires c.encrypt.Some? && active == ActiveVersion(c.encrypt.value)
    ensures Left(c, active, o, dryRun, random).version == Some(active) <==>
              Turn(c, active, o, dryRun, random).Migrated? || Turn(c, active, o, dryRun, random).Skipped?
  {
  }

  // Every key visited is on the active version after its own turn.
  ghost predicate EachTurnActive(c: Config, active: Version, objects: Objects, keys: seq<Key>, random: Key -> nat) {
    forall k | k in keys && k in objects :: Left(c, active, objects[k], false, random(k)).version == Some(active)
  }

  lemma {:induction false} NoFailureIff(c: Config, active: Version, objects: Objects, keys: seq<Key>, random: Key -> nat)
    requires Rotates(c, active) && Held(objects, keys)
    ensures After(c, active, objects, keys, false, random).failed == [] <==> EachTurnActive(c, active, objects, keys, random)
    decreases |keys|
  {
    if keys != [] {
      var n := |keys| - 1;
      hide Held, Left, Turn;
      LastIsNew(objects, keys);
      LastTurn(c, active, objects, keys, false, random);
      MigratedIsActive(c, active, objects[keys[n]], false, random(keys[n]));
      NoFailureIff(c, active, objects, keys[..n], random);
    }
  }

  // A real run fails on nothing exactly when it leaves every key it visits on the active version.
  lemma {:induction false} CompleteIff(c: Config, active: Version, objects: Objects, keys: seq<Key>, random: Key -> nat)
    requires Rotates(c, active) && Held(objects, keys)
    ensures var t := After(c, active, objects, keys, false, random); t.failed == [] <==> AllActive(t.objects, keys, active)
  {
    hide Held, Left, After;
    AfterPlaces(c, active, objects, keys, false, random);
    NoFailureIff(c, active, objects, keys, random);
  }

  // The keys that are reported as failed are exactly those that are outdated and cannot be read or
  // written.
  lemma {:induction false} FailedAre(c: Config, active: Version, objects: Objects, keys: seq<Key>, random: Key -> nat, key: Key)
    requires Held(objects, keys)
    ensures Reported(After(c, active, objects, keys, false, random).failed, key) <==>
              key in keys && key in objects && objects[key].version != Some(active) &&
              (Plaintext(c, objects[key]).Failure? || !WriteKeySet(c))
    decreases |keys|
  {
    if keys != [] {
      var n := |keys| - 1;
      hide Held, Turn, Plaintext, WriteKeySet;
      LastIsNew(objects, keys);
      LastTurn(c, active, objects, keys, false, random);
      FailedAre(c, active, objects, keys[..n], random, key);
      FailsIff(c, active, objects[keys[n]], false, random(keys[n]));
      ReportedOneMore(After(c, active, objects, keys[..n], false, random), keys[n],
                      Turn(c, active, objects[keys[n]], false, random(keys[n])), key);
    }
  }

  ghost predicate Reported(failed: seq<(Key, CryptoError)>, key: Key) {
    exists i :: 0 <= i < |failed| && failed[i].0 == key
  }

  lemma ReportedOneMore(t: Tally, visited: Key, outcome: Outcome, key: Key)
    ensures Reported(Count(t, visited, outcome).failed, key) <==>
              Reported(t.failed, key) || (outcome.Failed? && key == visited)
  {
    var failed := Count(t, visited, outcome).failed;
    if i :| 0 <= i < |t.failed| && t.failed[i].0 == key {
      assert failed[i].0 == key;
    }
    if outcome.Failed? {
      assert failed[|t.failed|].0 == visited;
    }
  }

  // ----- running it again -------------------------------------------------------------------

  // What is left of an object is not migrated again; what failed fails in the same way.
  lemma TurnOfLeft(c: Config, active: Version, o: Stored, random: nat, again: nat)
    requires c.encrypt.Some? && active == ActiveVersion(c.encrypt.value)
    ensures var turn := Turn(c, active, o, false, random);
            Turn(c, active, Left(c, active, o, false, random), false, again) == if turn.Failed? then turn else Skipped
  {
  }

  lemma {:induction false} SecondRunOn(c: Config, active: Version, objects: Objects, left: Objects, keys: seq<Key>, random: Key -> nat, again: Key -> nat)
    requires c.encrypt.Some? && active == ActiveVersion(c.encrypt.value) && Held(objects, keys) && Held(left, keys)
    requires forall k | k in keys && k in objects && k in left :: left[k] == Left(c, active, objects[k], false, random(k))
    ensures var first, second := After(c, active, objects, keys, false, random), After(c, active, left, keys, false, again);
            second.migrated == 0 && second.objects == left && second.failed == first.failed
    decreases |keys|
  {
    if keys != [] {
      var n := |keys| - 1;
      hide Held, Left, Turn;
      LastIsNew(objects, keys);
      LastTurn(c, active, objects, keys, false, random);
      LastTurn(c, active, left, keys, false, again);
      SecondRunOn(c, active, objects, left, keys[..n], random, again);
      assert keys[n] in keys;
      TurnOfLeft(c, active, objects[keys[n]], random(keys[n]), again(keys[n]));
    }
  }

  lemma HeldAfter(before: Objects, after: Objects, keys: seq<Key>)
    requires Held(before, keys) && after.Keys == before.Keys
    ensures Held(after, keys)
  {
    forall i | 0 <= i < |keys| ensures keys[i] in after {
      assert keys[i] in before.Keys;
    }
  }

  // Running it again migrates nothing, changes nothing and fails on the same keys.
  lemma {:induction false} SecondRun(c: Config, active: Version, objects: Objects, keys: seq<Key>, random: Key -> nat, again: Key -> nat)
    requires Rotates(c, active) && Held(objects, keys)
    ensures var first := After(c, active, objects, keys, false, random);
            var second := After(c, active, first.objects, keys, false, again);
            second.migrated == 0 && second.objects == first.objects && second.failed == first.failed
  {
    hide After, Held, Left;
    AfterPlaces(c, active, objects, keys, false, random);
    HeldAfter(objects, After(c, active, objects, keys, false, random).objects, keys);
    SecondRunOn(c, active, objects, After(c, active, objects, keys, false, random).objects, keys, random, again);
  }

  // No reader of any key, visited or not, can tell that a rotation has run.
  lemma {:induction false} RotationIsInvisible(c: Config, active: Version, objects: Objects, keys: seq<Key>, dryRun: bool, random: Key -> nat)
    requires Rotates(c, active) && ReadsItself(c) && Held(objects, keys)
    requires forall k | k in objects :: Sound(c, objects[k])
    ensures var t := After(c, active, objects, keys, dryRun, random);
            && t.objects.Keys == objects.Keys
            && forall k | k in objects :: Reading(c, t.objects[k]) == Reading(c, objects[k]) && Sound(c, t.objects[k])
  {
    hide After, Held, Left, Sound, Reading, Rotates, ReadsItself;
    AfterPlaces(c, active, objects, keys, dryRun, random);
    forall k | k in objects && k in keys
      ensures var left := Left(c, active, objects[k], dryRun, random(k)); Reading(c, left) == Reading(c, objects[k]) && Sound(c, left)
    {
      TurnIsInvisible(c, active, objects[k], dryRun, random(k));
    }
  }

  // ----- runRotate --------------------------------------------------------------------------

  datatype RotationResult = RotationResult(scanned: nat, migrated: nat, skipped: nat, failed: seq<(Key, CryptoError)>)

  method RotateKey(storage: SeaweedFSObjectStorage, active: Version, key: Key, dryRun: bool, random: nat) returns (outcome: Outcome)
    requires storage.Valid()
    modifies storage
    ensures storage.Valid()
    ensures key !in old(storage.objects) ==> outcome == Skipped && storage.objects == old(storage.objects)
    ensures key in old(storage.objects) ==>
              && outcome == Turn(storage.config, active, old(storage.objects)[key], dryRun, random)
              && storage.objects == (if outcome.Migrated? then old(storage.objects)[key := outcome.after] else old(storage.objects))
              && storage.listing == old(storage.listing)
  {
    var before := storage.GetMetadata(key);
    if before.None? || before.value.version == Some(active) {
      return Skipped;
    }
    if dryRun {
      return WouldMigrate;
    }
    var found := storage.Get(key);
    if found.Failure? {
      return Failed(found.error);
    }
    if found.value.None? {
      return Skipped;
    }
    var plaintext := found.value.value.bytes;
    var stillCurrent := storage.GetMetadata(key);
    if stillCurrent.None? || stillCurrent.value.checksum != before.value.checksum {
      return Skipped;
    }
    var put := storage.Put(key, plaintext, found.value.value.contentType, random);
    outcome := if put.Failure? then Failed(put.error) else Migrated(storage.objects[key]);
  }

  // What a walk has still to see: pages of no keys end it at once.
  function Beyond(listing: seq<Key>, prefix: Option<Key>, token: Option<Key>, size: nat): seq<Key> {
    if size == 0 then [] else Listed(listing, prefix, token)
  }

  function Walked(listing: seq<Key>, prefix: Option<Key>, maxKeysPerPage: Option<nat>): seq<Key> {
    Beyond(listing, prefix, None, PageSize(maxKeysPerPage))
  }

  lemma WalkedHeld(storage: SeaweedFSObjectStorage, prefix: Option<Key>, maxKeysPerPage: Option<nat>)
    requires storage.Valid()
    ensures Held(storage.objects, Walked(storage.listing, prefix, maxKeysPerPage))
  {
    hide Listed, InOrder;
    ListedHeld(storage, prefix);
  }

  lemma {:induction false} ListedHeld(storage: SeaweedFSObjectStorage, prefix: Option<Key>)
    requires storage.Valid()
    ensures Held(storage.objects, Listed(storage.listing, prefix, None))
  {
    var listing, objects := storage.listing, storage.objects;
    var keys := Listed(listing, prefix, None);
    ListedInOrder(listing, prefix, None);
    ListedKeys(listing, prefix, None);
    forall i, j | 0 <= i < j < |keys| ensures keys[i] != keys[j] {
      BeforeOrders(keys[i], keys[j]);
    }
    forall i | 0 <= i < |keys| ensures keys[i] in objects {
      assert keys[i] in keys;
    }
  }

  lemma {:induction false} AfterOneMore(c: Config, active: Version, objects: Objects, keys: seq<Key>, key: Key, dryRun: bool, random: Key -> nat)
    ensures var t := After(c, active, objects, keys, dryRun, random);
            After(c, active, objects, keys + [key], dryRun, random) ==
            if key !in t.objects then Count(t, key, Skipped)
            else Count(t, key, Turn(c, active, t.objects[key], dryRun, random(key)))
  {
    hide Turn;
    assert (keys + [key])[..|keys|] == keys;
  }

  // The bucket and the counters are what the keys visited so far make of them.
  ghost predicate Reached(storage: SeaweedFSObjectStorage, active: Version, start: Objects, visited: seq<Key>, dryRun: bool,
                          random: Key -> nat, counters: RotationResult)
    reads storage
  {
    var t := After(storage.config, active, start, visited, dryRun, random);
    counters == RotationResult(t.scanned, t.migrated, t.skipped, t.failed) && storage.objects == t.objects
  }

  lemma {:induction false} KeyStep(c: Config, active: Version, start: Objects, visited: seq<Key>, page: seq<Key>, i: nat, dryRun: bool,
                random: Key -> nat)
    requires Held(start, visited + page) && i < |page|
    ensures var t := After(c, active, start, visited + page[..i], dryRun, random);
            && page[i] in t.objects
            && After(c, active, start, visited + page[..i + 1], dryRun, random) ==
               Count(t, page[i], Turn(c, active, t.objects[page[i]], dryRun, random(page[i])))
  {
    hide After, Turn, Left, Held;
    var keys, so := visited + page, visited + page[..i];
    HeldPrefix(start, keys, |visited| + i);
    assert keys[..|visited| + i] == so;
    AfterPlaces(c, active, start, so, dryRun, random);
    HeldAt(start, keys, |visited| + i);
    assert page[i] in start.Keys;
    AfterOneMore(c, active, start, so, page[i], dryRun, random);
    assert so + [page[i]] == visited + page[..i + 1];
  }

  // One page: the counters and the bucket move on by the keys of the page.
  method RotatePage(storage: SeaweedFSObjectStorage, active: Version, page: seq<Key>, dryRun: bool, random: Key -> nat,
                    counters: RotationResult, ghost start: Objects, ghost visited: seq<Key>)
    returns (r: RotationResult)
    requires storage.Valid() && Held(start, visited + page)
    requires Reached(storage, active, start, visited, dryRun, random, counters)
    modifies storage
    ensures storage.Valid() && storage.listing == old(storage.listing)
    ensures Reached(storage, active, start, visited + page, dryRun, random, r)
  {
    hide After, Turn, Left, Held, SeaweedFSObjectStorage.Valid;
    r := counters;
    var i := 0;
    assert visited + page[..0] == visited;
    while i < |page|
      invariant 0 <= i <= |page| && storage.Valid() && storage.listing == old(storage.listing)
      invariant Reached(storage, active, start, visited + page[..i], dryRun, random, r)
    {
      var key := page[i];
      KeyStep(storage.config, active, start, visited, page, i, dryRun, random);
      var outcome := RotateKey(storage, active, key, dryRun, random(key));
      match outcome {
        case Migrated(_) => r := r.(scanned := r.scanned + 1, migrated := r.migrated + 1);
        case WouldMigrate => r := r.(scanned := r.scanned + 1, migrated := r.migrated + 1);
        case Skipped => r := r.(scanned := r.scanned + 1, skipped := r.skipped + 1);
        case Failed(e) => r := r.(scanned := r.scanned + 1, failed := r.failed + [(key, e)]);
      }
      i := i + 1;
    }
    assert page[..i] == page;
  }

  lemma HeldAt(objects: Objects, keys: seq<Key>, i: nat)
    requires Held(objects, keys) && i < |keys|
    ensures keys[i] in objects
  {
  }

  lemma HeldPrefix(objects: Objects, keys: seq<Key>, n: nat)
    requires Held(objects, keys) && n <= |keys|
    ensures Held(objects, keys[..n])
  {
  }

  // Throws, here None, exactly when encryption is off.
  method RunRotate(storage: SeaweedFSObjectStorage, prefix: Option<Key>, maxKeysPerPage: Option<nat>, dryRun: bool, random: Key -> nat)
    returns (r: Option<RotationResult>)
    requires storage.Valid()
    modifies storage
    ensures storage.Valid() && storage.listing == old(storage.listing)
    ensures r.None? <==> storage.config.encrypt.None?
    ensures r.None? ==> storage.objects == old(storage.objects)
    ensures r.Some? ==>
              var t := After(storage.config, ActiveVersion(storage.config.encrypt.value), old(storage.objects),
                             Walked(old(storage.listing), prefix, maxKeysPerPage), dryRun, random);
              r.value == RotationResult(t.scanned, t.migrated, t.skipped, t.failed) && storage.objects == t.objects
  {
    hide *;
    if storage.config.encrypt.None? {
      return None;
    }
    var active := ActiveVersion(storage.config.encrypt.value);
    var result := RotationResult(0, 0, 0, []);
    ghost var start, visited := storage.objects, [];
    ghost var size := PageSize(maxKeysPerPage);
    ghost var all := Walked(storage.listing, prefix, maxKeysPerPage);
    WalkedHeld(storage, prefix, maxKeysPerPage);
    WalkedIs(storage.listing, prefix, maxKeysPerPage);
    AfterNothing(storage, active, dryRun, random);
    assert [] + all == all;
    var token: Option<Key> := None;
    var more := true;
    while more
      invariant storage.Valid() && storage.listing == old(storage.listing)
      invariant all == visited + (if more then Beyond(storage.listing, prefix, token, size) else [])
      invariant Reached(storage, active, start, visited, dryRun, random, result)
      decreases more, |all| - |visited|
    {
      var page := storage.ListPage(prefix, token, maxKeysPerPage);
      PageMoves(storage, prefix, token, size, all, visited, start);
      result := RotatePage(storage, active, page.keys, dryRun, random, result, start, visited);
      visited := visited + page.keys;
      token := page.next;
      more := token.Some?;
    }
    assert visited == all;
    ReachedIs(storage, active, start, visited, dryRun, random, result);
    r := Some(result);
  }

  lemma WalkedIs(listing: seq<Key>, prefix: Option<Key>, maxKeysPerPage: Option<nat>)
    ensures Walked(listing, prefix, maxKeysPerPage) == Beyond(listing, prefix, None, PageSize(maxKeysPerPage))
  {
  }

  lemma AfterNothing(storage: SeaweedFSObjectStorage, active: Version, dryRun: bool, random: Key -> nat)
    ensures Reached(storage, active, storage.objects, [], dryRun, random, RotationResult(0, 0, 0, []))
  {
  }

  // A page and what is beyond its token make up what was beyond the token before.
  lemma BeyondPage(listing: seq<Key>, prefix: Option<Key>, token: Option<Key>, size: nat)
    requires InOrder(listing)
    ensures var page := PageOf(listing, prefix, token, size);
            && Beyond(listing, prefix, token, size) ==
                 page.keys + (if page.next.Some? then Beyond(listing, prefix, page.next, size) else [])
            && (page.next.Some? ==> page.keys != [])
  {
    hide Listed, InOrder;
    if size > 0 {
      hide PageOf;
      PagesJoin(listing, prefix, token, size);
    }
  }

  lemma PageMoves(storage: SeaweedFSObjectStorage, prefix: Option<Key>, token: Option<Key>, size: nat, all: seq<Key>,
                  visited: seq<Key>, start: Objects)
    requires storage.Valid() && Held(start, all)
    requires all == visited + Beyond(storage.listing, prefix, token, size)
    ensures var page := PageOf(storage.listing, prefix, token, size);
            && all == visited + page.keys + (if page.next.Some? then Beyond(storage.listing, prefix, page.next, size) else [])
            && Held(start, visited + page.keys)
            && (page.next.Some? ==> page.keys != [])
  {
    hide Listed, Held, PageOf, Beyond;
    var page := PageOf(storage.listing, prefix, token, size);
    BeyondPage(storage.listing, prefix, token, size);
    HeldPrefix(start, all, |visited| + |page.keys|);
    assert all[..|visited| + |page.keys|] == visited + page.keys;
  }

  lemma {:induction false} ReachedIs(storage: SeaweedFSObjectStorage, active: Version, start: Objects, visited: seq<Key>, dryRun: bool,
                  random: Key -> nat, counters: RotationResult)
    requires Reached(storage, active, start, visited, dryRun, random, counters)
    ensures var t := After(storage.config, active, start, visited, dryRun, random);
            counters == RotationResult(t.scanned, t.migrated, t.skipped, t.failed) && storage.objects == t.objects
  {
  }

  // ----- walkKeys ---------------------------------------------------------------------------

  // Each key in scope once, in order, whatever the size of the pages, unless they hold no keys.
  method WalkKeys(storage: SeaweedFSObjectStorage, prefix: Option<Key>, maxKeysPerPage: Option<nat>) returns (keys: seq<Key>)
    requires storage.Valid()
    ensures keys == Walked(storage.listing, prefix, maxKeysPerPage)
    ensures Held(storage.objects, keys)
    ensures forall k :: k in keys <==> PageSize(maxKeysPerPage) > 0 && k in storage.objects && InScope(prefix, k)
  {
    hide *;
    keys := [];
    ghost var size := PageSize(maxKeysPerPage);
    ghost var all := Walked(storage.listing, prefix, maxKeysPerPage);
    WalkedHeld(storage, prefix, maxKeysPerPage);
    WalkedIs(storage.listing, prefix, maxKeysPerPage);
    WalkedScope(storage, prefix, maxKeysPerPage);
    assert [] + all == all;
    var token: Option<Key> := None;
    var more := true;
    while more
      invariant all == keys + (if more then Beyond(storage.listing, prefix, token, size) else [])
      decreases more, |all| - |keys|
    {
      var page := storage.ListPage(prefix, token, maxKeysPerPage);
      PageMoves(storage, prefix, token, size, all, keys, storage.objects);
      keys := keys + page.keys;
      token := page.next;
      more := token.Some?;
    }
    assert keys == all;
  }

  lemma WalkedScope(storage: SeaweedFSObjectStorage, prefix: Option<Key>, maxKeysPerPage: Option<nat>)
    requires storage.Valid()
    ensures forall k :: k in Walked(storage.listing, prefix, maxKeysPerPage) <==>
              PageSize(maxKeysPerPage) > 0 && k in storage.objects && InScope(prefix, k)
  {
    hide Listed, InOrder, PageSize;
    ListedKeys(storage.listing, prefix, None);
  }

  // ----- runCheck ---------------------------------------------------------------------------

  datatype RotationStatus = RotationStatus(activeVersion: Version, totalObjects: nat, onActiveVersion: nat,
                                           versionsStillInUse: set<Version>, unencrypted: nat, safeToRetireOldKeys: bool)

  ghost predicate VersionAt(objects: Objects, keys: seq<Key>, i: nat, version: Option<Version>) {
    i < |keys| && keys[i] in objects && objects[keys[i]].version == version
  }

  ghost function PlacesWith(objects: Objects, keys: seq<Key>, version: Option<Version>): set<nat> {
    set i: nat | i < |keys| && VersionAt(objects, keys, i, version)
  }

  ghost predicate StillInUse(objects: Objects, keys: seq<Key>, active: Version, v: Version) {
    v != active && exists i: nat :: VersionAt(objects, keys, i, Some(v))
  }

  // What the counters say of the first n keys.
  ghost predicate Counted(objects: Objects, keys: seq<Key>, active: Version, n: nat, onActive: nat, unencrypted: nat, versions: set<Version>)
    requires n <= |keys|
  {
    && onActive == |PlacesWith(objects, keys[..n], Some(active))|
    && unencrypted == |PlacesWith(objects, keys[..n], None)|
    && forall v :: v in versions <==> StillInUse(objects, keys[..n], active, v)
  }

  lemma PlacesStep(objects: Objects, keys: seq<Key>, n: nat, version: Option<Version>)
    requires n < |keys|
    ensures |PlacesWith(objects, keys[..n + 1], version)| ==
              |PlacesWith(objects, keys[..n], version)| + if VersionAt(objects, keys, n, version) then 1 else 0
  {
    var before, after := PlacesWith(objects, keys[..n], version), PlacesWith(objects, keys[..n + 1], version);
    forall i: nat | i < n
      ensures VersionAt(objects, keys[..n], i, version) == VersionAt(objects, keys[..n + 1], i, version)
    {
    }
    if VersionAt(objects, keys, n, version) {
      assert VersionAt(objects, keys[..n + 1], n, version);
      assert after == before + {n};
    } else {
      assert after == before;
    }
  }

  lemma InUseStep(objects: Objects, keys: seq<Key>, active: Version, n: nat, v: Version)
    requires n < |keys|
    ensures StillInUse(objects, keys[..n + 1], active, v) <==>
              StillInUse(objects, keys[..n], active, v) || (v != active && VersionAt(objects, keys, n, Some(v)))
  {
    if StillInUse(objects, keys[..n + 1], active, v) {
      var i: nat :| VersionAt(objects, keys[..n + 1], i, Some(v));
      assert i < n ==> VersionAt(objects, keys[..n], i, Some(v));
    }
    if StillInUse(objects, keys[..n], active, v) {
      var i: nat :| VersionAt(objects, keys[..n], i, Some(v));
      assert VersionAt(objects, keys[..n + 1], i, Some(v));
    }
    if v != active && VersionAt(objects, keys, n, Some(v)) {
      assert VersionAt(objects, keys[..n + 1], n, Some(v));
    }
  }

  // Nothing left in use and nothing unencrypted: exactly when every key is on the active version.
  lemma SafeIff(objects: Objects, keys: seq<Key>, active: Version)
    requires Held(objects, keys)
    ensures AllActive(objects, keys, active) <==>
              PlacesWith(objects, keys, None) == {} && forall v :: !StillInUse(objects, keys, active, v)
  {
    if AllActive(objects, keys, active) {
      forall i: nat, version | VersionAt(objects, keys, i, version) ensures version == Some(active) {
        assert keys[i] in keys;
      }
    } else {
      var k :| k in keys && k in objects && objects[k].version != Some(active);
      var i: nat :| i < |keys| && keys[i] == k;
      assert VersionAt(objects, keys, i, objects[k].version);
      if objects[k].version.None? {
        assert i in PlacesWith(objects, keys, None);
      } else {
        assert StillInUse(objects, keys, active, objects[k].version.value);
      }
    }
  }

  // Throws, here None, exactly when encryption is off.
  method RunCheck(storage: SeaweedFSObjectStorage, prefix: Option<Key>, maxKeysPerPage: Option<nat>)
    returns (r: Option<RotationStatus>)
    requires storage.Valid()
    ensures r.None? <==> storage.config.encrypt.None?
    ensures r.Some? ==>
              var keys, active := Walked(storage.listing, prefix, maxKeysPerPage), ActiveVersion(storage.config.encrypt.value);
              && r.value.activeVersion == active && r.value.totalObjects == |keys|
              && r.value.onActiveVersion == |PlacesWith(storage.objects, keys, Some(active))|
              && r.value.unencrypted == |PlacesWith(storage.objects, keys, None)|
              && (forall v :: v in r.value.versionsStillInUse <==> StillInUse(storage.objects, keys, active, v))
              && (r.value.safeToRetireOldKeys <==> AllActive(storage.objects, keys, active))
  {
    hide Listed, Beyond, Walked, PageSize, InOrder, SeaweedFSObjectStorage.Valid, AllActive, StillInUse, PlacesWith, InScope, Held;
    if storage.config.encrypt.None? {
      return None;
    }
    var active := ActiveVersion(storage.config.encrypt.value);
    var totalObjects, onActiveVersion, unencrypted: nat := 0, 0, 0;
    var versionsStillInUse: set<Version> := {};
    var keys := WalkKeys(storage, prefix, maxKeysPerPage);
    CountedNothing(storage.objects, keys, active);
    while totalObjects < |keys|
      invariant totalObjects <= |keys|
      invariant Counted(storage.objects, keys, active, totalObjects, onActiveVersion, unencrypted, versionsStillInUse)
    {
      var key := keys[totalObjects];
      totalObjects := totalObjects + 1;
      CountedStep(storage.objects, keys, active, totalObjects - 1, onActiveVersion, unencrypted, versionsStillInUse);
      var metadata := storage.GetMetadata(key);
      if metadata.None? {
        continue;
      }
      if metadata.value.version.None? {
        unencrypted := unencrypted + 1;
      } else if metadata.value.version.value == active {
        onActiveVersion := onActiveVersion + 1;
      } else {
        versionsStillInUse := versionsStillInUse + {metadata.value.version.value};
      }
    }
    assert keys[..totalObjects] == keys;
    SafeIff(storage.objects, keys, active);
    r := Some(RotationStatus(active, totalObjects, onActiveVersion, versionsStillInUse, unencrypted,
                             versionsStillInUse == {} && unencrypted == 0));
  }

  lemma CountedNothing(objects: Objects, keys: seq<Key>, active: Version)
    ensures Counted(objects, keys, active, 0, 0, 0, {})
  {
    assert PlacesWith(objects, keys[..0], Some(active)) == {} && PlacesWith(objects, keys[..0], None) == {};
  }

  // What one more key adds to the counters.
  lemma CountedStep(objects: Objects, keys: seq<Key>, active: Version, n: nat, onActive: nat, unencrypted: nat, versions: set<Version>)
    requires n < |keys| && Counted(objects, keys, active, n, onActive, unencrypted, versions)
    ensures keys[n] !in objects ==> Counted(objects, keys, active, n + 1, onActive, unencrypted, versions)
    ensures keys[n] in objects ==>
              match objects[keys[n]].version
              case None => Counted(objects, keys, active, n + 1, onActive, unencrypted + 1, versions)
              case Some(v) =>
                if v == active then Counted(objects, keys, active, n + 1, onActive + 1, unencrypted, versions)
                else Counted(objects, keys, active, n + 1, onActive, unencrypted, versions + {v})
  {
    hide PlacesWith, StillInUse;
    PlacesStep(objects, keys, n, Some(active));
    PlacesStep(objects, keys, n, None);
    forall v: Version
      ensures StillInUse(objects, keys[..n + 1], active, v) <==>
                StillInUse(objects, keys[..n], active, v) || (v != active && VersionAt(objects, keys, n, Some(v)))
    {
      InUseStep(objects, keys, active, n, v);
    }
  }
}
