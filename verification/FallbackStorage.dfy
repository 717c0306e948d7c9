// Two object stores behind one: writes go to the primary, reads fall back to the local one, and a sync
// copies the local objects into the primary the first time either is used.

module FallbackStorage {
  import opened Prelude

  type Key = string

  datatype Object = Object(bytes: string, contentType: string)

  type Objects = map<Key, Object>

  class ObjectStore {
    var objects: Objects

    method Put(key: Key, o: Object)
      modifies this
      ensures objects == old(objects)[key := o]
    {
      objects := objects[key := o];
    }

    method Get(key: Key) returns (r: Option<Object>)
      ensures r == if key in objects then Some(objects[key]) else None
    {
      r := if key in objects then Some(objects[key]) else None;
    }

    method Delete(key: Key)
      modifies this
      ensures objects == old(objects) - {key}
    {
      objects := objects - {key};
    }
  }

  const META_SUFFIX := ".meta.json"

  // The walk of the local directory passes the sidecar files by.
  predicate Sidecar(key: Key) {
    |key| >= |META_SUFFIX| && key[|key| - |META_SUFFIX|..] == META_SUFFIX
  }

  lemma SidecarIs(key: Key)
    ensures Sidecar(key) <==> exists stem: string :: key == stem + ".meta.json"
  {
    if Sidecar(key) {
      var n := |key| - |META_SUFFIX|;
      assert key == key[..n] + ".meta.json";
    }
  }

  ghost predicate AllCopied(local: Objects, primary: Objects) {
    forall key | key in local && !Sidecar(key) :: key in primary
  }

  // The one store that two make up: the primary laid over the local one.
  function Laid(local: Objects, primary: Objects): Objects {
    local + primary
  }

  lemma PutLaid(local: Objects, primary: Objects, key: Key, o: Object)
    ensures Laid(local, primary[key := o]) == Laid(local, primary)[key := o]
    ensures AllCopied(local, primary) ==> AllCopied(local, primary[key := o])
  {
  }

  lemma DeleteLaid(local: Objects, primary: Objects, key: Key)
    ensures Laid(local - {key}, primary - {key}) == Laid(local, primary) - {key}
    ensures AllCopied(local, primary) ==> AllCopied(local - {key}, primary - {key})
  {
  }

  // Copying an object that only the local store has changes nothing.
  lemma CopyLaid(local: Objects, primary: Objects, key: Key)
    requires key in local && key !in primary
    ensures Laid(local, primary[key := local[key]]) == Laid(local, primary)
  {
  }

  class FallbackObjectStorage {
    const primary: ObjectStore
    const fallback: ObjectStore
    var synced: bool  // the memoized sync has succeeded

    ghost predicate Valid()
      reads this, primary, fallback
    {
      primary != fallback && (synced ==> AllCopied(fallback.objects, primary.objects))
    }

    ghost function Logical(): Objects
      reads primary, fallback
    {
      Laid(fallback.objects, primary.objects)
    }

    constructor (primary: ObjectStore, fallback: ObjectStore)
      requires primary != fallback
      ensures Valid() && !synced && this.primary == primary && this.fallback == fallback
    {
      this.primary, this.fallback, synced := primary, fallback, false;
    }

    // Copies what the primary does not have. It may fail at any key, here after `failsAfter` of them;
    // no answer changes either way.
    method SyncLocalObjects(failsAfter: Option<nat>) returns (ok: bool)
      requires Valid()
      modifies primary
      ensures Valid() && Logical() == old(Logical())
      ensures old(primary.objects).Keys <= primary.objects.Keys
      ensures forall key | key in primary.objects && key !in old(primary.objects) :: key in fallback.objects && !Sidecar(key)
      ensures ok ==> AllCopied(fallback.objects, primary.objects)
      ensures failsAfter.None? ==> ok
    {
      var unread := fallback.objects.Keys;
      var migrated := 0;
      while unread != {}
        invariant unread <= fallback.objects.Keys
        invariant Logical() == old(Logical()) && old(primary.objects).Keys <= primary.objects.Keys
        invariant forall key | key in primary.objects && key !in old(primary.objects) :: key in fallback.objects && !Sidecar(key)
        invariant forall key | key in fallback.objects && key !in unread && !Sidecar(key) :: key in primary.objects
      {
        var key :| key in unread;
        unread := unread - {key};
        if Sidecar(key) || key in primary.objects {
          continue;
        }
        if failsAfter == Some(migrated) {
          return false;
        }
        var found := fallback.Get(key);
        CopyLaid(fallback.objects, primary.objects, key);
        primary.Put(key, found.value);
        migrated := migrated + 1;
      }
      ok := true;
    }

    // Before every operation. A failed sync is logged, never thrown, and tried again the next time.
    method Ready(failsAfter: Option<nat>)
      requires Valid()
      modifies this, primary
      ensures Valid() && Logical() == old(Logical()) && (failsAfter.None? || old(synced) ==> synced)
    {
      if !synced {
        var ok := SyncLocalObjects(failsAfter);
        synced := ok;
      }
    }

    method Put(key: Key, o: Object, failsAfter: Option<nat>)
      requires Valid()
      modifies this, primary
      ensures Valid() && Logical() == old(Logical())[key := o]
      ensures old(synced) ==> synced
    {
      Ready(failsAfter);
      hide AllCopied, Laid;
      PutLaid(fallback.objects, primary.objects, key, o);
      primary.Put(key, o);
    }

    method Get(key: Key, failsAfter: Option<nat>) returns (r: Option<Object>)
      requires Valid()
      modifies this, primary
      ensures Valid() && Logical() == old(Logical()) && (old(synced) ==> synced)
      ensures r == if key in old(Logical()) then Some(old(Logical())[key]) else None
    {
      Ready(failsAfter);
      r := primary.Get(key);
      if r.None? {
        r := fallback.Get(key);
      }
    }

    method Exists(key: Key, failsAfter: Option<nat>) returns (r: bool)
      requires Valid()
      modifies this, primary
      ensures Valid() && Logical() == old(Logical()) && (old(synced) ==> synced)
      ensures r <==> key in old(Logical())
    {
      Ready(failsAfter);
      r := key in primary.objects || key in fallback.objects;
    }

    method Delete(key: Key, failsAfter: Option<nat>)
      requires Valid()
      modifies this, primary, fallback
      ensures Valid() && Logical() == old(Logical()) - {key}
      ensures old(synced) ==> synced
    {
      Ready(failsAfter);
      hide AllCopied, Laid;
      DeleteLaid(fallback.objects, primary.objects, key);
      primary.Delete(key);
      fallback.Delete(key);
    }
  }
}
