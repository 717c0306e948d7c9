// The in-memory layers of triggers, the refresh that mirrors the persisted entries in them, and the
// boot that syncs the entries with the code.

module TriggerRegistryModel {
  import opened Prelude
  import opened TriggerSync

  type ConnectorKey = string

  // What applies to a model, seen from the code and the persisted entries alone.
  ghost predicate Applies(code: Static, entries: Entries, model: Model, effective: Option<Triggers>) {
    if Known(entries, model) then
      forall id | id in entries && entries[id].model == model ::
        var e := entries[id];
        effective ==
          if e.isDefault then (if e.active then Some(e.triggers) else None)
          else if model !in code then (if e.active then Some(e.triggers) else None)
          else if e.active then Some(MergeTriggers(code[model], e.triggers))
          else Some(code[model])
    else effective == if model in code then Some(code[model]) else None
  }

  // The persisted layer of a connector holds what these of the entries say, and nothing else.
  ghost predicate Mirrored(persisted: map<Model, Triggers>, suppressed: set<Model>, entries: Entries, read: set<Id>) {
    && (forall id | id in read && id in entries ::
          var e := entries[id];
          && (e.active ==> e.model in persisted && persisted[e.model] == e.triggers)
          && (e.isDefault ==> e.model in suppressed))
    && (forall model | model in persisted :: exists id :: id in read && id in entries && entries[id].model == model && entries[id].active)
    && (forall model | model in suppressed :: exists id :: id in read && id in entries && entries[id].model == model && entries[id].isDefault)
  }

  lemma MirroredOneMore(persisted: map<Model, Triggers>, suppressed: set<Model>, entries: Entries, read: set<Id>, id: Id)
    requires UniqueModels(entries) && id in entries && Mirrored(persisted, suppressed, entries, read)
    ensures var e := entries[id];
            Mirrored(if e.active then persisted[e.model := e.triggers] else persisted,
                     if e.isDefault then suppressed + {e.model} else suppressed, entries, read + {id})
  {
    var e := entries[id];
    var p := if e.active then persisted[e.model := e.triggers] else persisted;
    var d := if e.isDefault then suppressed + {e.model} else suppressed;
    forall i | i in read && i in entries
      ensures (entries[i].active ==> entries[i].model in p && p[entries[i].model] == entries[i].triggers)
      ensures entries[i].isDefault ==> entries[i].model in d
    {
    }
    forall model | model in p ensures exists i :: i in read + {id} && i in entries && entries[i].model == model && entries[i].active {
      if e.active && model == e.model {
        assert id in read + {id};
      } else {
        var i :| i in read && i in entries && entries[i].model == model && entries[i].active;
        assert i in read + {id};
      }
    }
    forall model | model in d ensures exists i :: i in read + {id} && i in entries && entries[i].model == model && entries[i].isDefault {
      if e.isDefault && model == e.model {
        assert id in read + {id};
      } else {
        var i :| i in read && i in entries && entries[i].model == model && entries[i].isDefault;
        assert i in read + {id};
      }
    }
  }

  // What the layers of one connector give a model.
  function Layered(code: Static, persisted: map<Model, Triggers>, suppressed: set<Model>, model: Model): Option<Triggers> {
    var active := if model in persisted then Some(persisted[model]) else None;
    if model in suppressed then active
    else if model !in code then active
    else if active.None? then Some(code[model])
    else Some(MergeTriggers(code[model], active.value))
  }

  // With every entry read, the layers give each model exactly what applies to it.
  lemma MirrorApplies(code: Static, persisted: map<Model, Triggers>, suppressed: set<Model>, entries: Entries, model: Model)
    requires UniqueModels(entries) && Mirrored(persisted, suppressed, entries, entries.Keys)
    ensures Applies(code, entries, model, Layered(code, persisted, suppressed, model))
  {
    hide MergeTriggers;
    forall id | id in entries && entries[id].model == model
      ensures (model in persisted <==> entries[id].active) && (model in suppressed <==> entries[id].isDefault)
    {
    }
  }

  class TriggerRegistry {
    var staticStore: map<ConnectorKey, Static>
    var persistedStore: map<ConnectorKey, map<Model, Triggers>>
    var defaultSuppressed: map<ConnectorKey, set<Model>>

    constructor ()
      ensures staticStore == map[] && persistedStore == map[] && defaultSuppressed == map[]
    {
      staticStore, persistedStore, defaultSuppressed := map[], map[], map[];
    }

    function GetStaticTriggerEntries(key: ConnectorKey): Static
      reads this`staticStore
    {
      if key in staticStore then staticStore[key] else map[]
    }

    function Persisted(key: ConnectorKey): map<Model, Triggers>
      reads this`persistedStore
    {
      if key in persistedStore then persistedStore[key] else map[]
    }

    function Suppressed(key: ConnectorKey): set<Model>
      reads this`defaultSuppressed
    {
      if key in defaultSuppressed then defaultSuppressed[key] else {}
    }

    method SetStaticTriggers(key: ConnectorKey, model: Model, triggers: Option<Triggers>)
      modifies this`staticStore
      ensures GetStaticTriggerEntries(key) ==
                if triggers.None? then old(GetStaticTriggerEntries(key)) - {model}
                else old(GetStaticTriggerEntries(key))[model := triggers.value]
      ensures forall other | other != key :: GetStaticTriggerEntries(other) == old(GetStaticTriggerEntries(other))
    {
      if triggers.None? {
        if key in staticStore {
          staticStore := staticStore[key := staticStore[key] - {model}];
        }
        return;
      }
      if key !in staticStore {
        staticStore := staticStore[key := map[]];
      }
      staticStore := staticStore[key := staticStore[key][model := triggers.value]];
    }

    method SetPersistedTriggers(key: ConnectorKey, model: Model, triggers: Triggers)
      modifies this`persistedStore
      ensures Persisted(key) == old(Persisted(key))[model := triggers]
      ensures forall other | other != key :: Persisted(other) == old(Persisted(other))
    {
      if key !in persistedStore {
        persistedStore := persistedStore[key := map[]];
      }
      persistedStore := persistedStore[key := persistedStore[key][model := triggers]];
    }

    method SetDefaultSuppressed(key: ConnectorKey, model: Model)
      modifies this`defaultSuppressed
      ensures Suppressed(key) == old(Suppressed(key)) + {model}
      ensures forall other | other != key :: Suppressed(other) == old(Suppressed(other))
    {
      if key !in defaultSuppressed {
        defaultSuppressed := defaultSuppressed[key := {}];
      }
      defaultSuppressed := defaultSuppressed[key := defaultSuppressed[key] + {model}];
    }

    method ResetPersistedTriggers(key: ConnectorKey)
      modifies this`persistedStore, this`defaultSuppressed
      ensures Persisted(key) == map[] && Suppressed(key) == {}
      ensures forall other | other != key :: Persisted(other) == old(Persisted(other)) && Suppressed(other) == old(Suppressed(other))
    {
      persistedStore := persistedStore - {key};
      defaultSuppressed := defaultSuppressed - {key};
    }

    function GetTriggers(key: ConnectorKey, model: Model): Option<Triggers>
      reads this
    {
      Layered(GetStaticTriggerEntries(key), Persisted(key), Suppressed(key), model)
    }

    method RefreshPersistedTriggers(key: ConnectorKey, collection: TriggersCollection)
      requires UniqueModels(collection.entries)
      modifies this`persistedStore, this`defaultSuppressed
      ensures forall other | other != key :: Persisted(other) == old(Persisted(other)) && Suppressed(other) == old(Suppressed(other))
      ensures forall model :: Applies(GetStaticTriggerEntries(key), collection.entries, model, GetTriggers(key, model))
    {
      hide Mirrored, Applies, Layered, Persisted, Suppressed;
      var entries := collection.entries;
      ResetPersistedTriggers(key);
      MirroredNothing(entries);
      var unread := entries.Keys;
      ghost var read: set<Id> := {};
      while unread != {}
        invariant entries.Keys == read + unread && unread !! read
        invariant Mirrored(Persisted(key), Suppressed(key), entries, read)
        invariant forall other | other != key :: Persisted(other) == old(Persisted(other)) && Suppressed(other) == old(Suppressed(other))
      {
        var id :| id in unread;
        var entry := entries[id];
        MirroredOneMore(Persisted(key), Suppressed(key), entries, read, id);
        if entry.active {
          SetPersistedTriggers(key, entry.model, entry.triggers);
        }
        if entry.isDefault {
          SetDefaultSuppressed(key, entry.model);
        }
        unread, read := unread - {id}, read + {id};
      }
      assert read == entries.Keys;
      AllApply(key, entries);
    }

    lemma AllApply(key: ConnectorKey, entries: Entries)
      requires UniqueModels(entries) && Mirrored(Persisted(key), Suppressed(key), entries, entries.Keys)
      ensures forall model :: Applies(GetStaticTriggerEntries(key), entries, model, GetTriggers(key, model))
    {
      hide Mirrored, Applies, Layered;
      forall model ensures Applies(GetStaticTriggerEntries(key), entries, model, GetTriggers(key, model)) {
        MirrorApplies(GetStaticTriggerEntries(key), Persisted(key), Suppressed(key), entries, model);
      }
    }
  }

  lemma MirroredNothing(entries: Entries)
    ensures Mirrored(map[], {}, entries, {}) && UniqueModels(map[])
  {
  }

  // ----- the collection of persisted entries ------------------------------------------------

  class TriggersCollection {
    var entries: Entries

    method DeleteMany(ids: set<Id>)
      modifies this
      ensures entries == old(entries) - ids
    {
      entries := entries - ids;
    }

    method UpdateOne(id: Id, triggers: Triggers)
      modifies this
      ensures entries == if id in old(entries) then old(entries)[id := Resynced(old(entries)[id], triggers)] else old(entries)
    {
      if id in entries {
        entries := entries[id := Resynced(entries[id], triggers)];
      }
    }

    method InsertMany(seeds: map<Model, Triggers>, newId: map<Model, Id>)
      requires forall model | model in seeds :: model in newId && newId[model] !in entries
      requires forall a, b | a in newId && b in newId && newId[a] == newId[b] :: a == b
      modifies this
      ensures forall id | id in old(entries) :: id in entries && entries[id] == old(entries)[id]
      ensures forall model | model in seeds :: newId[model] in entries && entries[newId[model]] == Seeded(model, seeds[model])
      ensures forall id | id in entries && id !in old(entries) :: exists model :: model in seeds && newId[model] == id
    {
      var left := seeds.Keys;
      while left != {}
        invariant left <= seeds.Keys
        invariant forall id | id in old(entries) :: id in entries && entries[id] == old(entries)[id]
        invariant forall model | model in seeds && model !in left :: newId[model] in entries && entries[newId[model]] == Seeded(model, seeds[model])
        invariant forall id | id in entries && id !in old(entries) :: exists model :: model in seeds && newId[model] == id
      {
        var model :| model in left;
        entries := entries[newId[model] := Seeded(model, seeds[model])];
        left := left - {model};
      }
    }

    // The updates of the plan, one after the other.
    method ResyncAll(toResync: map<Id, Triggers>)
      requires toResync.Keys <= entries.Keys
      modifies this
      ensures entries.Keys == old(entries).Keys
      ensures forall id | id in entries ::
                entries[id] == if id in toResync then Resynced(old(entries)[id], toResync[id]) else old(entries)[id]
    {
      var left := toResync.Keys;
      while left != {}
        invariant left <= toResync.Keys && entries.Keys == old(entries).Keys
        invariant forall id | id in entries ::
                    entries[id] == if id in toResync && id !in left then Resynced(old(entries)[id], toResync[id]) else old(entries)[id]
      {
        var id :| id in left;
        UpdateOne(id, toResync[id]);
        left := left - {id};
      }
    }
  }

  // ----- the connector at startup -----------------------------------------------------------

  lemma PlanFits(code: Static, before: Entries, newId: map<Model, Id>)
    requires FreshIds(code, before, newId)
    ensures var plan := PlanTriggerSync(code, before);
            && plan.toResync.Keys <= (before - plan.toDelete).Keys
            && (forall model | model in plan.toSeed :: model in newId && newId[model] !in before)
            && (forall a, b | a in newId && b in newId && newId[a] == newId[b] :: a == b)
  {
    hide Same;
  }

  // Deleting, re-syncing and seeding by the plan is what a boot does to the entries.
  lemma PlanBoots(code: Static, before: Entries, newId: map<Model, Id>, deleted: Entries, resynced: Entries, after: Entries)
    requires FreshIds(code, before, newId) && deleted == before - PlanTriggerSync(code, before).toDelete
    requires var toResync := PlanTriggerSync(code, before).toResync;
             && resynced.Keys == deleted.Keys
             && forall id | id in resynced :: resynced[id] == if id in toResync then Resynced(deleted[id], toResync[id]) else deleted[id]
    requires var toSeed := PlanTriggerSync(code, before).toSeed;
             && (forall id | id in resynced :: id in after && after[id] == resynced[id])
             && (forall model | model in toSeed :: model in newId && newId[model] in after && after[newId[model]] == Seeded(model, toSeed[model]))
             && (forall id | id in after && id !in resynced :: exists model :: model in toSeed && model in newId && newId[model] == id)
    ensures Boots(code, before, newId, after)
  {
    hide Same, Known, ToResync, Orphaned, Untouched;
    forall id | id in before
      ensures if Orphaned(code, before[id]) then id !in after else id in after && after[id] == Kept(code, before[id])
    {
      assert id in deleted.Keys <==> !Orphaned(code, before[id]);
    }
    forall id | id in after && id !in before
      ensures exists model :: model in code && !Known(before, model) && model in newId && newId[model] == id
    {
      assert id !in resynced.Keys;
      var model :| model in PlanTriggerSync(code, before).toSeed && model in newId && newId[model] == id;
    }
  }

  class MongoConnector {
    const resolvedConnectorKey: ConnectorKey
    var triggersModel: bool

    method LoadPersistedTriggersOnStart(registry: TriggerRegistry, collection: TriggersCollection, newId: map<Model, Id>)
      requires UniqueModels(collection.entries)
      requires FreshIds(registry.GetStaticTriggerEntries(resolvedConnectorKey), collection.entries, newId)
      modifies this`triggersModel, registry`persistedStore, registry`defaultSuppressed, collection
      ensures var code := registry.GetStaticTriggerEntries(resolvedConnectorKey);
              if old(triggersModel) then
                && Boots(code, old(collection.entries), newId, collection.entries) && UniqueModels(collection.entries)
                && forall model :: Applies(code, collection.entries, model, registry.GetTriggers(resolvedConnectorKey, model))
              else
                && collection.entries == old(collection.entries)
                && forall model :: Applies(code, map[], model, registry.GetTriggers(resolvedConnectorKey, model))
      ensures !triggersModel
      ensures forall other | other != resolvedConnectorKey ::
                registry.Persisted(other) == old(registry.Persisted(other)) && registry.Suppressed(other) == old(registry.Suppressed(other))
    {
      hide Applies, Layered, Mirrored, MergeTriggers, Same, PlanTriggerSync, Boots, FreshIds, Known, UniqueModels;
      registry.ResetPersistedTriggers(resolvedConnectorKey);
      if !triggersModel {
        MirroredNothing(map[]);
        ghost var none: Entries := map[];
        assert none.Keys == {};
        registry.AllApply(resolvedConnectorKey, none);
        return;
      }
      var code := registry.GetStaticTriggerEntries(resolvedConnectorKey);
      ghost var before := collection.entries;
      PlanFits(code, before, newId);
      var plan := PlanTriggerSync(code, collection.entries);
      collection.DeleteMany(plan.toDelete);
      ghost var deleted := collection.entries;
      collection.ResyncAll(plan.toResync);
      ghost var resynced := collection.entries;
      collection.InsertMany(plan.toSeed, newId);
      PlanBoots(code, before, newId, deleted, resynced, collection.entries);
      BootKeepsUnique(code, before, newId, collection.entries);
      registry.RefreshPersistedTriggers(resolvedConnectorKey, collection);
      triggersModel := false;
    }
  }

  // Code and the copy seeded from it never both fire: right after a boot a model that had no entry
  // fires exactly what the code declares, once.
  lemma SeededMirrorsCode(code: Static, before: Entries, newId: map<Model, Id>, after: Entries, model: Model, effective: Option<Triggers>)
    requires Boots(code, before, newId, after) && model in code && !Known(before, model)
    requires Applies(code, after, model, effective)
    ensures effective == Some(code[model])
  {
    hide MergeTriggers, Same, Known;
    var id := newId[model];
    assert id in after && after[id] == Seeded(model, code[model]);
    EntryKnown(after, id);
  }

  // A model that has triggers neither in code nor in an entry of its own has none after a boot.
  lemma OrphansNeverApply(code: Static, before: Entries, newId: map<Model, Id>, after: Entries, model: Model, effective: Option<Triggers>)
    requires Boots(code, before, newId, after) && model !in code
    requires forall id | id in before && before[id].model == model :: before[id].isDefault
    requires Applies(code, after, model, effective)
    ensures effective == None
  {
    hide MergeTriggers, Same;
    forall id | id in after ensures after[id].model != model {
    }
  }

  // An active entry of its own always adds on top: the code's actions run first, then the entry's.
  lemma OwnEntryAddsOn(code: Static, entries: Entries, id: Id, effective: Option<Triggers>, timing: Timing, event: Event)
    requires id in entries && entries[id].active && !entries[id].isDefault
    requires Applies(code, entries, entries[id].model, effective)
    ensures effective.Some?
    ensures var e := entries[id];
            Fires(effective.value, timing, event) ==
              (if e.model in code then Fires(code[e.model], timing, event) else []) + Fires(e.triggers, timing, event)
  {
    hide MergeTriggers, Fires;
    var e := entries[id];
    if e.model in code {
      MergedFires(code[e.model], e.triggers, timing, event);
    }
  }

  lemma EntryKnown(entries: Entries, id: Id)
    requires id in entries
    ensures Known(entries, entries[id].model)
  {
  }

  // Nobody drops the entry or switches it on in the steps from i up to j; it may be edited.
  ghost predicate NotRevived(run: Run, i: nat, j: nat, id: Id) {
    j <= |run.steps| && forall k {:trigger run.steps[k]} | i <= k < j ::
      match run.steps[k]
      case Drop(other) => other != id
      case Toggle(other, active) => other == id ==> !active
      case _ => true
  }

  lemma {:induction false} StaysOff(run: Run, i: nat, j: nat, id: Id)
    requires LegalRun(run) && i <= j <= |run.steps| && id in run.states[i] && NotRevived(run, i, j, id)
    requires var e := run.states[i][id]; e.isDefault && !e.active && NeverOrphaned(run, i, j, e.model)
    ensures id in run.states[j]
    ensures var e, f := run.states[i][id], run.states[j][id]; f.isDefault && !f.active && f.model == e.model
    decreases j
  {
    hide Same, Known, FreshIds, UniqueModels;
    if i < j {
      StaysOff(run, i, j - 1, id);
      assert Leads(run, j - 1) by { var step := run.steps[j - 1]; }
    }
  }

  // A default entry that was switched off keeps its model silent through any sequence of boots and
  // edits, whatever the code says at the moment, as long as every boot still has the model in code.
  lemma SwitchedOffStaysOff(run: Run, i: nat, j: nat, id: Id, code: Static, effective: Option<Triggers>)
    requires LegalRun(run) && i <= j <= |run.steps| && id in run.states[i] && NotRevived(run, i, j, id)
    requires var e := run.states[i][id];
             && e.isDefault && !e.active && NeverOrphaned(run, i, j, e.model)
             && Applies(code, run.states[j], e.model, effective)
    ensures effective == None
    ensures id in run.states[j] && run.states[j][id].isDefault && !run.states[j][id].active
  {
    StaysOff(run, i, j, id);
    hide MergeTriggers, Known, LegalRun, NotRevived, NeverOrphaned;
    EntryKnown(run.states[j], id);
  }
}
