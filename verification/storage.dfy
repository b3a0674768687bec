/**
  MemoryStore (memstate/storage.py): the engine object. It owns a backend, a schema registry,
  a constraint table, a hook list and the `_seq` counter; every method runs as one atomic
  step and is proved to end in the state the matching function of Transactions describes.
 */
module Storage {
  import opened Wrappers
  import opened Json
  import opened Records
  import opened InMemory
  import opened Errors
  import opened Registry
  import opened Transactions

  class MemoryStore {
    const storage: InMemoryStorage
    const registry: SchemaRegistry
    var constraints: map<string, Constraint>
    var hooks: seq<Hook>
    var seqNo: nat
    /** The uuid generator of the log entries. */
    const mint: UuidOracle

    /** The state the operations change. */
    function Current(): Engine
      reads this, storage
    {
      Engine(storage.State(), seqNo)
    }

    /** The configuration the operations read. */
    function Cfg(): Config
      reads this, registry
    {
      Config(registry.names, registry.schemas, registry.validator, constraints, hooks, mint)
    }

    ghost predicate Valid()
      reads this, storage, registry
    {
      storage.Valid() && registry.Valid()
    }

    /** `MemoryStore(storage, hooks)`: `hooks or []`, an empty constraint table and registry, `_seq = 0`. */
    constructor (storage: InMemoryStorage, hooks: seq<Hook>, validator: Validator, mint: UuidOracle)
      requires storage.Valid()
      ensures Valid()
      ensures this.storage == storage && fresh(registry)
      ensures Current() == Engine(old(storage.State()), 0)
      ensures Cfg() == Config([], map[], validator, map[], hooks, mint)
    {
      this.storage := storage;
      this.mint := mint;
      registry := new SchemaRegistry(validator);
      constraints := map[];
      this.hooks := hooks;
      seqNo := 0;
    }

    /** `register_schema`: the class is registered and a given constraint replaces the type's old one. */
    method RegisterSchema(typename: string, model: ModelClass, constraint: Option<Constraint>)
      requires Valid()
      modifies registry, this`constraints
      ensures Valid()
      ensures registry.schemas == old(registry.schemas)[typename := model]
      ensures registry.names == if typename in old(registry.schemas) then old(registry.names)
                                else old(registry.names) + [typename]
      ensures constraints == if constraint.Some? then old(constraints)[typename := constraint.value]
                             else old(constraints)
    {
      registry.Register(typename, model);
      if constraint.Some? {
        constraints := constraints[typename := constraint.value];
      }
    }

    /** `add_hook`: the hook runs after every hook added before it. */
    method AddHook(hook: Hook)
      modifies this`hooks
      ensures hooks == old(hooks) + [hook]
    {
      hooks := hooks + [hook];
    }

    /** `_notify_hooks`. */
    method NotifyHooks(op: Operation, id: Option<string>, data: Option<FactRecord>) returns (failed: Option<nat>)
      ensures failed == FirstFailure(hooks, op, id, data)
    {
      var i := 0;
      while i < |hooks|
        invariant 0 <= i <= |hooks|
        invariant forall j :: 0 <= j < i ==> hooks[j](op, id, data)
      {
        if !hooks[i](op, id, data) {
          FirstFailureSpec(hooks, op, id, data);
          return Some(i);
        }
        i := i + 1;
      }
      FirstFailureSpec(hooks, op, id, data);
      return None;
    }

    /** `_log_tx`. */
    method LogTx(session: Option<string>, op: Operation, factId: Option<string>, before: Option<FactRecord>,
                 after: Option<FactRecord>, actor: Option<string>, reason: Option<string>)
      requires Valid()
      modifies this`seqNo, storage
      ensures Valid()
      ensures Current() == Transactions.LogTx(old(Current()), mint, session, op, factId, before, after, actor, reason)
    {
      seqNo := seqNo + 1;
      storage.AppendTx(TxEntry(mint(seqNo), session, seqNo, op, factId, before, after, actor, reason));
    }

    method Save(f: FactRecord)
      requires Valid()
      modifies storage
      ensures Valid()
      ensures storage.State() == Stored(old(storage.State()), f)
    {
      StoredConsistent(storage.State(), f);
      storage.Save(f);
    }

    method Remove(id: string)
      requires Valid()
      modifies storage
      ensures Valid()
      ensures storage.State() == Removed(old(storage.State()), id)
    {
      RemovedConsistent(storage.State(), id);
      storage.Delete(id);
    }

    /** The constraint check and classification of `commit` (its reads of the backend, before any write). */
    method ResolveWrite(f: FactRecord, ephemeral: bool) returns (r: Result<Resolution>)
      requires Valid()
      ensures r == Resolve(storage.State(), constraints, f, ephemeral)
    {
      var key := SingletonKey(constraints, f.factType);
      if key.Some? {
        var keyVal := Json.Get(f.payload, key.value);
        if keyVal != Null {
          var matches := storage.Query(Some(f.factType), map["payload." + key.value := keyVal]);
          if |matches| > 0 {
            if constraints[f.factType].immutable {
              return Err(ConflictError);
            }
            return Ok(Resolution(Operation.Update, matches[0].id, Some(matches[0])));
          }
        }
      }
      var existing := storage.Load(f.id);
      if existing.Some? {
        return Ok(Resolution(Operation.Update, f.id, existing));
      }
      return Ok(Resolution(if ephemeral then Operation.CommitEphemeral else Operation.Commit, f.id, None));
    }

    /** `commit`. */
    method Commit(fact: FactRecord, session: Option<string>, ephemeral: bool,
                  actor: Option<string>, reason: Option<string>) returns (r: Result<string>)
      requires Valid()
      modifies this`seqNo, storage
      ensures Valid()
      ensures Step(Current(), r) == CommitStep(old(Current()), Cfg(), fact, session, ephemeral, actor, reason)
    {
      var validated := registry.Validate(fact.factType, fact.payload);
      if validated.Err? {
        return Err(validated.error);
      }
      var f := fact.(payload := validated.value);
      if session.Some? && session.value != "" {
        f := f.(sessionId := session);
      }
      var resolved := ResolveWrite(f, ephemeral);
      if resolved.Err? {
        return Err(resolved.error);
      }
      var res := resolved.value;
      r := WriteResolved(f.(id := res.id), res, actor, reason);
    }

    /** The second half of `commit`: save, log, run the hooks, compensate when one raises. */
    method WriteResolved(f: FactRecord, res: Resolution, actor: Option<string>, reason: Option<string>)
      returns (r: Result<string>)
      requires Valid()
      modifies this`seqNo, storage
      ensures Valid()
      ensures Step(Current(), r) == CommitResolved(old(Current()), Cfg(), f, res, actor, reason)
    {
      Save(f);
      LogTx(f.sessionId, res.op, Some(f.id), res.previous, Some(f), actor, reason);
      var failed := NotifyHooks(res.op, Some(f.id), Some(f));
      if failed.Some? {
        if res.op == Operation.Update && res.previous.Some? {
          Save(res.previous.value);
        } else {
          Remove(res.id);
        }
        return Err(HookError(failed.value));
      }
      return Ok(f.id);
    }

    /** `commit_model`; `freshId` stands for the `uuid4()` drawn when no id is given. */
    method CommitModel(model: ModelInstance, factId: Option<string>, freshId: string, source: Option<string>,
                       session: Option<string>, ephemeral: bool, actor: Option<string>, reason: Option<string>)
      returns (r: Result<string>)
      requires Valid()
      modifies this`seqNo, storage
      ensures Valid()
      ensures RegistryView(Cfg())
      ensures Step(Current(), r)
              == CommitModelStep(old(Current()), Cfg(), model, factId, freshId, source, session, ephemeral, actor, reason)
    {
      var t := registry.GetTypeByModel(model.cls);
      if t.None? || t.value == "" {
        return Err(NotRegistered);
      }
      var id := if factId.Some? && factId.value != "" then factId.value else freshId;
      r := Commit(FactRecord(id, t.value, model.dump, source, None), session, ephemeral, actor, reason);
    }

    /** `update`. */
    method Update(id: string, patch: Object, actor: Option<string>, reason: Option<string>) returns (r: Result<string>)
      requires Valid()
      modifies this`seqNo, storage
      ensures Valid()
      ensures Step(Current(), r) == UpdateStep(old(Current()), Cfg(), id, patch, actor, reason)
    {
      var existing := storage.Load(id);
      if existing.None? {
        return Err(NotFound);
      }
      var before := existing.value;
      var patched := Merged(before, patch);
      if patched.Err? {
        return Err(patched.error);
      }
      var after := patched.value;
      Save(after);
      LogTx(before.sessionId, Operation.Update, Some(id), Some(before), Some(after), actor, reason);
      var failed := NotifyHooks(Operation.Update, Some(id), Some(after));
      if failed.Some? {
        return Err(HookError(failed.value));
      }
      return Ok(id);
    }

    /**
      `update` as its tests expect it: the merged payload is validated against the fact's type
      before anything is written, and a hook that raises puts the previous fact back.
     */
    method ValidatedUpdate(id: string, patch: Object, actor: Option<string>, reason: Option<string>)
      returns (r: Result<string>)
      requires Valid()
      modifies this`seqNo, storage
      ensures Valid()
      ensures Step(Current(), r) == ValidatedUpdateStep(old(Current()), Cfg(), id, patch, actor, reason)
    {
      var existing := storage.Load(id);
      if existing.None? {
        return Err(NotFound);
      }
      var before := existing.value;
      var patched := Merged(before, patch);
      if patched.Err? {
        return Err(patched.error);
      }
      var merged := patched.value;
      var validated := registry.Validate(before.factType, merged.payload);
      if validated.Err? {
        return Err(validated.error);
      }
      var after := merged.(payload := validated.value);
      Save(after);
      LogTx(before.sessionId, Operation.Update, Some(id), Some(before), Some(after), actor, reason);
      var failed := NotifyHooks(Operation.Update, Some(id), Some(after));
      if failed.Some? {
        Save(before);
        return Err(HookError(failed.value));
      }
      return Ok(id);
    }

    /** `delete`. */
    method Delete(id: string, actor: Option<string>, reason: Option<string>) returns (r: Result<string>)
      requires Valid()
      modifies this`seqNo, storage
      ensures Valid()
      ensures Step(Current(), r) == DeleteStep(old(Current()), Cfg(), id, actor, reason)
    {
      var existing := storage.Load(id);
      if existing.None? {
        return Err(NotFound);
      }
      Remove(id);
      LogTx(existing.value.sessionId, Operation.Delete, Some(id), existing, None, actor, reason);
      var failed := NotifyHooks(Operation.Delete, Some(id), existing);
      if failed.Some? {
        return Err(HookError(failed.value));
      }
      return Ok(id);
    }

    /** `get`. */
    method Get(id: string) returns (r: Option<FactRecord>)
      ensures r == Lookup(storage.State(), id)
    {
      r := storage.Load(id);
    }

    /** `query`: no type name and no filters are passed as None and the empty filter set. */
    method Query(typename: Option<string>, filters: Object) returns (r: seq<FactRecord>)
      requires Valid()
      ensures r == QueryResult(storage.State(), typename, filters)
    {
      r := storage.Query(typename, filters);
    }

    /** `promote_session`. */
    method PromoteSession(session: string, selector: Option<Selector>, actor: Option<string>, reason: Option<string>)
      returns (r: Result<seq<string>>)
      requires Valid()
      modifies this`seqNo, storage
      ensures Valid()
      ensures Step(Current(), r) == PromoteStep(old(Current()), Cfg(), session, selector, actor, reason)
    {
      var candidates := storage.Query(None, SessionFilter(session));
      var promoted: seq<string> := [];
      var i := 0;
      while i < |candidates|
        invariant 0 <= i <= |candidates|
        invariant Valid()
        invariant PromoteStep(old(Current()), Cfg(), session, selector, actor, reason)
                  == PromoteLoop(Current(), Cfg(), session, selector, candidates[i..], promoted, actor, reason)
      {
        var f := candidates[i];
        assert candidates[i..][1..] == candidates[i + 1..];
        i := i + 1;
        if selector.Some? && !selector.value(f) {
          continue;
        }
        var after := f.(sessionId := None);
        Save(after);
        promoted := promoted + [f.id];
        LogTx(Some(session), Operation.Promote, Some(f.id), Some(f), Some(after), actor, reason);
        var failed := NotifyHooks(Operation.Promote, Some(f.id), Some(after));
        if failed.Some? {
          return Err(HookError(failed.value));
        }
      }
      return Ok(promoted);
    }

    /** `discard_session`: the number of facts deleted. */
    method DiscardSession(session: string) returns (count: nat)
      requires Valid()
      modifies this`seqNo, storage
      ensures Valid()
      ensures Step(Current(), Ok(count)) == DiscardStep(old(Current()), Cfg(), session)
    {
      DeleteSessionExact(storage.State(), session);
      var deleted := storage.DeleteSession(session);
      if |deleted| > 0 {
        LogTx(Some(session), Operation.DiscardSession, None, None, None, None, Some(DiscardReason(session, |deleted|)));
      }
      return |deleted|;
    }

    /** The body of rollback's loop: put one entry's before-state back and tell the hooks. */
    method UndoOne(entry: TxEntry) returns (failed: Option<nat>)
      requires Valid()
      modifies storage
      ensures Valid()
      ensures Undo(storage.State(), failed) == UndoEntry(old(storage.State()), hooks, entry)
    {
      failed := None;
      if entry.op.Commit? || entry.op.CommitEphemeral? || entry.op.Update? || entry.op.Promote? {
        if entry.factBefore.Some? {
          Save(entry.factBefore.value);
          failed := NotifyHooks(Operation.Update, entry.factId, entry.factBefore);
        } else if entry.factId.Some? && entry.factId.value != "" {
          Remove(entry.factId.value);
          failed := NotifyHooks(Operation.Delete, entry.factId, None);
        }
      } else if entry.op.Delete? {
        if entry.factBefore.Some? {
          Save(entry.factBefore.value);
          failed := NotifyHooks(Operation.Commit, entry.factId, entry.factBefore);
        }
      }
    }

    /** The loop of `rollback`: undo the entries in turn, stopping at the first hook that raises. */
    method UndoPage(logs: seq<TxEntry>) returns (failed: Option<nat>)
      requires Valid()
      modifies storage
      ensures Valid()
      ensures Undo(storage.State(), failed) == UndoAll(old(storage.State()), hooks, logs)
    {
      var i := 0;
      while i < |logs|
        invariant 0 <= i <= |logs|
        invariant Valid()
        invariant UndoAll(old(storage.State()), hooks, logs) == UndoAll(storage.State(), hooks, logs[i..])
      {
        assert logs[i..][1..] == logs[i + 1..];
        failed := UndoOne(logs[i]);
        if failed.Some? {
          return;
        }
        i := i + 1;
      }
      assert logs[i..] == [];
      return None;
    }

    /** `rollback(steps, session_id)`. */
    method Rollback(steps: int, session: Option<string>) returns (r: Result<()>)
      requires Valid()
      modifies storage
      ensures Valid()
      ensures Step(Current(), r) == RollbackStep(old(Current()), Cfg(), steps, session)
    {
      if steps <= 0 {
        return Ok(());
      }
      var logs := storage.GetTxLog(session, steps, 0);
      var failed := UndoPage(logs);
      if failed.Some? {
        return Err(HookError(failed.value));
      }
      storage.DeleteTxs(Uuids(logs));
      return Ok(());
    }
  }
}
