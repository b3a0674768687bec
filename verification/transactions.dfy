/**
  The transactional engine of memstate/storage.py (MemoryStore), stated as functions from the
  engine's state before a call to its state after it and the call's result. The class in
  storage.dfy runs the same steps imperatively and is proved equal to these functions; the
  lemmas in properties.dfy are stated about them.
 */
module Transactions {
  import opened Wrappers
  import opened Json
  import opened Records
  import opened InMemory
  import opened Errors
  import opened Registry

  /** A hook: called with the operation, the fact id and the fact; false means that it raised. */
  type Hook = (Operation, Option<string>, Option<FactRecord>) -> bool

  /** The `uuid4()` default of TxEntry.uuid, as a function of the entry's sequence number. */
  type UuidOracle = nat -> string

  /** `promote_session`'s selector. */
  type Selector = FactRecord -> bool

  /** What the store's configuration fixes for one call: the registry, constraints and hooks. */
  datatype Config = Config(
    typeNames: seq<string>,
    schemas: map<string, ModelClass>,
    validator: Validator,
    constraints: map<string, Constraint>,
    hooks: seq<Hook>,
    mint: UuidOracle)

  /** The state a call changes: the backend and the `_seq` counter. */
  datatype Engine = Engine(backend: Backend, seqNo: nat)

  /** The state after a call and what the call returned or raised. */
  datatype Step<T> = Step(engine: Engine, result: Result<T>)

  /**
    `_notify_hooks`: the hooks run in list order and the first that raises stops the rest;
    the result is that hook's position, or None when every hook returned.
   */
  function FirstFailure(hooks: seq<Hook>, op: Operation, id: Option<string>, data: Option<FactRecord>): Option<nat>
  {
    if hooks == [] then None
    else if !hooks[0](op, id, data) then Some(0)
    else match FirstFailure(hooks[1..], op, id, data)
      case None => None
      case Some(k) => Some(k + 1)
  }

  /**
    Nothing fails exactly when every hook returns; otherwise the failure reported is the first
    hook, in list order, that raised, and every hook before it returned.
   */
  lemma {:induction false} FirstFailureSpec(hooks: seq<Hook>, op: Operation, id: Option<string>,
                                            data: Option<FactRecord>)
    ensures var r := FirstFailure(hooks, op, id, data);
            && (r.None? <==> forall i :: 0 <= i < |hooks| ==> hooks[i](op, id, data))
            && (r.Some? ==> && r.value < |hooks|
                            && !hooks[r.value](op, id, data)
                            && forall i :: 0 <= i < r.value ==> hooks[i](op, id, data))
  {
    if hooks != [] && hooks[0](op, id, data) {
      FirstFailureSpec(hooks[1..], op, id, data);
      assert forall i :: 0 < i < |hooks| ==> hooks[i] == hooks[1..][i - 1];
    }
  }

  /** `_log_tx`: the counter goes up by one and the entry stamped with it goes at the end of the log. */
  function LogTx(e: Engine, mint: UuidOracle, session: Option<string>, op: Operation, factId: Option<string>,
                 before: Option<FactRecord>, after: Option<FactRecord>, actor: Option<string>, reason: Option<string>)
    : Engine
  {
    var s := e.seqNo + 1;
    Engine(Logged(e.backend, TxEntry(mint(s), session, s, op, factId, before, after, actor, reason)), s)
  }

  // ---------------------------------------------------------------------------------------
  // commit and commit_model

  /** How commit classified the write: the operation, the id written and the snapshot before. */
  datatype Resolution = Resolution(op: Operation, id: string, previous: Option<FactRecord>)

  /** The classification when no singleton match applies: UPDATE exactly when the id is taken. */
  function Classify(b: Backend, id: string, ephemeral: bool): Resolution
  {
    if id in b.facts then Resolution(Update, id, Some(b.facts[id]))
    else Resolution(if ephemeral then CommitEphemeral else Commit, id, None)
  }

  /** The key a type's constraint makes unique, when it names one (`constraint.singleton_key` is truthy). */
  function SingletonKey(constraints: map<string, Constraint>, factType: string): Option<string>
  {
    if factType in constraints && constraints[factType].singletonKey.Some?
       && constraints[factType].singletonKey.value != ""
    then constraints[factType].singletonKey
    else None
  }

  /** The query commit issues for a singleton: same type, same value at `payload.<key>`. */
  function SingletonMatches(b: Backend, f: FactRecord, key: string): seq<FactRecord>
  {
    QueryResult(b, Some(f.factType), map["payload." + key := Get(f.payload, key)])
  }

  /** The constraint check and classification of commit. */
  function Resolve(b: Backend, constraints: map<string, Constraint>, f: FactRecord, ephemeral: bool)
    : Result<Resolution>
  {
    var key := SingletonKey(constraints, f.factType);
    if key.Some? && Get(f.payload, key.value) != Null then
      var matches := SingletonMatches(b, f, key.value);
      if |matches| > 0 then
        if constraints[f.factType].immutable then Err(ConflictError)
        else Ok(Resolution(Update, matches[0].id, Some(matches[0])))
      else Ok(Classify(b, f.id, ephemeral))
    else Ok(Classify(b, f.id, ephemeral))
  }

  /** `if session_id: fact.session_id = session_id`. */
  function WithSession(f: FactRecord, session: Option<string>): FactRecord
  {
    if session.Some? && session.value != "" then f.(sessionId := session) else f
  }

  /** The hook-failure handler of commit: put the previous state back, or drop the new fact. */
  function Compensate(b: Backend, res: Resolution): Backend
  {
    if res.op == Update && res.previous.Some? then Stored(b, res.previous.value) else Removed(b, res.id)
  }

  /**
    The second half of `commit`, once the write `g` is resolved as `res`: save, log, run the
    hooks, and compensate when one raises.
   */
  function CommitResolved(e: Engine, cfg: Config, g: FactRecord, res: Resolution, actor: Option<string>,
                          reason: Option<string>): Step<string>
  {
    var logged := LogTx(Engine(Stored(e.backend, g), e.seqNo), cfg.mint, g.sessionId, res.op, Some(g.id),
                        res.previous, Some(g), actor, reason);
    match FirstFailure(cfg.hooks, res.op, Some(g.id), Some(g))
    case None => Step(logged, Ok(g.id))
    case Some(i) => Step(logged.(backend := Compensate(logged.backend, res)), Err(HookError(i)))
  }

  /** `commit`. */
  function CommitStep(e: Engine, cfg: Config, fact: FactRecord, session: Option<string>, ephemeral: bool,
                      actor: Option<string>, reason: Option<string>): Step<string>
  {
    match ValidatePayload(cfg.schemas, cfg.validator, fact.factType, fact.payload)
    case Err(err) => Step(e, Err(err))
    case Ok(payload) =>
      var f := WithSession(fact.(payload := payload), session);
      match Resolve(e.backend, cfg.constraints, f, ephemeral)
      case Err(err) => Step(e, Err(err))
      case Ok(res) => CommitResolved(e, cfg, f.(id := res.id), res, actor, reason)
  }

  /** The registry view is well formed: every name in the order has a class. */
  ghost predicate RegistryView(cfg: Config)
  {
    forall n :: n in cfg.typeNames ==> n in cfg.schemas
  }

  /**
    `commit_model`: the type is the name registered for the model's class (an unregistered class,
    or one registered under the empty name, is refused); the id is the one given, or `freshId`
    (the `uuid4()` call) when none or an empty one is given.
   */
  function CommitModelStep(e: Engine, cfg: Config, model: ModelInstance, factId: Option<string>, freshId: string,
                           source: Option<string>, session: Option<string>, ephemeral: bool,
                           actor: Option<string>, reason: Option<string>): Step<string>
    requires RegistryView(cfg)
  {
    var t := FirstNameOf(cfg.typeNames, cfg.schemas, model.cls);
    if t.None? || t.value == "" then Step(e, Err(NotRegistered))
    else
      var id := if factId.Some? && factId.value != "" then factId.value else freshId;
      CommitStep(e, cfg, FactRecord(id, t.value, model.dump, source, None), session, ephemeral, actor, reason)
  }

  // ---------------------------------------------------------------------------------------
  // update and delete

  /** An empty string or list: `dict.update` accepts it as an empty sequence of pairs and merges nothing. */
  predicate EmptyIterable(v: Value)
  {
    v == Str("") || v == List([])
  }

  /**
    `existing["payload"].update(patch.get("payload", {}))`: a shallow merge. An empty string or
    list merges nothing; any other value that is not a dict raises.
   */
  function Merged(existing: FactRecord, patch: Object): Result<FactRecord>
  {
    if "payload" !in patch then Ok(existing)
    else match patch["payload"]
      case Dict(delta) => Ok(existing.(payload := existing.payload + delta))
      case _ => if EmptyIterable(patch["payload"]) then Ok(existing) else Err(InvalidPatch)
  }

  /** `update`, as written: no re-validation, and a failing hook leaves the merged fact stored. */
  function UpdateStep(e: Engine, cfg: Config, id: string, patch: Object, actor: Option<string>, reason: Option<string>)
    : Step<string>
  {
    if id !in e.backend.facts then Step(e, Err(NotFound))
    else
      var existing := e.backend.facts[id];
      match Merged(existing, patch)
      case Err(err) => Step(e, Err(err))
      case Ok(after) =>
        var logged := LogTx(Engine(Stored(e.backend, after), e.seqNo), cfg.mint, existing.sessionId, Update, Some(id),
                            Some(existing), Some(after), actor, reason);
        match FirstFailure(cfg.hooks, Update, Some(id), Some(after))
        case None => Step(logged, Ok(id))
        case Some(i) => Step(logged, Err(HookError(i)))
  }

  /**
    `update` as its tests expect it: the merged payload is validated against the fact's type
    before anything is written, and a failing hook puts the previous fact back.
   */
  function ValidatedUpdateStep(e: Engine, cfg: Config, id: string, patch: Object,
                               actor: Option<string>, reason: Option<string>): Step<string>
  {
    if id !in e.backend.facts then Step(e, Err(NotFound))
    else
      var existing := e.backend.facts[id];
      match Merged(existing, patch)
      case Err(err) => Step(e, Err(err))
      case Ok(merged) =>
        match ValidatePayload(cfg.schemas, cfg.validator, existing.factType, merged.payload)
        case Err(err) => Step(e, Err(err))
        case Ok(payload) =>
          var after := merged.(payload := payload);
          var logged := LogTx(Engine(Stored(e.backend, after), e.seqNo), cfg.mint, existing.sessionId, Update, Some(id),
                              Some(existing), Some(after), actor, reason);
          match FirstFailure(cfg.hooks, Update, Some(id), Some(after))
          case None => Step(logged, Ok(id))
          case Some(i) => Step(logged.(backend := Stored(logged.backend, existing)), Err(HookError(i)))
  }

  /** `delete`: a failing hook leaves the fact deleted and the entry logged. */
  function DeleteStep(e: Engine, cfg: Config, id: string, actor: Option<string>, reason: Option<string>): Step<string>
  {
    if id !in e.backend.facts then Step(e, Err(NotFound))
    else
      var existing := e.backend.facts[id];
      var logged := LogTx(Engine(Removed(e.backend, id), e.seqNo), cfg.mint, existing.sessionId, Delete, Some(id),
                          Some(existing), None, actor, reason);
      match FirstFailure(cfg.hooks, Delete, Some(id), Some(existing))
      case None => Step(logged, Ok(id))
      case Some(i) => Step(logged, Err(HookError(i)))
  }

  // ---------------------------------------------------------------------------------------
  // promote_session and discard_session

  /** The filter `{"session_id": session_id}` that promote_session queries with. */
  function SessionFilter(session: string): Object
  {
    map["session_id" := Str(session)]
  }

  /** The loop of promote_session over the candidates still to visit; `promoted` is what it has promoted. */
  function PromoteLoop(e: Engine, cfg: Config, session: string, selector: Option<Selector>,
                       candidates: seq<FactRecord>, promoted: seq<string>,
                       actor: Option<string>, reason: Option<string>): Step<seq<string>>
    decreases |candidates|
  {
    if candidates == [] then Step(e, Ok(promoted))
    else
      var f := candidates[0];
      if selector.Some? && !selector.value(f) then
        PromoteLoop(e, cfg, session, selector, candidates[1..], promoted, actor, reason)
      else
        var after := f.(sessionId := None);
        var logged := LogTx(Engine(Stored(e.backend, after), e.seqNo), cfg.mint, Some(session), Promote, Some(f.id),
                            Some(f), Some(after), actor, reason);
        match FirstFailure(cfg.hooks, Promote, Some(f.id), Some(after))
        case Some(i) => Step(logged, Err(HookError(i)))
        case None => PromoteLoop(logged, cfg, session, selector, candidates[1..], promoted + [f.id], actor, reason)
  }

  /** `promote_session`. */
  function PromoteStep(e: Engine, cfg: Config, session: string, selector: Option<Selector>,
                       actor: Option<string>, reason: Option<string>): Step<seq<string>>
  {
    PromoteLoop(e, cfg, session, selector, QueryResult(e.backend, None, SessionFilter(session)), [], actor, reason)
  }

  function Digit(d: nat): char
    requires d < 10
  {
    "0123456789"[d]
  }

  /** `str(n)` for a natural number. */
  function Decimal(n: nat): string
  {
    if n < 10 then [Digit(n)] else Decimal(n / 10) + [Digit(n % 10)]
  }

  /** The reason text discard_session logs. */
  function DiscardReason(session: string, count: nat): string
  {
    "Session " + session + " cleared (" + Decimal(count) + " facts)"
  }

  /** `discard_session`: one log entry when anything was deleted, none otherwise; no hooks run. */
  function DiscardStep(e: Engine, cfg: Config, session: string): Step<nat>
  {
    var ids := SessionIds(e.backend.order, e.backend.facts, session);
    var cleared := Engine(WithoutSession(e.backend, session), e.seqNo);
    if ids == [] then Step(cleared, Ok(0))
    else Step(LogTx(cleared, cfg.mint, Some(session), DiscardSession, None, None, None, None,
                    Some(DiscardReason(session, |ids|))), Ok(|ids|))
  }

  // ---------------------------------------------------------------------------------------
  // rollback

  /** The backend after undoing some entries, and the position of the hook that raised, if one did. */
  datatype Undo = Undo(backend: Backend, failure: Option<nat>)

  /** Undoing one log entry (the body of rollback's loop). */
  function UndoEntry(b: Backend, hooks: seq<Hook>, entry: TxEntry): Undo
  {
    match entry.op
    case Commit | CommitEphemeral | Update | Promote =>
      if entry.factBefore.Some? then
        Undo(Stored(b, entry.factBefore.value), FirstFailure(hooks, Update, entry.factId, entry.factBefore))
      else if entry.factId.Some? && entry.factId.value != "" then
        Undo(Removed(b, entry.factId.value), FirstFailure(hooks, Delete, entry.factId, None))
      else Undo(b, None)
    case Delete =>
      if entry.factBefore.Some? then
        Undo(Stored(b, entry.factBefore.value), FirstFailure(hooks, Commit, entry.factId, entry.factBefore))
      else Undo(b, None)
    case DiscardSession => Undo(b, None)
  }

  /** Undoing entries in the given order, stopping at the first hook that raises. */
  function UndoAll(b: Backend, hooks: seq<Hook>, entries: seq<TxEntry>): Undo
    decreases |entries|
  {
    if entries == [] then Undo(b, None)
    else
      var u := UndoEntry(b, hooks, entries[0]);
      if u.failure.Some? then u else UndoAll(u.backend, hooks, entries[1..])
  }

  function Uuids(entries: seq<TxEntry>): (r: seq<string>)
    ensures |r| == |entries| && forall i :: 0 <= i < |entries| ==> r[i] == entries[i].uuid
  {
    if entries == [] then [] else [entries[0].uuid] + Uuids(entries[1..])
  }

  /**
    `rollback(steps, session_id)`: the newest `steps` entries of the session are undone newest
    first; once all are undone exactly those entries leave the log. A hook that raises stops the
    rollback with what it has undone so far and removes nothing from the log.
   */
  function RollbackStep(e: Engine, cfg: Config, steps: int, session: Option<string>): Step<()>
  {
    if steps <= 0 then Step(e, Ok(()))
    else
      var logs := LogPage(e.backend, session, steps, 0);
      var u := UndoAll(e.backend, cfg.hooks, logs);
      if u.failure.Some? then Step(Engine(u.backend, e.seqNo), Err(HookError(u.failure.value)))
      else Step(Engine(TxsDeleted(u.backend, Uuids(logs)), e.seqNo), Ok(()))
  }
}
