# MemState: a verified model of the transactional fact store

MemState keeps an agent's long-term memory as *facts*. A fact is a typed JSON payload stored
under an id, and may belong to a session. Every write goes through one engine, `MemoryStore`,
which does the following:

- validates the payload against the model class registered for the fact's type;
- enforces per-type constraints: a *singleton key* makes the value under that key unique
  among the facts of the type, and *immutable* forbids overwriting such a fact;
- classifies the write (COMMIT, COMMIT_EPHEMERAL, UPDATE, DELETE, PROMOTE, DISCARD_SESSION);
- saves the fact and appends an entry to a transaction log numbered by a counter;
- runs the registered hooks in order, and compensates the write when a hook raises.

Sessions hold working memory. `promote_session` makes their facts permanent and
`discard_session` drops them. `rollback` replays the before-states recorded in the log.

This project models that engine over the reference in-memory backend and proves its
properties in Dafny. It is organised as follows:

| file | contents |
|---|---|
| `wrappers.dfy` | `Option` and `Distinct` |
| `json.dfy` | JSON values and Python's `==` on them (`PyEq`); `str.split(".")` and its inverse; the dot-path walk of the backend (`PathGet`) |
| `errors.dfy` | the exceptions the engine raises, and `Result` |
| `registry.dfy` | `SchemaRegistry` (a class over the registration-ordered name table), `Constraint`, and validation through a validator function that stands for Pydantic |
| `records.dfy` | facts, log entries, operations, and the dict view of a fact that filter paths walk |
| `inmemory.dfy` | the backend as a value: key order plus a fact map plus a log. Spec functions for each backend call and lemmas about them. The class `InMemoryStorage`, whose methods and loops are proved equal to those functions |
| `transactions.dfy` | each `MemoryStore` operation as a function from the engine state (backend and `_seq` counter) to the new state and the result or error |
| `storage.dfy` | the class `MemoryStore`. Each method runs the source's steps imperatively and is proved to end in the state its `transactions.dfy` function describes |
| `properties.dfy` | the properties of those functions: validation before any write, the singleton rule, immutability, classification, hook failure and compensation, strictly increasing sequence numbers, update and delete semantics, rollback, promote and discard |

Hooks are function values that return `false` where the Python hook raises. A tuple of a hook
list and an operation therefore fixes which hook raises first. The uuid of each log entry is an
oracle applied to the entry's sequence number; lemmas about rollback assume that oracle is
injective. The `uuid4()` of `commit_model` is the parameter `freshId`.

## Model

| member | source | states |
|---|---|---|
| Registry.SchemaRegistry.constructor | memstate/storage.py:25-26 | a new registry has no names and no classes |
| Registry.SchemaRegistry.Register | memstate/storage.py:28-29 | the name now maps to the class. A new name goes last in the key order; a re-registered name keeps its place |
| Registry.ValidateUnregistered | memstate/storage.py:31-34 | a type with no registered class passes its payload through unchanged |
| Registry.ValidateRegistered | memstate/storage.py:35-39 | for a registered type, validation fails exactly when the model rejects the payload; otherwise it returns the model's normalised dump |
| Registry.FirstNameOf | memstate/storage.py:41-48 | the reverse lookup returns a name registered for the class, with no earlier name registered for it. It returns None exactly when no name is registered for the class |
| Registry.SchemaRegistry.GetTypeByModel | memstate/storage.py:41-48 | the loop over the registry returns the first name, in registration order, whose class is the given one |
| Json.Split | memstate/backends/inmemory.py:46 | `split(".")` yields at least one piece, and no piece contains a dot |
| Json.JoinSplit | memstate/backends/inmemory.py:46 | joining the pieces of a split with dots gives back the path |
| Json.SplitJoin | memstate/backends/inmemory.py:46 | splitting dot-free pieces joined with dots gives back the pieces |
| Json.PathGetNull | memstate/backends/inmemory.py:49-53 | once the walk has reached None, every further key yields None |
| Json.PathGetAppend | memstate/backends/inmemory.py:46-54 | walking a path is walking its first part and then, from the value reached, its second part |
| Json.PyEqNull | memstate/backends/inmemory.py:132 | a filter value None matches only a missing or None value |
| Json.PyEqReflexive | memstate/backends/inmemory.py:132 | every value equals itself, so a fact always matches a filter built from its own values |
| Json.PyEqSymmetric | memstate/backends/inmemory.py:132 | the `!=` the filter applies is symmetric |
| Json.PyEqTransitive | memstate/backends/inmemory.py:132 | the equality is transitive, so two facts equal to the same key value equal each other |
| Records.PayloadPath | memstate/storage.py:126-127 | the filter path `payload.<key>` of a dot-free key reaches exactly `payload.get(key)` |
| Records.SessionPath | memstate/storage.py:238 | the filter path `session_id` reaches the fact's session, or None when it has none |
| InMemory.InMemoryStorage.constructor | memstate/backends/inmemory.py:27-30 | a new backend has no facts and an empty log |
| InMemory.InMemoryStorage.GetValueByPath | memstate/backends/inmemory.py:32-56 | the loop over the split keys yields the value at the path, or None as soon as a key is missing or a value on the way is not a dict |
| InMemory.InMemoryStorage.Load | memstate/backends/inmemory.py:58-73 | returns the fact stored under the id, or None |
| InMemory.InMemoryStorage.Save | memstate/backends/inmemory.py:75-88 | stores the record under its own id. A new id goes last in the key order; an existing one keeps its place |
| InMemory.InMemoryStorage.Delete | memstate/backends/inmemory.py:90-102 | removes the id from the facts and the key order, keeping the rest in place |
| InMemory.SaveThenLoad | memstate/backends/inmemory.py:58-88 | `load` after `save` returns the saved record, and every other id reads as before |
| InMemory.SaveTwiceKeepsLast | memstate/backends/inmemory.py:75-88 | a second `save` under the same id replaces the first; the result is as if only the second had happened |
| InMemory.StoredConsistent | memstate/backends/inmemory.py:87-88 | `save` keeps each key once in the order, and each fact under its own id |
| InMemory.SaveNewThenDelete | memstate/backends/inmemory.py:75-102 | saving a new id and deleting it gives back the backend exactly, key order included |
| InMemory.SaveThenRestore | memstate/backends/inmemory.py:75-88 | overwriting a fact and saving the old record again gives back the backend exactly |
| InMemory.DeleteOnlyThat | memstate/backends/inmemory.py:90-102 | after `delete` the id reads as None and every other id reads as before |
| InMemory.DeleteAbsentIsNoop | memstate/backends/inmemory.py:101-102 | `delete` of an absent id leaves the backend exactly as it was |
| InMemory.RemovedConsistent | memstate/backends/inmemory.py:101-102 | `delete` keeps the backend's key order and map in agreement |
| InMemory.WithoutIds | memstate/backends/inmemory.py:101-102 | removing keys from the order keeps exactly the other keys, still distinct, and never lengthens it |
| InMemory.WithoutIdsNoneDropped | memstate/backends/inmemory.py:101-102 | removing keys that are not in the order leaves it unchanged |
| InMemory.WithoutIdsUnion | memstate/backends/inmemory.py:188-189 | removing two key sets one after the other is removing their union |
| InMemory.InMemoryStorage.MatchesFilters | memstate/backends/inmemory.py:127-136 | the filter loop accepts a fact exactly when every path filter equals the value at its path |
| InMemory.FieldsMatchOne | memstate/backends/inmemory.py:127-134 | a one-path filter matches exactly when the value at that path equals the filter value |
| InMemory.MatchingStep | memstate/backends/inmemory.py:124-137 | visiting one more stored key appends its fact exactly when the fact passes both filters |
| InMemory.MatchingMembers | memstate/backends/inmemory.py:122-138 | the results are stored facts that pass both filters, and every stored fact that passes them is among the results |
| InMemory.InMemoryStorage.Query | memstate/backends/inmemory.py:104-138 | the loop over the store returns the facts that pass the type filter and every path filter, in dict order |
| InMemory.QueryExact | memstate/backends/inmemory.py:104-138 | a record is in the query result exactly when it is stored under its id, has the filtered type (an empty or missing filter accepts any type) and matches every path filter |
| InMemory.InMemoryStorage.AppendTx | memstate/backends/inmemory.py:140-151 | the entry goes at the end of the log and nothing else changes |
| InMemory.NewestFirst | memstate/backends/inmemory.py:168-170 | the reversed, filtered log holds exactly the log's entries of that session, and is no longer than the log |
| InMemory.NewestFirstAppend | memstate/backends/inmemory.py:140-171 | an entry appended last comes first among its session's entries |
| InMemory.SliceBound | memstate/backends/inmemory.py:171 | a Python slice bound always lands inside the list |
| InMemory.InMemoryStorage.GetTxLog | memstate/backends/inmemory.py:153-171 | the loop returns the session's entries newest first, sliced to [offset, offset + limit) with Python's slice rules |
| InMemory.LogPageWindow | memstate/backends/inmemory.py:153-171 | for a non-negative limit and offset the page is that window of the session's entries, at most `limit` long, and empty past the end |
| InMemory.SessionIds | memstate/backends/inmemory.py:187 | the ids collected are exactly the stored ids whose fact has that session, each once |
| InMemory.InMemoryStorage.SessionFactIds | memstate/backends/inmemory.py:187 | the comprehension's loop collects those ids in dict order |
| InMemory.InMemoryStorage.DeleteSession | memstate/backends/inmemory.py:173-190 | returns the session's ids in dict order and deletes them one by one |
| InMemory.RemovedAllEffect | memstate/backends/inmemory.py:186-190 | deleting the ids one by one removes exactly that set and keeps the rest of the order |
| InMemory.DeleteSessionExact | memstate/backends/inmemory.py:173-190 | `delete_session` removes exactly the facts of the session, leaves every other fact and the log unchanged, and keeps the backend consistent |
| InMemory.SessionFacts | memstate/backends/inmemory.py:206 | every fact returned has the session, and every stored fact with the session is returned |
| InMemory.InMemoryStorage.GetSessionFacts | memstate/backends/inmemory.py:192-206 | the loop returns the session's facts in dict order |
| InMemory.WithoutTxs | memstate/backends/inmemory.py:223-225 | the filtered log keeps exactly the entries whose uuid is not dropped |
| InMemory.WithoutTxsConcat | memstate/backends/inmemory.py:223-225 | the filter keeps the relative order of what it keeps |
| InMemory.WithoutTxsNoneDropped | memstate/backends/inmemory.py:219-225 | a log none of whose uuids is dropped comes back unchanged |
| InMemory.InMemoryStorage.DeleteTxs | memstate/backends/inmemory.py:208-225 | an empty list changes nothing; otherwise the log keeps, in order, the entries whose uuid is not listed |
| Transactions.FirstFailureSpec | memstate/storage.py:74-79 | hooks run in list order. No failure is reported exactly when every hook returns; otherwise the reported hook raised and every hook before it returned |
| Storage.MemoryStore.constructor | memstate/storage.py:58-64 | an empty constraint table and registry, the given hooks, and a counter at 0 |
| Storage.MemoryStore.RegisterSchema | memstate/storage.py:66-69 | registers the class, and a given constraint replaces the type's previous one |
| Storage.MemoryStore.AddHook | memstate/storage.py:71-72 | the hook goes after every hook added before it |
| Storage.MemoryStore.NotifyHooks | memstate/storage.py:74-79 | the loop over the hooks reports the first hook that raises, or None |
| Storage.MemoryStore.LogTx | memstate/storage.py:81-101 | the counter goes up by one and an entry stamped with it goes at the end of the log |
| Properties.LogTxCoherent | memstate/storage.py:90-101 | each log append raises the counter by exactly one. The new entry's number exceeds every earlier entry's, so logged numbers strictly increase |
| Properties.SameUuidSameEntry | memstate/storage.py:81-101 | in a log built by the counter, a uuid identifies one entry |
| Properties.WithoutTxsOrdered | memstate/backends/inmemory.py:208-225 | removing entries by uuid keeps the rest in strictly increasing order |
| Storage.MemoryStore.ResolveWrite | memstate/storage.py:118-145 | the constraint check and classification, read-only, equal to their spec function |
| Storage.MemoryStore.Commit | memstate/storage.py:103-161 | `commit` ends in the state, and with the result or error, that its spec function gives |
| Storage.MemoryStore.WriteResolved | memstate/storage.py:147-161 | save, log, hooks and compensation end as their spec function gives |
| Properties.CommitValidatesFirst | memstate/storage.py:111-113 | a payload the model rejects raises ValidationFailed before any save or log append; the state is unchanged |
| Properties.SingletonQueryExact | memstate/storage.py:123-129 | the singleton query finds exactly the stored facts of the type whose key value equals the new one |
| Properties.ResolveSound | memstate/storage.py:118-145 | the write is UPDATE exactly when its id is stored, with the stored fact as previous state; otherwise the fact keeps its id and the write is COMMIT or COMMIT_EPHEMERAL |
| Properties.CommitWrites | memstate/storage.py:147-161 | a validated, resolved commit raises the counter by one and logs one entry. When every hook returns, the backend holds the save; otherwise it holds the compensation |
| Properties.SingletonResolves | memstate/storage.py:123-137 | a singleton match resolves to an UPDATE of a stored fact with an equal key value, with that fact as previous state |
| Properties.CommitSingletonLogsUpdate | memstate/storage.py:123-150 | with a singleton match, commit logs an UPDATE of a stored fact with an equal key value, with that fact as before-state |
| Properties.CommitSingletonReusesId | memstate/storage.py:123-161 | with a singleton match, commit creates no second fact: the ids and their order are unchanged. On success, the id returned is that of a fact with an equal key value, which now holds the new payload |
| Properties.CommitImmutableConflict | memstate/storage.py:129-132 | with `immutable`, a singleton match raises ConflictError, and the store, log and counter are unchanged |
| Properties.CommitClassifiesById | memstate/storage.py:139-153 | without a singleton match, commit writes under the fact's id. The write is UPDATE exactly when that id is stored (the stored fact is the before-state), otherwise COMMIT or COMMIT_EPHEMERAL. On success it returns that id, which now reads as the new fact |
| Properties.CommitHookFailureRestores | memstate/storage.py:155-161 | when a hook raises, the facts and their order are exactly as before; the log keeps the attempt's entry and the counter stays advanced |
| Properties.ResolvedKeyIsFree | memstate/storage.py:123-137 | for a non-empty type name and a dot-free key, the key value commit writes equals no key value of another stored fact of the type, in either direction of `==` |
| Properties.CommitKeepsSingletonsUnique | memstate/storage.py:121-161 | for a non-empty type name and a dot-free key: if the facts of a singleton type hold pairwise distinct key values, they still do after any commit |
| Properties.EmptyTypeMatches | memstate/storage.py:126-127 | with the empty type name, the singleton query also returns a fact of another type with an equal key value, in dict order |
| Properties.SingletonEmptyTypeDuplicates | memstate/storage.py:121-153 | for the empty type name, commit overwrites a fact of another type, and leaves two facts of type "" with equal key values |
| Properties.DottedKeyMisses | memstate/storage.py:124-127 | for the key `a.b`, the singleton query does not find a stored fact whose payload holds the flat key `a.b` with an equal value |
| Properties.SingletonDottedKeyDuplicates | memstate/storage.py:121-153 | for the key `a.b`, commit creates a second fact beside one with an equal flat key value |
| Properties.CommitSuccessStores | memstate/storage.py:111-153 | a successful commit stores, under the returned id, the validated payload with the fact's type, source and session (an empty session argument keeps the fact's own). Every other fact is unchanged |
| Properties.CommitResolvedCoherent | memstate/storage.py:147-161 | the write half of commit keeps the engine coherent: a consistent backend, and a log ordered, numbered up to the counter, and stamped with its uuids |
| Properties.CommitPreservesCoherent | memstate/storage.py:103-161 | every commit keeps the engine coherent |
| Storage.MemoryStore.CommitModel | memstate/storage.py:163-189 | `commit_model` ends as its spec function gives |
| Properties.CommitModelUnregistered | memstate/storage.py:177-183 | a model whose class is registered under no name is refused, and nothing changes |
| Properties.CommitModelStoresType | memstate/storage.py:177-189 | a successful `commit_model` stores the validated dump under the first name registered for the class, with the given source. Without a singleton match it writes under the given id, or the fresh one when none or an empty one is given |
| Properties.CommitModelPreservesCoherent | memstate/storage.py:163-189 | `commit_model` keeps the engine coherent |
| Storage.MemoryStore.Update | memstate/storage.py:191-205 | `update` as written ends as its spec function gives |
| Properties.UpdateMissing | memstate/storage.py:193-195 | `update` of an absent id raises "Fact not found" and nothing changes; the refined update does the same |
| Properties.UpdateShallowMerge | memstate/storage.py:197-203 | every patched payload key takes the patched value and every other key keeps its value. Nothing else about the fact or any other fact changes, and the log records the before and after states |
| Properties.UpdateInvalidPatch | memstate/storage.py:199 | a patch whose payload entry is neither a dict nor an empty string or list raises, and nothing changes |
| Properties.UpdateEmptyPatch | memstate/storage.py:197-204 | a patch without a payload entry, or with an empty string or list as payload, merges nothing. The update still goes through: the fact stays as it was, one UPDATE entry is logged with that fact before and after, and the call succeeds exactly when every hook returns |
| Properties.UpdateHookFailureKeepsPatch | memstate/storage.py:199-204 | as written, a hook that raises leaves the merged fact stored |
| Properties.UpdateSkipsValidation | memstate/storage.py:191-205 | as written, `update` stores and returns a merged payload that the registered model rejects |
| Properties.UpdatePreservesCoherent | memstate/storage.py:191-205 | `update` keeps the engine coherent |
| Storage.MemoryStore.ValidatedUpdate | memstate/storage.py:191-205 | the refined update ends as its spec function gives: it validates the merged payload before any write, and restores the previous fact when a hook raises |
| Properties.ValidatedUpdateRejectsInvalid | memstate/storage.py:191-205 | the refined update refuses a merged payload the model rejects with ValidationFailed, and nothing changes |
| Properties.ValidatedUpdateHookFailureRestores | memstate/storage.py:191-205 | in the refined update, a hook that raises leaves the facts and their order exactly as before, with the attempt logged |
| Properties.ValidatedUpdatePreservesCoherent | memstate/storage.py:191-205 | the refined update keeps the engine coherent |
| Storage.MemoryStore.Delete | memstate/storage.py:207-216 | `delete` ends as its spec function gives |
| Properties.DeleteMissing | memstate/storage.py:209-211 | `delete` of an absent id raises "Fact not found" and nothing changes |
| Properties.DeleteRemovesOnlyThat | memstate/storage.py:207-216 | `delete` removes exactly that fact, whether or not a hook raises, and logs a DELETE with the fact as before-state. It succeeds exactly when every hook returns |
| Properties.DeletePreservesCoherent | memstate/storage.py:207-216 | `delete` keeps the engine coherent |
| Storage.MemoryStore.Get | memstate/storage.py:218-219 | returns the stored fact, or None |
| Storage.MemoryStore.Query | memstate/storage.py:221-222 | returns the backend's query result |
| Storage.MemoryStore.PromoteSession | memstate/storage.py:224-253 | the loop over the candidates ends as its spec function gives |
| Properties.SessionFilterMatches | memstate/storage.py:238 | the filter `{"session_id": s}` matches a fact exactly when the fact belongs to session s |
| Properties.SessionQueryIds | memstate/storage.py:238 | the candidates' ids are the session's ids in dict order |
| Properties.PromoteCandidates | memstate/storage.py:238 | the candidates are exactly the session's stored facts, each once and under its own id |
| Properties.ChosenMembers | memstate/storage.py:241-243 | the selector lets through exactly the candidates it accepts, and every candidate when there is no selector |
| Properties.ChosenIds | memstate/storage.py:241-249 | the ids let through are those of the session's facts that the selector accepts |
| Properties.ChosenDistinct | memstate/storage.py:241-249 | the ids let through are distinct |
| Properties.PromoteHooksAllPass | memstate/storage.py:251 | hooks that always return let every promotion through |
| Properties.PromoteLoopResult | memstate/storage.py:240-253 | when every hook returns, the loop promotes the accepted candidates in order, with one log entry each |
| Properties.PromoteLoopFacts | memstate/storage.py:241-251 | when every hook returns, each accepted candidate is written back without its session. The key order and every other fact are kept |
| Properties.PromoteReturnsSession | memstate/storage.py:224-253 | the result lists each promoted id once: exactly the session's facts that the selector accepts. Without a selector, they are the session's ids in dict order |
| Properties.PromoteClearsSession | memstate/storage.py:224-253 | every accepted fact of the session loses its session. Every other fact and the key order are unchanged |
| Properties.PromoteLoopCoherent | memstate/storage.py:241-251 | the promote loop keeps the engine coherent |
| Properties.PromotePreservesCoherent | memstate/storage.py:224-253 | `promote_session` keeps the engine coherent |
| Storage.MemoryStore.DiscardSession | memstate/storage.py:255-266 | `discard_session` ends as its spec function gives |
| Properties.DiscardExact | memstate/storage.py:255-266 | removes exactly the session's facts and returns their number. When there were any, it logs one DISCARD_SESSION entry; otherwise nothing changes |
| Properties.DiscardPreservesCoherent | memstate/storage.py:255-266 | `discard_session` keeps the engine coherent |
| Storage.MemoryStore.UndoOne | memstate/storage.py:276-291 | undoing one entry ends as its spec function gives |
| Storage.MemoryStore.UndoPage | memstate/storage.py:275-291 | the loop over the page undoes the entries in turn and stops at the first hook that raises, as its spec function gives |
| Storage.MemoryStore.Rollback | memstate/storage.py:268-293 | `rollback` ends as its spec function gives |
| Properties.RollbackNonPositive | memstate/storage.py:270-271 | `steps <= 0` returns at once, and nothing changes |
| Properties.UndoEntryKeepsLog | memstate/storage.py:276-291 | undoing an entry writes only facts: the backend stays consistent and the log is untouched |
| Properties.UndoAllKeepsLog | memstate/storage.py:275-291 | so does undoing a list of entries |
| Properties.RollbackPreservesCoherent | memstate/storage.py:268-293 | `rollback` keeps the engine coherent |
| Properties.RollbackKeepsOtherSessions | memstate/storage.py:268-293 | every log entry of another session survives a rollback |
| Properties.RollbackRemovesExactlyUndone | memstate/storage.py:268-293 | a rollback of any positive number of steps in which no hook raises succeeds. It leaves the facts and key order that undoing the session's newest `steps` entries produces. An entry stays in the log exactly when it was there and was not among those undone |
| Properties.UuidsOfPage | memstate/storage.py:293 | in a log built by the counter, an entry's uuid is among the uuids of the undone entries exactly when the entry is one of them |
| Properties.NewestPage | memstate/storage.py:273 | a one-entry page of a session right after an append of that session is that entry |
| Properties.DropNewest | memstate/storage.py:293 | removing the newest entry by uuid gives back the log before it |
| Properties.RollbackNewest | memstate/storage.py:268-293 | a one-step rollback right after an append undoes exactly that entry. On success it removes that entry by uuid; when a hook raises it removes nothing |
| Properties.RollbackNewestTo | memstate/storage.py:268-293 | when undoing that entry restores a backend with the log untouched, the rollback ends at that backend |
| Properties.RollbackUndoesNewCommit | memstate/storage.py:279-286 | committing a new fact and rolling its session back one step gives back the backend exactly, log included |
| Properties.RollbackUndoesUpdate | memstate/storage.py:279-282 | updating a fact and rolling its session back one step gives back the backend exactly, log included |
| Properties.RestoreAfterDelete | memstate/storage.py:288-291 | re-saving a deleted fact brings back the same facts, with its id now last in the key order |
| Properties.RollbackUndoesDelete | memstate/storage.py:288-291 | deleting a fact and rolling its session back one step brings the fact back and removes the DELETE entry |
| Properties.CommitUpdateRollback | memstate/storage.py:268-293 | commit into a session, update, and roll back one step: the fact reads as committed, and the log is as it was after the commit |

## Left out

- Floating-point JSON numbers: `Value` has integers, booleans, strings, lists and dicts. Python's `True == 1` is modelled.
- Timestamps (`ts` of facts and log entries) are not modelled, and neither is the `ts` that `update` rewrites.
- Aliasing is not modelled. `load` and `query` return the stored dict itself, and `promote_session` and `update` mutate it in place. `commit` and `commit_model` mutate the caller's `Fact`. The model works on values. Within one call, its results equal the states those mutations reach.
- Aliasing between the store and the log is not modelled either. `get_tx_log` returns the log's own dicts, and `rollback` saves the logged `fact_before` dict itself. After a rollback that stops at a hook, the restored fact and its log entry are one dict. A later `update` or `promote_session` then changes the logged before-state too. A second rollback restores the patched fact in Python, but the fact as first logged in the model.
- Locks, `AsyncMemoryStore` and `AsyncInMemoryStorage`: every method is one atomic step.
- The SQLite, Redis and Postgres backends and `memstate/backends/base.py` are not part of this model. `InMemoryStorage.close` does nothing and is not modelled.
- Pydantic: `model_validate`/`model_dump` is a validator function per model class. Building `Fact(**d)` for a hook is taken to succeed. Exception messages are not modelled.
- Hooks are pure predicates. Their side effects (vector-store writes) are not part of this model.
- Properties.UpdateInvalidPatch: a non-empty list as payload is refused with nothing changed. Python's `dict.update` merges a list of key/value pairs. For a list that goes wrong part-way, such as `[["a", 1], "xyz"]`, it merges the leading pairs into the stored dict in place before it raises. An empty string or list, a dict, and every other value are modelled as Python treats them.
- The log's session: `_log_tx` passes no `session_id`, although `TxEntry` requires one. The model logs the session of the fact concerned: the fact's session after the override for commit, the stored fact's for update and delete, and the promoted or discarded session for promote and discard.
- Rollback: `rollback` pages the log with `get_tx_log(limit=steps)` without the session argument the backend requires, and ends with `remove_last_tx`. Neither the in-memory backend nor the backend interface in memstate/backends/base.py defines it. These two calls fit the Redis backend's global log (memstate/backends/redis.py:233 and 286), which is not part of this model. The model's `rollback(steps, session)` pages the session's newest entries with `get_tx_log(session, steps, 0)`. Once every entry is undone, it removes exactly those entries by uuid with `delete_txs`. When a hook raises mid-way, it stops and removes nothing.
- A commit that fails in a hook keeps its log entry, and the counter stays advanced, as in the code.
- Properties.PromoteReturnsSession: stated only for hooks that all return. When a hook raises mid-way, `PromoteStep` gives the state reached, which no lemma characterises further.
- Properties.PromoteClearsSession: stated only for hooks that all return, as above.
- Properties.RollbackUndoesNewCommit: stated for a non-empty id and a DELETE hook that returns. The code skips the delete of an empty id (`if fid:`).
- Properties.CommitSingletonReusesId: the key must be dot-free. A key containing a dot would make the `payload.<key>` filter walk a nested path (see Findings).
- SingletonQueryExact: stated for a dot-free key only. For a key with a dot, the query compares the nested value, not the flat `payload[key]` (see Findings).
- SingletonResolves: stated for a dot-free key only, for the same reason.
- CommitSingletonLogsUpdate: stated for a dot-free key only, for the same reason.
- CommitImmutableConflict: stated for a dot-free key only. With a dotted key, the source raises ConflictError when a nested value matches; no lemma characterises that.
- ResolvedKeyIsFree: stated for a non-empty type name and a dot-free key. Outside those, the source does create duplicates (see Findings).
- CommitKeepsSingletonsUnique: stated for a non-empty type name and a dot-free key, as above.
- LogTxCoherent: the coherence lemmas assume the engine starts coherent. `MemoryStore.__init__` sets `_seq` to 0 whatever the backend's log holds (memstate/storage.py:62). Over a backend whose log already has entries, new entries can repeat earlier numbers. So coherence is proved for every operation, but it is not part of `MemoryStore`'s class invariant.
- The search protocol, the LangGraph checkpoint saver and the vector-store integrations are not part of this model.

## Findings

| source | as written | input that shows it | evidently intended | confidence | as-written member | corrected member |
|---|---|---|---|---|---|---|
| memstate/storage.py:191-205 | `update` merges the patch and saves it without validating it against the type's registered model | a fact of a registered type and a patch `{"payload": {"age": "i am not a number"}}` that the model rejects: `update` returns the id and stores the rejected payload | ValidationFailed, with the stored fact unchanged (tests/sync/test_update_storage.py:43-51) | high; not executed | Properties.UpdateSkipsValidation | Properties.ValidatedUpdateRejectsInvalid |
| memstate/storage.py:121-137 | the singleton query passes the fact's type as `type_filter`, which the backend ignores when it is empty (memstate/backends/inmemory.py:125) | type `""` with singleton key `k`; stored `a` of type `other` with `k` = 1 and `b` of type `""` with `k` = 1; commit `c` of type `""` with `k` = 1: `a` is overwritten, and `a` and `b` are both type `""` with `k` = 1 | the query is restricted to the fact's own type, so no two facts of a singleton type share a key value | low; not executed | Properties.SingletonEmptyTypeDuplicates | Properties.CommitKeepsSingletonsUnique |
| memstate/storage.py:124-127 | commit reads the flat key `payload[key]`, but filters on the path `payload.<key>`, which the backend walks as nested dicts | singleton key `a.b`; stored `b` with payload `{"a.b": 1}`; commit `c` with payload `{"a.b": 1}`: the query finds nothing, and `c` is created beside `b` | the query compares the same value commit reads, so a second fact with an equal key value is never created | medium; not executed | Properties.SingletonDottedKeyDuplicates | Properties.CommitKeepsSingletonsUnique |
| memstate/storage.py:199-204 | `update` has no compensation: a hook that raises leaves the merged fact stored | a stored fact with `age` 25, the patch `{"payload": {"age": 99}}` and a hook that raises on UPDATE: HookError is raised, and the fact reads 99 | the fact reads as before the update (tests/sync/test_update_storage.py:54-66) | high; not executed | Properties.UpdateHookFailureKeepsPatch | Properties.ValidatedUpdateHookFailureRestores |
