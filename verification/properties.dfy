/**
  What the engine promises, proved about the step functions of Transactions: validation comes
  before any write, the singleton rule, commit's classification and compensation, the ordering
  of the transaction log, the shallow merge of update, rollback, promotion and discarding.
 */
module Properties {
  import opened Wrappers
  import opened Json
  import opened Records
  import opened InMemory
  import opened Errors
  import opened Registry
  import opened Transactions

  // ---------------------------------------------------------------------------------------
  // The log invariant

  /** Sequence numbers grow strictly along the log, and none exceeds the counter. */
  ghost predicate LogOrdered(log: seq<TxEntry>, counter: nat)
  {
    && (forall i, j :: 0 <= i < j < |log| ==> log[i].seqNo < log[j].seqNo)
    && (forall i :: 0 <= i < |log| ==> log[i].seqNo <= counter)
  }

  /** Every entry carries the uuid drawn for its sequence number. */
  ghost predicate Stamped(log: seq<TxEntry>, mint: UuidOracle)
  {
    forall i :: 0 <= i < |log| ==> log[i].uuid == mint(log[i].seqNo)
  }

  /** The uuid generator never repeats itself. */
  ghost predicate Injective(mint: UuidOracle)
  {
    forall a, b :: mint(a) == mint(b) ==> a == b
  }

  /** The engine invariant every operation keeps. */
  ghost predicate Coherent(e: Engine, mint: UuidOracle)
  {
    Consistent(e.backend) && LogOrdered(e.backend.txLog, e.seqNo) && Stamped(e.backend.txLog, mint)
  }

  /** Every hook returns, whatever it is called with. */
  ghost predicate AllHooksPass(hooks: seq<Hook>)
  {
    forall i, op, id, data :: 0 <= i < |hooks| ==> hooks[i](op, id, data)
  }

  function LastEntry(e: Engine): TxEntry
    requires |e.backend.txLog| > 0
  {
    e.backend.txLog[|e.backend.txLog| - 1]
  }

  /** `_log_tx` keeps the log ordered: the new entry's number is above every earlier one. */
  lemma LogTxCoherent(e: Engine, mint: UuidOracle, session: Option<string>, op: Operation, factId: Option<string>,
                      before: Option<FactRecord>, after: Option<FactRecord>, actor: Option<string>, reason: Option<string>)
    requires Coherent(e, mint)
    ensures var l := LogTx(e, mint, session, op, factId, before, after, actor, reason);
            && Coherent(l, mint)
            && l.seqNo == e.seqNo + 1
            && l.backend.txLog == e.backend.txLog + [LastEntry(l)]
            && LastEntry(l).seqNo == l.seqNo
            && forall x :: x in e.backend.txLog ==> x.seqNo < LastEntry(l).seqNo
  {
  }

  /** Removing entries by uuid keeps what is left ordered and stamped. */
  lemma {:induction false} WithoutTxsOrdered(log: seq<TxEntry>, drop: set<string>, counter: nat, mint: UuidOracle)
    requires LogOrdered(log, counter) && Stamped(log, mint)
    ensures LogOrdered(WithoutTxs(log, drop), counter) && Stamped(WithoutTxs(log, drop), mint)
  {
    if log != [] {
      var init := log[..|log| - 1];
      var last := log[|log| - 1];
      assert LogOrdered(init, counter) && Stamped(init, mint);
      WithoutTxsOrdered(init, drop, counter, mint);
      var rest := WithoutTxs(init, drop);
      if last.uuid !in drop {
        var r := rest + [last];
        forall i, j | 0 <= i < j < |r| ensures r[i].seqNo < r[j].seqNo {
          if j == |r| - 1 {
            assert r[i] in init;
            var k :| 0 <= k < |init| && init[k] == r[i];
          }
        }
      }
    }
  }

  /** Two entries of an ordered, stamped log with the same uuid are the same entry. */
  lemma SameUuidSameEntry(log: seq<TxEntry>, counter: nat, mint: UuidOracle, x: TxEntry, y: TxEntry)
    requires LogOrdered(log, counter) && Stamped(log, mint) && Injective(mint)
    requires x in log && y in log && x.uuid == y.uuid
    ensures x == y
  {
    var i :| 0 <= i < |log| && log[i] == x;
    var j :| 0 <= j < |log| && log[j] == y;
    assert mint(x.seqNo) == mint(y.seqNo);
    assert log[i].seqNo == log[j].seqNo;
  }

  // ---------------------------------------------------------------------------------------
  // commit

  /** The singleton query finds exactly the stored facts of the type whose key value equals the new one. */
  lemma SingletonQueryExact(b: Backend, f: FactRecord, key: string, g: FactRecord)
    requires Consistent(b) && Dot !in key
    ensures g in SingletonMatches(b, f, key)
            <==> && g.id in b.facts && b.facts[g.id] == g
                 && TypeMatches(g, Some(f.factType))
                 && PyEq(Get(g.payload, key), Get(f.payload, key))
  {
    var filters := map["payload." + key := Get(f.payload, key)];
    QueryExact(b, Some(f.factType), filters, g);
    PayloadPath(g, key);
    assert FieldsMatch(g, filters) <==> PyEq(PathGet(AsValue(g), Split("payload." + key)), Get(f.payload, key));
  }

  /**
    What commit resolves to is sound: UPDATE exactly when the id written is already stored, with
    `previous_state` the stored fact; otherwise the fact keeps its own id and has no previous state.
   */
  lemma ResolveSound(b: Backend, constraints: map<string, Constraint>, f: FactRecord, ephemeral: bool)
    requires Consistent(b)
    requires Resolve(b, constraints, f, ephemeral).Ok?
    ensures var res := Resolve(b, constraints, f, ephemeral).value;
            && (res.op == Update <==> res.id in b.facts)
            && (res.op == Update ==> res.previous == Some(b.facts[res.id]))
            && (res.op != Update ==> res.previous == None && res.id == f.id
                                     && res.op == if ephemeral then CommitEphemeral else Commit)
  {
    var key := SingletonKey(constraints, f.factType);
    if key.Some? && Get(f.payload, key.value) != Null {
      var filters := map["payload." + key.value := Get(f.payload, key.value)];
      var matches := QueryResult(b, Some(f.factType), filters);
      if |matches| > 0 {
        QueryExact(b, Some(f.factType), filters, matches[0]);
      }
    }
  }

  /** The entry commit logs for the write of `g` resolved as `res`. */
  function CommitEntry(e: Engine, cfg: Config, g: FactRecord, res: Resolution, actor: Option<string>,
                       reason: Option<string>): TxEntry
  {
    TxEntry(cfg.mint(e.seqNo + 1), g.sessionId, e.seqNo + 1, res.op, Some(g.id), res.previous, Some(g), actor, reason)
  }

  /**
    Once the payload is validated and the write resolved, commit saves, logs one entry, and
    either returns the id or, when a hook raises, compensates and raises.
   */
  lemma CommitWrites(e: Engine, cfg: Config, fact: FactRecord, session: Option<string>, ephemeral: bool,
                     actor: Option<string>, reason: Option<string>, payload: Object, res: Resolution)
    requires ValidatePayload(cfg.schemas, cfg.validator, fact.factType, fact.payload) == Ok(payload)
    requires Resolve(e.backend, cfg.constraints, WithSession(fact.(payload := payload), session), ephemeral) == Ok(res)
    ensures var s := CommitStep(e, cfg, fact, session, ephemeral, actor, reason);
            var g := WithSession(fact.(payload := payload), session).(id := res.id);
            var entry := CommitEntry(e, cfg, g, res, actor, reason);
            var failure := FirstFailure(cfg.hooks, res.op, Some(res.id), Some(g));
            && s.engine.seqNo == e.seqNo + 1
            && (failure.None? ==> s.result == Ok(res.id) && s.engine.backend == Logged(Stored(e.backend, g), entry))
            && (failure.Some? ==> s.result == Err(HookError(failure.value))
                                  && s.engine.backend == Logged(Compensate(Stored(e.backend, g), res), entry))
  {
  }

  /** An invalid payload is refused before anything is saved or logged. */
  lemma CommitValidatesFirst(e: Engine, cfg: Config, fact: FactRecord, session: Option<string>, ephemeral: bool,
                             actor: Option<string>, reason: Option<string>)
    requires ValidatePayload(cfg.schemas, cfg.validator, fact.factType, fact.payload).Err?
    ensures CommitStep(e, cfg, fact, session, ephemeral, actor, reason) == Step(e, Err(ValidationFailed))
  {
  }

  /**
    The singleton rule at resolution: when a stored fact of the type has a key value equal to the
    new one, the write resolves to an UPDATE of a stored fact of the type with an equal key value.
   */
  lemma SingletonResolves(b: Backend, constraints: map<string, Constraint>, f: FactRecord, ephemeral: bool,
                          key: string, m: FactRecord)
    requires Consistent(b)
    requires SingletonKey(constraints, f.factType) == Some(key) && Dot !in key
    requires !constraints[f.factType].immutable
    requires Get(f.payload, key) != Null
    requires m.id in b.facts && b.facts[m.id] == m && m.factType == f.factType
    requires PyEq(Get(m.payload, key), Get(f.payload, key))
    ensures var r := Resolve(b, constraints, f, ephemeral);
            && r.Ok? && r.value.op == Update
            && r.value.id in b.facts && r.value.previous == Some(b.facts[r.value.id])
            && PyEq(Get(b.facts[r.value.id].payload, key), Get(f.payload, key))
  {
    var matches := SingletonMatches(b, f, key);
    assert m in matches by {
      SingletonQueryExact(b, f, key, m);
    }
    var m0 := matches[0];
    assert m0.id in b.facts && b.facts[m0.id] == m0 && PyEq(Get(m0.payload, key), Get(f.payload, key)) by {
      assert m0 in matches;
      SingletonQueryExact(b, f, key, m0);
    }
  }

  /**
    The singleton rule: when a stored fact of the type already has an equal key value, commit
    logs an UPDATE whose target is a stored fact with an equal key value and whose before-state
    is that fact.
   */
  lemma CommitSingletonLogsUpdate(e: Engine, cfg: Config, fact: FactRecord, session: Option<string>, ephemeral: bool,
                                  actor: Option<string>, reason: Option<string>, payload: Object, key: string,
                                  m: FactRecord)
    requires Consistent(e.backend)
    requires ValidatePayload(cfg.schemas, cfg.validator, fact.factType, fact.payload) == Ok(payload)
    requires SingletonKey(cfg.constraints, fact.factType) == Some(key) && Dot !in key
    requires !cfg.constraints[fact.factType].immutable
    requires Get(payload, key) != Null
    requires m.id in e.backend.facts && e.backend.facts[m.id] == m && m.factType == fact.factType
    requires PyEq(Get(m.payload, key), Get(payload, key))
    ensures var s := CommitStep(e, cfg, fact, session, ephemeral, actor, reason);
            && |s.engine.backend.txLog| == |e.backend.txLog| + 1
            && var entry := LastEntry(s.engine);
            && entry.op == Update
            && entry.factId.Some? && entry.factId.value in e.backend.facts
            && entry.factBefore == Some(e.backend.facts[entry.factId.value])
            && PyEq(Get(e.backend.facts[entry.factId.value].payload, key), Get(payload, key))
  {
    var f := WithSession(fact.(payload := payload), session);
    SingletonResolves(e.backend, cfg.constraints, f, ephemeral, key, m);
    var res := Resolve(e.backend, cfg.constraints, f, ephemeral).value;
    CommitWrites(e, cfg, fact, session, ephemeral, actor, reason, payload, res);
  }

  /**
    The singleton rule: when a stored fact of the type already has an equal key value, commit
    creates no second fact: the ids and their order stay as they were, and on success the id
    returned is that of a stored fact with an equal key value, which now holds the new payload.
   */
  lemma CommitSingletonReusesId(e: Engine, cfg: Config, fact: FactRecord, session: Option<string>, ephemeral: bool,
                                actor: Option<string>, reason: Option<string>, payload: Object, key: string,
                                m: FactRecord)
    requires Consistent(e.backend)
    requires ValidatePayload(cfg.schemas, cfg.validator, fact.factType, fact.payload) == Ok(payload)
    requires SingletonKey(cfg.constraints, fact.factType) == Some(key) && Dot !in key
    requires !cfg.constraints[fact.factType].immutable
    requires Get(payload, key) != Null
    requires m.id in e.backend.facts && e.backend.facts[m.id] == m && m.factType == fact.factType
    requires PyEq(Get(m.payload, key), Get(payload, key))
    ensures var s := CommitStep(e, cfg, fact, session, ephemeral, actor, reason);
            && s.engine.backend.facts.Keys == e.backend.facts.Keys
            && s.engine.backend.order == e.backend.order
            && (s.result.Ok? ==> && s.result.value in e.backend.facts
                                 && PyEq(Get(e.backend.facts[s.result.value].payload, key), Get(payload, key))
                                 && s.engine.backend.facts[s.result.value].payload == payload)
  {
    var f := WithSession(fact.(payload := payload), session);
    SingletonResolves(e.backend, cfg.constraints, f, ephemeral, key, m);
    var res := Resolve(e.backend, cfg.constraints, f, ephemeral).value;
    CommitWrites(e, cfg, fact, session, ephemeral, actor, reason, payload, res);
    var g := f.(id := res.id);
    if FirstFailure(cfg.hooks, res.op, Some(res.id), Some(g)).Some? {
      SaveThenRestore(e.backend, g);
      assert Compensate(Stored(e.backend, g), res) == e.backend;
    }
  }

  /** With `immutable=True` a singleton match raises ConflictError and nothing changes. */
  lemma CommitImmutableConflict(e: Engine, cfg: Config, fact: FactRecord, session: Option<string>, ephemeral: bool,
                                actor: Option<string>, reason: Option<string>, payload: Object, key: string,
                                m: FactRecord)
    requires Consistent(e.backend)
    requires ValidatePayload(cfg.schemas, cfg.validator, fact.factType, fact.payload) == Ok(payload)
    requires SingletonKey(cfg.constraints, fact.factType) == Some(key) && Dot !in key
    requires cfg.constraints[fact.factType].immutable
    requires Get(payload, key) != Null
    requires m.id in e.backend.facts && e.backend.facts[m.id] == m && m.factType == fact.factType
    requires PyEq(Get(m.payload, key), Get(payload, key))
    ensures CommitStep(e, cfg, fact, session, ephemeral, actor, reason) == Step(e, Err(ConflictError))
  {
    var f := WithSession(fact.(payload := payload), session);
    SingletonQueryExact(e.backend, f, key, m);
  }

  /** A singleton match exists: the type has a key, the new value is not None, and the query finds a fact. */
  ghost predicate SingletonHit(b: Backend, constraints: map<string, Constraint>, factType: string, payload: Object)
  {
    var key := SingletonKey(constraints, factType);
    && key.Some?
    && Get(payload, key.value) != Null
    && |QueryResult(b, Some(factType), map["payload." + key.value := Get(payload, key.value)])| > 0
  }

  /**
    Without a singleton match, commit writes under the fact's own id and logs UPDATE exactly when
    that id is already stored (with the stored fact as before-state), otherwise COMMIT, or
    COMMIT_EPHEMERAL when asked for.
   */
  lemma CommitClassifiesById(e: Engine, cfg: Config, fact: FactRecord, session: Option<string>, ephemeral: bool,
                             actor: Option<string>, reason: Option<string>, payload: Object)
    requires Consistent(e.backend)
    requires ValidatePayload(cfg.schemas, cfg.validator, fact.factType, fact.payload) == Ok(payload)
    requires !SingletonHit(e.backend, cfg.constraints, fact.factType, payload)
    ensures var s := CommitStep(e, cfg, fact, session, ephemeral, actor, reason);
            && |s.engine.backend.txLog| == |e.backend.txLog| + 1
            && var entry := LastEntry(s.engine);
            && entry.factId == Some(fact.id)
            && (entry.op == Update <==> fact.id in e.backend.facts)
            && (fact.id !in e.backend.facts ==> entry.op == if ephemeral then CommitEphemeral else Commit)
            && entry.factBefore == Lookup(e.backend, fact.id)
            && entry.factAfter == Some(WithSession(fact.(payload := payload), session))
            && (s.result.Ok? ==> s.result == Ok(fact.id) && Lookup(s.engine.backend, fact.id) == entry.factAfter)
  {
    var f := WithSession(fact.(payload := payload), session);
    var res := Classify(e.backend, fact.id, ephemeral);
    assert Resolve(e.backend, cfg.constraints, f, ephemeral) == Ok(res);
    CommitWrites(e, cfg, fact, session, ephemeral, actor, reason, payload, res);
  }

  /**
    A hook that raises during commit leaves the facts and their order exactly as they were; the
    log keeps the entry appended for the attempt, and the counter stays advanced.
   */
  lemma CommitHookFailureRestores(e: Engine, cfg: Config, fact: FactRecord, session: Option<string>, ephemeral: bool,
                                  actor: Option<string>, reason: Option<string>)
    requires Consistent(e.backend)
    requires CommitStep(e, cfg, fact, session, ephemeral, actor, reason).result.Err?
    requires CommitStep(e, cfg, fact, session, ephemeral, actor, reason).result.error.HookError?
    ensures var s := CommitStep(e, cfg, fact, session, ephemeral, actor, reason);
            && s.engine.backend.facts == e.backend.facts
            && s.engine.backend.order == e.backend.order
            && s.engine.seqNo == e.seqNo + 1
            && |s.engine.backend.txLog| == |e.backend.txLog| + 1
            && s.engine.backend.txLog[..|e.backend.txLog|] == e.backend.txLog
  {
    var b := e.backend;
    var payload := ValidatePayload(cfg.schemas, cfg.validator, fact.factType, fact.payload).value;
    var f := WithSession(fact.(payload := payload), session);
    ResolveSound(b, cfg.constraints, f, ephemeral);
    var res := Resolve(b, cfg.constraints, f, ephemeral).value;
    var g := f.(id := res.id);
    if res.op == Update {
      SaveThenRestore(b, g);
    } else {
      SaveNewThenDelete(b, g);
    }
  }

  /** No two stored facts of type `t` hold equal (Python `==`) values other than None under `key`. */
  ghost predicate SingletonsUnique(b: Backend, t: string, key: string)
  {
    forall x, y :: x in b.facts && y in b.facts && x != y
                   && b.facts[x].factType == t && b.facts[y].factType == t
                   && Get(b.facts[x].payload, key) != Null
                   ==> !PyEq(Get(b.facts[x].payload, key), Get(b.facts[y].payload, key))
  }

  /**
    The key value commit writes under the resolved id equals no key value of another stored fact
    of the type, in either direction of `==`.
   */
  lemma ResolvedKeyIsFree(b: Backend, constraints: map<string, Constraint>, f: FactRecord, ephemeral: bool,
                          key: string, y: string)
    requires Consistent(b)
    requires f.factType != "" && SingletonKey(constraints, f.factType) == Some(key) && Dot !in key
    requires SingletonsUnique(b, f.factType, key)
    requires Resolve(b, constraints, f, ephemeral).Ok?
    requires y in b.facts && b.facts[y].factType == f.factType && y != Resolve(b, constraints, f, ephemeral).value.id
    requires Get(f.payload, key) != Null || Get(b.facts[y].payload, key) != Null
    ensures !PyEq(Get(f.payload, key), Get(b.facts[y].payload, key))
    ensures !PyEq(Get(b.facts[y].payload, key), Get(f.payload, key))
  {
    var v := Get(f.payload, key);
    var w := Get(b.facts[y].payload, key);
    PyEqNull(v);
    PyEqNull(w);
    if v != Null {
      var matches := SingletonMatches(b, f, key);
      SingletonQueryExact(b, f, key, b.facts[y]);
      if |matches| > 0 {
        var m0 := matches[0];
        SingletonQueryExact(b, f, key, m0);
        var u := Get(m0.payload, key);
        PyEqNull(u);
        if PyEq(v, w) {
          PyEqTransitive(u, v, w);
          assert false;
        }
        if PyEq(w, v) {
          PyEqSymmetric(w, v);
          PyEqTransitive(u, v, w);
          assert false;
        }
      } else {
        if PyEq(v, w) {
          PyEqSymmetric(v, w);
        }
      }
    }
  }

  /**
    The singleton rule never creates a duplicate: if the facts of a type hold pairwise distinct
    key values, they still do after any commit.
   */
  lemma CommitKeepsSingletonsUnique(e: Engine, cfg: Config, fact: FactRecord, session: Option<string>, ephemeral: bool,
                                    actor: Option<string>, reason: Option<string>, t: string, key: string)
    requires Consistent(e.backend)
    requires t != "" && SingletonKey(cfg.constraints, t) == Some(key) && Dot !in key
    requires SingletonsUnique(e.backend, t, key)
    ensures SingletonsUnique(CommitStep(e, cfg, fact, session, ephemeral, actor, reason).engine.backend, t, key)
  {
    var s := CommitStep(e, cfg, fact, session, ephemeral, actor, reason);
    var b := e.backend;
    var validated := ValidatePayload(cfg.schemas, cfg.validator, fact.factType, fact.payload);
    if validated.Ok? {
      var f := WithSession(fact.(payload := validated.value), session);
      var resolved := Resolve(b, cfg.constraints, f, ephemeral);
      if resolved.Ok? {
        if s.result.Err? {
          CommitHookFailureRestores(e, cfg, fact, session, ephemeral, actor, reason);
        } else {
          var g := f.(id := resolved.value.id);
          var nf := s.engine.backend.facts;
          assert nf == b.facts[g.id := g];
          if g.factType == t {
            forall x, y | x in nf && y in nf && x != y && nf[x].factType == t && nf[y].factType == t
                          && Get(nf[x].payload, key) != Null
              ensures !PyEq(Get(nf[x].payload, key), Get(nf[y].payload, key))
            {
              if x == g.id {
                ResolvedKeyIsFree(b, cfg.constraints, f, ephemeral, key, y);
              } else if y == g.id {
                ResolvedKeyIsFree(b, cfg.constraints, f, ephemeral, key, x);
              }
            }
          }
        }
      }
    }
  }

  /**
    The singleton rule is not enforced for the empty type name: the query of commit then passes
    "" as its type filter, which the backend ignores, so a fact of another type with an equal key
    value is taken as the match and overwritten. Two facts of type "" end up with equal key values.
   */
  lemma SingletonEmptyTypeDuplicates(cfg: Config)
    requires cfg.constraints == map["" := Constraint(Some("k"), false)]
    requires "" !in cfg.schemas && cfg.hooks == []
    ensures var other := FactRecord("a", "other", map["k" := Int(1)], None, None);
            var mine := FactRecord("b", "", map["k" := Int(1)], None, None);
            var e := Engine(Backend(["a", "b"], map["a" := other, "b" := mine], []), 0);
            var s := CommitStep(e, cfg, FactRecord("c", "", map["k" := Int(1)], None, None), None, false, None, None);
            && SingletonsUnique(e.backend, "", "k")
            && s.result == Ok("a")
            && s.engine.backend.facts["a"].factType == ""
            && !SingletonsUnique(s.engine.backend, "", "k")
  {
    var other := FactRecord("a", "other", map["k" := Int(1)], None, None);
    var mine := FactRecord("b", "", map["k" := Int(1)], None, None);
    var b := Backend(["a", "b"], map["a" := other, "b" := mine], []);
    var e := Engine(b, 0);
    var fact := FactRecord("c", "", map["k" := Int(1)], None, None);
    EmptyTypeMatches(b, other, mine, fact);
    var res := Resolution(Update, "a", Some(other));
    assert WithSession(fact.(payload := fact.payload), None) == fact;
    assert Resolve(b, cfg.constraints, fact, false) == Ok(res);
    CommitWrites(e, cfg, fact, None, false, None, None, fact.payload, res);
    var g := fact.(id := "a");
    var s := CommitStep(e, cfg, fact, None, false, None, None);
    assert s.engine.backend.facts == b.facts["a" := g];
    assert SingletonsUnique(b, "", "k");
    assert !SingletonsUnique(s.engine.backend, "", "k") by {
      var nf := s.engine.backend.facts;
      assert nf["a"] == g && nf["b"] == mine;
      assert PyEq(Get(nf["a"].payload, "k"), Get(nf["b"].payload, "k"));
    }
  }

  /** The query behind SingletonEmptyTypeDuplicates: with "" as type filter both facts match. */
  lemma EmptyTypeMatches(b: Backend, other: FactRecord, mine: FactRecord, fact: FactRecord)
    requires b.order == ["a", "b"] && b.facts == map["a" := other, "b" := mine]
    requires other.payload == map["k" := Int(1)] && mine.payload == map["k" := Int(1)]
    requires fact.factType == "" && fact.payload == map["k" := Int(1)]
    ensures SingletonMatches(b, fact, "k") == [other, mine]
  {
    var filters := map["payload.k" := Int(1)];
    assert SingletonMatches(b, fact, "k") == Matching(b.order, b.facts, Some(""), filters) by {
      assert "payload." + "k" == "payload.k";
      assert Get(fact.payload, "k") == Int(1);
    }
    KeyOneMatches(other);
    KeyOneMatches(mine);
    assert b.facts["a"] == other && b.facts["b"] == mine;
    MatchingStep(b.order, 0, b.facts, Some(""), filters);
    MatchingStep(b.order, 1, b.facts, Some(""), filters);
    assert b.order[..0] == [] && b.order[..2] == b.order;
  }

  lemma KeyOneMatches(g: FactRecord)
    requires g.payload == map["k" := Int(1)]
    ensures FieldsMatch(g, map["payload.k" := Int(1)])
  {
    assert Dot !in "k";
    PayloadPath(g, "k");
    assert "payload." + "k" == "payload.k";
    FieldsMatchOne(g, "payload.k", Int(1));
  }

  /**
    A singleton key holding a dot is never enforced: commit reads the flat key `payload[key]`,
    but the query walks `payload.<key>` as a nested path, so a stored fact with an equal flat
    value is not found and a second fact is created beside it.
   */
  lemma SingletonDottedKeyDuplicates(cfg: Config)
    requires cfg.constraints == map["t" := Constraint(Some("a.b"), false)]
    requires "t" !in cfg.schemas && cfg.hooks == []
    ensures var first := FactRecord("b", "t", map["a.b" := Int(1)], None, None);
            var e := Engine(Backend(["b"], map["b" := first], []), 0);
            var s := CommitStep(e, cfg, FactRecord("c", "t", map["a.b" := Int(1)], None, None), None, false, None, None);
            && SingletonsUnique(e.backend, "t", "a.b")
            && s.result == Ok("c")
            && s.engine.backend.order == ["b", "c"]
            && !SingletonsUnique(s.engine.backend, "t", "a.b")
  {
    var first := FactRecord("b", "t", map["a.b" := Int(1)], None, None);
    var b := Backend(["b"], map["b" := first], []);
    var e := Engine(b, 0);
    var fact := FactRecord("c", "t", map["a.b" := Int(1)], None, None);
    DottedKeyMisses(b, first, fact);
    var res := Resolution(Commit, "c", None);
    assert WithSession(fact.(payload := fact.payload), None) == fact;
    assert Resolve(b, cfg.constraints, fact, false) == Ok(res);
    CommitWrites(e, cfg, fact, None, false, None, None, fact.payload, res);
    var s := CommitStep(e, cfg, fact, None, false, None, None);
    assert s.engine.backend.facts == b.facts["c" := fact];
    assert !SingletonsUnique(s.engine.backend, "t", "a.b") by {
      var nf := s.engine.backend.facts;
      assert nf["c"] == fact && nf["b"] == first;
      assert PyEq(Get(nf["c"].payload, "a.b"), Get(nf["b"].payload, "a.b"));
    }
  }

  /** The query behind SingletonDottedKeyDuplicates: the nested walk misses the flat key. */
  lemma DottedKeyMisses(b: Backend, first: FactRecord, fact: FactRecord)
    requires b.order == ["b"] && b.facts == map["b" := first]
    requires first.payload == map["a.b" := Int(1)] && fact.payload == map["a.b" := Int(1)]
    ensures SingletonMatches(b, fact, "a.b") == []
  {
    var path := "payload." + "a.b";
    DottedPathSplits();
    DottedPathMisses(first);
    var filters := map[path := Get(fact.payload, "a.b")];
    FieldsMatchOne(first, path, Get(fact.payload, "a.b"));
    assert !FieldsMatch(first, filters);
    assert SingletonMatches(b, fact, "a.b") == Matching(b.order, b.facts, Some(fact.factType), filters);
    MatchingStep(b.order, 0, b.facts, Some(fact.factType), filters);
    assert b.order[..0] == [] && b.order[..1] == b.order;
  }

  lemma DottedPathSplits()
    ensures Split("payload." + "a.b") == ["payload", "a", "b"]
  {
    assert "payload." + "a.b" == "payload" + [Dot] + ("a" + [Dot] + "b");
    assert Dot !in "payload";
    SplitDotFreePrefix("payload", "a" + [Dot] + "b");
    SplitPair("a", "b");
  }

  lemma DottedPathMisses(first: FactRecord)
    requires first.payload == map["a.b" := Int(1)]
    ensures PathGet(AsValue(first), ["payload", "a", "b"]) == Null
  {
    var v := AsValue(first);
    assert ["payload", "a", "b"] == ["payload", "a"] + ["b"];
    PathGetAppend(v, ["payload", "a"], ["b"]);
    PathGetPair(v, "payload", "a");
    assert Get(first.payload, "a") == Null;
    PathGetNull(["b"]);
  }

  // ---------------------------------------------------------------------------------------
  // Every operation keeps the engine coherent, so logged sequence numbers strictly increase

  lemma CommitResolvedCoherent(e: Engine, cfg: Config, g: FactRecord, res: Resolution, actor: Option<string>,
                               reason: Option<string>)
    requires Coherent(e, cfg.mint)
    ensures Coherent(CommitResolved(e, cfg, g, res, actor, reason).engine, cfg.mint)
  {
    var b := e.backend;
    StoredConsistent(b, g);
    var logged := LogTx(Engine(Stored(b, g), e.seqNo), cfg.mint, g.sessionId, res.op, Some(g.id),
                        res.previous, Some(g), actor, reason);
    LogTxCoherent(Engine(Stored(b, g), e.seqNo), cfg.mint, g.sessionId, res.op, Some(g.id),
                  res.previous, Some(g), actor, reason);
    if FirstFailure(cfg.hooks, res.op, Some(g.id), Some(g)).Some? {
      if res.op == Update && res.previous.Some? {
        StoredConsistent(logged.backend, res.previous.value);
      } else {
        RemovedConsistent(logged.backend, res.id);
      }
    }
  }

  lemma CommitPreservesCoherent(e: Engine, cfg: Config, fact: FactRecord, session: Option<string>, ephemeral: bool,
                                actor: Option<string>, reason: Option<string>)
    requires Coherent(e, cfg.mint)
    ensures Coherent(CommitStep(e, cfg, fact, session, ephemeral, actor, reason).engine, cfg.mint)
  {
    var validated := ValidatePayload(cfg.schemas, cfg.validator, fact.factType, fact.payload);
    if validated.Ok? {
      var f := WithSession(fact.(payload := validated.value), session);
      var resolved := Resolve(e.backend, cfg.constraints, f, ephemeral);
      if resolved.Ok? {
        CommitResolvedCoherent(e, cfg, f.(id := resolved.value.id), resolved.value, actor, reason);
      }
    }
  }

  lemma CommitModelPreservesCoherent(e: Engine, cfg: Config, model: ModelInstance, factId: Option<string>,
                                     freshId: string, source: Option<string>, session: Option<string>, ephemeral: bool,
                                     actor: Option<string>, reason: Option<string>)
    requires RegistryView(cfg)
    requires Coherent(e, cfg.mint)
    ensures Coherent(CommitModelStep(e, cfg, model, factId, freshId, source, session, ephemeral, actor, reason).engine,
                     cfg.mint)
  {
    var t := FirstNameOf(cfg.typeNames, cfg.schemas, model.cls);
    if t.Some? && t.value != "" {
      var id := if factId.Some? && factId.value != "" then factId.value else freshId;
      CommitPreservesCoherent(e, cfg, FactRecord(id, t.value, model.dump, source, None), session, ephemeral, actor, reason);
    }
  }

  lemma UpdatePreservesCoherent(e: Engine, cfg: Config, id: string, patch: Object,
                                actor: Option<string>, reason: Option<string>)
    requires Coherent(e, cfg.mint)
    ensures Coherent(UpdateStep(e, cfg, id, patch, actor, reason).engine, cfg.mint)
  {
    var b := e.backend;
    if id in b.facts {
      var existing := b.facts[id];
      var merged := Merged(existing, patch);
      if merged.Ok? {
        var after := merged.value;
        StoredConsistent(b, after);
        LogTxCoherent(Engine(Stored(b, after), e.seqNo), cfg.mint, existing.sessionId, Update, Some(id),
                      Some(existing), Some(after), actor, reason);
      }
    }
  }

  lemma ValidatedUpdatePreservesCoherent(e: Engine, cfg: Config, id: string, patch: Object,
                                         actor: Option<string>, reason: Option<string>)
    requires Coherent(e, cfg.mint)
    ensures Coherent(ValidatedUpdateStep(e, cfg, id, patch, actor, reason).engine, cfg.mint)
  {
    var b := e.backend;
    if id in b.facts {
      var existing := b.facts[id];
      var merged := Merged(existing, patch);
      if merged.Ok? {
        var validated := ValidatePayload(cfg.schemas, cfg.validator, existing.factType, merged.value.payload);
        if validated.Ok? {
          var after := merged.value.(payload := validated.value);
          StoredConsistent(b, after);
          var logged := LogTx(Engine(Stored(b, after), e.seqNo), cfg.mint, existing.sessionId, Update, Some(id),
                              Some(existing), Some(after), actor, reason);
          LogTxCoherent(Engine(Stored(b, after), e.seqNo), cfg.mint, existing.sessionId, Update, Some(id),
                        Some(existing), Some(after), actor, reason);
          StoredConsistent(logged.backend, existing);
        }
      }
    }
  }

  lemma DeletePreservesCoherent(e: Engine, cfg: Config, id: string, actor: Option<string>, reason: Option<string>)
    requires Coherent(e, cfg.mint)
    ensures Coherent(DeleteStep(e, cfg, id, actor, reason).engine, cfg.mint)
  {
    var b := e.backend;
    if id in b.facts {
      RemovedConsistent(b, id);
      LogTxCoherent(Engine(Removed(b, id), e.seqNo), cfg.mint, b.facts[id].sessionId, Delete, Some(id),
                    Some(b.facts[id]), None, actor, reason);
    }
  }

  lemma DiscardPreservesCoherent(e: Engine, cfg: Config, session: string)
    requires Coherent(e, cfg.mint)
    ensures Coherent(DiscardStep(e, cfg, session).engine, cfg.mint)
  {
    var b := e.backend;
    DeleteSessionExact(b, session);
    var ids := SessionIds(b.order, b.facts, session);
    var cleared := Engine(WithoutSession(b, session), e.seqNo);
    if ids != [] {
      LogTxCoherent(cleared, cfg.mint, Some(session), DiscardSession, None, None, None, None,
                    Some(DiscardReason(session, |ids|)));
    }
  }

  lemma {:induction false} PromoteLoopCoherent(e: Engine, cfg: Config, session: string, selector: Option<Selector>,
                                               candidates: seq<FactRecord>, promoted: seq<string>,
                                               actor: Option<string>, reason: Option<string>)
    requires Coherent(e, cfg.mint)
    ensures Coherent(PromoteLoop(e, cfg, session, selector, candidates, promoted, actor, reason).engine, cfg.mint)
    decreases |candidates|
  {
    if candidates != [] {
      var f := candidates[0];
      if selector.Some? && !selector.value(f) {
        PromoteLoopCoherent(e, cfg, session, selector, candidates[1..], promoted, actor, reason);
      } else {
        var after := f.(sessionId := None);
        StoredConsistent(e.backend, after);
        var logged := LogTx(Engine(Stored(e.backend, after), e.seqNo), cfg.mint, Some(session), Promote, Some(f.id),
                            Some(f), Some(after), actor, reason);
        LogTxCoherent(Engine(Stored(e.backend, after), e.seqNo), cfg.mint, Some(session), Promote, Some(f.id),
                      Some(f), Some(after), actor, reason);
        PromoteLoopCoherent(logged, cfg, session, selector, candidates[1..], promoted + [f.id], actor, reason);
      }
    }
  }

  lemma PromotePreservesCoherent(e: Engine, cfg: Config, session: string, selector: Option<Selector>,
                                 actor: Option<string>, reason: Option<string>)
    requires Coherent(e, cfg.mint)
    ensures Coherent(PromoteStep(e, cfg, session, selector, actor, reason).engine, cfg.mint)
  {
    PromoteLoopCoherent(e, cfg, session, selector, QueryResult(e.backend, None, SessionFilter(session)), [],
                        actor, reason);
  }

  /** Undoing entries writes facts only: the backend stays consistent and the log is untouched. */
  lemma {:induction false} UndoAllKeepsLog(b: Backend, hooks: seq<Hook>, entries: seq<TxEntry>)
    requires Consistent(b)
    ensures Consistent(UndoAll(b, hooks, entries).backend)
    ensures UndoAll(b, hooks, entries).backend.txLog == b.txLog
    decreases |entries|
  {
    if entries != [] {
      UndoEntryKeepsLog(b, hooks, entries[0]);
      var u := UndoEntry(b, hooks, entries[0]);
      if u.failure.None? {
        UndoAllKeepsLog(u.backend, hooks, entries[1..]);
      }
    }
  }

  /** Undoing one entry keeps the backend consistent and leaves its log alone. */
  lemma UndoEntryKeepsLog(b: Backend, hooks: seq<Hook>, entry: TxEntry)
    requires Consistent(b)
    ensures Consistent(UndoEntry(b, hooks, entry).backend)
    ensures UndoEntry(b, hooks, entry).backend.txLog == b.txLog
  {
    if entry.factBefore.Some? {
      StoredConsistent(b, entry.factBefore.value);
    }
    if entry.factId.Some? {
      RemovedConsistent(b, entry.factId.value);
    }
  }

  lemma RollbackPreservesCoherent(e: Engine, cfg: Config, steps: int, session: Option<string>)
    requires Coherent(e, cfg.mint)
    ensures Coherent(RollbackStep(e, cfg, steps, session).engine, cfg.mint)
  {
    if steps > 0 {
      var logs := LogPage(e.backend, session, steps, 0);
      UndoAllKeepsLog(e.backend, cfg.hooks, logs);
      WithoutTxsOrdered(e.backend.txLog, Elems(Uuids(logs)), e.seqNo, cfg.mint);
    }
  }

  // ---------------------------------------------------------------------------------------
  // update and delete

  /** `update` of an id that is not stored raises "Fact not found" and changes nothing. */
  lemma UpdateMissing(e: Engine, cfg: Config, id: string, patch: Object, actor: Option<string>, reason: Option<string>)
    requires id !in e.backend.facts
    ensures UpdateStep(e, cfg, id, patch, actor, reason) == Step(e, Err(NotFound))
    ensures ValidatedUpdateStep(e, cfg, id, patch, actor, reason) == Step(e, Err(NotFound))
  {
  }

  /** `delete` of an id that is not stored raises "Fact not found" and changes nothing. */
  lemma DeleteMissing(e: Engine, cfg: Config, id: string, actor: Option<string>, reason: Option<string>)
    requires id !in e.backend.facts
    ensures DeleteStep(e, cfg, id, actor, reason) == Step(e, Err(NotFound))
  {
  }

  /**
    `update` is a shallow merge: every key of the patch's payload takes the patched value, every
    other key keeps its value, nothing else about the fact or any other fact changes, and the
    log records the before and after states.
   */
  lemma UpdateShallowMerge(e: Engine, cfg: Config, id: string, patch: Object, delta: Object,
                           actor: Option<string>, reason: Option<string>)
    requires Consistent(e.backend)
    requires id in e.backend.facts
    requires "payload" in patch && patch["payload"] == Dict(delta)
    ensures var s := UpdateStep(e, cfg, id, patch, actor, reason);
            var old_ := e.backend.facts[id];
            var nf := s.engine.backend.facts;
            && nf.Keys == e.backend.facts.Keys
            && s.engine.backend.order == e.backend.order
            && (forall k :: k in delta ==> Get(nf[id].payload, k) == delta[k])
            && (forall k :: k !in delta ==> Get(nf[id].payload, k) == Get(old_.payload, k))
            && nf[id] == old_.(payload := nf[id].payload)
            && (forall x :: x in nf && x != id ==> nf[x] == e.backend.facts[x])
            && s.engine.backend.txLog == e.backend.txLog + [LastEntry(s.engine)]
            && LastEntry(s.engine).factBefore == Some(old_)
            && LastEntry(s.engine).factAfter == Some(nf[id])
  {
    var b := e.backend;
    var existing := b.facts[id];
    var after := existing.(payload := existing.payload + delta);
    var entry := TxEntry(cfg.mint(e.seqNo + 1), existing.sessionId, e.seqNo + 1, Update, Some(id), Some(existing),
                         Some(after), actor, reason);
    assert UpdateStep(e, cfg, id, patch, actor, reason).engine.backend == Logged(Stored(b, after), entry);
  }

  /**
    `update` with a "payload" entry that is neither a dict nor an empty string or list raises
    and changes nothing.
   */
  lemma UpdateInvalidPatch(e: Engine, cfg: Config, id: string, patch: Object, actor: Option<string>, reason: Option<string>)
    requires id in e.backend.facts
    requires "payload" in patch && !patch["payload"].Dict? && !EmptyIterable(patch["payload"])
    ensures UpdateStep(e, cfg, id, patch, actor, reason) == Step(e, Err(InvalidPatch))
  {
  }

  /**
    `update` with no "payload" entry, or with an empty string or list as payload, merges nothing
    and still goes through: the fact stays as it was, and an UPDATE entry is logged with the
    same fact before and after.
   */
  lemma UpdateEmptyPatch(e: Engine, cfg: Config, id: string, patch: Object, actor: Option<string>, reason: Option<string>)
    requires Consistent(e.backend) && id in e.backend.facts
    requires "payload" !in patch || EmptyIterable(patch["payload"])
    ensures var s := UpdateStep(e, cfg, id, patch, actor, reason);
            && s.engine.backend.facts == e.backend.facts
            && s.engine.backend.order == e.backend.order
            && s.engine.seqNo == e.seqNo + 1
            && |s.engine.backend.txLog| == |e.backend.txLog| + 1
            && LastEntry(s.engine).op == Update
            && LastEntry(s.engine).factBefore == Some(e.backend.facts[id])
            && LastEntry(s.engine).factAfter == Some(e.backend.facts[id])
            && (s.result.Ok? <==> FirstFailure(cfg.hooks, Update, Some(id), Some(e.backend.facts[id])).None?)
  {
    var b := e.backend;
    assert b.facts[id := b.facts[id]] == b.facts;
  }

  /**
    As written, a hook that raises during `update` leaves the merged fact stored: when the patch
    changed the payload, the store does not return to the fact as it was.
   */
  lemma UpdateHookFailureKeepsPatch(e: Engine, cfg: Config, id: string, patch: Object, delta: Object,
                                    actor: Option<string>, reason: Option<string>, k: string)
    requires Consistent(e.backend)
    requires id in e.backend.facts
    requires "payload" in patch && patch["payload"] == Dict(delta)
    requires k in delta && Get(e.backend.facts[id].payload, k) != delta[k]
    requires FirstFailure(cfg.hooks, Update, Some(id),
                          Some(e.backend.facts[id].(payload := e.backend.facts[id].payload + delta))).Some?
    ensures var s := UpdateStep(e, cfg, id, patch, actor, reason);
            && s.result.Err? && s.result.error.HookError?
            && id in s.engine.backend.facts
            && s.engine.backend.facts[id] != e.backend.facts[id]
  {
    var s := UpdateStep(e, cfg, id, patch, actor, reason);
    UpdateShallowMerge(e, cfg, id, patch, delta, actor, reason);
    assert Get(s.engine.backend.facts[id].payload, k) == delta[k];
  }

  /**
    As written, `update` stores a merged payload that the type's registered model rejects: the
    model is never consulted.
   */
  lemma UpdateSkipsValidation(e: Engine, cfg: Config, id: string, patch: Object, delta: Object,
                              actor: Option<string>, reason: Option<string>)
    requires Consistent(e.backend)
    requires id in e.backend.facts
    requires "payload" in patch && patch["payload"] == Dict(delta)
    requires var existing := e.backend.facts[id];
             && existing.factType in cfg.schemas
             && cfg.validator(cfg.schemas[existing.factType], existing.payload + delta).None?
    requires AllHooksPass(cfg.hooks)
    ensures var s := UpdateStep(e, cfg, id, patch, actor, reason);
            && s.result == Ok(id)
            && s.engine.backend.facts[id].payload == e.backend.facts[id].payload + delta
            && ValidatePayload(cfg.schemas, cfg.validator, e.backend.facts[id].factType,
                               s.engine.backend.facts[id].payload).Err?
  {
    var after := e.backend.facts[id].(payload := e.backend.facts[id].payload + delta);
    FirstFailureSpec(cfg.hooks, Update, Some(id), Some(after));
    assert FirstFailure(cfg.hooks, Update, Some(id), Some(after)).None?;
  }

  /** The refined update refuses a merged payload the model rejects, before any write. */
  lemma ValidatedUpdateRejectsInvalid(e: Engine, cfg: Config, id: string, patch: Object, delta: Object,
                                      actor: Option<string>, reason: Option<string>)
    requires id in e.backend.facts
    requires "payload" in patch && patch["payload"] == Dict(delta)
    requires var existing := e.backend.facts[id];
             && existing.factType in cfg.schemas
             && cfg.validator(cfg.schemas[existing.factType], existing.payload + delta).None?
    ensures ValidatedUpdateStep(e, cfg, id, patch, actor, reason) == Step(e, Err(ValidationFailed))
  {
  }

  /**
    The refined update compensates: a hook that raises leaves the facts and their order exactly
    as they were, with the attempt logged.
   */
  lemma ValidatedUpdateHookFailureRestores(e: Engine, cfg: Config, id: string, patch: Object,
                                           actor: Option<string>, reason: Option<string>)
    requires Consistent(e.backend)
    requires ValidatedUpdateStep(e, cfg, id, patch, actor, reason).result.Err?
    requires ValidatedUpdateStep(e, cfg, id, patch, actor, reason).result.error.HookError?
    ensures var s := ValidatedUpdateStep(e, cfg, id, patch, actor, reason);
            && s.engine.backend.facts == e.backend.facts
            && s.engine.backend.order == e.backend.order
            && s.engine.seqNo == e.seqNo + 1
            && |s.engine.backend.txLog| == |e.backend.txLog| + 1
            && s.engine.backend.txLog[..|e.backend.txLog|] == e.backend.txLog
  {
    var b := e.backend;
    var existing := b.facts[id];
    var merged := Merged(existing, patch).value;
    var after := merged.(payload := ValidatePayload(cfg.schemas, cfg.validator, existing.factType, merged.payload).value);
    SaveThenRestore(b, after);
  }

  /**
    `delete` removes exactly that fact, whether or not a hook raises afterwards, and logs it as
    the before-state of a DELETE entry.
   */
  lemma DeleteRemovesOnlyThat(e: Engine, cfg: Config, id: string, actor: Option<string>, reason: Option<string>)
    requires id in e.backend.facts
    ensures var s := DeleteStep(e, cfg, id, actor, reason);
            && s.engine.backend.facts == e.backend.facts - {id}
            && s.engine.backend.txLog == e.backend.txLog + [LastEntry(s.engine)]
            && LastEntry(s.engine).op == Delete
            && LastEntry(s.engine).factBefore == Some(e.backend.facts[id])
            && (s.result.Ok? <==> FirstFailure(cfg.hooks, Delete, Some(id), Some(e.backend.facts[id])).None?)
  {
  }

  // ---------------------------------------------------------------------------------------
  // rollback

  /** `rollback` with `steps <= 0` returns at once. */
  lemma RollbackNonPositive(e: Engine, cfg: Config, steps: int, session: Option<string>)
    requires steps <= 0
    ensures RollbackStep(e, cfg, steps, session) == Step(e, Ok(()))
  {
  }

  /** A one-entry page of a session whose newest entry was appended last is that entry. */
  lemma NewestPage(b: Backend, entry: TxEntry)
    ensures LogPage(Logged(b, entry), entry.sessionId, 1, 0) == [entry]
  {
    NewestFirstAppend(b.txLog, entry, entry.sessionId);
  }

  /** Removing the newest entry by its uuid gives back the log before it. */
  lemma DropNewest(log: seq<TxEntry>, entry: TxEntry, counter: nat, mint: UuidOracle)
    requires LogOrdered(log, counter) && Stamped(log, mint) && Injective(mint)
    requires entry.uuid == mint(entry.seqNo) && entry.seqNo > counter
    ensures WithoutTxs(log + [entry], Elems([entry.uuid])) == log
  {
    var drop := Elems([entry.uuid]);
    assert drop == {entry.uuid};
    forall x | x in log ensures x.uuid !in drop {
      var i :| 0 <= i < |log| && log[i] == x;
      assert mint(x.seqNo) != mint(entry.seqNo);
    }
    WithoutTxsConcat(log, [entry], drop);
    WithoutTxsNoneDropped(log, drop);
    assert WithoutTxs([entry], drop) == [];
  }

  /**
    Rolling a session back one step right after an entry of that session was appended undoes
    exactly that entry, and on success removes it by its uuid.
   */
  lemma RollbackNewest(b: Backend, entry: TxEntry, cfg: Config, counter: nat)
    ensures var u := UndoEntry(Logged(b, entry), cfg.hooks, entry);
            RollbackStep(Engine(Logged(b, entry), counter), cfg, 1, entry.sessionId)
            == if u.failure.Some? then Step(Engine(u.backend, counter), Err(HookError(u.failure.value)))
               else Step(Engine(TxsDeleted(u.backend, [entry.uuid]), counter), Ok(()))
  {
    NewestPage(b, entry);
    assert Uuids([entry]) == [entry.uuid];
    var u := UndoEntry(Logged(b, entry), cfg.hooks, entry);
    assert UndoAll(Logged(b, entry), cfg.hooks, [entry]) == u by {
      if u.failure.None? {
        assert [entry][1..] == [];
      }
    }
  }

  /**
    When undoing the newest entry of a session puts the backend back to `undone` with the log
    untouched and no hook raising, a one-step rollback of that session ends at `undone`.
   */
  lemma RollbackNewestTo(b: Backend, entry: TxEntry, cfg: Config, counter: nat, undone: Backend)
    requires LogOrdered(b.txLog, counter) && Stamped(b.txLog, cfg.mint) && Injective(cfg.mint)
    requires entry.uuid == cfg.mint(entry.seqNo) && entry.seqNo > counter
    requires UndoEntry(Logged(b, entry), cfg.hooks, entry) == Undo(Logged(undone, entry), None)
    requires undone.txLog == b.txLog
    ensures RollbackStep(Engine(Logged(b, entry), entry.seqNo), cfg, 1, entry.sessionId)
            == Step(Engine(undone, entry.seqNo), Ok(()))
  {
    RollbackNewest(b, entry, cfg, entry.seqNo);
    DropNewest(b.txLog, entry, counter, cfg.mint);
  }

  /**
    Committing a new fact and then rolling its session back one step gives back the backend
    exactly: the fact is gone and so is its log entry. Only the counter stays advanced.
   */
  lemma RollbackUndoesNewCommit(e: Engine, cfg: Config, fact: FactRecord, session: Option<string>, ephemeral: bool,
                                actor: Option<string>, reason: Option<string>)
    requires Coherent(e, cfg.mint) && Injective(cfg.mint)
    requires CommitStep(e, cfg, fact, session, ephemeral, actor, reason).result.Ok?
    requires LastEntry(CommitStep(e, cfg, fact, session, ephemeral, actor, reason).engine).op != Update
    requires fact.id != ""
    requires FirstFailure(cfg.hooks, Delete, Some(fact.id), None).None?
    ensures var s := CommitStep(e, cfg, fact, session, ephemeral, actor, reason);
            RollbackStep(s.engine, cfg, 1, LastEntry(s.engine).sessionId) == Step(Engine(e.backend, e.seqNo + 1), Ok(()))
  {
    var b := e.backend;
    var payload := ValidatePayload(cfg.schemas, cfg.validator, fact.factType, fact.payload).value;
    var f := WithSession(fact.(payload := payload), session);
    ResolveSound(b, cfg.constraints, f, ephemeral);
    var res := Resolve(b, cfg.constraints, f, ephemeral).value;
    var g := f.(id := res.id);
    CommitWrites(e, cfg, fact, session, ephemeral, actor, reason, payload, res);
    var entry := CommitEntry(e, cfg, g, res, actor, reason);
    assert CommitStep(e, cfg, fact, session, ephemeral, actor, reason).engine
        == Engine(Logged(Stored(b, g), entry), e.seqNo + 1);
    SaveNewThenDelete(b, g);
    assert UndoEntry(Logged(Stored(b, g), entry), cfg.hooks, entry) == Undo(Logged(b, entry), None);
    RollbackNewestTo(Stored(b, g), entry, cfg, e.seqNo, b);
  }

  /**
    Updating a fact and then rolling its session back one step gives back the backend exactly,
    the fact's old payload and the log included.
   */
  lemma RollbackUndoesUpdate(e: Engine, cfg: Config, id: string, patch: Object,
                             actor: Option<string>, reason: Option<string>)
    requires Coherent(e, cfg.mint) && Injective(cfg.mint)
    requires id in e.backend.facts
    requires UpdateStep(e, cfg, id, patch, actor, reason).result.Ok?
    requires FirstFailure(cfg.hooks, Update, Some(id), Some(e.backend.facts[id])).None?
    ensures var s := UpdateStep(e, cfg, id, patch, actor, reason);
            RollbackStep(s.engine, cfg, 1, e.backend.facts[id].sessionId) == Step(Engine(e.backend, e.seqNo + 1), Ok(()))
  {
    var b := e.backend;
    var existing := b.facts[id];
    var after := Merged(existing, patch).value;
    var s := UpdateStep(e, cfg, id, patch, actor, reason);
    var entry := LastEntry(s.engine);
    assert entry == TxEntry(cfg.mint(e.seqNo + 1), existing.sessionId, e.seqNo + 1, Update, Some(id), Some(existing),
                            Some(after), actor, reason);
    assert s.engine == Engine(Logged(Stored(b, after), entry), e.seqNo + 1);
    SaveThenRestore(b, after);
    assert UndoEntry(Logged(Stored(b, after), entry), cfg.hooks, entry) == Undo(Logged(b, entry), None);
    RollbackNewestTo(Stored(b, after), entry, cfg, e.seqNo, b);
  }

  /**
    Deleting a fact and then rolling its session back one step brings the fact back and removes
    the DELETE entry; the id goes to the end of the key order, as a re-inserted dict key does.
   */
  lemma RollbackUndoesDelete(e: Engine, cfg: Config, id: string, actor: Option<string>, reason: Option<string>)
    requires Coherent(e, cfg.mint) && Injective(cfg.mint)
    requires id in e.backend.facts
    requires DeleteStep(e, cfg, id, actor, reason).result.Ok?
    requires FirstFailure(cfg.hooks, Commit, Some(id), Some(e.backend.facts[id])).None?
    ensures var s := DeleteStep(e, cfg, id, actor, reason);
            var r := RollbackStep(s.engine, cfg, 1, e.backend.facts[id].sessionId);
            && r.result == Ok(())
            && r.engine.backend.facts == e.backend.facts
            && r.engine.backend.order == WithoutIds(e.backend.order, {id}) + [id]
            && r.engine.backend.txLog == e.backend.txLog
  {
    var b := e.backend;
    var existing := b.facts[id];
    var entry := TxEntry(cfg.mint(e.seqNo + 1), existing.sessionId, e.seqNo + 1, Delete, Some(id), Some(existing),
                         None, actor, reason);
    assert DeleteStep(e, cfg, id, actor, reason).engine == Engine(Logged(Removed(b, id), entry), e.seqNo + 1);
    var back := Stored(Removed(b, id), existing);
    assert UndoEntry(Logged(Removed(b, id), entry), cfg.hooks, entry) == Undo(Logged(back, entry), None);
    RollbackNewestTo(Removed(b, id), entry, cfg, e.seqNo, back);
    RestoreAfterDelete(b, id);
  }

  /** Saving a deleted fact again brings back the same facts, its id now last in the key order. */
  lemma RestoreAfterDelete(b: Backend, id: string)
    requires Consistent(b) && id in b.facts
    ensures var back := Stored(Removed(b, id), b.facts[id]);
            && back.facts == b.facts
            && back.order == WithoutIds(b.order, {id}) + [id]
            && back.txLog == b.txLog
  {
    assert (b.facts - {id})[id := b.facts[id]] == b.facts;
  }

  /**
    The scenario of the rollback test: commit a fact into a session, update it, roll the
    session back one step; the fact reads as committed and the log is as after the commit.
   */
  lemma CommitUpdateRollback(e: Engine, cfg: Config, fact: FactRecord, session: string, patch: Object)
    requires Coherent(e, cfg.mint) && Injective(cfg.mint)
    requires session != ""
    requires AllHooksPass(cfg.hooks)
    requires CommitStep(e, cfg, fact, Some(session), false, None, None).result.Ok?
    ensures var s1 := CommitStep(e, cfg, fact, Some(session), false, None, None);
            var id := s1.result.value;
            && id in s1.engine.backend.facts
            && var s2 := UpdateStep(s1.engine, cfg, id, patch, None, None);
            && (s2.result.Ok? ==>
                  RollbackStep(s2.engine, cfg, 1, Some(session))
                  == Step(Engine(s1.engine.backend, s1.engine.seqNo + 1), Ok(())))
  {
    var s1 := CommitStep(e, cfg, fact, Some(session), false, None, None);
    var id := s1.result.value;
    var b := e.backend;
    var payload := ValidatePayload(cfg.schemas, cfg.validator, fact.factType, fact.payload).value;
    var f := WithSession(fact.(payload := payload), Some(session));
    var res := Resolve(b, cfg.constraints, f, false).value;
    var g := f.(id := res.id);
    assert s1.engine.backend.facts == b.facts[id := g];
    assert g.sessionId == Some(session);
    CommitPreservesCoherent(e, cfg, fact, Some(session), false, None, None);
    var s2 := UpdateStep(s1.engine, cfg, id, patch, None, None);
    if s2.result.Ok? {
      FirstFailureSpec(cfg.hooks, Update, Some(id), Some(s1.engine.backend.facts[id]));
      assert FirstFailure(cfg.hooks, Update, Some(id), Some(s1.engine.backend.facts[id])).None?;
      RollbackUndoesUpdate(s1.engine, cfg, id, patch, None, None);
    }
  }

  /** Rollback is scoped to its session: every log entry of another session survives it. */
  lemma RollbackKeepsOtherSessions(e: Engine, cfg: Config, steps: int, session: Option<string>, x: TxEntry)
    requires Coherent(e, cfg.mint) && Injective(cfg.mint)
    requires x in e.backend.txLog && x.sessionId != session
    ensures x in RollbackStep(e, cfg, steps, session).engine.backend.txLog
  {
    if steps > 0 {
      var logs := LogPage(e.backend, session, steps, 0);
      UndoAllKeepsLog(e.backend, cfg.hooks, logs);
      var u := UndoAll(e.backend, cfg.hooks, logs);
      if u.failure.None? && logs != [] {
        var drop := Elems(Uuids(logs));
        if x.uuid in drop {
          var k :| 0 <= k < |logs| && Uuids(logs)[k] == x.uuid;
          var y := logs[k];
          LogPageWindow(e.backend, session, steps, 0);
          assert y in e.backend.txLog && y.sessionId == session;
          SameUuidSameEntry(e.backend.txLog, e.seqNo, cfg.mint, x, y);
          assert false;
        }
      }
    }
  }

  /**
    A rollback of any number of steps in which no hook raises undoes the session's newest
    `steps` entries and removes exactly those entries from the log: every other entry stays.
   */
  lemma RollbackRemovesExactlyUndone(e: Engine, cfg: Config, steps: int, session: Option<string>, x: TxEntry)
    requires Coherent(e, cfg.mint) && Injective(cfg.mint)
    requires steps > 0
    requires UndoAll(e.backend, cfg.hooks, LogPage(e.backend, session, steps, 0)).failure.None?
    ensures var page := LogPage(e.backend, session, steps, 0);
            var undone := UndoAll(e.backend, cfg.hooks, page).backend;
            var r := RollbackStep(e, cfg, steps, session);
            && r.result == Ok(())
            && r.engine.seqNo == e.seqNo
            && r.engine.backend.facts == undone.facts
            && r.engine.backend.order == undone.order
            && (x in r.engine.backend.txLog <==> x in e.backend.txLog && x !in page)
  {
    var page := LogPage(e.backend, session, steps, 0);
    UndoAllKeepsLog(e.backend, cfg.hooks, page);
    LogPageWindow(e.backend, session, steps, 0);
    var u := UndoAll(e.backend, cfg.hooks, page).backend;
    if page == [] {
      assert RollbackStep(e, cfg, steps, session).engine.backend == u;
    } else {
      assert RollbackStep(e, cfg, steps, session).engine.backend.txLog == WithoutTxs(e.backend.txLog, Elems(Uuids(page)));
      if x in e.backend.txLog {
        UuidsOfPage(e.backend.txLog, e.seqNo, cfg.mint, page, x);
      }
    }
  }

  /** In an ordered, stamped log, an entry's uuid is among those of a part of the log exactly when the entry is. */
  lemma UuidsOfPage(log: seq<TxEntry>, counter: nat, mint: UuidOracle, page: seq<TxEntry>, x: TxEntry)
    requires LogOrdered(log, counter) && Stamped(log, mint) && Injective(mint)
    requires forall y :: y in page ==> y in log
    requires x in log
    ensures x.uuid in Elems(Uuids(page)) <==> x in page
  {
    if x in page {
      var k :| 0 <= k < |page| && page[k] == x;
      assert Uuids(page)[k] == x.uuid;
    }
    if x.uuid in Elems(Uuids(page)) {
      var k :| 0 <= k < |page| && Uuids(page)[k] == x.uuid;
      SameUuidSameEntry(log, counter, mint, x, page[k]);
    }
  }

  // ---------------------------------------------------------------------------------------
  // a successful commit and commit_model

  /**
    A commit that succeeds stores, under the id it returns, the validated payload with the
    fact's type and source and the session it was committed in; every other fact stays as it was.
   */
  lemma CommitSuccessStores(e: Engine, cfg: Config, fact: FactRecord, session: Option<string>, ephemeral: bool,
                            actor: Option<string>, reason: Option<string>)
    requires Consistent(e.backend)
    requires CommitStep(e, cfg, fact, session, ephemeral, actor, reason).result.Ok?
    ensures var s := CommitStep(e, cfg, fact, session, ephemeral, actor, reason);
            var id := s.result.value;
            && id in s.engine.backend.facts
            && s.engine.backend.facts[id].id == id
            && s.engine.backend.facts[id].factType == fact.factType
            && s.engine.backend.facts[id].source == fact.source
            && Ok(s.engine.backend.facts[id].payload) == ValidatePayload(cfg.schemas, cfg.validator, fact.factType,
                                                                         fact.payload)
            && s.engine.backend.facts[id].sessionId == (if session.Some? && session.value != "" then session
                                                        else fact.sessionId)
            && (forall other :: other != id ==> (other in s.engine.backend.facts <==> other in e.backend.facts))
            && (forall other :: other != id && other in e.backend.facts ==>
                  s.engine.backend.facts[other] == e.backend.facts[other])
            && s.engine.seqNo == e.seqNo + 1
  {
    var payload := ValidatePayload(cfg.schemas, cfg.validator, fact.factType, fact.payload).value;
    var f := WithSession(fact.(payload := payload), session);
    var res := Resolve(e.backend, cfg.constraints, f, ephemeral).value;
    assert CommitStep(e, cfg, fact, session, ephemeral, actor, reason).result == Ok(res.id);
  }

  /** `commit_model` of a class that no name is registered for raises and changes nothing. */
  lemma CommitModelUnregistered(e: Engine, cfg: Config, model: ModelInstance, factId: Option<string>, freshId: string,
                                source: Option<string>, session: Option<string>, ephemeral: bool,
                                actor: Option<string>, reason: Option<string>)
    requires RegistryView(cfg)
    requires forall n :: n in cfg.typeNames ==> cfg.schemas[n] != model.cls
    ensures CommitModelStep(e, cfg, model, factId, freshId, source, session, ephemeral, actor, reason)
            == Step(e, Err(NotRegistered))
  {
  }

  /**
    A successful `commit_model` stores the model's dump, validated, under the first name
    registered for its class; without a singleton match it writes under the given id, or the
    fresh one when none or an empty one was given.
   */
  lemma CommitModelStoresType(e: Engine, cfg: Config, model: ModelInstance, factId: Option<string>, freshId: string,
                              source: Option<string>, session: Option<string>, ephemeral: bool,
                              actor: Option<string>, reason: Option<string>)
    requires RegistryView(cfg) && Consistent(e.backend)
    requires CommitModelStep(e, cfg, model, factId, freshId, source, session, ephemeral, actor, reason).result.Ok?
    ensures var s := CommitModelStep(e, cfg, model, factId, freshId, source, session, ephemeral, actor, reason);
            var id := s.result.value;
            var t := FirstNameOf(cfg.typeNames, cfg.schemas, model.cls);
            && t.Some? && t.value != ""
            && id in s.engine.backend.facts
            && s.engine.backend.facts[id].factType == t.value
            && s.engine.backend.facts[id].source == source
            && Ok(s.engine.backend.facts[id].payload) == ValidatePayload(cfg.schemas, cfg.validator, t.value, model.dump)
            && (!SingletonHit(e.backend, cfg.constraints, t.value, s.engine.backend.facts[id].payload) ==>
                  id == if factId.Some? && factId.value != "" then factId.value else freshId)
  {
    var t := FirstNameOf(cfg.typeNames, cfg.schemas, model.cls).value;
    var given := if factId.Some? && factId.value != "" then factId.value else freshId;
    var fact := FactRecord(given, t, model.dump, source, None);
    CommitSuccessStores(e, cfg, fact, session, ephemeral, actor, reason);
    var payload := ValidatePayload(cfg.schemas, cfg.validator, t, model.dump).value;
    if !SingletonHit(e.backend, cfg.constraints, t, payload) {
      CommitClassifiesById(e, cfg, fact, session, ephemeral, actor, reason, payload);
    }
  }

  // ---------------------------------------------------------------------------------------
  // promote_session and discard_session

  /** The ids of a list of facts, in order. */
  function FactIds(fs: seq<FactRecord>): seq<string>
  {
    if fs == [] then [] else [fs[0].id] + FactIds(fs[1..])
  }

  lemma {:induction false} FactIdsIndex(fs: seq<FactRecord>)
    ensures |FactIds(fs)| == |fs|
    ensures forall i :: 0 <= i < |fs| ==> FactIds(fs)[i] == fs[i].id
  {
    if fs != [] {
      FactIdsIndex(fs[1..]);
    }
  }

  lemma {:induction false} FactIdsSnoc(fs: seq<FactRecord>, f: FactRecord)
    ensures FactIds(fs + [f]) == FactIds(fs) + [f.id]
  {
    if fs == [] {
      assert [] + [f] == [f];
    } else {
      assert (fs + [f])[1..] == fs[1..] + [f];
      FactIdsSnoc(fs[1..], f);
    }
  }

  /** Whether promote_session's selector lets a candidate through (no selector lets every one through). */
  predicate Accepts(selector: Option<Selector>, f: FactRecord)
  {
    selector.None? || selector.value(f)
  }

  /** The candidates the selector lets through, in order. */
  function Chosen(candidates: seq<FactRecord>, selector: Option<Selector>): seq<FactRecord>
  {
    if candidates == [] then []
    else (if Accepts(selector, candidates[0]) then [candidates[0]] else []) + Chosen(candidates[1..], selector)
  }

  lemma {:induction false} ChosenMembers(candidates: seq<FactRecord>, selector: Option<Selector>)
    ensures forall c :: c in Chosen(candidates, selector) <==> c in candidates && Accepts(selector, c)
    ensures selector.None? ==> Chosen(candidates, selector) == candidates
  {
    if candidates != [] {
      ChosenMembers(candidates[1..], selector);
      assert forall c :: c in candidates <==> c == candidates[0] || c in candidates[1..];
      if selector.None? {
        assert [candidates[0]] + candidates[1..] == candidates;
      }
    }
  }

  /** The filter `{"session_id": s}` matches a fact exactly when the fact belongs to session s. */
  lemma SessionFilterMatches(f: FactRecord, session: string)
    ensures FieldsMatch(f, SessionFilter(session)) <==> f.sessionId == Some(session)
  {
    FieldsMatchOne(f, "session_id", Str(session));
    SessionPath(f);
    PyEqStr(OptionalStr(f.sessionId), session);
  }

  /** promote_session's query finds the facts of the session, in dict order. */
  lemma {:induction false} SessionQueryIds(ids: seq<string>, facts: map<string, FactRecord>, session: string)
    requires forall id :: id in facts ==> facts[id].id == id
    ensures FactIds(Matching(ids, facts, None, SessionFilter(session))) == SessionIds(ids, facts, session)
  {
    if ids != [] {
      var init := ids[..|ids| - 1];
      var last := ids[|ids| - 1];
      SessionQueryIds(init, facts, session);
      var rest := Matching(init, facts, None, SessionFilter(session));
      if last in facts {
        SessionFilterMatches(facts[last], session);
        if facts[last].sessionId == Some(session) {
          FactIdsSnoc(rest, facts[last]);
        }
      }
    }
  }

  /** Every hook returns for the promotion of `f`. */
  ghost predicate PromoteHooksPass(hooks: seq<Hook>, f: FactRecord)
  {
    FirstFailure(hooks, Promote, Some(f.id), Some(f.(sessionId := None))).None?
  }

  /**
    The loop of promote_session when every hook returns: it promotes the candidates the selector
    accepts, in order, with one log entry each.
   */
  lemma {:induction false} PromoteLoopResult(e: Engine, cfg: Config, session: string, selector: Option<Selector>,
                                             candidates: seq<FactRecord>, promoted: seq<string>,
                                             actor: Option<string>, reason: Option<string>)
    requires forall i :: 0 <= i < |candidates| ==> PromoteHooksPass(cfg.hooks, candidates[i])
    ensures var r := PromoteLoop(e, cfg, session, selector, candidates, promoted, actor, reason);
            && r.result == Ok(promoted + FactIds(Chosen(candidates, selector)))
            && r.engine.seqNo == e.seqNo + |Chosen(candidates, selector)|
    decreases |candidates|
  {
    if candidates != [] {
      var f := candidates[0];
      var tail := candidates[1..];
      if Accepts(selector, f) {
        var after := f.(sessionId := None);
        var logged := LogTx(Engine(Stored(e.backend, after), e.seqNo), cfg.mint, Some(session), Promote, Some(f.id),
                            Some(f), Some(after), actor, reason);
        assert PromoteHooksPass(cfg.hooks, f);
        PromoteLoopResult(logged, cfg, session, selector, tail, promoted + [f.id], actor, reason);
        var rest := FactIds(Chosen(tail, selector));
        assert Chosen(candidates, selector) == [f] + Chosen(tail, selector);
        assert ([f] + Chosen(tail, selector))[1..] == Chosen(tail, selector);
        assert promoted + [f.id] + rest == promoted + ([f.id] + rest);
      } else {
        PromoteLoopResult(e, cfg, session, selector, tail, promoted, actor, reason);
        assert Chosen(candidates, selector) == [] + Chosen(tail, selector);
        assert [] + Chosen(tail, selector) == Chosen(tail, selector);
      }
    } else {
      assert promoted + [] == promoted;
    }
  }

  /**
    The loop of promote_session when every hook returns: each candidate the selector accepts is
    written back without its session; the key order and every other fact are kept.
   */
  lemma {:induction false} PromoteLoopFacts(e: Engine, cfg: Config, session: string, selector: Option<Selector>,
                                            candidates: seq<FactRecord>, promoted: seq<string>,
                                            actor: Option<string>, reason: Option<string>)
    requires forall i :: 0 <= i < |candidates| ==> PromoteHooksPass(cfg.hooks, candidates[i])
    requires forall i :: 0 <= i < |candidates| ==>
               candidates[i].id in e.backend.facts && e.backend.facts[candidates[i].id] == candidates[i]
    requires Distinct(FactIds(candidates))
    ensures var r := PromoteLoop(e, cfg, session, selector, candidates, promoted, actor, reason);
            && r.engine.backend.order == e.backend.order
            && r.engine.backend.facts.Keys == e.backend.facts.Keys
            && (forall id :: id in e.backend.facts ==>
                  r.engine.backend.facts[id] == if id in FactIds(candidates) && Accepts(selector, e.backend.facts[id])
                                                then e.backend.facts[id].(sessionId := None)
                                                else e.backend.facts[id])
    decreases |candidates|
  {
    if candidates != [] {
      var f := candidates[0];
      var tail := candidates[1..];
      var ids := FactIds(candidates);
      assert ids == [f.id] + FactIds(tail);
      assert FactIds(tail) == ids[1..];
      DistinctTail(ids);
      FactIdsIndex(candidates);
      if Accepts(selector, f) {
        var after := f.(sessionId := None);
        var logged := LogTx(Engine(Stored(e.backend, after), e.seqNo), cfg.mint, Some(session), Promote, Some(f.id),
                            Some(f), Some(after), actor, reason);
        assert PromoteHooksPass(cfg.hooks, f);
        forall i | 0 <= i < |tail|
          ensures tail[i].id in logged.backend.facts && logged.backend.facts[tail[i].id] == tail[i]
        {
          assert ids[i + 1] != ids[0];
        }
        PromoteLoopFacts(logged, cfg, session, selector, tail, promoted + [f.id], actor, reason);
        var r := PromoteLoop(logged, cfg, session, selector, tail, promoted + [f.id], actor, reason);
        assert PromoteLoop(e, cfg, session, selector, candidates, promoted, actor, reason) == r;
        forall id | id in e.backend.facts
          ensures r.engine.backend.facts[id] == if id in ids && Accepts(selector, e.backend.facts[id])
                                                then e.backend.facts[id].(sessionId := None)
                                                else e.backend.facts[id]
        {
          if id == f.id {
            assert id !in FactIds(tail);
          } else {
            assert logged.backend.facts[id] == e.backend.facts[id];
            assert id in ids <==> id in FactIds(tail);
          }
        }
      } else {
        PromoteLoopFacts(e, cfg, session, selector, tail, promoted, actor, reason);
      }
    }
  }

  /** The ids the selector lets through are those of the session's facts that it accepts. */
  lemma ChosenIds(b: Backend, candidates: seq<FactRecord>, session: string, selector: Option<Selector>)
    requires FactIds(candidates) == SessionIds(b.order, b.facts, session)
    requires forall i :: 0 <= i < |candidates| ==>
               candidates[i].id in b.facts && b.facts[candidates[i].id] == candidates[i]
    requires forall id :: id in b.facts <==> id in b.order
    ensures forall id :: id in FactIds(Chosen(candidates, selector)) <==>
              id in b.facts && b.facts[id].sessionId == Some(session) && Accepts(selector, b.facts[id])
  {
    var ids := FactIds(candidates);
    var picked := Chosen(candidates, selector);
    var chosen := FactIds(picked);
    FactIdsIndex(candidates);
    FactIdsIndex(picked);
    ChosenMembers(candidates, selector);
    forall id ensures id in chosen <==> id in b.facts && b.facts[id].sessionId == Some(session)
                                        && Accepts(selector, b.facts[id])
    {
      if id in chosen {
        var k :| 0 <= k < |chosen| && chosen[k] == id;
        assert picked[k] in picked;
        var j :| 0 <= j < |candidates| && candidates[j] == picked[k];
        assert ids[j] == id;
      }
      if id in b.facts && b.facts[id].sessionId == Some(session) && Accepts(selector, b.facts[id]) {
        var j :| 0 <= j < |ids| && ids[j] == id;
        assert candidates[j] in picked;
        var k :| 0 <= k < |picked| && picked[k] == candidates[j];
        assert chosen[k] == id;
      }
    }
  }

  /** Letting only some facts through keeps their ids distinct. */
  lemma {:induction false} ChosenDistinct(candidates: seq<FactRecord>, selector: Option<Selector>)
    requires Distinct(FactIds(candidates))
    ensures Distinct(FactIds(Chosen(candidates, selector)))
    decreases |candidates|
  {
    if candidates != [] {
      var tail := candidates[1..];
      var ids := FactIds(candidates);
      assert ids == [candidates[0].id] + FactIds(tail);
      assert FactIds(tail) == ids[1..];
      DistinctTail(ids);
      ChosenDistinct(tail, selector);
      var x := candidates[0].id;
      if Accepts(selector, candidates[0]) {
        var picked := Chosen(tail, selector);
        assert ([candidates[0]] + picked)[1..] == picked;
        assert FactIds(Chosen(candidates, selector)) == [x] + FactIds(picked);
        ChosenExcludes(tail, selector, x);
        DistinctCons(x, FactIds(picked));
      } else {
        assert Chosen(candidates, selector) == [] + Chosen(tail, selector);
        assert [] + Chosen(tail, selector) == Chosen(tail, selector);
      }
    }
  }

  /** An id absent from the candidates is absent from those the selector lets through. */
  lemma {:induction false} ChosenExcludes(candidates: seq<FactRecord>, selector: Option<Selector>, x: string)
    requires x !in FactIds(candidates)
    ensures x !in FactIds(Chosen(candidates, selector))
    decreases |candidates|
  {
    if candidates != [] {
      var tail := candidates[1..];
      assert FactIds(candidates) == [candidates[0].id] + FactIds(tail);
      ChosenExcludes(tail, selector, x);
      if Accepts(selector, candidates[0]) {
        assert ([candidates[0]] + Chosen(tail, selector))[1..] == Chosen(tail, selector);
      } else {
        assert [] + Chosen(tail, selector) == Chosen(tail, selector);
      }
    }
  }

  lemma DistinctCons<T>(x: T, s: seq<T>)
    requires x !in s && Distinct(s)
    ensures Distinct([x] + s)
  {
    forall i, j | 0 <= i < j < |[x] + s| ensures ([x] + s)[i] != ([x] + s)[j] {
      if i > 0 {
        assert ([x] + s)[i] == s[i - 1];
      }
      assert ([x] + s)[j] == s[j - 1];
    }
  }

  lemma DistinctTail<T>(s: seq<T>)
    requires Distinct(s) && |s| > 0
    ensures Distinct(s[1..]) && s[0] !in s[1..]
  {
    forall k | 0 <= k < |s[1..]| ensures s[1..][k] != s[0] {
      assert s[1..][k] == s[k + 1];
    }
  }

  /** With hooks that all return, no promotion raises. */
  lemma PromoteHooksAllPass(hooks: seq<Hook>, candidates: seq<FactRecord>)
    requires AllHooksPass(hooks)
    ensures forall i :: 0 <= i < |candidates| ==> PromoteHooksPass(hooks, candidates[i])
  {
    forall i | 0 <= i < |candidates| ensures PromoteHooksPass(hooks, candidates[i]) {
      var c := candidates[i];
      FirstFailureSpec(hooks, Promote, Some(c.id), Some(c.(sessionId := None)));
      assert FirstFailure(hooks, Promote, Some(c.id), Some(c.(sessionId := None))).None?;
    }
  }

  /**
    promote_session with hooks that all return: the result lists each promoted id once, exactly
    the ids of the session's facts the selector accepts; without a selector it is the session's
    ids in dict order.
   */
  lemma PromoteReturnsSession(e: Engine, cfg: Config, session: string, selector: Option<Selector>,
                              actor: Option<string>, reason: Option<string>)
    requires Consistent(e.backend) && AllHooksPass(cfg.hooks)
    ensures var r := PromoteStep(e, cfg, session, selector, actor, reason);
            var facts := e.backend.facts;
            && r.result.Ok?
            && (forall id :: id in r.result.value <==>
                  id in facts && facts[id].sessionId == Some(session) && Accepts(selector, facts[id]))
            && Distinct(r.result.value)
            && (selector.None? ==> r.result.value == SessionIds(e.backend.order, facts, session))
  {
    var b := e.backend;
    var candidates := QueryResult(b, None, SessionFilter(session));
    PromoteCandidates(b, session);
    PromoteHooksAllPass(cfg.hooks, candidates);
    PromoteLoopResult(e, cfg, session, selector, candidates, [], actor, reason);
    assert [] + FactIds(Chosen(candidates, selector)) == FactIds(Chosen(candidates, selector));
    ChosenIds(b, candidates, session, selector);
    ChosenDistinct(candidates, selector);
    ChosenMembers(candidates, selector);
  }

  /**
    promote_session with hooks that all return: every fact of the session that the selector
    accepts loses its session, every other fact stays as it was, and the key order is kept.
   */
  lemma PromoteClearsSession(e: Engine, cfg: Config, session: string, selector: Option<Selector>,
                             actor: Option<string>, reason: Option<string>)
    requires Consistent(e.backend) && AllHooksPass(cfg.hooks)
    ensures var r := PromoteStep(e, cfg, session, selector, actor, reason);
            var facts := e.backend.facts;
            && r.engine.backend.order == e.backend.order
            && r.engine.backend.facts.Keys == facts.Keys
            && (forall id :: id in facts ==>
                  r.engine.backend.facts[id] == if facts[id].sessionId == Some(session) && Accepts(selector, facts[id])
                                                then facts[id].(sessionId := None)
                                                else facts[id])
  {
    var b := e.backend;
    var candidates := QueryResult(b, None, SessionFilter(session));
    PromoteCandidates(b, session);
    PromoteHooksAllPass(cfg.hooks, candidates);
    PromoteLoopFacts(e, cfg, session, selector, candidates, [], actor, reason);
  }

  /** promote_session's candidates are the session's stored facts, each under its own id, once each. */
  lemma PromoteCandidates(b: Backend, session: string)
    requires Consistent(b)
    ensures var candidates := QueryResult(b, None, SessionFilter(session));
            && FactIds(candidates) == SessionIds(b.order, b.facts, session)
            && Distinct(FactIds(candidates))
            && (forall id :: id in FactIds(candidates) <==> id in b.facts && b.facts[id].sessionId == Some(session))
            && forall i :: 0 <= i < |candidates| ==>
                 candidates[i].id in b.facts && b.facts[candidates[i].id] == candidates[i]
  {
    var candidates := QueryResult(b, None, SessionFilter(session));
    SessionQueryIds(b.order, b.facts, session);
    MatchingMembers(b.order, b.facts, None, SessionFilter(session));
    forall i | 0 <= i < |candidates|
      ensures candidates[i].id in b.facts && b.facts[candidates[i].id] == candidates[i]
    {
      assert candidates[i] in candidates;
    }
  }

  /**
    discard_session removes exactly the facts of the session and returns how many there were;
    it logs one DISCARD_SESSION entry when there was at least one, and otherwise changes nothing.
   */
  lemma DiscardExact(e: Engine, cfg: Config, session: string)
    requires Consistent(e.backend)
    ensures var s := DiscardStep(e, cfg, session);
            var n := |SessionIds(e.backend.order, e.backend.facts, session)|;
            && s.result == Ok(n)
            && (forall id :: id in s.engine.backend.facts <==>
                  id in e.backend.facts && e.backend.facts[id].sessionId != Some(session))
            && (forall id :: id in s.engine.backend.facts ==> s.engine.backend.facts[id] == e.backend.facts[id])
            && (n == 0 ==> s.engine == e)
            && (n > 0 ==> && s.engine.seqNo == e.seqNo + 1
                          && |s.engine.backend.txLog| == |e.backend.txLog| + 1
                          && s.engine.backend.txLog[..|e.backend.txLog|] == e.backend.txLog
                          && LastEntry(s.engine).op == DiscardSession
                          && LastEntry(s.engine).sessionId == Some(session)
                          && LastEntry(s.engine).factId == None)
  {
    DeleteSessionExact(e.backend, session);
  }
}
