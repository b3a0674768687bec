/**
  The reference in-memory backend (memstate/backends/inmemory.py): a dict of facts keyed by
  id, which keeps insertion order as every Python dict does, and an append-only list used as
  the transaction log.
 */
module InMemory {
  import opened Wrappers
  import opened Json
  import opened Records

  /**
    The backend's whole state. `order` is the dict's key order (a key keeps its place when
    its value is replaced and goes to the end when it is inserted again after a removal).
   */
  datatype Backend = Backend(order: seq<string>, facts: map<string, FactRecord>, txLog: seq<TxEntry>)

  /** The representation invariant: the key order lists each stored id once and every fact sits under its own id. */
  ghost predicate Consistent(b: Backend)
  {
    && Distinct(b.order)
    && (forall id :: id in b.facts <==> id in b.order)
    && (forall id :: id in b.facts ==> b.facts[id].id == id)
  }

  function Elems(s: seq<string>): set<string>
  {
    set x | x in s
  }

  /** `load`: the fact stored under `id`, or None. */
  function Lookup(b: Backend, id: string): Option<FactRecord>
  {
    if id in b.facts then Some(b.facts[id]) else None
  }

  /** The key order with the keys in `drop` taken out, the rest in place. */
  function WithoutIds(s: seq<string>, drop: set<string>): (r: seq<string>)
    ensures forall x :: x in r <==> x in s && x !in drop
    ensures Distinct(s) ==> Distinct(r)
    ensures |r| <= |s|
  {
    if s == [] then []
    else
      var rest := WithoutIds(s[..|s| - 1], drop);
      var last := s[|s| - 1];
      assert forall x :: x in s <==> x in s[..|s| - 1] || x == last;
      if last in drop then rest else rest + [last]
  }

  lemma {:induction false} WithoutIdsUnion(s: seq<string>, a: set<string>, b: set<string>)
    ensures WithoutIds(WithoutIds(s, a), b) == WithoutIds(s, a + b)
  {
    if s != [] {
      var init := s[..|s| - 1];
      WithoutIdsUnion(init, a, b);
      var once := WithoutIds(init, a);
      if s[|s| - 1] !in a {
        assert (once + [s[|s| - 1]])[..|once|] == once;
      }
    }
  }

  lemma {:induction false} WithoutIdsNoneDropped(s: seq<string>, drop: set<string>)
    requires forall x :: x in s ==> x !in drop
    ensures WithoutIds(s, drop) == s
  {
    if s != [] {
      WithoutIdsNoneDropped(s[..|s| - 1], drop);
      assert s[..|s| - 1] + [s[|s| - 1]] == s;
    }
  }

  /** `save`: an upsert keyed by the fact's own id. */
  function Stored(b: Backend, f: FactRecord): Backend
  {
    Backend(if f.id in b.facts then b.order else b.order + [f.id], b.facts[f.id := f], b.txLog)
  }

  /** `delete` (`dict.pop(id, None)`). */
  function Removed(b: Backend, id: string): Backend
  {
    Backend(WithoutIds(b.order, {id}), b.facts - {id}, b.txLog)
  }

  /** `type_filter`: ignored when None or empty, otherwise the fact's type must equal it. */
  predicate TypeMatches(f: FactRecord, typeFilter: Option<string>)
  {
    typeFilter.None? || typeFilter.value == "" || f.factType == typeFilter.value
  }

  /** `json_filters`: the value at every filter path equals (Python `==`) the filter value. */
  predicate FieldsMatch(f: FactRecord, filters: Object)
  {
    forall k :: k in filters ==> PyEq(PathGet(AsValue(f), Split(k)), filters[k])
  }

  /** A filter set with one path matches exactly when the value at that path equals the filter value. */
  lemma FieldsMatchOne(f: FactRecord, path: string, v: Value)
    ensures FieldsMatch(f, map[path := v]) <==> PyEq(PathGet(AsValue(f), Split(path)), v)
  {
    assert path in map[path := v];
  }

  /** The facts under `ids`, in that order, that pass both filters. */
  function Matching(ids: seq<string>, facts: map<string, FactRecord>, typeFilter: Option<string>, filters: Object)
    : seq<FactRecord>
  {
    if ids == [] then []
    else
      var rest := Matching(ids[..|ids| - 1], facts, typeFilter, filters);
      var last := ids[|ids| - 1];
      if last in facts && TypeMatches(facts[last], typeFilter) && FieldsMatch(facts[last], filters)
      then rest + [facts[last]]
      else rest
  }

  /** Matching keeps exactly the facts under the given ids that pass both filters. */
  lemma {:induction false} MatchingMembers(ids: seq<string>, facts: map<string, FactRecord>,
                                           typeFilter: Option<string>, filters: Object)
    ensures forall g :: g in Matching(ids, facts, typeFilter, filters) ==>
              g in facts.Values && TypeMatches(g, typeFilter) && FieldsMatch(g, filters)
    ensures forall id :: id in ids && id in facts && TypeMatches(facts[id], typeFilter) && FieldsMatch(facts[id], filters)
              ==> facts[id] in Matching(ids, facts, typeFilter, filters)
  {
    if ids != [] {
      MatchingMembers(ids[..|ids| - 1], facts, typeFilter, filters);
      assert forall x :: x in ids <==> x in ids[..|ids| - 1] || x == ids[|ids| - 1];
    }
  }

  /** One more key of the order adds its fact at the end when it passes the filters. */
  lemma MatchingStep(ids: seq<string>, k: nat, facts: map<string, FactRecord>, typeFilter: Option<string>,
                     filters: Object)
    requires k < |ids| && ids[k] in facts
    ensures Matching(ids[..k + 1], facts, typeFilter, filters)
            == Matching(ids[..k], facts, typeFilter, filters)
               + (if TypeMatches(facts[ids[k]], typeFilter) && FieldsMatch(facts[ids[k]], filters)
                  then [facts[ids[k]]] else [])
  {
    assert ids[..k + 1][..k] == ids[..k];
  }

  /** `query`: the stored facts, in dict order, that pass the filters. */
  function QueryResult(b: Backend, typeFilter: Option<string>, filters: Object): seq<FactRecord>
  {
    Matching(b.order, b.facts, typeFilter, filters)
  }

  /** `append_tx`. */
  function Logged(b: Backend, e: TxEntry): Backend
  {
    b.(txLog := b.txLog + [e])
  }

  /** The log entries of one session, newest first (`reversed` then filtered). */
  function NewestFirst(log: seq<TxEntry>, session: Option<string>): (r: seq<TxEntry>)
    ensures forall x :: x in r <==> x in log && x.sessionId == session
    ensures |r| <= |log|
  {
    if log == [] then []
    else
      assert forall x :: x in log <==> x == log[0] || x in log[1..];
      NewestFirst(log[1..], session) + (if log[0].sessionId == session then [log[0]] else [])
  }

  /** A Python slice bound: negative counts from the end, then clamped to [0, n]. */
  function SliceBound(i: int, n: nat): (r: nat)
    ensures r <= n
  {
    if i < 0 then (if i + n < 0 then 0 else i + n) else if i > n then n else i
  }

  /** `s[start:stop]` with Python's slice semantics. */
  function PySlice<T>(s: seq<T>, start: int, stop: int): seq<T>
  {
    var lo := SliceBound(start, |s|);
    var hi := SliceBound(stop, |s|);
    if lo < hi then s[lo..hi] else []
  }

  /** `get_tx_log(session_id, limit, offset)`. */
  function LogPage(b: Backend, session: Option<string>, limit: int, offset: int): seq<TxEntry>
  {
    PySlice(NewestFirst(b.txLog, session), offset, offset + limit)
  }

  /** The ids, in dict order, of the facts whose session is `session`. */
  function SessionIds(ids: seq<string>, facts: map<string, FactRecord>, session: string): (r: seq<string>)
    ensures forall x :: x in r <==> x in ids && x in facts && facts[x].sessionId == Some(session)
    ensures Distinct(ids) ==> Distinct(r)
  {
    if ids == [] then []
    else
      var rest := SessionIds(ids[..|ids| - 1], facts, session);
      var last := ids[|ids| - 1];
      assert forall x :: x in ids <==> x in ids[..|ids| - 1] || x == last;
      if last in facts && facts[last].sessionId == Some(session) then rest + [last] else rest
  }

  /** The facts, in dict order, whose session is `session` (`get_session_facts`). */
  function SessionFacts(ids: seq<string>, facts: map<string, FactRecord>, session: string): (r: seq<FactRecord>)
    ensures forall g :: g in r ==> g in facts.Values && g.sessionId == Some(session)
    ensures forall x :: x in ids && x in facts && facts[x].sessionId == Some(session) ==> facts[x] in r
  {
    if ids == [] then []
    else
      var rest := SessionFacts(ids[..|ids| - 1], facts, session);
      var last := ids[|ids| - 1];
      assert forall x :: x in ids <==> x in ids[..|ids| - 1] || x == last;
      if last in facts && facts[last].sessionId == Some(session) then rest + [facts[last]] else rest
  }

  /** The removal loop of `delete_session`: each id in turn, as `del self._store[fid]`. */
  function RemovedAll(b: Backend, ids: seq<string>): Backend
  {
    if ids == [] then b else Removed(RemovedAll(b, ids[..|ids| - 1]), ids[|ids| - 1])
  }

  /** `delete_session`: every fact of the session removed. */
  function WithoutSession(b: Backend, session: string): Backend
  {
    RemovedAll(b, SessionIds(b.order, b.facts, session))
  }

  /** The log without the entries whose uuid is in `drop`, the rest in order. */
  function WithoutTxs(log: seq<TxEntry>, drop: set<string>): (r: seq<TxEntry>)
    ensures forall x :: x in r <==> x in log && x.uuid !in drop
    ensures |r| <= |log|
  {
    if log == [] then []
    else
      var rest := WithoutTxs(log[..|log| - 1], drop);
      var last := log[|log| - 1];
      assert forall x :: x in log <==> x in log[..|log| - 1] || x == last;
      if last.uuid in drop then rest else rest + [last]
  }

  /** `delete_txs(tx_uuids)`: an empty list returns at once. */
  function TxsDeleted(b: Backend, uuids: seq<string>): Backend
  {
    if uuids == [] then b else b.(txLog := WithoutTxs(b.txLog, Elems(uuids)))
  }

  // ---------------------------------------------------------------------------------------
  // Properties of the backend operations

  /** `load` after `save` returns the saved record; every other id reads as before. */
  lemma SaveThenLoad(b: Backend, f: FactRecord, id: string)
    ensures Lookup(Stored(b, f), id) == if id == f.id then Some(f) else Lookup(b, id)
  {
  }

  /** A second `save` under the same id replaces the first, and the key keeps its place. */
  lemma SaveTwiceKeepsLast(b: Backend, f: FactRecord, g: FactRecord)
    requires f.id == g.id
    ensures Stored(Stored(b, f), g) == Stored(b, g)
  {
  }

  lemma StoredConsistent(b: Backend, f: FactRecord)
    requires Consistent(b)
    ensures Consistent(Stored(b, f))
  {
    if f.id !in b.facts {
      var o := b.order + [f.id];
      forall i, j | 0 <= i < j < |o| ensures o[i] != o[j] {
        if j == |o| - 1 {
          assert o[i] in b.order;
        }
      }
    }
  }

  /** Saving a new id and then deleting it gives back the backend exactly, key order included. */
  lemma SaveNewThenDelete(b: Backend, f: FactRecord)
    requires Consistent(b)
    requires f.id !in b.facts
    ensures Removed(Stored(b, f), f.id) == b
  {
    var o := b.order + [f.id];
    assert o[..|o| - 1] == b.order;
    WithoutIdsNoneDropped(b.order, {f.id});
    assert b.facts[f.id := f] - {f.id} == b.facts;
  }

  /** Overwriting a stored fact and then saving the old record again gives back the backend exactly. */
  lemma SaveThenRestore(b: Backend, f: FactRecord)
    requires Consistent(b)
    requires f.id in b.facts
    ensures Stored(Stored(b, f), b.facts[f.id]) == b
  {
    assert b.facts[f.id := f][f.id := b.facts[f.id]] == b.facts;
  }

  /** `delete` removes exactly that id; every other fact reads as before. */
  lemma DeleteOnlyThat(b: Backend, id: string, x: string)
    ensures Lookup(Removed(b, id), x) == if x == id then None else Lookup(b, x)
  {
  }

  /** `delete` of an absent id leaves the backend exactly as it was. */
  lemma DeleteAbsentIsNoop(b: Backend, id: string)
    requires Consistent(b)
    requires id !in b.facts
    ensures Removed(b, id) == b
  {
    WithoutIdsNoneDropped(b.order, {id});
  }

  lemma RemovedConsistent(b: Backend, id: string)
    requires Consistent(b)
    ensures Consistent(Removed(b, id))
  {
  }

  /** `query` returns exactly the stored facts that pass the type filter and every path filter. */
  lemma QueryExact(b: Backend, typeFilter: Option<string>, filters: Object, f: FactRecord)
    requires Consistent(b)
    ensures f in QueryResult(b, typeFilter, filters)
            <==> f.id in b.facts && b.facts[f.id] == f && TypeMatches(f, typeFilter) && FieldsMatch(f, filters)
  {
    MatchingMembers(b.order, b.facts, typeFilter, filters);
    if f in QueryResult(b, typeFilter, filters) {
      var id :| id in b.facts && b.facts[id] == f;
      assert f.id == id;
    }
  }

  /** The newest entry of a session is the one appended last: appending puts it first. */
  lemma {:induction false} NewestFirstAppend(log: seq<TxEntry>, e: TxEntry, session: Option<string>)
    ensures NewestFirst(log + [e], session)
            == (if e.sessionId == session then [e] else []) + NewestFirst(log, session)
    decreases |log|
  {
    if log == [] {
      assert ([e])[1..] == [];
    } else {
      assert (log + [e])[1..] == log[1..] + [e];
      NewestFirstAppend(log[1..], e, session);
    }
  }

  /**
    `get_tx_log` with a non-negative limit and offset: the session's entries newest first,
    restricted to the slice [offset, offset + limit), so at most `limit` of them.
   */
  lemma LogPageWindow(b: Backend, session: Option<string>, limit: int, offset: int)
    requires limit >= 0 && offset >= 0
    ensures var all := NewestFirst(b.txLog, session);
            var page := LogPage(b, session, limit, offset);
            && |page| <= limit
            && (offset <= |all| ==> page == all[offset..if offset + limit <= |all| then offset + limit else |all|])
            && (offset >= |all| ==> page == [])
            && forall x :: x in page ==> x in b.txLog && x.sessionId == session
  {
  }

  /** `delete_txs` keeps the relative order of what it keeps: it distributes over concatenation. */
  lemma {:induction false} WithoutTxsConcat(a: seq<TxEntry>, c: seq<TxEntry>, drop: set<string>)
    ensures WithoutTxs(a + c, drop) == WithoutTxs(a, drop) + WithoutTxs(c, drop)
    decreases |c|
  {
    if c == [] {
      assert a + c == a;
    } else {
      var init := c[..|c| - 1];
      assert (a + c)[..|a + c| - 1] == a + init;
      WithoutTxsConcat(a, init, drop);
    }
  }

  /** `delete_txs` leaves a log none of whose uuids it names exactly as it was. */
  lemma {:induction false} WithoutTxsNoneDropped(log: seq<TxEntry>, drop: set<string>)
    requires forall x :: x in log ==> x.uuid !in drop
    ensures WithoutTxs(log, drop) == log
  {
    if log != [] {
      WithoutTxsNoneDropped(log[..|log| - 1], drop);
      assert log[..|log| - 1] + [log[|log| - 1]] == log;
    }
  }

  /** Removing ids one by one removes exactly that set and keeps the remaining key order. */
  lemma {:induction false} RemovedAllEffect(b: Backend, ids: seq<string>)
    ensures RemovedAll(b, ids) == Backend(WithoutIds(b.order, Elems(ids)), b.facts - Elems(ids), b.txLog)
  {
    if ids == [] {
      assert Elems(ids) == {};
      WithoutIdsNoneDropped(b.order, {});
      assert b.facts - {} == b.facts;
    } else {
      var init := ids[..|ids| - 1];
      var x := ids[|ids| - 1];
      RemovedAllEffect(b, init);
      var gone := Elems(init);
      assert Elems(ids) == gone + {x} by {
        assert ids == init + [x];
      }
      WithoutIdsUnion(b.order, gone, {x});
      MinusUnion(b.facts, gone, x);
    }
  }

  lemma MinusUnion(m: map<string, FactRecord>, gone: set<string>, x: string)
    ensures (m - gone) - {x} == m - (gone + {x})
  {
  }

  /**
    `delete_session` removes exactly the facts of the session, leaves every other fact as it
    was, and keeps the backend consistent.
   */
  lemma DeleteSessionExact(b: Backend, session: string)
    requires Consistent(b)
    ensures var after := WithoutSession(b, session);
            && Consistent(after)
            && (forall id :: id in after.facts <==> id in b.facts && b.facts[id].sessionId != Some(session))
            && (forall id :: id in after.facts ==> after.facts[id] == b.facts[id])
            && after.txLog == b.txLog
  {
    RemovedAllEffect(b, SessionIds(b.order, b.facts, session));
  }

  // ---------------------------------------------------------------------------------------

  class InMemoryStorage {
    var order: seq<string>
    var facts: map<string, FactRecord>
    var txLog: seq<TxEntry>

    function State(): Backend
      reads this
    {
      Backend(order, facts, txLog)
    }

    ghost predicate Valid()
      reads this
    {
      Consistent(State())
    }

    constructor ()
      ensures Valid()
      ensures State() == Backend([], map[], [])
    {
      order, facts, txLog := [], map[], [];
    }

    /** `_get_value_by_path`: split the path on dots and walk the nested dicts. */
    method GetValueByPath(data: Value, path: string) returns (r: Value)
      ensures r == PathGet(data, Split(path))
    {
      var keys := Split(path);
      var val := data;
      var i := 0;
      while i < |keys|
        invariant 0 <= i <= |keys|
        invariant PathGet(data, keys) == PathGet(val, keys[i..])
      {
        if val.Dict? {
          val := Get(val.fields, keys[i]);
        } else {
          return Null;
        }
        i := i + 1;
      }
      return val;
    }

    method Load(id: string) returns (r: Option<FactRecord>)
      ensures r == Lookup(State(), id)
    {
      r := if id in facts then Some(facts[id]) else None;
    }

    method Save(f: FactRecord)
      requires Valid()
      modifies this
      ensures Valid()
      ensures State() == Stored(old(State()), f)
    {
      StoredConsistent(State(), f);
      if f.id !in facts {
        order := order + [f.id];
      }
      facts := facts[f.id := f];
    }

    method Delete(id: string)
      requires Valid()
      modifies this
      ensures Valid()
      ensures State() == Removed(old(State()), id)
    {
      RemovedConsistent(State(), id);
      order := WithoutIds(order, {id});
      facts := facts - {id};
    }

    /** The inner loop of `query`: does every path filter hold of `f`? */
    method MatchesFilters(f: FactRecord, filters: Object) returns (ok: bool)
      ensures ok == FieldsMatch(f, filters)
    {
      var pending := filters.Keys;
      while pending != {}
        invariant pending <= filters.Keys
        invariant forall k :: k in filters && k !in pending ==> PyEq(PathGet(AsValue(f), Split(k)), filters[k])
        decreases |pending|
      {
        var k :| k in pending;
        var actual := GetValueByPath(AsValue(f), k);
        if !PyEq(actual, filters[k]) {
          return false;
        }
        pending := pending - {k};
      }
      return true;
    }

    method Query(typeFilter: Option<string>, filters: Object) returns (results: seq<FactRecord>)
      requires Valid()
      ensures results == QueryResult(State(), typeFilter, filters)
    {
      results := [];
      var i := 0;
      while i < |order|
        invariant 0 <= i <= |order|
        invariant results == Matching(order[..i], facts, typeFilter, filters)
      {
        var fact := facts[order[i]];
        var keep := TypeMatches(fact, typeFilter);
        if keep {
          keep := MatchesFilters(fact, filters);
        }
        MatchingStep(order, i, facts, typeFilter, filters);
        if keep {
          results := results + [fact];
        }
        i := i + 1;
      }
      assert order[..i] == order;
    }

    method AppendTx(e: TxEntry)
      requires Valid()
      modifies this
      ensures Valid()
      ensures State() == Logged(old(State()), e)
    {
      txLog := txLog + [e];
    }

    method GetTxLog(session: Option<string>, limit: int, offset: int) returns (page: seq<TxEntry>)
      ensures page == LogPage(State(), session, limit, offset)
    {
      var filtered: seq<TxEntry> := [];
      var i := |txLog|;
      while i > 0
        invariant 0 <= i <= |txLog|
        invariant filtered == NewestFirst(txLog[i..], session)
      {
        i := i - 1;
        assert txLog[i..][1..] == txLog[i + 1..];
        if txLog[i].sessionId == session {
          filtered := filtered + [txLog[i]];
        }
      }
      page := PySlice(filtered, offset, offset + limit);
    }

    /** The comprehension of `delete_session`: the ids, in dict order, of the session's facts. */
    method SessionFactIds(session: string) returns (ids: seq<string>)
      requires Valid()
      ensures ids == SessionIds(order, facts, session)
    {
      ids := [];
      var i := 0;
      while i < |order|
        invariant 0 <= i <= |order|
        invariant ids == SessionIds(order[..i], facts, session)
      {
        assert order[..i + 1][..i] == order[..i];
        if facts[order[i]].sessionId == Some(session) {
          ids := ids + [order[i]];
        }
        i := i + 1;
      }
      assert order[..i] == order;
    }

    method DeleteSession(session: string) returns (deleted: seq<string>)
      requires Valid()
      modifies this
      ensures Valid()
      ensures deleted == SessionIds(old(order), old(facts), session)
      ensures State() == WithoutSession(old(State()), session)
    {
      deleted := SessionFactIds(session);
      ghost var before := State();
      var j := 0;
      while j < |deleted|
        invariant 0 <= j <= |deleted|
        invariant Valid()
        invariant State() == RemovedAll(before, deleted[..j])
      {
        assert deleted[..j + 1][..j] == deleted[..j];
        Delete(deleted[j]);
        j := j + 1;
      }
      assert deleted[..j] == deleted;
    }

    method GetSessionFacts(session: string) returns (found: seq<FactRecord>)
      requires Valid()
      ensures found == SessionFacts(order, facts, session)
    {
      found := [];
      var i := 0;
      while i < |order|
        invariant 0 <= i <= |order|
        invariant found == SessionFacts(order[..i], facts, session)
      {
        assert order[..i + 1][..i] == order[..i];
        var fact := facts[order[i]];
        if fact.sessionId == Some(session) {
          found := found + [fact];
        }
        i := i + 1;
      }
      assert order[..i] == order;
    }

    method DeleteTxs(uuids: seq<string>)
      requires Valid()
      modifies this
      ensures Valid()
      ensures State() == TxsDeleted(old(State()), uuids)
    {
      if uuids == [] {
        return;
      }
      var drop := Elems(uuids);
      var kept: seq<TxEntry> := [];
      var i := 0;
      while i < |txLog|
        invariant 0 <= i <= |txLog|
        invariant kept == WithoutTxs(txLog[..i], drop)
      {
        assert txLog[..i + 1][..i] == txLog[..i];
        if txLog[i].uuid !in drop {
          kept := kept + [txLog[i]];
        }
        i := i + 1;
      }
      assert txLog[..i] == txLog;
      txLog := kept;
    }
  }
}
