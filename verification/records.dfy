/**
  The records the engine stores: facts, transaction-log entries and the operation kinds
  (memstate/schemas.py and memstate/constants.py).
 */
module Records {
  import opened Wrappers
  import opened Json

  /** The operation recorded in a log entry and passed to hooks. */
  datatype Operation = Commit | CommitEphemeral | Update | Delete | Promote | DiscardSession

  /** A stored fact (`Fact.model_dump(mode="json")`); the timestamp `ts` is not modelled. */
  datatype FactRecord = FactRecord(
    id: string,
    factType: string,
    payload: Object,
    source: Option<string>,
    sessionId: Option<string>)

  /** A transaction-log entry (`TxEntry.model_dump(mode="json")`); `ts` is not modelled. */
  datatype TxEntry = TxEntry(
    uuid: string,
    sessionId: Option<string>,
    seqNo: nat,
    op: Operation,
    factId: Option<string>,
    factBefore: Option<FactRecord>,
    factAfter: Option<FactRecord>,
    actor: Option<string>,
    reason: Option<string>)

  function OptionalStr(o: Option<string>): Value
  {
    match o
    case None => Null
    case Some(s) => Str(s)
  }

  /** The stored fact seen as the dict the backend's dot-path filters walk. */
  function AsValue(f: FactRecord): Value
  {
    Dict(map[
      "id" := Str(f.id),
      "type" := Str(f.factType),
      "payload" := Dict(f.payload),
      "source" := OptionalStr(f.source),
      "session_id" := OptionalStr(f.sessionId)])
  }

  /** The filter path `payload.<key>` of a dot-free key reaches exactly `payload.get(key)`. */
  lemma PayloadPath(f: FactRecord, key: string)
    requires Dot !in key
    ensures PathGet(AsValue(f), Split("payload." + key)) == Get(f.payload, key)
  {
    var prefix := "payload";
    assert "payload." + key == prefix + [Dot] + key;
    assert Dot !in prefix;
    SplitPair(prefix, key);
    PathGetPair(AsValue(f), prefix, key);
  }

  /** The filter path `session_id` reaches the fact's session, None when it has none. */
  lemma SessionPath(f: FactRecord)
    ensures PathGet(AsValue(f), Split("session_id")) == OptionalStr(f.sessionId)
  {
    assert Dot !in "session_id";
    SplitDotFree("session_id");
  }
}
