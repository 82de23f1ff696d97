/**
 One app's audit log as the gateway keeps it: rows in chain order, appended to under the app's lock
 (packages/gateway/src/evaluate/audit-store.ts, packages/gateway/src/attest/store.ts), and the
 verification context built from the rows around a record
 (packages/gateway/src/audit-api/verify-context.ts).
 */
module ChainStore {
  import opened Options
  import opened Utf16
  import opened CanonicalJson
  import opened AuditRecords
  import opened Chain
  import opened Verify
  import opened RecordBuilder

  /** audit_records: the signed document and whether it is the newest version of its id. */
  datatype Row = Row(record: AuditRecord, isLatest: bool)

  type Catalog = map<JsString, CreativeContent>

  function HashOf(row: Row): Value {
    row.record[RecordHash]
  }

  function IdOf(row: Row): Value {
    row.record[Id]
  }

  // ----------------------------------------------------------------------------------- lookups

  function FindByHash(rows: seq<Row>, hash: Value): (r: Option<nat>)
    ensures r.Some? ==> r.value < |rows| && HashOf(rows[r.value]) == hash
    ensures r.None? ==> forall i :: 0 <= i < |rows| ==> HashOf(rows[i]) != hash
  {
    if rows == [] then None
    else if HashOf(rows[|rows| - 1]) == hash then Some(|rows| - 1)
    else FindByHash(rows[..|rows| - 1], hash)
  }

  /** The is_latest row of an id. */
  function FindLatest(rows: seq<Row>, id: Value): (r: Option<nat>)
    ensures r.Some? ==> r.value < |rows| && rows[r.value].isLatest && IdOf(rows[r.value]) == id
    ensures r.None? ==> forall i :: 0 <= i < |rows| && rows[i].isLatest ==> IdOf(rows[i]) != id
  {
    if rows == [] then None
    else if rows[|rows| - 1].isLatest && IdOf(rows[|rows| - 1]) == id then Some(|rows| - 1)
    else FindLatest(rows[..|rows| - 1], id)
  }

  function LatestRecord(rows: seq<Row>): Option<AuditRecord> {
    if rows == [] then None else Some(rows[|rows| - 1].record)
  }

  // ------------------------------------------------------------------------------------- steps

  datatype Command =
    | Append(input: Input, signing: SigningKey)
    | AttestLatest(id: JsString, output: JsString, now: JsString, signing: SigningKey)

  /** record_hash is the primary key, and an id has at most one latest row. */
  predicate Insertable(rows: seq<Row>, record: AuditRecord) {
    FindByHash(rows, record[RecordHash]).None? && FindLatest(rows, record[Id]).None?
  }

  function AppendStep(env: Env, rows: seq<Row>, input: Input, signing: SigningKey): seq<Row> {
    var built := BuildAuditRecord(env, input, NextPrevHash(env.contract, LatestRecord(rows)), signing);
    if built.None? || !Insertable(rows, built.value) then rows else rows + [Row(built.value, true)]
  }

  /** Attests the latest version of an id; every refusal leaves the log as it was. */
  function AttestStep(env: Env, rows: seq<Row>, id: JsString, output: JsString, now: JsString, signing: SigningKey): seq<Row> {
    var at := FindLatest(rows, Str(id));
    if at.None? then rows
    else
      var current := rows[at.value].record;
      if !current[SupersedesHash].Null? || !IsUnattested(current) then rows
      else
        var prev := TextOf(NextPrevHash(env.contract, LatestRecord(rows)));
        var outcome := Attest(env, Document(env.contract, current), output, now, prev, signing);
        if !outcome.Attested? || FindByHash(rows, outcome.record[RecordHash]).Some? then rows
        else Superseded(rows, at.value) + [Row(outcome.record, true)]
  }

  function Superseded(rows: seq<Row>, at: nat): seq<Row>
    requires at < |rows|
  {
    rows[at := rows[at].(isLatest := false)]
  }

  function Step(env: Env, rows: seq<Row>, command: Command): seq<Row> {
    match command
    case Append(input, signing) => AppendStep(env, rows, input, signing)
    case AttestLatest(id, output, now, signing) => AttestStep(env, rows, id, output, now, signing)
  }

  /** The log after a whole run of commands. */
  function Run(env: Env, commands: seq<Command>): seq<Row> {
    if commands == [] then []
    else Step(env, Run(env, commands[..|commands| - 1]), commands[|commands| - 1])
  }

  // --------------------------------------------------------------------------- verify-context

  /** The record one position earlier; null at the start of the chain. */
  function PreviousDocument(c: Contract, rows: seq<Row>, i: nat): Value
    requires i < |rows|
  {
    if i == 0 then Null else Document(c, rows[i - 1].record)
  }

  /** creativeContentHash of the stored creative a record names; undefined when it names none. */
  function StoredHash(env: Env, catalog: Catalog, r: AuditRecord): Value {
    var id := Prop(env.contract, r[Creative], CreativeIdKey);
    if !id.Str? then Undefined
    else if id.s in catalog then Str(ContentHash(env, catalog[id.s]))
    else Null
  }

  function SupersededAt(rows: seq<Row>, i: nat): Option<nat>
    requires i < |rows|
  {
    var hash := rows[i].record[SupersedesHash];
    if hash.Str? then FindByHash(rows, hash) else None
  }

  /** The attestation of an older version: the latest row of its id, if it supersedes this one. */
  function SupersededByOf(c: Contract, rows: seq<Row>, i: nat): Value
    requires i < |rows|
  {
    if rows[i].isLatest then Undefined
    else
      var latest := FindLatest(rows, IdOf(rows[i]));
      if latest.Some? && rows[latest.value].record[SupersedesHash] == HashOf(rows[i])
      then Document(c, rows[latest.value].record)
      else Undefined
  }

  /** buildVerifyContext: the superseded record's own context is the only one in the heap. */
  function ContextOf(env: Env, catalog: Catalog, rows: seq<Row>, i: nat): Context
    requires i < |rows|
  {
    var c := env.contract;
    var prior := SupersededAt(rows, i);
    Context(
      PreviousDocument(c, rows, i), StoredHash(env, catalog, rows[i].record), SupersededByOf(c, rows, i),
      if prior.Some? then Document(c, rows[prior.value].record) else if rows[i].record[SupersedesHash].Str? then Null else Undefined,
      Undefined, if prior.Some? then Some(0) else None)
  }

  function HeapOf(env: Env, rows: seq<Row>, i: nat): Contexts
    requires i < |rows|
  {
    var prior := SupersededAt(rows, i);
    if prior.None? then []
    else [Context(PreviousDocument(env.contract, rows, prior.value), Undefined, Undefined, Undefined, Undefined, None)]
  }

  function VerifyRow(env: Env, catalog: Catalog, ring: KeyRing, rows: seq<Row>, i: nat): Response
    requires Lawful(env.contract) && i < |rows|
  {
    VerifyWith(env, Document(env.contract, rows[i].record), ring,
               ContextOf(env, catalog, rows, i), HeapOf(env, rows, i))
  }
}
