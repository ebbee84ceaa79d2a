/** Erasing a contact: the registry of redactions applied to everything reachable from it. */
module Erasure {
  import opened Outcomes
  import opened TenantRows
  import opened TenantScope

  /** A constant replacement, or one computed from the row's id because the column is unique. */
  datatype Redaction = Constant(value: Value) | PerRow

  datatype Column = Column(name: string, redaction: Redaction)

  datatype Spec = Spec(model: string, columns: seq<Column>, stampsRedactedAt: bool)

  const CONTACT_REDACTIONS: seq<Spec> := [
    Spec("Contact",
         [Column("displayName", Constant(Text("Redacted"))), Column("phoneNumber", PerRow), Column("email", Constant(Null))],
         true),
    Spec("Message", [Column("body", Constant(Null))], true),
    Spec("MessageAttachment", [Column("storageKey", Constant(Text(""))), Column("fileName", Constant(Null))], true),
    Spec("Transcription", [Column("text", Constant(Null))], true),
    Spec("ConversationNote", [Column("body", Constant(Text("Redacted")))], false),
    Spec("Conversation", [], true)
  ]

  type Ids = seq<Value>

  type Targets = map<string, Ids>

  type Counts = map<string, nat>

  function Placeholder(id: Value): Value {
    Text("redacted:" + if id.Text? then id.text else "")
  }

  function Replacement(redaction: Redaction, id: Value): Value {
    if redaction.Constant? then redaction.value else Placeholder(id)
  }

  predicate HasPerRow(spec: Spec) {
    exists k :: 0 <= k < |spec.columns| && spec.columns[k].redaction.PerRow?
  }

  function ColumnData(columns: seq<Column>, id: Value): Row {
    if columns == [] then map[]
    else
      var last := columns[|columns| - 1];
      ColumnData(columns[..|columns| - 1], id)[last.name := Replacement(last.redaction, id)]
  }

  /** The data clause of one redaction for the row `id`. */
  function Data(spec: Spec, id: Value, now: int): Row {
    var data := ColumnData(spec.columns, id);
    if spec.stampsRedactedAt then data["redactedAt" := Number(now)] else data
  }

  method BuildData(spec: Spec, rowId: Option<Value>, now: int) returns (data: Result<Row>)
    ensures data.Err? <==> rowId.None? && HasPerRow(spec)
    ensures data.Ok? ==> data.value == Data(spec, if rowId.Some? then rowId.value else Null, now)
    ensures data.Ok? && rowId.None? ==> forall id :: data.value == Data(spec, id, now)
  {
    var built: Row := map[];
    var given := if rowId.Some? then rowId.value else Null;
    for i := 0 to |spec.columns|
      invariant rowId.None? ==> forall k :: 0 <= k < i ==> spec.columns[k].redaction.Constant?
      invariant built == ColumnData(spec.columns[..i], given)
    {
      var column := spec.columns[i];
      assert spec.columns[..i + 1][..i] == spec.columns[..i];
      if column.redaction.PerRow? && rowId.None? {
        return Err(Internal);
      }
      built := built[column.name := Replacement(column.redaction, given)];
    }
    assert spec.columns[..|spec.columns|] == spec.columns;
    if spec.stampsRedactedAt {
      built := built["redactedAt" := Number(now)];
    }
    if rowId.None? {
      forall id ensures Data(spec, Null, now) == Data(spec, id, now) {
        ConstantData(spec.columns, id);
      }
    }
    data := Ok(built);
  }

  lemma {:induction false} ConstantData(columns: seq<Column>, id: Value)
    requires forall k :: 0 <= k < |columns| ==> columns[k].redaction.Constant?
    ensures ColumnData(columns, id) == ColumnData(columns, Null)
  {
    if columns != [] {
      ConstantData(columns[..|columns| - 1], id);
    }
  }

  function OneOf(field: string, ids: Ids): Where {
    Test((row: Row) => Field(row, field) in ids)
  }

  /** The column a batched redaction is matched on: the row's own id, or its parent's. */
  function MatchField(spec: Spec): string {
    if spec.model == "MessageAttachment" then "messageId"
    else if spec.model == "Transcription" then "messageId"
    else if spec.model == "ConversationNote" then "conversationId"
    else "id"
  }

  function IdsOf(rows: seq<Row>): Ids {
    seq(|rows|, i requires 0 <= i < |rows| => Field(rows[i], "id"))
  }

  /** Everything a call is bound to: the tenant, and the moment the stamps carry. */
  datatype Context = Context(classes: Classes, scope: Scope, now: int)

  function Scoped(c: Context, model: string, where: Where): Option<Where> {
    Narrowed(ScopeTests(c.classes, model, c.scope, true), Some(where))
  }

  function Found(c: Context, db: Database, model: string, where: Where): seq<Row> {
    Filter(TableOf(db, model), Scoped(c, model, where))
  }

  function Updated(c: Context, db: Database, model: string, where: Where, data: Row): Database {
    db[model := Changed(TableOf(db, model), Scoped(c, model, where), data)]
  }

  function UpdatedEach(c: Context, spec: Spec, ids: Ids, db: Database, count: nat): (Database, nat)
    decreases |ids|
  {
    if ids == [] then (db, count)
    else
      var where := Equals("id", ids[0]);
      UpdatedEach(c, spec, ids[1..], Updated(c, db, spec.model, where, Data(spec, ids[0], c.now)),
                  count + |Found(c, db, spec.model, where)|)
  }

  /** One registry entry: row by row when a replacement is per row, in one update otherwise. */
  function Redacted(c: Context, spec: Spec, ids: Ids, db: Database): (Database, nat) {
    if ids == [] then (db, 0)
    else if HasPerRow(spec) then UpdatedEach(c, spec, ids, db, 0)
    else
      var where := OneOf(MatchField(spec), ids);
      (Updated(c, db, spec.model, where, Data(spec, Null, c.now)), |Found(c, db, spec.model, where)|)
  }

  predicate Holding(row: Row) {
    Field(row, "deletedAt") == Null
  }

  predicate PhonesApart(a: Row, b: Row) {
    Holding(a) && Holding(b) && Field(a, "organizationId") == Field(b, "organizationId") ==>
      Field(a, "phoneNumber") != Field(b, "phoneNumber")
  }

  /** The partial unique index on the phone numbers of contacts that are not deleted. */
  predicate PhonesUnique(contacts: seq<Row>) {
    forall i, j :: 0 <= i < j < |contacts| ==> PhonesApart(contacts[i], contacts[j])
  }

  function TargetIds(targets: Targets, model: string): Ids {
    if model in targets then targets[model] else []
  }

  function Registry(c: Context, registry: seq<Spec>, targets: Targets, db: Database, counts: Counts)
    : Result<(Database, Counts)>
    decreases |registry|
  {
    if registry == [] then Ok((db, counts))
    else
      var (after, count) := Redacted(c, registry[0], TargetIds(targets, registry[0].model), db);
      if !PhonesUnique(TableOf(after, "Contact")) then Err(Conflict)
      else Registry(c, registry[1..], targets, after, counts[registry[0].model := count])
  }

  function ConversationIds(c: Context, db: Database, contactId: string): Ids {
    IdsOf(Found(c, db, "Conversation", Equals("contactId", Text(contactId))))
  }

  function MessageIds(c: Context, db: Database, contactId: string): Ids {
    var conversationIds := ConversationIds(c, db, contactId);
    if conversationIds == [] then [] else IdsOf(Found(c, db, "Message", OneOf("conversationId", conversationIds)))
  }

  function TargetsOf(c: Context, db: Database, contactId: string): Targets {
    var conversationIds := ConversationIds(c, db, contactId);
    var messageIds := MessageIds(c, db, contactId);
    map["Contact" := [Text(contactId)], "Conversation" := conversationIds, "Message" := messageIds,
        "MessageAttachment" := messageIds, "Transcription" := messageIds, "ConversationNote" := conversationIds]
  }

  function Erased(c: Context, registry: seq<Spec>, db: Database, contactId: string): Result<(Database, Counts)> {
    if Found(c, db, "Contact", Equals("id", Text(contactId))) == [] then Err(NotFound)
    else Registry(c, registry, TargetsOf(c, db, contactId), db, map[])
  }

  /** The schema knows the models and scopes them to a tenant. */
  predicate Known(classes: Classes, db: Database, model: string) {
    model in db && IsScoped(classes, model)
  }

  predicate RegistryKnown(classes: Classes, db: Database, registry: seq<Spec>) {
    && Known(classes, db, "Contact") && Known(classes, db, "Conversation") && Known(classes, db, "Message")
    && forall k :: 0 <= k < |registry| ==> Known(classes, db, registry[k].model)
  }

  function Everything(rows: seq<Row>): seq<Row> { rows }

  function First(rows: seq<Row>): seq<Row> { if rows == [] then [] else [rows[0]] }

  method FindIds(client: ScopedClient, model: string, where: Where, ghost now: int) returns (ids: Ids)
    requires client.includeDeleted && Known(client.classes, client.tables, model)
    modifies client`tables
    ensures client.tables == old(client.tables)
    ensures ids == IdsOf(Found(Context(client.classes, client.scope, now), client.tables, model, where))
  {
    var answer := client.AllOperations(model, FindMany, Args(Some(where), [], map[], Everything));
    ids := IdsOf(answer.value.rows);
    assert client.tables == old(client.tables);
  }

  method UpdateAll(client: ScopedClient, model: string, where: Where, data: Row, ghost now: int) returns (count: nat)
    requires client.includeDeleted && Known(client.classes, client.tables, model)
    modifies client`tables
    ensures var c := Context(client.classes, client.scope, now);
            && count == |Found(c, old(client.tables), model, where)|
            && client.tables == Updated(c, old(client.tables), model, where, data)
  {
    var answer := client.AllOperations(model, UpdateMany, Args(Some(where), [], data, Everything));
    count := answer.value.count;
  }

  /** One registry entry through the scoped client. */
  method Redact(client: ScopedClient, spec: Spec, ids: Ids, now: int) returns (count: nat)
    requires client.includeDeleted && Known(client.classes, client.tables, spec.model)
    modifies client`tables
    ensures (client.tables, count)
            == Redacted(Context(client.classes, client.scope, now), spec, ids, old(client.tables))
    ensures client.tables.Keys == old(client.tables.Keys)
  {
    if ids == [] {
      return 0;
    }
    ghost var c := Context(client.classes, client.scope, now);
    if exists k :: 0 <= k < |spec.columns| && spec.columns[k].redaction.PerRow? {
      count := 0;
      for i := 0 to |ids|
        invariant client.tables.Keys == old(client.tables.Keys)
        invariant UpdatedEach(c, spec, ids[i..], client.tables, count) == UpdatedEach(c, spec, ids, old(client.tables), 0)
      {
        var data := BuildData(spec, Some(ids[i]), now);
        var updated := UpdateAll(client, spec.model, Equals("id", ids[i]), data.value, now);
        assert ids[i..][1..] == ids[i + 1..];
        count := count + updated;
      }
      return;
    }
    var data := BuildData(spec, None, now);
    count := UpdateAll(client, spec.model, OneOf(MatchField(spec), ids), data.value, now);
  }

  /** The registry loop; the unique index may refuse an update. */
  method RedactAll(client: ScopedClient, registry: seq<Spec>, targets: Targets, now: int)
    returns (rowsRedacted: Result<Counts>)
    requires client.includeDeleted
    requires forall k :: 0 <= k < |registry| ==> Known(client.classes, client.tables, registry[k].model)
    modifies client`tables
    ensures match Registry(Context(client.classes, client.scope, now), registry, targets, old(client.tables), map[])
            case Ok((tables, counts)) => rowsRedacted == Ok(counts) && client.tables == tables
            case Err(error) => rowsRedacted == Err(error)
  {
    ghost var c := Context(client.classes, client.scope, now);
    ghost var all := Registry(c, registry, targets, client.tables, map[]);
    var counts: Counts := map[];
    for i := 0 to |registry|
      invariant client.tables.Keys == old(client.tables.Keys)
      invariant Registry(c, registry[i..], targets, client.tables, counts) == all
    {
      assert registry[i..][1..] == registry[i + 1..];
      var count := Redact(client, registry[i], TargetIds(targets, registry[i].model), now);
      if !PhonesUnique(TableOf(client.tables, "Contact")) {
        return Err(Conflict);
      }
      counts := counts[registry[i].model := count];
    }
    rowsRedacted := Ok(counts);
  }

  /** Erases one contact and everything said, or leaves every table as it was. */
  method EraseContact(client: ScopedClient, registry: seq<Spec>, contactId: string, now: int)
    returns (rowsRedacted: Result<Counts>)
    requires client.includeDeleted && RegistryKnown(client.classes, client.tables, registry)
    modifies client`tables
    ensures match Erased(Context(client.classes, client.scope, now), registry, old(client.tables), contactId)
            case Ok((tables, counts)) => rowsRedacted == Ok(counts) && client.tables == tables
            case Err(error) => rowsRedacted == Err(error) && client.tables == old(client.tables)
  {
    var before := client.tables;
    ghost var c := Context(client.classes, client.scope, now);
    var contact := client.AllOperations("Contact", FindFirst, Args(Some(Equals("id", Text(contactId))), [], map[], First));
    assert client.tables == before;
    if contact.value.rows == [] {
      return Err(NotFound);
    }
    var conversationIds := FindIds(client, "Conversation", Equals("contactId", Text(contactId)), now);
    var messageIds: Ids := [];
    if |conversationIds| != 0 {
      messageIds := FindIds(client, "Message", OneOf("conversationId", conversationIds), now);
    }
    var targets: Targets := map["Contact" := [Text(contactId)], "Conversation" := conversationIds,
                                "Message" := messageIds, "MessageAttachment" := messageIds,
                                "Transcription" := messageIds, "ConversationNote" := conversationIds];
    rowsRedacted := RedactAll(client, registry, targets, now);
    if rowsRedacted.Err? {
      client.tables := before;
    }
  }
}
