/**
 What an erasure leaves behind: every reachable row redacted, every other row untouched, and no two
 erasures in each other's way.
 */
module ErasureGuarantees {
  import opened Outcomes
  import opened TenantRows
  import opened TenantScope
  import opened TenantIsolation
  import opened Erasure

  // ---------------------------------------------------------------------------------------------
  // Reachability, independently of how the targets are gathered
  // ---------------------------------------------------------------------------------------------

  predicate Mine(c: Context, model: string, row: Row) {
    InTenant(c.classes, c.scope, model, row)
  }

  predicate ConversationOf(c: Context, contactId: string, row: Row) {
    Mine(c, "Conversation", row) && Field(row, "contactId") == Text(contactId)
  }

  /** `id` names a conversation of the contact. */
  predicate OfContact(c: Context, db: Database, contactId: string, id: Value) {
    var rows := TableOf(db, "Conversation");
    exists k :: 0 <= k < |rows| && ConversationOf(c, contactId, rows[k]) && Field(rows[k], "id") == id
  }

  predicate MessageOf(c: Context, db: Database, contactId: string, row: Row) {
    Mine(c, "Message", row) && OfContact(c, db, contactId, Field(row, "conversationId"))
  }

  /** `id` names a message in one of those conversations. */
  predicate Said(c: Context, db: Database, contactId: string, id: Value) {
    var rows := TableOf(db, "Message");
    exists k :: 0 <= k < |rows| && MessageOf(c, db, contactId, rows[k]) && Field(rows[k], "id") == id
  }

  /** A row of the tenant that belongs to the contact, deleted or not. */
  predicate Reached(c: Context, db: Database, contactId: string, model: string, row: Row) {
    && Mine(c, model, row)
    && match model
       case "Contact" => Field(row, "id") == Text(contactId)
       case "Conversation" => OfContact(c, db, contactId, Field(row, "id"))
       case "Message" => Said(c, db, contactId, Field(row, "id"))
       case "MessageAttachment" => Said(c, db, contactId, Field(row, "messageId"))
       case "Transcription" => Said(c, db, contactId, Field(row, "messageId"))
       case "ConversationNote" => OfContact(c, db, contactId, Field(row, "conversationId"))
       case _ => false
  }

  lemma ScopedMeaning(c: Context, model: string, where: Where, row: Row)
    requires IsScoped(c.classes, model)
    ensures Selected(Scoped(c, model, where), row) <==> Mine(c, model, row) && Matches(where, row)
  {
    var tests := ScopeTests(c.classes, model, c.scope, true);
    TenantMeaning(c.classes, c.scope, model, row);
    if model in c.classes.softDeletable {
      assert tests == ScopeTests(c.classes, model, c.scope, true);
    }
    var parts := [TenantRows.All(tests), where];
    assert Scoped(c, model, where) == Some(TenantRows.All(parts));
    assert Matches(TenantRows.All(parts), row) <==> Matches(parts[0], row) && Matches(parts[1], row);
  }

  lemma {:induction false} FilterMembers(rows: seq<Row>, where: Option<Where>, row: Row)
    ensures row in Filter(rows, where) <==> row in rows && Selected(where, row)
  {
    if rows != [] {
      FilterMembers(rows[1..], where, row);
      assert rows == [rows[0]] + rows[1..];
    }
  }

  lemma IdsMembers(rows: seq<Row>, id: Value)
    ensures id in IdsOf(rows) <==> exists k :: 0 <= k < |rows| && Field(rows[k], "id") == id
  {
    if k :| 0 <= k < |rows| && Field(rows[k], "id") == id {
      assert IdsOf(rows)[k] == id;
    }
  }

  lemma FoundIds(c: Context, db: Database, model: string, where: Where, id: Value)
    requires IsScoped(c.classes, model)
    ensures id in IdsOf(Found(c, db, model, where))
            <==> exists k :: && 0 <= k < |TableOf(db, model)|
                             && Mine(c, model, TableOf(db, model)[k]) && Matches(where, TableOf(db, model)[k])
                             && Field(TableOf(db, model)[k], "id") == id
  {
    var rows := TableOf(db, model);
    var found := Found(c, db, model, where);
    IdsMembers(found, id);
    if k :| 0 <= k < |found| && Field(found[k], "id") == id {
      FilterMembers(rows, Scoped(c, model, where), found[k]);
      ScopedMeaning(c, model, where, found[k]);
    }
    if k :| 0 <= k < |rows| && Mine(c, model, rows[k]) && Matches(where, rows[k]) && Field(rows[k], "id") == id {
      FilterMembers(rows, Scoped(c, model, where), rows[k]);
      ScopedMeaning(c, model, where, rows[k]);
    }
  }

  lemma ConversationsFound(c: Context, db: Database, contactId: string, id: Value)
    requires IsScoped(c.classes, "Conversation")
    ensures id in ConversationIds(c, db, contactId) <==> OfContact(c, db, contactId, id)
  {
    FoundIds(c, db, "Conversation", Equals("contactId", Text(contactId)), id);
  }

  lemma MessagesFound(c: Context, db: Database, contactId: string, id: Value)
    requires IsScoped(c.classes, "Conversation") && IsScoped(c.classes, "Message")
    ensures id in MessageIds(c, db, contactId) <==> Said(c, db, contactId, id)
  {
    var ids := ConversationIds(c, db, contactId);
    var rows := TableOf(db, "Message");
    forall k | 0 <= k < |rows|
      ensures Field(rows[k], "conversationId") in ids
              <==> OfContact(c, db, contactId, Field(rows[k], "conversationId"))
    {
      ConversationsFound(c, db, contactId, Field(rows[k], "conversationId"));
    }
    FoundIds(c, db, "Message", OneOf("conversationId", ids), id);
  }

  function TargetField(spec: Spec): string {
    if HasPerRow(spec) then "id" else MatchField(spec)
  }

  predicate Hit(c: Context, spec: Spec, ids: Ids, row: Row) {
    Mine(c, spec.model, row) && Field(row, TargetField(spec)) in ids
  }

  /** Per-row replacements are only used on models matched by their own id. */
  predicate OwnIdWhenPerRow(spec: Spec) {
    HasPerRow(spec) ==> MatchField(spec) == "id"
  }

  lemma HitIsReached(c: Context, db: Database, contactId: string, spec: Spec, row: Row)
    requires IsScoped(c.classes, "Conversation") && IsScoped(c.classes, "Message")
    requires OwnIdWhenPerRow(spec)
    ensures Hit(c, spec, TargetIds(TargetsOf(c, db, contactId), spec.model), row)
            <==> Reached(c, db, contactId, spec.model, row)
  {
    var id := Field(row, TargetField(spec));
    ConversationsFound(c, db, contactId, id);
    MessagesFound(c, db, contactId, id);
  }

  // ---------------------------------------------------------------------------------------------
  // One registry entry, row by row
  // ---------------------------------------------------------------------------------------------

  const RESERVED: set<string> := {"id", "organizationId", "branchId", "redactedAt"}

  /** A redaction never names a key, a tenant column or the stamp, and no column twice. */
  predicate SpecSound(spec: Spec) {
    && OwnIdWhenPerRow(spec)
    && (forall k :: 0 <= k < |spec.columns| ==> spec.columns[k].name !in RESERVED)
    && (forall j, k :: 0 <= j < k < |spec.columns| ==> spec.columns[j].name != spec.columns[k].name)
  }

  lemma {:induction false} ColumnValues(columns: seq<Column>, id: Value)
    requires forall j, k :: 0 <= j < k < |columns| ==> columns[j].name != columns[k].name
    ensures forall k :: 0 <= k < |columns| ==>
              columns[k].name in ColumnData(columns, id)
              && ColumnData(columns, id)[columns[k].name] == Replacement(columns[k].redaction, id)
    ensures forall name :: name in ColumnData(columns, id) ==> exists k :: 0 <= k < |columns| && columns[k].name == name
  {
    if columns != [] {
      ColumnValues(columns[..|columns| - 1], id);
    }
  }

  /** A redacted row holds each registered replacement and the stamp, and is otherwise as it was. */
  lemma RedactedColumns(spec: Spec, row: Row, now: int)
    requires SpecSound(spec)
    ensures var id := Field(row, "id");
            var after := row + Data(spec, id, now);
            && (forall k :: 0 <= k < |spec.columns| ==>
                  Field(after, spec.columns[k].name) == Replacement(spec.columns[k].redaction, id))
            && (spec.stampsRedactedAt ==> Field(after, "redactedAt") == Number(now))
            && (forall name :: !(exists k :: 0 <= k < |spec.columns| && spec.columns[k].name == name)
                               && !(spec.stampsRedactedAt && name == "redactedAt") ==>
                  Field(after, name) == Field(row, name))
  {
    ColumnValues(spec.columns, Field(row, "id"));
  }

  lemma KeysKept(c: Context, spec: Spec, row: Row, id: Value)
    requires SpecSound(spec)
    ensures var after := row + Data(spec, id, c.now);
            && Field(after, "id") == Field(row, "id")
            && Mine(c, spec.model, after) == Mine(c, spec.model, row)
  {
    ColumnValues(spec.columns, id);
    var after := row + Data(spec, id, c.now);
    forall name | name in {"id", "organizationId", "branchId"} ensures Field(after, name) == Field(row, name) {
      assert name in RESERVED && name !in Data(spec, id, c.now);
    }
  }

  function RowAfter(c: Context, spec: Spec, hit: bool, row: Row): Row {
    if hit then row + Data(spec, Field(row, "id"), c.now) else row
  }

  lemma {:induction false} ChangedAt(rows: seq<Row>, where: Option<Where>, data: Row)
    ensures |Changed(rows, where, data)| == |rows|
    ensures forall i :: 0 <= i < |rows| ==>
              Changed(rows, where, data)[i] == if Selected(where, rows[i]) then rows[i] + data else rows[i]
  {
    if rows != [] {
      ChangedAt(rows[1..], where, data);
    }
  }

  predicate Rewritten(c: Context, spec: Spec, ids: Ids, before: seq<Row>, after: seq<Row>) {
    && |after| == |before|
    && forall i :: 0 <= i < |before| ==> after[i] == RowAfter(c, spec, Hit(c, spec, ids, before[i]), before[i])
  }

  lemma ReplacedTwice(row: Row, data: Row)
    ensures row + data + data == row + data
  {
  }

  lemma {:induction false} EachRewrites(c: Context, spec: Spec, ids: Ids, db: Database, count: nat)
    requires HasPerRow(spec) && SpecSound(spec) && IsScoped(c.classes, spec.model)
    ensures var after := UpdatedEach(c, spec, ids, db, count).0;
            && Rewritten(c, spec, ids, TableOf(db, spec.model), TableOf(after, spec.model))
            && forall model :: model != spec.model ==> TableOf(after, model) == TableOf(db, model)
    decreases |ids|
  {
    if ids != [] {
      var where := Equals("id", ids[0]);
      var data := Data(spec, ids[0], c.now);
      var rows := TableOf(db, spec.model);
      var next := Updated(c, db, spec.model, where, data);
      var mid := TableOf(next, spec.model);
      var after := UpdatedEach(c, spec, ids[1..], next, count + |Found(c, db, spec.model, where)|).0;
      ChangedAt(rows, Scoped(c, spec.model, where), data);
      EachRewrites(c, spec, ids[1..], next, count + |Found(c, db, spec.model, where)|);
      forall i | 0 <= i < |rows|
        ensures TableOf(after, spec.model)[i] == RowAfter(c, spec, Hit(c, spec, ids, rows[i]), rows[i])
      {
        EachRewritesRow(c, spec, ids, rows[i], mid[i]);
      }
    }
  }

  lemma EachRewritesRow(c: Context, spec: Spec, ids: Ids, row: Row, mid: Row)
    requires HasPerRow(spec) && SpecSound(spec) && IsScoped(c.classes, spec.model) && ids != []
    requires mid == if Selected(Scoped(c, spec.model, Equals("id", ids[0])), row)
                    then row + Data(spec, ids[0], c.now) else row
    ensures RowAfter(c, spec, Hit(c, spec, ids[1..], mid), mid) == RowAfter(c, spec, Hit(c, spec, ids, row), row)
  {
    ScopedMeaning(c, spec.model, Equals("id", ids[0]), row);
    KeysKept(c, spec, row, ids[0]);
    ReplacedTwice(row, Data(spec, ids[0], c.now));
    assert ids == [ids[0]] + ids[1..];
  }

  lemma RedactedRows(c: Context, spec: Spec, ids: Ids, db: Database)
    requires SpecSound(spec) && IsScoped(c.classes, spec.model)
    ensures var after := Redacted(c, spec, ids, db).0;
            && Rewritten(c, spec, ids, TableOf(db, spec.model), TableOf(after, spec.model))
            && forall model :: model != spec.model ==> TableOf(after, model) == TableOf(db, model)
  {
    if ids != [] && HasPerRow(spec) {
      EachRewrites(c, spec, ids, db, 0);
    } else if ids != [] {
      BatchRewrites(c, spec, ids, db);
    }
  }

  lemma BatchRewrites(c: Context, spec: Spec, ids: Ids, db: Database)
    requires !HasPerRow(spec) && IsScoped(c.classes, spec.model)
    ensures Rewritten(c, spec, ids, TableOf(db, spec.model),
                      TableOf(Updated(c, db, spec.model, OneOf(MatchField(spec), ids), Data(spec, Null, c.now)), spec.model))
  {
    var rows := TableOf(db, spec.model);
    var where := OneOf(MatchField(spec), ids);
    ChangedAt(rows, Scoped(c, spec.model, where), Data(spec, Null, c.now));
    forall i | 0 <= i < |rows|
      ensures Selected(Scoped(c, spec.model, where), rows[i]) <==> Hit(c, spec, ids, rows[i])
      ensures Data(spec, Null, c.now) == Data(spec, Field(rows[i], "id"), c.now)
    {
      ScopedMeaning(c, spec.model, where, rows[i]);
      ConstantData(spec.columns, Field(rows[i], "id"));
    }
  }

  /** How many rows are hit. */
  function Hits(c: Context, spec: Spec, ids: Ids, rows: seq<Row>): nat {
    if rows == [] then 0 else (if Hit(c, spec, ids, rows[0]) then 1 else 0) + Hits(c, spec, ids, rows[1..])
  }

  lemma {:induction false} FilterCounts(c: Context, spec: Spec, ids: Ids, where: Where, rows: seq<Row>)
    requires IsScoped(c.classes, spec.model)
    requires forall row: Row :: Matches(where, row) <==> Field(row, TargetField(spec)) in ids
    ensures |Filter(rows, Scoped(c, spec.model, where))| == Hits(c, spec, ids, rows)
  {
    if rows != [] {
      FilterCounts(c, spec, ids, where, rows[1..]);
      ScopedMeaning(c, spec.model, where, rows[0]);
    }
  }

  lemma {:induction false} HitsOfNone(c: Context, spec: Spec, rows: seq<Row>)
    ensures Hits(c, spec, [], rows) == 0
  {
    if rows != [] {
      HitsOfNone(c, spec, rows[1..]);
    }
  }

  lemma {:induction false} HitsSplit(c: Context, spec: Spec, ids: Ids, before: seq<Row>, after: seq<Row>)
    requires ids != [] && ids[0] !in ids[1..] && TargetField(spec) == "id" && |before| == |after|
    requires forall i :: 0 <= i < |before| ==>
               && Field(after[i], "id") == Field(before[i], "id")
               && Mine(c, spec.model, after[i]) == Mine(c, spec.model, before[i])
    ensures Hits(c, spec, ids, before) == Hits(c, spec, [ids[0]], before) + Hits(c, spec, ids[1..], after)
  {
    if before != [] {
      assert ids == [ids[0]] + ids[1..];
      assert Field(after[0], "id") == Field(before[0], "id");
      HitsSplit(c, spec, ids, before[1..], after[1..]);
    }
  }

  predicate Distinct(ids: Ids) {
    forall i, j :: 0 <= i < j < |ids| ==> ids[i] != ids[j]
  }

  lemma {:induction false} EachCounts(c: Context, spec: Spec, ids: Ids, db: Database, count: nat)
    requires HasPerRow(spec) && SpecSound(spec) && IsScoped(c.classes, spec.model) && Distinct(ids)
    ensures UpdatedEach(c, spec, ids, db, count).1 == count + Hits(c, spec, ids, TableOf(db, spec.model))
    decreases |ids|
  {
    var rows := TableOf(db, spec.model);
    if ids == [] {
      HitsOfNone(c, spec, rows);
    } else {
      var where := Equals("id", ids[0]);
      var data := Data(spec, ids[0], c.now);
      var next := Updated(c, db, spec.model, where, data);
      EachCounts(c, spec, ids[1..], next, count + |Found(c, db, spec.model, where)|);
      FilterCounts(c, spec, [ids[0]], where, rows);
      UpdateKeepsKeys(c, spec, ids[0], where, rows);
      HitsSplit(c, spec, ids, rows, TableOf(next, spec.model));
    }
  }

  lemma UpdateKeepsKeys(c: Context, spec: Spec, id: Value, where: Where, rows: seq<Row>)
    requires SpecSound(spec)
    ensures var after := Changed(rows, Scoped(c, spec.model, where), Data(spec, id, c.now));
            && |after| == |rows|
            && forall i :: 0 <= i < |rows| ==>
                 && Field(after[i], "id") == Field(rows[i], "id")
                 && Mine(c, spec.model, after[i]) == Mine(c, spec.model, rows[i])
  {
    ChangedAt(rows, Scoped(c, spec.model, where), Data(spec, id, c.now));
    forall i | 0 <= i < |rows|
      ensures Field(rows[i] + Data(spec, id, c.now), "id") == Field(rows[i], "id")
      ensures Mine(c, spec.model, rows[i] + Data(spec, id, c.now)) == Mine(c, spec.model, rows[i])
    {
      KeysKept(c, spec, rows[i], id);
    }
  }

  lemma RedactedCounts(c: Context, spec: Spec, ids: Ids, db: Database)
    requires SpecSound(spec) && IsScoped(c.classes, spec.model)
    requires HasPerRow(spec) ==> Distinct(ids)
    ensures Redacted(c, spec, ids, db).1 == Hits(c, spec, ids, TableOf(db, spec.model))
  {
    if ids == [] {
      HitsOfNone(c, spec, TableOf(db, spec.model));
    } else if HasPerRow(spec) {
      EachCounts(c, spec, ids, db, 0);
    } else {
      FilterCounts(c, spec, ids, OneOf(MatchField(spec), ids), TableOf(db, spec.model));
    }
  }

  // ---------------------------------------------------------------------------------------------
  // The whole registry
  // ---------------------------------------------------------------------------------------------

  predicate Registered(registry: seq<Spec>, model: string) {
    exists k :: 0 <= k < |registry| && registry[k].model == model
  }

  predicate RegistrySound(registry: seq<Spec>) {
    && (forall k :: 0 <= k < |registry| ==> SpecSound(registry[k]))
    && (forall j, k :: 0 <= j < k < |registry| ==> registry[j].model != registry[k].model)
  }

  predicate TargetsDistinct(registry: seq<Spec>, targets: Targets) {
    forall k :: 0 <= k < |registry| && HasPerRow(registry[k]) ==> Distinct(TargetIds(targets, registry[k].model))
  }

  predicate AllScoped(classes: Classes, registry: seq<Spec>) {
    forall k :: 0 <= k < |registry| ==> IsScoped(classes, registry[k].model)
  }

  predicate EntryDone(c: Context, spec: Spec, ids: Ids, before: Database, after: Database, counts: Counts) {
    && Rewritten(c, spec, ids, TableOf(before, spec.model), TableOf(after, spec.model))
    && spec.model in counts && counts[spec.model] == Hits(c, spec, ids, TableOf(before, spec.model))
  }

  lemma {:induction false} RegistryRows(
    c: Context, registry: seq<Spec>, targets: Targets, db: Database, counts: Counts, after: Database, total: Counts)
    requires RegistrySound(registry) && TargetsDistinct(registry, targets) && AllScoped(c.classes, registry)
    requires Registry(c, registry, targets, db, counts) == Ok((after, total))
    ensures forall k :: 0 <= k < |registry| ==>
              EntryDone(c, registry[k], TargetIds(targets, registry[k].model), db, after, total)
    ensures forall model :: !Registered(registry, model) ==>
              && TableOf(after, model) == TableOf(db, model)
              && (model in counts ==> model in total && total[model] == counts[model])
    decreases |registry|
  {
    if registry != [] {
      var spec := registry[0];
      var ids := TargetIds(targets, spec.model);
      var (next, count) := Redacted(c, spec, ids, db);
      RedactedRows(c, spec, ids, db);
      RedactedCounts(c, spec, ids, db);
      RegistryRows(c, registry[1..], targets, next, counts[spec.model := count], after, total);
      FirstNotAgain(registry);
      assert EntryDone(c, spec, ids, db, after, total);
      forall k | 1 <= k < |registry|
        ensures EntryDone(c, registry[k], TargetIds(targets, registry[k].model), db, after, total)
      {
        assert registry[k] == registry[1..][k - 1];
        assert registry[0].model != registry[k].model;
      }
    }
  }

  lemma FirstNotAgain(registry: seq<Spec>)
    requires registry != [] && RegistrySound(registry)
    ensures !Registered(registry[1..], registry[0].model)
    ensures forall model :: !Registered(registry, model) ==> !Registered(registry[1..], model) && model != registry[0].model
  {
  }

  function ReachedCount(c: Context, db: Database, contactId: string, model: string, rows: seq<Row>): nat {
    if rows == [] then 0
    else (if Reached(c, db, contactId, model, rows[0]) then 1 else 0) + ReachedCount(c, db, contactId, model, rows[1..])
  }

  lemma {:induction false} HitsAreReached(c: Context, db: Database, contactId: string, spec: Spec, rows: seq<Row>)
    requires IsScoped(c.classes, "Conversation") && IsScoped(c.classes, "Message") && OwnIdWhenPerRow(spec)
    ensures Hits(c, spec, TargetIds(TargetsOf(c, db, contactId), spec.model), rows)
            == ReachedCount(c, db, contactId, spec.model, rows)
  {
    if rows != [] {
      HitIsReached(c, db, contactId, spec, rows[0]);
      HitsAreReached(c, db, contactId, spec, rows[1..]);
    }
  }

  predicate PerRowOnContacts(registry: seq<Spec>) {
    forall k :: 0 <= k < |registry| && HasPerRow(registry[k]) ==> registry[k].model == "Contact"
  }

  /** Every row of the model is redacted if the contact reaches it and untouched if not. */
  predicate ModelErased(c: Context, db: Database, contactId: string, spec: Spec, after: seq<Row>) {
    var before := TableOf(db, spec.model);
    && |after| == |before|
    && forall i :: 0 <= i < |before| ==>
         after[i] == RowAfter(c, spec, Reached(c, db, contactId, spec.model, before[i]), before[i])
  }

  lemma GatheredDistinct(c: Context, registry: seq<Spec>, db: Database, contactId: string)
    requires PerRowOnContacts(registry)
    ensures TargetsDistinct(registry, TargetsOf(c, db, contactId))
  {
    assert Distinct(TargetIds(TargetsOf(c, db, contactId), "Contact"));
  }

  /** The model's rows are redacted exactly where reached, and the result counts them. */
  predicate EntryErased(c: Context, db: Database, contactId: string, spec: Spec, after: Database, counts: Counts) {
    && ModelErased(c, db, contactId, spec, TableOf(after, spec.model))
    && spec.model in counts && counts[spec.model] == ReachedCount(c, db, contactId, spec.model, TableOf(db, spec.model))
  }

  /**
   A successful erasure redacts exactly the reachable rows of every registered model, soft-deleted
   ones included, reports how many they are, and touches nothing else.
   */
  lemma ErasesExactlyReached(
    c: Context, registry: seq<Spec>, db: Database, contactId: string, after: Database, counts: Counts)
    requires RegistryKnown(c.classes, db, registry) && RegistrySound(registry) && PerRowOnContacts(registry)
    requires Erased(c, registry, db, contactId) == Ok((after, counts))
    ensures forall k :: 0 <= k < |registry| ==> EntryErased(c, db, contactId, registry[k], after, counts)
    ensures forall model :: !Registered(registry, model) ==> TableOf(after, model) == TableOf(db, model)
  {
    var targets := TargetsOf(c, db, contactId);
    GatheredDistinct(c, registry, db, contactId);
    RegistryRows(c, registry, targets, db, map[], after, counts);
    forall k | 0 <= k < |registry| ensures EntryErased(c, db, contactId, registry[k], after, counts) {
      EntryReached(c, db, contactId, registry[k], targets, after, counts);
    }
  }

  lemma EntryReached(
    c: Context, db: Database, contactId: string, spec: Spec, targets: Targets, after: Database, counts: Counts)
    requires IsScoped(c.classes, "Conversation") && IsScoped(c.classes, "Message") && OwnIdWhenPerRow(spec)
    requires targets == TargetsOf(c, db, contactId)
    requires EntryDone(c, spec, TargetIds(targets, spec.model), db, after, counts)
    ensures EntryErased(c, db, contactId, spec, after, counts)
  {
    HitsAreReached(c, db, contactId, spec, TableOf(db, spec.model));
    forall i | 0 <= i < |TableOf(db, spec.model)|
      ensures Hit(c, spec, TargetIds(targets, spec.model), TableOf(db, spec.model)[i])
              <==> Reached(c, db, contactId, spec.model, TableOf(db, spec.model)[i])
    {
      HitIsReached(c, db, contactId, spec, TableOf(db, spec.model)[i]);
    }
  }

  lemma ContactEntry(spec: Spec)
    requires spec == CONTACT_REDACTIONS[0]
    ensures SpecSound(spec)
  {
  }

  lemma OtherEntries(k: nat)
    requires 1 <= k < |CONTACT_REDACTIONS|
    ensures SpecSound(CONTACT_REDACTIONS[k]) && !HasPerRow(CONTACT_REDACTIONS[k])
  {
  }

  lemma EntriesApart()
    ensures forall j, k :: 0 <= j < k < |CONTACT_REDACTIONS| ==> CONTACT_REDACTIONS[j].model != CONTACT_REDACTIONS[k].model
    ensures CONTACT_REDACTIONS[0].model == "Contact"
  {
  }

  /** The registry of the repository meets the conditions above. */
  lemma ContactRegistrySound()
    ensures RegistrySound(CONTACT_REDACTIONS) && PerRowOnContacts(CONTACT_REDACTIONS)
  {
    EntriesApart();
    ContactEntry(CONTACT_REDACTIONS[0]);
    forall k | 1 <= k < |CONTACT_REDACTIONS|
      ensures SpecSound(CONTACT_REDACTIONS[k]) && !HasPerRow(CONTACT_REDACTIONS[k])
    {
      OtherEntries(k);
    }
  }

  predicate PersonalDataGone(model: string, row: Row, now: int) {
    match model
    case "Contact" =>
      && Field(row, "displayName") == Text("Redacted") && Field(row, "email") == Null
      && Field(row, "redactedAt") == Number(now)
      && Field(row, "phoneNumber") == Text("redacted:" + if Field(row, "id").Text? then Field(row, "id").text else "")
    case "Message" => Field(row, "body") == Null && Field(row, "redactedAt") == Number(now)
    case "MessageAttachment" =>
      && Field(row, "storageKey") == Text("") && Field(row, "fileName") == Null
      && Field(row, "redactedAt") == Number(now)
    case "Transcription" => Field(row, "text") == Null && Field(row, "redactedAt") == Number(now)
    case "ConversationNote" => Field(row, "body") == Text("Redacted")
    case "Conversation" => Field(row, "redactedAt") == Number(now)
    case _ => false
  }

  lemma SpecPurges(k: nat, row: Row, now: int)
    requires k < |CONTACT_REDACTIONS|
    ensures PersonalDataGone(CONTACT_REDACTIONS[k].model, row + Data(CONTACT_REDACTIONS[k], Field(row, "id"), now), now)
  {
    var spec := CONTACT_REDACTIONS[k];
    ContactRegistrySound();
    RedactedColumns(spec, row, now);
    if k == 0 {
      assert |spec.columns| == 3 && spec.columns[0].name == "displayName" && spec.columns[1].name == "phoneNumber"
             && spec.columns[2].name == "email";
      assert !(exists j :: 0 <= j < |spec.columns| && spec.columns[j].name == "id");
    } else if k == 2 {
      assert |spec.columns| == 2 && spec.columns[0].name == "storageKey" && spec.columns[1].name == "fileName";
    } else if k != 5 {
      assert |spec.columns| == 1;
    }
  }

  predicate Purged(c: Context, db: Database, contactId: string, model: string, after: seq<Row>) {
    var before := TableOf(db, model);
    && |after| == |before|
    && forall i :: 0 <= i < |before| && Reached(c, db, contactId, model, before[i]) ==>
         PersonalDataGone(model, after[i], c.now)
  }

  /** After a successful erasure no reachable row of any model holds a personal column. */
  lemma ReachedRowsArePurged(
    c: Context, registry: seq<Spec>, db: Database, contactId: string, after: Database, counts: Counts)
    requires registry == CONTACT_REDACTIONS && RegistryKnown(c.classes, db, registry)
    requires Erased(c, registry, db, contactId) == Ok((after, counts))
    ensures forall k :: 0 <= k < |registry| ==>
              Purged(c, db, contactId, registry[k].model, TableOf(after, registry[k].model))
  {
    ContactRegistrySound();
    ErasesExactlyReached(c, registry, db, contactId, after, counts);
    forall k | 0 <= k < |registry|
      ensures Purged(c, db, contactId, registry[k].model, TableOf(after, registry[k].model))
    {
      assert EntryErased(c, db, contactId, registry[k], after, counts);
      ErasedIsPurged(c, db, contactId, k, registry[k], TableOf(after, registry[k].model));
    }
  }

  lemma ErasedIsPurged(c: Context, db: Database, contactId: string, k: nat, spec: Spec, after: seq<Row>)
    requires k < |CONTACT_REDACTIONS| && spec == CONTACT_REDACTIONS[k]
    requires ModelErased(c, db, contactId, spec, after)
    ensures Purged(c, db, contactId, spec.model, after)
  {
    var before := TableOf(db, spec.model);
    forall i | 0 <= i < |before| && Reached(c, db, contactId, spec.model, before[i])
      ensures PersonalDataGone(spec.model, after[i], c.now)
    {
      SpecPurges(k, before[i], c.now);
    }
  }

  /** Every row of the model is redacted if it was reachable through what had been gathered, and untouched if not. */
  predicate ModelErasedAsGathered(c: Context, gathered: Database, db: Database, contactId: string, spec: Spec,
                                  after: seq<Row>)
  {
    var before := TableOf(db, spec.model);
    && |after| == |before|
    && forall i :: 0 <= i < |before| ==>
         after[i] == RowAfter(c, spec, Reached(c, gathered, contactId, spec.model, before[i]), before[i])
  }

  /**
   When rows are written between the gathering of the targets and the updates, the erasure redacts
   exactly the rows reachable through the conversations and messages that existed at the gathering.
   */
  lemma ErasesAsGathered(c: Context, registry: seq<Spec>, gathered: Database, db: Database, contactId: string,
                         after: Database, counts: Counts)
    requires RegistryKnown(c.classes, db, registry) && RegistrySound(registry) && PerRowOnContacts(registry)
    requires Registry(c, registry, TargetsOf(c, gathered, contactId), db, map[]) == Ok((after, counts))
    ensures forall k :: 0 <= k < |registry| ==>
              ModelErasedAsGathered(c, gathered, db, contactId, registry[k], TableOf(after, registry[k].model))
  {
    var targets := TargetsOf(c, gathered, contactId);
    GatheredDistinct(c, registry, gathered, contactId);
    RegistryRows(c, registry, targets, db, map[], after, counts);
    forall k | 0 <= k < |registry|
      ensures ModelErasedAsGathered(c, gathered, db, contactId, registry[k], TableOf(after, registry[k].model))
    {
      EntryAsGathered(c, gathered, db, contactId, registry[k], targets, after, counts);
    }
  }

  lemma EntryAsGathered(c: Context, gathered: Database, db: Database, contactId: string, spec: Spec, targets: Targets,
                        after: Database, counts: Counts)
    requires IsScoped(c.classes, "Conversation") && IsScoped(c.classes, "Message") && OwnIdWhenPerRow(spec)
    requires targets == TargetsOf(c, gathered, contactId)
    requires EntryDone(c, spec, TargetIds(targets, spec.model), db, after, counts)
    ensures ModelErasedAsGathered(c, gathered, db, contactId, spec, TableOf(after, spec.model))
  {
    forall i | 0 <= i < |TableOf(db, spec.model)|
      ensures Hit(c, spec, TargetIds(targets, spec.model), TableOf(db, spec.model)[i])
              <==> Reached(c, gathered, contactId, spec.model, TableOf(db, spec.model)[i])
    {
      HitIsReached(c, gathered, contactId, spec, TableOf(db, spec.model)[i]);
    }
  }

  /**
   Registering a model is not enough to have it erased: without an entry in the target table of
   `eraseContact` no row of it is ever reached, and the erasure reports success with a count of zero.
   */
  lemma RegisteredWithoutTarget(c: Context, db: Database, contactId: string, spec: Spec)
    ensures spec.model !in TargetsOf(c, db, contactId)
            <==> spec.model !in {"Contact", "Conversation", "Message", "MessageAttachment", "Transcription",
                                 "ConversationNote"}
    ensures spec.model !in TargetsOf(c, db, contactId) ==>
              Redacted(c, spec, TargetIds(TargetsOf(c, db, contactId), spec.model), db) == (db, 0)
  {
  }

  // ---------------------------------------------------------------------------------------------
  // When an erasure goes through
  // ---------------------------------------------------------------------------------------------

  predicate UniqueIds(rows: seq<Row>) {
    forall i, j :: 0 <= i < j < |rows| ==> Field(rows[i], "id") != Field(rows[j], "id")
  }

  lemma {:induction false} OthersKeepPhones(
    c: Context, registry: seq<Spec>, targets: Targets, db: Database, counts: Counts)
    requires RegistrySound(registry) && AllScoped(c.classes, registry)
    requires !Registered(registry, "Contact") && PhonesUnique(TableOf(db, "Contact"))
    ensures Registry(c, registry, targets, db, counts).Ok?
    ensures TableOf(Registry(c, registry, targets, db, counts).value.0, "Contact") == TableOf(db, "Contact")
    decreases |registry|
  {
    if registry != [] {
      assert registry[0].model != "Contact";
      var (next, count) := Redacted(c, registry[0], TargetIds(targets, registry[0].model), db);
      RedactedRows(c, registry[0], TargetIds(targets, registry[0].model), db);
      forall k | 0 <= k < |registry[1..]| ensures registry[1..][k].model != "Contact" {
        assert registry[1..][k] == registry[k + 1];
      }
      OthersKeepPhones(c, registry[1..], targets, next, counts[registry[0].model := count]);
    }
  }

  /** The index covers contacts that are not deleted, organization by organization. */
  lemma PhonesUniqueExactly(contacts: seq<Row>)
    ensures PhonesUnique(contacts)
            <==> forall i, j :: && 0 <= i < j < |contacts|
                                && Field(contacts[i], "deletedAt") == Null && Field(contacts[j], "deletedAt") == Null
                                && Field(contacts[i], "organizationId") == Field(contacts[j], "organizationId") ==>
                   Field(contacts[i], "phoneNumber") != Field(contacts[j], "phoneNumber")
  {
  }

  /** Another contact of the organization that is not deleted already holds the placeholder of `row`. */
  predicate PlaceholderTaken(contacts: seq<Row>, row: Row) {
    && Holding(row)
    && exists j :: && 0 <= j < |contacts| && Holding(contacts[j])
                   && Field(contacts[j], "id") != Field(row, "id")
                   && Field(contacts[j], "organizationId") == Field(row, "organizationId")
                   && Field(contacts[j], "phoneNumber") == Placeholder(Field(row, "id"))
  }

  predicate IsContact(c: Context, contactId: string, row: Row) {
    Mine(c, "Contact", row) && Field(row, "id") == Text(contactId)
  }

  function ContactSpec(): Spec {
    CONTACT_REDACTIONS[0]
  }

  lemma ContactRow(c: Context, row: Row)
    ensures var after := row + Data(ContactSpec(), Field(row, "id"), c.now);
            && Field(after, "phoneNumber") == Placeholder(Field(row, "id"))
            && Field(after, "id") == Field(row, "id")
            && Field(after, "organizationId") == Field(row, "organizationId")
            && Holding(after) == Holding(row)
  {
    ContactRegistrySound();
    var spec := ContactSpec();
    RedactedColumns(spec, row, c.now);
    assert spec.columns[1] == Column("phoneNumber", PerRow);
    assert |spec.columns| == 3 && spec.columns[0].name == "displayName" && spec.columns[2].name == "email";
  }

  /** Redacting one contact breaks the index exactly when its placeholder is taken. */
  lemma PlaceholderDecides(c: Context, before: seq<Row>, after: seq<Row>, contactId: string, k: nat)
    requires k < |before| && IsContact(c, contactId, before[k])
    requires UniqueIds(before) && PhonesUnique(before)
    requires Rewritten(c, ContactSpec(), [Text(contactId)], before, after)
    ensures PhonesUnique(after) <==> !PlaceholderTaken(before, before[k])
  {
    ContactRow(c, before[k]);
    assert TargetField(ContactSpec()) == "id" by {
      assert ContactSpec().columns[1].redaction.PerRow?;
    }
    forall i | 0 <= i < |before|
      ensures after[i] == if i == k then before[k] + Data(ContactSpec(), Field(before[k], "id"), c.now) else before[i]
    {
      assert i != k ==> Field(before[i], "id") != Field(before[k], "id");
    }
    if PlaceholderTaken(before, before[k]) {
      var j :| && 0 <= j < |before| && Holding(before[j]) && Field(before[j], "id") != Field(before[k], "id")
               && Field(before[j], "organizationId") == Field(before[k], "organizationId")
               && Field(before[j], "phoneNumber") == Placeholder(Field(before[k], "id"));
      assert !PhonesApart(after[j], after[k]) && !PhonesApart(after[k], after[j]);
    } else {
      forall i, j | 0 <= i < j < |after| ensures PhonesApart(after[i], after[j]) {
        assert PhonesApart(before[i], before[j]);
      }
    }
  }

  predicate ContactsKnown(c: Context, db: Database) {
    && RegistryKnown(c.classes, db, CONTACT_REDACTIONS)
    && UniqueIds(TableOf(db, "Contact")) && PhonesUnique(TableOf(db, "Contact"))
  }

  /**
   An erasure fails in two cases and no other: the tenant has no such contact, or the contact is not
   deleted and another one holds its placeholder.
   */
  lemma ErasureOutcome(c: Context, db: Database, contactId: string)
    requires ContactsKnown(c, db)
    ensures var contacts := TableOf(db, "Contact");
            var result := Erased(c, CONTACT_REDACTIONS, db, contactId);
            && (result == Err(NotFound)
                <==> forall k :: 0 <= k < |contacts| ==> !IsContact(c, contactId, contacts[k]))
            && (result == Err(Conflict)
                <==> exists k :: 0 <= k < |contacts| && IsContact(c, contactId, contacts[k])
                                 && PlaceholderTaken(contacts, contacts[k]))
            && (result.Err? ==> result.error in {NotFound, Conflict})
            && (result.Ok? ==> Rewritten(c, ContactSpec(), [Text(contactId)], contacts, TableOf(result.value.0, "Contact"))
                               && PhonesUnique(TableOf(result.value.0, "Contact")))
  {
    if Found(c, db, "Contact", Equals("id", Text(contactId))) == [] {
      NotFoundMeans(c, db, contactId);
    } else {
      var k := FoundAt(c, db, contactId);
      FoundOutcome(c, db, contactId, k);
    }
  }

  lemma NotFoundMeans(c: Context, db: Database, contactId: string)
    requires IsScoped(c.classes, "Contact") && Found(c, db, "Contact", Equals("id", Text(contactId))) == []
    ensures forall k :: 0 <= k < |TableOf(db, "Contact")| ==> !IsContact(c, contactId, TableOf(db, "Contact")[k])
  {
    var contacts := TableOf(db, "Contact");
    forall k | 0 <= k < |contacts| ensures !IsContact(c, contactId, contacts[k]) {
      ScopedMeaning(c, "Contact", Equals("id", Text(contactId)), contacts[k]);
      FilterMembers(contacts, Scoped(c, "Contact", Equals("id", Text(contactId))), contacts[k]);
    }
  }

  lemma FoundAt(c: Context, db: Database, contactId: string) returns (k: nat)
    requires IsScoped(c.classes, "Contact") && Found(c, db, "Contact", Equals("id", Text(contactId))) != []
    ensures k < |TableOf(db, "Contact")| && IsContact(c, contactId, TableOf(db, "Contact")[k])
  {
    var contacts := TableOf(db, "Contact");
    var found := Found(c, db, "Contact", Equals("id", Text(contactId)));
    FilterMembers(contacts, Scoped(c, "Contact", Equals("id", Text(contactId))), found[0]);
    ScopedMeaning(c, "Contact", Equals("id", Text(contactId)), found[0]);
    k :| k < |contacts| && contacts[k] == found[0];
  }

  lemma FoundOutcome(c: Context, db: Database, contactId: string, k: nat)
    requires ContactsKnown(c, db) && Found(c, db, "Contact", Equals("id", Text(contactId))) != []
    requires k < |TableOf(db, "Contact")| && IsContact(c, contactId, TableOf(db, "Contact")[k])
    ensures var contacts := TableOf(db, "Contact");
            var result := Erased(c, CONTACT_REDACTIONS, db, contactId);
            && (if PlaceholderTaken(contacts, contacts[k]) then result == Err(Conflict) else result.Ok?)
            && (result.Ok? ==> Rewritten(c, ContactSpec(), [Text(contactId)], contacts, TableOf(result.value.0, "Contact"))
                               && PhonesUnique(TableOf(result.value.0, "Contact")))
            && forall i :: 0 <= i < |contacts| && IsContact(c, contactId, contacts[i]) ==> i == k
  {
    var contacts := TableOf(db, "Contact");
    ContactRegistrySound();
    var targets := TargetsOf(c, db, contactId);
    var (next, count) := Redacted(c, ContactSpec(), [Text(contactId)], db);
    RedactedRows(c, ContactSpec(), [Text(contactId)], db);
    PlaceholderDecides(c, contacts, TableOf(next, "Contact"), contactId, k);
    RestOfRegistry();
    if PhonesUnique(TableOf(next, "Contact")) {
      OthersKeepPhones(c, CONTACT_REDACTIONS[1..], targets, next, map["Contact" := count]);
    }
    FirstEntry(c, db, contactId);
  }

  lemma RestOfRegistry()
    ensures RegistrySound(CONTACT_REDACTIONS[1..]) && !Registered(CONTACT_REDACTIONS[1..], "Contact")
    ensures forall k :: 0 <= k < |CONTACT_REDACTIONS[1..]| ==> CONTACT_REDACTIONS[1..][k] == CONTACT_REDACTIONS[k + 1]
  {
    ContactRegistrySound();
  }

  lemma FirstEntry(c: Context, db: Database, contactId: string)
    ensures var targets := TargetsOf(c, db, contactId);
            var (next, count) := Redacted(c, ContactSpec(), [Text(contactId)], db);
            Registry(c, CONTACT_REDACTIONS, targets, db, map[])
            == if !PhonesUnique(TableOf(next, "Contact")) then Err(Conflict)
               else Registry(c, CONTACT_REDACTIONS[1..], targets, next, map["Contact" := count])
  {
  }

  // ---------------------------------------------------------------------------------------------
  // Any number of erasures
  // ---------------------------------------------------------------------------------------------

  /** No contact's phone number reads as the placeholder of another contact. */
  predicate Honest(contacts: seq<Row>) {
    && (forall i :: 0 <= i < |contacts| ==> Field(contacts[i], "id").Text?)
    && forall i, j :: 0 <= i < |contacts| && 0 <= j < |contacts|
                      && Field(contacts[i], "phoneNumber") == Placeholder(Field(contacts[j], "id")) ==>
                        Field(contacts[i], "id") == Field(contacts[j], "id")
  }

  predicate SameKeys(a: Row, b: Row) {
    && Field(a, "id") == Field(b, "id") && Field(a, "organizationId") == Field(b, "organizationId")
    && Field(a, "branchId") == Field(b, "branchId")
  }

  predicate SameContacts(before: seq<Row>, after: seq<Row>) {
    |after| == |before| && forall i :: 0 <= i < |before| ==> SameKeys(before[i], after[i])
  }

  lemma PlaceholdersApart(a: Value, b: Value)
    requires a.Text? && b.Text? && Placeholder(a) == Placeholder(b)
    ensures a == b
  {
    var prefix := "redacted:";
    assert a.text == (prefix + a.text)[|prefix|..];
    assert b.text == (prefix + b.text)[|prefix|..];
  }

  lemma ContactRowAfter(c: Context, row: Row, hit: bool)
    ensures var after := RowAfter(c, ContactSpec(), hit, row);
            && SameKeys(row, after)
            && Field(after, "phoneNumber") == if hit then Placeholder(Field(row, "id")) else Field(row, "phoneNumber")
  {
    ContactRow(c, row);
    ContactEntry(ContactSpec());
    RedactedColumns(ContactSpec(), row, c.now);
    KeysKept(c, ContactSpec(), row, Field(row, "id"));
    assert |ContactSpec().columns| == 3 && ContactSpec().columns[0].name == "displayName"
           && ContactSpec().columns[1].name == "phoneNumber" && ContactSpec().columns[2].name == "email";
  }

  lemma RewrittenStaysHonest(c: Context, contactId: string, before: seq<Row>, after: seq<Row>)
    requires Rewritten(c, ContactSpec(), [Text(contactId)], before, after)
    requires Honest(before) && UniqueIds(before)
    ensures Honest(after) && UniqueIds(after) && SameContacts(before, after)
  {
    var hit := (i: int) requires 0 <= i < |before| => Hit(c, ContactSpec(), [Text(contactId)], before[i]);
    forall i | 0 <= i < |before|
      ensures SameKeys(before[i], after[i])
      ensures Field(after[i], "phoneNumber")
              == if hit(i) then Placeholder(Field(before[i], "id")) else Field(before[i], "phoneNumber")
    {
      ContactRowAfter(c, before[i], hit(i));
    }
    forall i | 0 <= i < |after| ensures Field(after[i], "id").Text? {
      assert SameKeys(before[i], after[i]);
    }
    forall i, j | 0 <= i < |after| && 0 <= j < |after|
                  && Field(after[i], "phoneNumber") == Placeholder(Field(after[j], "id"))
      ensures Field(after[i], "id") == Field(after[j], "id")
    {
      assert SameKeys(before[i], after[i]) && SameKeys(before[j], after[j]);
      if hit(i) {
        PlaceholdersApart(Field(before[i], "id"), Field(before[j], "id"));
      }
    }
    forall i, j | 0 <= i < j < |after| ensures Field(after[i], "id") != Field(after[j], "id") {
      assert SameKeys(before[i], after[i]) && SameKeys(before[j], after[j]);
    }
  }

  datatype Demand = Demand(scope: Scope, now: int, contactId: string)

  function ContextOf(classes: Classes, demand: Demand): Context {
    Context(classes, demand.scope, demand.now)
  }

  /** One erasure as a transaction. */
  function Transacted(classes: Classes, db: Database, demand: Demand): (Database, Result<Counts>) {
    match Erased(ContextOf(classes, demand), CONTACT_REDACTIONS, db, demand.contactId)
    case Ok((after, counts)) => (after, Ok(counts))
    case Err(error) => (db, Err(error))
  }

  function TransactedAll(classes: Classes, db: Database, demands: seq<Demand>): (Database, seq<Result<Counts>>)
    decreases |demands|
  {
    if demands == [] then (db, [])
    else
      var (next, result) := Transacted(classes, db, demands[0]);
      var (end, results) := TransactedAll(classes, next, demands[1..]);
      (end, [result] + results)
  }

  predicate Ready(classes: Classes, db: Database) {
    && RegistryKnown(classes, db, CONTACT_REDACTIONS)
    && UniqueIds(TableOf(db, "Contact")) && PhonesUnique(TableOf(db, "Contact")) && Honest(TableOf(db, "Contact"))
  }

  predicate Belongs(classes: Classes, db: Database, demand: Demand) {
    var contacts := TableOf(db, "Contact");
    exists k :: 0 <= k < |contacts| && IsContact(ContextOf(classes, demand), demand.contactId, contacts[k])
  }

  /** The erasure succeeds exactly when its tenant has the contact. */
  predicate Answers(classes: Classes, db: Database, demand: Demand, result: Result<Counts>) {
    if Belongs(classes, db, demand) then result.Ok? else result == Err(NotFound)
  }

  lemma HonestNeverTaken(contacts: seq<Row>, k: nat)
    requires Honest(contacts) && k < |contacts|
    ensures !PlaceholderTaken(contacts, contacts[k])
  {
  }

  lemma {:induction false} RegistryKeepsTables(
    c: Context, registry: seq<Spec>, targets: Targets, db: Database, counts: Counts, model: string)
    requires model in db && Registry(c, registry, targets, db, counts).Ok?
    ensures model in Registry(c, registry, targets, db, counts).value.0
    decreases |registry|
  {
    if registry != [] {
      var ids := TargetIds(targets, registry[0].model);
      var (next, count) := Redacted(c, registry[0], ids, db);
      EachKeepsTables(c, registry[0], ids, db, 0, model);
      RegistryKeepsTables(c, registry[1..], targets, next, counts[registry[0].model := count], model);
    }
  }

  lemma {:induction false} EachKeepsTables(c: Context, spec: Spec, ids: Ids, db: Database, count: nat, model: string)
    requires model in db
    ensures model in UpdatedEach(c, spec, ids, db, count).0
    decreases |ids|
  {
    if ids != [] {
      var where := Equals("id", ids[0]);
      EachKeepsTables(c, spec, ids[1..], Updated(c, db, spec.model, where, Data(spec, ids[0], c.now)),
                      count + |Found(c, db, spec.model, where)|, model);
    }
  }

  lemma TransactedKeepsReady(classes: Classes, db: Database, demand: Demand)
    requires Ready(classes, db)
    ensures var (after, result) := Transacted(classes, db, demand);
            && Ready(classes, after)
            && SameContacts(TableOf(db, "Contact"), TableOf(after, "Contact"))
            && Answers(classes, db, demand, result)
  {
    var c := ContextOf(classes, demand);
    var contacts := TableOf(db, "Contact");
    ErasureOutcome(c, db, demand.contactId);
    forall k | 0 <= k < |contacts| ensures !PlaceholderTaken(contacts, contacts[k]) {
      HonestNeverTaken(contacts, k);
    }
    var erased := Erased(c, CONTACT_REDACTIONS, db, demand.contactId);
    if erased.Ok? {
      RewrittenStaysHonest(c, demand.contactId, contacts, TableOf(erased.value.0, "Contact"));
      forall model | model in db ensures model in erased.value.0 {
        RegistryKeepsTables(c, CONTACT_REDACTIONS, TargetsOf(c, db, demand.contactId), db, map[], model);
      }
      KnownCarries(classes, db, erased.value.0);
    }
  }

  lemma KnownCarries(classes: Classes, db: Database, after: Database)
    requires RegistryKnown(classes, db, CONTACT_REDACTIONS)
    requires forall model :: model in db ==> model in after
    ensures RegistryKnown(classes, after, CONTACT_REDACTIONS)
  {
  }

  predicate AnswersAll(classes: Classes, db: Database, demands: seq<Demand>, results: seq<Result<Counts>>) {
    |results| == |demands| && forall i :: 0 <= i < |demands| ==> Answers(classes, db, demands[i], results[i])
  }

  lemma AnswersPrepend(
    classes: Classes, db: Database, next: Database, demands: seq<Demand>, result: Result<Counts>,
    results: seq<Result<Counts>>)
    requires demands != [] && Answers(classes, db, demands[0], result)
    requires AnswersAll(classes, next, demands[1..], results)
    requires SameContacts(TableOf(db, "Contact"), TableOf(next, "Contact"))
    ensures AnswersAll(classes, db, demands, [result] + results)
  {
  }

  /**
   Any sequence of erasures, repeated ones and other tenants' included: each succeeds exactly when
   its tenant has the contact, none is refused by the unique index, and phone numbers stay unique.
   */
  lemma {:induction false} ErasuresNeverCollide(classes: Classes, db: Database, demands: seq<Demand>)
    requires Ready(classes, db)
    ensures var (after, results) := TransactedAll(classes, db, demands);
            Ready(classes, after) && AnswersAll(classes, db, demands, results)
    decreases |demands|
  {
    if demands != [] {
      var (next, result) := Transacted(classes, db, demands[0]);
      TransactedKeepsReady(classes, db, demands[0]);
      ErasuresNeverCollide(classes, next, demands[1..]);
      AnswersPrepend(classes, db, next, demands, result, TransactedAll(classes, next, demands[1..]).1);
    }
  }

  // ---------------------------------------------------------------------------------------------
  // Erasing inside one branch
  // ---------------------------------------------------------------------------------------------

  /** The same call with the scope widened to every branch. */
  function Widened(c: Context): Context {
    c.(scope := c.scope.(branchId := None))
  }

  predicate InBranch(c: Context, row: Row) {
    c.scope.branchId.Some? ==> Field(row, "branchId") == Text(c.scope.branchId.value)
  }

  ghost predicate ReachesAll(c: Context, db: Database, contactId: string) {
    forall model: string, i: nat ::
      (i < |TableOf(db, model)| && Reached(Widened(c), db, contactId, model, TableOf(db, model)[i])) ==>
        Reached(c, db, contactId, model, TableOf(db, model)[i])
  }

  ghost predicate AllInBranch(c: Context, db: Database, contactId: string) {
    forall model: string, i: nat ::
      (&& model in c.classes.branchScoped && i < |TableOf(db, model)|
       && Reached(Widened(c), db, contactId, model, TableOf(db, model)[i])) ==>
        InBranch(c, TableOf(db, model)[i])
  }

  /**
   A scope narrowed to a branch reaches everything the organization holds of the contact exactly
   when all of it that carries a branch is in that branch; anything else is left unredacted without
   an error. A scope without a branch always reaches everything.
   */
  lemma BranchErasureComplete(c: Context, db: Database, contactId: string)
    ensures ReachesAll(c, db, contactId) <==> AllInBranch(c, db, contactId)
    ensures c.scope.branchId.None? ==> ReachesAll(c, db, contactId)
  {
  }

}
