/**
 What the scoped client answers and leaves, operation by operation, counted over the table's own rows.
 */
module TenantAnswers {
  import opened Outcomes
  import opened TenantRows
  import opened TenantScope
  import opened TenantIsolation

  /** The rows a request may meet: the tenant's, not deleted unless asked for, that match what the caller asks. */
  predicate Meets(classes: Classes, scope: Scope, includeDeleted: bool, model: string, where: Option<Where>, row: Row) {
    && (model in classes.orgScoped || model in classes.branchScoped ==>
          Field(row, "organizationId") == Text(scope.organizationId))
    && (model in classes.branchScoped && scope.branchId.Some? ==>
          Field(row, "branchId") == Text(scope.branchId.value))
    && (model in classes.softDeletable && !includeDeleted ==> Field(row, "deletedAt") == Null)
    && (where.Some? ==> Matches(where.value, row))
  }

  lemma AppendedTest(tests: seq<Where>, test: Where, row: Row)
    ensures Matches(All(tests + [test]), row) <==> Matches(All(tests), row) && Matches(test, row)
  {
    var all := tests + [test];
    assert forall i :: 0 <= i < |tests| ==> all[i] == tests[i];
    assert all[|tests|] == test;
    if Matches(All(all), row) {
      forall i | 0 <= i < |tests| ensures Matches(tests[i], row) {
        assert Matches(all[i], row);
      }
      assert Matches(all[|tests|], row);
    }
  }

  function OptionalTest(wanted: bool, test: Where): seq<Where> {
    if wanted then [test] else []
  }

  lemma OptionalTests(tests: seq<Where>, wanted: bool, test: Where, row: Row)
    ensures Matches(All(tests + OptionalTest(wanted, test)), row)
            <==> Matches(All(tests), row) && (wanted ==> Matches(test, row))
  {
    if wanted {
      AppendedTest(tests, test, row);
    } else {
      assert tests + [] == tests;
    }
  }

  lemma TestsExactly(classes: Classes, scope: Scope, includeDeleted: bool, model: string, row: Row)
    ensures Matches(All(ScopeTests(classes, model, scope, includeDeleted)), row)
            <==> Meets(classes, scope, includeDeleted, model, None, row)
  {
    var none: seq<Where> := [];
    var organization := OptionalTest(IsScoped(classes, model), Equals("organizationId", Text(scope.organizationId)));
    var inBranch := model in classes.branchScoped && scope.branchId.Some?;
    var id := if inBranch then scope.branchId.value else "";
    var branch := OptionalTest(inBranch, Equals("branchId", Text(id)));
    var kept := model in classes.softDeletable && !includeDeleted;
    OptionalTests(none, IsScoped(classes, model), Equals("organizationId", Text(scope.organizationId)), row);
    assert none + organization == organization;
    OptionalTests(organization, inBranch, Equals("branchId", Text(id)), row);
    OptionalTests(organization + branch, kept, Equals("deletedAt", Null), row);
    assert ScopeTests(classes, model, scope, includeDeleted)
           == organization + branch + OptionalTest(kept, Equals("deletedAt", Null));
  }

  /** The rewritten predicate selects exactly those rows, whatever the caller passes and whether it passes anything. */
  lemma SelectedExactly(classes: Classes, scope: Scope, includeDeleted: bool, model: string, where: Option<Where>, row: Row)
    ensures Selected(Narrowed(ScopeTests(classes, model, scope, includeDeleted), where), row)
            <==> Meets(classes, scope, includeDeleted, model, where, row)
  {
    var tests := ScopeTests(classes, model, scope, includeDeleted);
    TestsExactly(classes, scope, includeDeleted, model, row);
    if tests != [] && where.Some? {
      AppendedTest([All(tests)], where.value, row);
      AppendedTest([], All(tests), row);
      assert [] + [All(tests)] == [All(tests)] && [All(tests)] + [where.value] == [All(tests), where.value];
    }
  }

  /** The positions of a set, in increasing order. */
  ghost predicate Enumerates(at: seq<nat>, positions: set<nat>) {
    && (forall j, k :: 0 <= j < k < |at| ==> at[j] < at[k])
    && forall i :: i in at <==> i in positions
  }

  function Shifted(at: seq<nat>): (shifted: seq<nat>)
    ensures |shifted| == |at| && forall k :: 0 <= k < |at| ==> shifted[k] == at[k] + 1
  {
    seq(|at|, k requires 0 <= k < |at| => at[k] + 1)
  }

  lemma EnumerationShifts(at: seq<nat>, positions: set<nat>, first: seq<nat>, all: set<nat>)
    requires Enumerates(at, positions) && first in {[], [0]}
    requires forall i: nat :: i in all <==> if i == 0 then first == [0] else i - 1 in positions
    ensures Enumerates(first + Shifted(at), all)
  {
    var longer := first + Shifted(at);
    forall i: nat ensures i in longer <==> i in all {
      if i in all && i > 0 {
        var k :| 0 <= k < |at| && at[k] == i - 1;
        assert longer[|first| + k] == i;
      }
      if i in all && i == 0 {
        assert longer[0] == 0;
      }
      if k :| 0 <= k < |longer| && longer[k] == i {
        if k >= |first| {
          assert at[k - |first|] == i - 1 && at[k - |first|] in at;
        }
      }
    }
  }

  /** The rows at some positions, in their order. */
  function At(rows: seq<Row>, at: seq<nat>): (picked: seq<Row>)
    requires forall k :: 0 <= k < |at| ==> at[k] < |rows|
    ensures |picked| == |at| && forall k :: 0 <= k < |at| ==> picked[k] == rows[at[k]]
  {
    seq(|at|, k requires 0 <= k < |at| => rows[at[k]])
  }

  lemma AtShifts(rows: seq<Row>, at: seq<nat>)
    requires rows != [] && forall k :: 0 <= k < |at| ==> at[k] < |rows| - 1
    ensures At(rows, Shifted(at)) == At(rows[1..], at)
    ensures At(rows, [0] + Shifted(at)) == [rows[0]] + At(rows[1..], at)
  {
  }

  /** The positions whose row a predicate selects, or does not. */
  function Picks(rows: seq<Row>, where: Option<Where>, selected: bool): set<nat> {
    set i: nat | i < |rows| && Selected(where, rows[i]) == selected
  }

  lemma PicksStep(rows: seq<Row>, where: Option<Where>, selected: bool, i: nat)
    requires rows != []
    ensures i in Picks(rows, where, selected)
            <==> if i == 0 then Selected(where, rows[0]) == selected else i - 1 in Picks(rows[1..], where, selected)
  {
    if 0 < i < |rows| {
      assert rows[1..][i - 1] == rows[i];
    }
  }

  lemma PicksSteps(rows: seq<Row>, where: Option<Where>, selected: bool, at: seq<nat>) returns (all: seq<nat>)
    requires rows != [] && Enumerates(at, Picks(rows[1..], where, selected))
    ensures Enumerates(all, Picks(rows, where, selected))
    ensures all == if Selected(where, rows[0]) == selected then [0] + Shifted(at) else Shifted(at)
  {
    var first: seq<nat> := if Selected(where, rows[0]) == selected then [0] else [];
    forall i: nat
      ensures i in Picks(rows, where, selected)
              <==> if i == 0 then first == [0] else i - 1 in Picks(rows[1..], where, selected)
    {
      PicksStep(rows, where, selected, i);
    }
    EnumerationShifts(at, Picks(rows[1..], where, selected), first, Picks(rows, where, selected));
    all := first + Shifted(at);
    assert [] + Shifted(at) == Shifted(at);
  }

  lemma InRange(at: seq<nat>, rows: seq<Row>, where: Option<Where>, selected: bool)
    requires Enumerates(at, Picks(rows, where, selected))
    ensures forall k :: 0 <= k < |at| ==> at[k] < |rows|
  {
    assert forall k :: 0 <= k < |at| ==> at[k] in at && at[k] in Picks(rows, where, selected);
  }

  lemma {:induction false} FilterPicks(rows: seq<Row>, where: Option<Where>) returns (at: seq<nat>)
    ensures Enumerates(at, Picks(rows, where, true))
    ensures (forall k :: 0 <= k < |at| ==> at[k] < |rows|) && Filter(rows, where) == At(rows, at)
  {
    at := [];
    if rows != [] {
      var rest := FilterPicks(rows[1..], where);
      AtShifts(rows, rest);
      at := PicksSteps(rows, where, true, rest);
      InRange(at, rows, where, true);
    }
  }

  lemma {:induction false} WithoutPicks(rows: seq<Row>, where: Option<Where>) returns (at: seq<nat>)
    ensures Enumerates(at, Picks(rows, where, false))
    ensures (forall k :: 0 <= k < |at| ==> at[k] < |rows|) && Without(rows, where) == At(rows, at)
  {
    at := [];
    if rows != [] {
      var rest := WithoutPicks(rows[1..], where);
      AtShifts(rows, rest);
      at := PicksSteps(rows, where, false, rest);
      InRange(at, rows, where, false);
    }
  }

  lemma {:induction false} ChangedAt(rows: seq<Row>, where: Option<Where>, changes: Row)
    ensures |Changed(rows, where, changes)| == |rows|
    ensures forall i :: 0 <= i < |rows| ==>
              Changed(rows, where, changes)[i] == if Selected(where, rows[i]) then rows[i] + changes else rows[i]
  {
    if rows != [] {
      ChangedAt(rows[1..], where, changes);
    }
  }

  lemma {:induction false} MergedAt(rows: seq<Row>, changes: Row)
    ensures |Merged(rows, changes)| == |rows|
    ensures forall i :: 0 <= i < |rows| ==> Merged(rows, changes)[i] == rows[i] + changes
  {
    if rows != [] {
      MergedAt(rows[1..], changes);
    }
  }

  /** What an operation that selects rows answers and leaves, `at` being the positions met and `rest` the others. */
  ghost predicate AnswersAs(r: Request, rows: seq<Row>, at: seq<nat>, rest: seq<nat>, after: seq<Row>, answer: Answer)
    requires (forall k :: 0 <= k < |at| ==> at[k] < |rows|) && (forall k :: 0 <= k < |rest| ==> rest[k] < |rows|)
  {
    match r.operation
    case FindFirst | FindMany | Aggregate | GroupBy => after == rows && answer == Rows(r.args.post(At(rows, at)))
    case FindFirstOrThrow => after == rows && answer == if at == [] then Missing else Rows(r.args.post(At(rows, at)))
    case Count => after == rows && answer == Affected(|at|)
    case UpdateMany => Updated(rows, at, r.args.changes, after) && answer == Affected(|at|)
    case UpdateManyAndReturn => Updated(rows, at, r.args.changes, after) && answer == Rows(r.args.post(At(after, at)))
    case DeleteMany => after == At(rows, rest) && answer == Affected(|at|)
    case _ => false
  }

  /** The rows at the positions take the changes; every other row stays as it was, in its place. */
  ghost predicate Updated(rows: seq<Row>, at: seq<nat>, changes: Row, after: seq<Row>) {
    |after| == |rows| && forall i: nat :: i < |rows| ==> after[i] == if i in at then rows[i] + changes else rows[i]
  }

  lemma ChangedIsUpdated(rows: seq<Row>, where: Option<Where>, changes: Row, at: seq<nat>)
    requires Enumerates(at, Picks(rows, where, true))
    ensures Updated(rows, at, changes, Changed(rows, where, changes))
  {
    ChangedAt(rows, where, changes);
    forall i: nat | i < |rows|
      ensures Changed(rows, where, changes)[i] == if i in at then rows[i] + changes else rows[i]
    {
      assert i in at <==> i in Picks(rows, where, true);
    }
  }

  /** The operations that read or delete, over what the predicate selects and what it does not. */
  lemma ReadExactly(rows: seq<Row>, operation: Operation, args: Args)
    requires operation in FILTERING_OPERATIONS && !operation.UpdateMany? && !operation.UpdateManyAndReturn?
    ensures Execute(rows, operation, args).0 == if operation.DeleteMany? then Without(rows, args.where) else rows
    ensures Execute(rows, operation, args).1
            == if operation.Count? || operation.DeleteMany? then Affected(|Filter(rows, args.where)|)
               else if operation.FindFirstOrThrow? && Filter(rows, args.where) == [] then Missing
               else Rows(args.post(Filter(rows, args.where)))
  {
  }

  lemma UpdatedExactly(rows: seq<Row>, r: Request, args: Args, at: seq<nat>, rest: seq<nat>)
    requires r.operation.UpdateMany? || r.operation.UpdateManyAndReturn?
    requires args.post == r.args.post && args.changes == r.args.changes
    requires (forall k :: 0 <= k < |at| ==> at[k] < |rows|) && (forall k :: 0 <= k < |rest| ==> rest[k] < |rows|)
    requires Filter(rows, args.where) == At(rows, at)
    requires Updated(rows, at, args.changes, Changed(rows, args.where, args.changes))
    ensures AnswersAs(r, rows, at, rest, Execute(rows, r.operation, args).0, Execute(rows, r.operation, args).1)
  {
    var after := Changed(rows, args.where, args.changes);
    MergedAt(At(rows, at), args.changes);
    assert forall k :: 0 <= k < |at| ==> at[k] in at;
    assert Merged(At(rows, at), args.changes) == At(after, at);
  }

  /** Every operation that selects rows meets exactly the tenant's rows that match, and no other row takes part. */
  lemma FilteringExactly(classes: Classes, scope: Scope, includeDeleted: bool, db: Database, r: Request)
    returns (at: seq<nat>, rest: seq<nat>)
    requires r.operation in FILTERING_OPERATIONS
    ensures (forall k :: 0 <= k < |at| ==> at[k] < |TableOf(db, r.model)|)
            && (forall k :: 0 <= k < |rest| ==> rest[k] < |TableOf(db, r.model)|)
    ensures var rows := TableOf(db, r.model);
            && Enumerates(at, set i: nat | i < |rows|
                                && Meets(classes, scope, includeDeleted, r.model, r.args.where, rows[i]))
            && Enumerates(rest, set i: nat | i < |rows|
                                  && !Meets(classes, scope, includeDeleted, r.model, r.args.where, rows[i]))
            && var (after, result) := ScopedRun(classes, scope, includeDeleted, db, r);
               && result.Ok? && after == db[r.model := TableOf(after, r.model)]
               && AnswersAs(r, rows, at, rest, TableOf(after, r.model), result.value)
  {
    var rows := TableOf(db, r.model);
    var narrowed := Narrowed(ScopeTests(classes, r.model, scope, includeDeleted), r.args.where);
    var args := r.args.(where := narrowed);
    OperationsCovered(r.operation);
    forall row: Row
      ensures Selected(narrowed, row) <==> Meets(classes, scope, includeDeleted, r.model, r.args.where, row)
    {
      SelectedExactly(classes, scope, includeDeleted, r.model, r.args.where, row);
    }
    at := FilterPicks(rows, narrowed);
    rest := WithoutPicks(rows, narrowed);
    assert Picks(rows, narrowed, true)
           == set i: nat | i < |rows| && Meets(classes, scope, includeDeleted, r.model, r.args.where, rows[i]);
    assert Picks(rows, narrowed, false)
           == set i: nat | i < |rows| && !Meets(classes, scope, includeDeleted, r.model, r.args.where, rows[i]);
    if r.operation.UpdateMany? || r.operation.UpdateManyAndReturn? {
      ChangedIsUpdated(rows, narrowed, args.changes, at);
      UpdatedExactly(rows, r, args, at, rest);
    } else {
      ReadExactly(rows, r.operation, args);
    }
    RewrittenFilter(classes, scope, includeDeleted, r);
  }

  lemma RewrittenFilter(classes: Classes, scope: Scope, includeDeleted: bool, r: Request)
    requires r.operation in FILTERING_OPERATIONS
    ensures Rewrite(classes, scope, includeDeleted, r.model, r.operation, r.args)
            == Ok(r.args.(where := Narrowed(ScopeTests(classes, r.model, scope, includeDeleted), r.args.where)))
  {
    OperationsCovered(r.operation);
  }

  /** On a scoped model what selects by a unique key is refused and leaves every table as it was. */
  lemma UniqueRefused(classes: Classes, scope: Scope, includeDeleted: bool, db: Database, r: Request)
    requires r.model in classes.orgScoped || r.model in classes.branchScoped
    requires r.operation in {FindUnique, FindUniqueOrThrow, Update, Delete, Upsert}
    ensures ScopedRun(classes, scope, includeDeleted, db, r) == (db, Err(Internal))
  {
  }

  /** On a model that is neither scoped nor soft-deletable every operation reaches the database as it was given. */
  lemma PassedThrough(classes: Classes, scope: Scope, includeDeleted: bool, db: Database, r: Request)
    requires r.model !in classes.orgScoped && r.model !in classes.branchScoped && r.model !in classes.softDeletable
    ensures var (rows, answer) := Execute(TableOf(db, r.model), r.operation, r.args);
            ScopedRun(classes, scope, includeDeleted, db, r) == (db[r.model := rows], Ok(answer))
  {
  }

  /** A created row is what the caller gave with the scope's own columns over it, and nothing else over it. */
  lemma CreatedExactly(classes: Classes, scope: Scope, includeDeleted: bool, db: Database, r: Request)
    requires r.model in classes.orgScoped || r.model in classes.branchScoped
    requires r.operation in {Create, CreateMany, CreateManyAndReturn}
    requires r.model in classes.branchScoped ==> scope.branchId.Some?
    ensures var (after, result) := ScopedRun(classes, scope, includeDeleted, db, r);
            var columns: Row := if r.model in classes.branchScoped
                                then map["organizationId" := Text(scope.organizationId),
                                         "branchId" := Text(scope.branchId.value)]
                                else map["organizationId" := Text(scope.organizationId)];
            var created := seq(|r.args.data|, k requires 0 <= k < |r.args.data| => r.args.data[k] + columns);
            && after == db[r.model := TableOf(db, r.model) + created]
            && result == Ok(if r.operation == CreateMany then Affected(|created|) else Rows(r.args.post(created)))
  {
    var columns := ScopeColumns(classes, r.model, scope).value;
    MergedAt(r.args.data, columns);
    var created := seq(|r.args.data|, k requires 0 <= k < |r.args.data| => r.args.data[k] + columns);
    assert Stamped(r.args.data, columns) == created;
    OperationsCovered(r.operation);
    CreationAppends(TableOf(db, r.model), r.operation, r.args.(data := created));
  }
}
