/**
 Non-interference of the scoped client: what one tenant sees and leaves behind depends on its own
 rows only, and no other tenant's row is returned, changed or deleted.
 */
module TenantIsolation {
  import opened Outcomes
  import opened TenantRows
  import opened TenantScope

  /** The rows of the scope on a scoped model, deleted ones included. */
  function Tenant(classes: Classes, scope: Scope, model: string): Option<Where> {
    Some(All(ScopeTests(classes, model, scope, true)))
  }

  predicate InTenant(classes: Classes, scope: Scope, model: string, row: Row) {
    && Field(row, "organizationId") == Text(scope.organizationId)
    && (model in classes.branchScoped && scope.branchId.Some? ==>
          Field(row, "branchId") == Text(scope.branchId.value))
  }

  lemma TenantMeaning(classes: Classes, scope: Scope, model: string, row: Row)
    requires IsScoped(classes, model)
    ensures Selected(Tenant(classes, scope, model), row) <==> InTenant(classes, scope, model, row)
  {
    var tests := ScopeTests(classes, model, scope, true);
    if model in classes.branchScoped && scope.branchId.Some? {
      assert tests == [Equals("organizationId", Text(scope.organizationId)), Equals("branchId", Text(scope.branchId.value))];
      assert Matches(tests[0], row) <==> Field(row, "organizationId") == Text(scope.organizationId);
      assert Matches(tests[1], row) <==> Field(row, "branchId") == Text(scope.branchId.value);
    } else {
      assert tests == [Equals("organizationId", Text(scope.organizationId))];
      assert Matches(tests[0], row) <==> Field(row, "organizationId") == Text(scope.organizationId);
    }
  }

  ghost predicate Narrower(w: Option<Where>, t: Option<Where>) {
    forall row: Row :: Selected(w, row) ==> Selected(t, row)
  }

  /** Whatever predicate the caller passes, the rewritten one selects only rows of the tenant. */
  lemma NarrowedInTenant(classes: Classes, scope: Scope, includeDeleted: bool, model: string, where: Option<Where>)
    requires IsScoped(classes, model)
    ensures Narrower(Narrowed(ScopeTests(classes, model, scope, includeDeleted), where), Tenant(classes, scope, model))
  {
    var all := ScopeTests(classes, model, scope, includeDeleted);
    var tests := ScopeTests(classes, model, scope, true);
    var narrowed := Narrowed(all, where);
    assert |tests| <= |all| && forall i :: 0 <= i < |tests| ==> tests[i] == all[i];
    forall row: Row | Selected(narrowed, row) ensures Selected(Tenant(classes, scope, model), row) {
      assert Matches(All(all), row) by {
        if where.Some? {
          var parts := [All(all), where.value];
          assert Matches(All(parts), row);
          assert Matches(parts[0], row);
        }
      }
      forall i | 0 <= i < |tests| ensures Matches(tests[i], row) {
        assert Matches(all[i], row);
      }
    }
  }

  /** Soft-deleted rows are hidden unless the client was asked to include them. */
  lemma NarrowedHidesDeleted(classes: Classes, scope: Scope, model: string, where: Option<Where>, row: Row)
    requires model in classes.softDeletable
    requires Selected(Narrowed(ScopeTests(classes, model, scope, false), where), row)
    ensures Field(row, "deletedAt") == Null && Selected(where, row)
  {
    var all := ScopeTests(classes, model, scope, false);
    if where.Some? {
      var parts := [All(all), where.value];
      assert Matches(All(parts), row);
      assert Matches(parts[0], row) && Matches(parts[1], row);
    }
    assert Matches(All(all), row);
    assert all[|all| - 1] == Equals("deletedAt", Null);
    assert Matches(all[|all| - 1], row);
  }

  // ---------------------------------------------------------------------------------------------
  // Tables seen through a tenant
  // ---------------------------------------------------------------------------------------------

  lemma {:induction false} FilterThrough(rows: seq<Row>, w: Option<Where>, t: Option<Where>)
    requires Narrower(w, t)
    ensures Filter(Filter(rows, t), w) == Filter(rows, w)
  {
    if rows != [] {
      FilterThrough(rows[1..], w, t);
      if Selected(t, rows[0]) {
        assert ([rows[0]] + Filter(rows[1..], t))[1..] == Filter(rows[1..], t);
      }
    }
  }

  lemma {:induction false} FilterAppends(a: seq<Row>, b: seq<Row>, w: Option<Where>)
    ensures Filter(a + b, w) == Filter(a, w) + Filter(b, w)
  {
    if a == [] {
      assert a + b == b;
    } else {
      assert (a + b)[1..] == a[1..] + b;
      FilterAppends(a[1..], b, w);
    }
  }

  lemma {:induction false} WithoutThrough(rows: seq<Row>, w: Option<Where>, t: Option<Where>)
    requires Narrower(w, t)
    ensures Filter(Without(rows, w), t) == Without(Filter(rows, t), w)
  {
    if rows != [] {
      WithoutThrough(rows[1..], w, t);
      if Selected(t, rows[0]) {
        assert ([rows[0]] + Filter(rows[1..], t))[1..] == Filter(rows[1..], t);
      }
      if !Selected(w, rows[0]) {
        assert ([rows[0]] + Without(rows[1..], w))[1..] == Without(rows[1..], w);
      }
    }
  }

  lemma FilterOne(row: Row, t: Option<Where>)
    ensures Filter([row], t) == if Selected(t, row) then [row] else []
  {
  }

  lemma {:induction false} ChangedThrough(rows: seq<Row>, w: Option<Where>, t: Option<Where>, changes: Row)
    requires Narrower(w, t)
    ensures Filter(Changed(rows, w, changes), t) == Filter(Changed(Filter(rows, t), w, changes), t)
  {
    if rows != [] {
      ChangedThrough(rows[1..], w, t, changes);
      var first := if Selected(w, rows[0]) then rows[0] + changes else rows[0];
      assert Changed(rows, w, changes) == [first] + Changed(rows[1..], w, changes);
      FilterAppends([first], Changed(rows[1..], w, changes), t);
      if Selected(t, rows[0]) {
        var through := [rows[0]] + Filter(rows[1..], t);
        assert through[1..] == Filter(rows[1..], t);
        assert Changed(through, w, changes) == [first] + Changed(Filter(rows[1..], t), w, changes);
        FilterAppends([first], Changed(Filter(rows[1..], t), w, changes), t);
      } else {
        FilterOne(rows[0], t);
      }
    }
  }

  // ---------------------------------------------------------------------------------------------
  // Non-interference
  // ---------------------------------------------------------------------------------------------

  ghost predicate AgreeOn(classes: Classes, scope: Scope, c: Database, d: Database, model: string) {
    if IsScoped(classes, model)
    then Filter(TableOf(c, model), Tenant(classes, scope, model)) == Filter(TableOf(d, model), Tenant(classes, scope, model))
    else TableOf(c, model) == TableOf(d, model)
  }

  /** The databases hold the same rows of the tenant, and the same rows of every unscoped model. */
  ghost predicate Agree(classes: Classes, scope: Scope, c: Database, d: Database) {
    forall model :: AgreeOn(classes, scope, c, d, model)
  }

  predicate Filtering(operation: Operation) {
    operation in FILTERING_OPERATIONS
  }

  /** Every operation is refused by key, filtered or stamped: none passes a scoped model untouched. */
  lemma OperationsCovered(operation: Operation)
    ensures operation in UNIQUE_OPERATIONS || operation in FILTERING_OPERATIONS || operation in CREATING_OPERATIONS
    ensures !(operation in UNIQUE_OPERATIONS && operation in FILTERING_OPERATIONS)
    ensures !(operation in CREATING_OPERATIONS && operation in FILTERING_OPERATIONS + UNIQUE_OPERATIONS)
  {
  }

  /** An operation filtered inside the tenant answers alike on tables that agree there, and keeps them agreeing. */
  lemma FilteredAlike(a: seq<Row>, b: seq<Row>, t: Option<Where>, operation: Operation, args: Args)
    requires operation in FILTERING_OPERATIONS && Narrower(args.where, t) && Filter(a, t) == Filter(b, t)
    ensures Execute(a, operation, args).1 == Execute(b, operation, args).1
    ensures Filter(Execute(a, operation, args).0, t) == Filter(Execute(b, operation, args).0, t)
  {
    FilterThrough(a, args.where, t);
    FilterThrough(b, args.where, t);
    WithoutThrough(a, args.where, t);
    WithoutThrough(b, args.where, t);
    ChangedThrough(a, args.where, t, args.changes);
    ChangedThrough(b, args.where, t, args.changes);
  }

  lemma CreationAppends(rows: seq<Row>, operation: Operation, args: Args)
    requires operation in CREATING_OPERATIONS
    ensures Execute(rows, operation, args).0 == rows + args.data
    ensures Execute(rows, operation, args).1
            == if operation.CreateMany? then Affected(|args.data|) else Rows(args.post(args.data))
  {
  }

  lemma CreatedAlike(a: seq<Row>, b: seq<Row>, t: Option<Where>, operation: Operation, args: Args)
    requires operation in CREATING_OPERATIONS && Filter(a, t) == Filter(b, t)
    ensures Execute(a, operation, args).1 == Execute(b, operation, args).1
    ensures Filter(Execute(a, operation, args).0, t) == Filter(Execute(b, operation, args).0, t)
  {
    CreationAppends(a, operation, args);
    CreationAppends(b, operation, args);
    FilterAppends(a, args.data, t);
    FilterAppends(b, args.data, t);
  }

  lemma ScopedRunAgrees(classes: Classes, scope: Scope, includeDeleted: bool, c: Database, d: Database, r: Request)
    requires Agree(classes, scope, c, d)
    ensures ScopedRun(classes, scope, includeDeleted, c, r).1 == ScopedRun(classes, scope, includeDeleted, d, r).1
    ensures Agree(classes, scope, ScopedRun(classes, scope, includeDeleted, c, r).0,
                  ScopedRun(classes, scope, includeDeleted, d, r).0)
  {
    var c', d' := ScopedRun(classes, scope, includeDeleted, c, r).0, ScopedRun(classes, scope, includeDeleted, d, r).0;
    var rewritten := Rewrite(classes, scope, includeDeleted, r.model, r.operation, r.args);
    assert AgreeOn(classes, scope, c, d, r.model);
    if rewritten.Ok? && IsScoped(classes, r.model) {
      OperationsCovered(r.operation);
      var t := Tenant(classes, scope, r.model);
      if Filtering(r.operation) {
        NarrowedInTenant(classes, scope, includeDeleted, r.model, r.args.where);
        FilteredAlike(TableOf(c, r.model), TableOf(d, r.model), t, r.operation, rewritten.value);
      } else {
        CreatedAlike(TableOf(c, r.model), TableOf(d, r.model), t, r.operation, rewritten.value);
      }
    }
    forall model ensures AgreeOn(classes, scope, c', d', model) {
      assert AgreeOn(classes, scope, c, d, model);
    }
  }

  function ScopedRuns(classes: Classes, scope: Scope, includeDeleted: bool, db: Database, requests: seq<Request>)
    : (Database, seq<Result<Answer>>)
    decreases |requests|
  {
    if requests == [] then (db, [])
    else
      var (after, answer) := ScopedRun(classes, scope, includeDeleted, db, requests[0]);
      var (end, answers) := ScopedRuns(classes, scope, includeDeleted, after, requests[1..]);
      (end, [answer] + answers)
  }

  /** Databases that agree on the tenant's rows answer every sequence of scoped requests identically. */
  lemma {:induction false} NonInterference(classes: Classes, scope: Scope, includeDeleted: bool, c: Database, d: Database,
                                           requests: seq<Request>)
    requires Agree(classes, scope, c, d)
    ensures ScopedRuns(classes, scope, includeDeleted, c, requests).1
            == ScopedRuns(classes, scope, includeDeleted, d, requests).1
    ensures Agree(classes, scope, ScopedRuns(classes, scope, includeDeleted, c, requests).0,
                  ScopedRuns(classes, scope, includeDeleted, d, requests).0)
    decreases |requests|
  {
    if requests != [] {
      var r := requests[0];
      ScopedRunAgrees(classes, scope, includeDeleted, c, d, r);
      NonInterference(classes, scope, includeDeleted, ScopedRun(classes, scope, includeDeleted, c, r).0,
                      ScopedRun(classes, scope, includeDeleted, d, r).0, requests[1..]);
    }
  }

  // ---------------------------------------------------------------------------------------------
  // Other tenants' rows
  // ---------------------------------------------------------------------------------------------

  /** Rows outside the tenant, with multiplicity. */
  function Foreign(rows: seq<Row>, t: Option<Where>): multiset<Row> {
    if rows == [] then multiset{}
    else Foreign(rows[1..], t) + (if Selected(t, rows[0]) then multiset{} else multiset{rows[0]})
  }

  lemma {:induction false} ForeignAppends(a: seq<Row>, b: seq<Row>, t: Option<Where>)
    ensures Foreign(a + b, t) == Foreign(a, t) + Foreign(b, t)
  {
    if a == [] {
      assert a + b == b;
    } else {
      assert (a + b)[1..] == a[1..] + b;
      ForeignAppends(a[1..], b, t);
    }
  }

  lemma {:induction false} ForeignSurvives(rows: seq<Row>, w: Option<Where>, t: Option<Where>, changes: Row)
    requires Narrower(w, t)
    ensures Foreign(rows, t) <= Foreign(Changed(rows, w, changes), t)
    ensures Foreign(rows, t) == Foreign(Without(rows, w), t)
  {
    if rows != [] {
      ForeignSurvives(rows[1..], w, t, changes);
      var first := if Selected(w, rows[0]) then rows[0] + changes else rows[0];
      assert Changed(rows, w, changes)[1..] == Changed(rows[1..], w, changes);
      if !Selected(w, rows[0]) {
        assert Without(rows, w)[1..] == Without(rows[1..], w);
      }
    }
  }

  /** What a filtering operation leaves: the rows as they were, changed where selected, or without the selected. */
  lemma FilteringLeaves(rows: seq<Row>, operation: Operation, args: Args)
    requires operation in FILTERING_OPERATIONS
    ensures var after := Execute(rows, operation, args).0;
            after == rows || after == Changed(rows, args.where, args.changes) || after == Without(rows, args.where)
  {
  }

  lemma ExecutedForeignSurvives(rows: seq<Row>, t: Option<Where>, operation: Operation, args: Args)
    requires operation in FILTERING_OPERATIONS && Narrower(args.where, t)
    ensures Foreign(rows, t) <= Foreign(Execute(rows, operation, args).0, t)
  {
    FilteringLeaves(rows, operation, args);
    ForeignSurvives(rows, args.where, t, args.changes);
  }

  /** No row of another tenant is changed or deleted by any scoped request; every one is still there as it was. */
  lemma ForeignRowsSurvive(classes: Classes, scope: Scope, includeDeleted: bool, db: Database, r: Request, model: string)
    requires IsScoped(classes, model)
    ensures Foreign(TableOf(db, model), Tenant(classes, scope, model))
            <= Foreign(TableOf(ScopedRun(classes, scope, includeDeleted, db, r).0, model), Tenant(classes, scope, model))
  {
    var rewritten := Rewrite(classes, scope, includeDeleted, r.model, r.operation, r.args);
    if rewritten.Ok? && model == r.model {
      OperationsCovered(r.operation);
      var t := Tenant(classes, scope, model);
      var rows := TableOf(db, model);
      if Filtering(r.operation) {
        NarrowedInTenant(classes, scope, includeDeleted, model, r.args.where);
        ExecutedForeignSurvives(rows, t, r.operation, rewritten.value);
      } else {
        CreationAppends(rows, r.operation, rewritten.value);
        ForeignAppends(rows, rewritten.value.data, t);
      }
    }
  }

  lemma {:induction false} SelectedInTenant(rows: seq<Row>, w: Option<Where>, classes: Classes, scope: Scope,
                                            model: string, row: Row)
    requires IsScoped(classes, model) && Narrower(w, Tenant(classes, scope, model)) && row in Filter(rows, w)
    ensures InTenant(classes, scope, model, row)
  {
    if Selected(w, rows[0]) && row == rows[0] {
      TenantMeaning(classes, scope, model, row);
    } else {
      SelectedInTenant(rows[1..], w, classes, scope, model, row);
    }
  }

  /** Everything a filtering request answers is computed from rows of the tenant that match the caller's predicate. */
  lemma AnswersComeFromTenant(classes: Classes, scope: Scope, includeDeleted: bool, db: Database, r: Request, row: Row)
    requires IsScoped(classes, r.model) && Filtering(r.operation)
    requires var rewritten := Rewrite(classes, scope, includeDeleted, r.model, r.operation, r.args);
             rewritten.Ok? && row in Filter(TableOf(db, r.model), rewritten.value.where)
    ensures InTenant(classes, scope, r.model, row) && Selected(r.args.where, row)
  {
    var tests := ScopeTests(classes, r.model, scope, includeDeleted);
    var narrowed := Narrowed(tests, r.args.where);
    OperationsCovered(r.operation);
    NarrowedInTenant(classes, scope, includeDeleted, r.model, r.args.where);
    SelectedInTenant(TableOf(db, r.model), narrowed, classes, scope, r.model, row);
    FilterSelects(TableOf(db, r.model), narrowed, row);
    if r.args.where.Some? {
      var parts := [All(tests), r.args.where.value];
      assert Matches(All(parts), row);
      assert Matches(parts[1], row);
    }
  }

  lemma {:induction false} FilterSelects(rows: seq<Row>, w: Option<Where>, row: Row)
    requires row in Filter(rows, w)
    ensures Selected(w, row)
  {
    if !(Selected(w, rows[0]) && row == rows[0]) {
      FilterSelects(rows[1..], w, row);
    }
  }

  /** Every created row carries the organization of the scope, and its branch on a branch-scoped model. */
  lemma CreatedRowsCarryScope(classes: Classes, scope: Scope, includeDeleted: bool, db: Database, r: Request)
    requires IsScoped(classes, r.model) && r.operation in CREATING_OPERATIONS
    ensures var (after, result) := ScopedRun(classes, scope, includeDeleted, db, r);
            && (result.Err? <==> r.model in classes.branchScoped && scope.branchId.None?)
            && (result.Err? ==> after == db)
            && (result.Ok? ==>
                  && TableOf(db, r.model) <= TableOf(after, r.model)
                  && |TableOf(after, r.model)| == |TableOf(db, r.model)| + |r.args.data|
                  && forall i :: |TableOf(db, r.model)| <= i < |TableOf(after, r.model)| ==>
                       InTenant(classes, scope, r.model, TableOf(after, r.model)[i]))
  {
    OperationsCovered(r.operation);
    var columns := ScopeColumns(classes, r.model, scope);
    if columns.Ok? {
      StampedCarry(r.args.data, columns.value, classes, scope, r.model);
    }
  }

  lemma {:induction false} StampedCarry(rows: seq<Row>, columns: Row, classes: Classes, scope: Scope, model: string)
    requires ScopeColumns(classes, model, scope) == Ok(columns)
    ensures |Stamped(rows, columns)| == |rows|
    ensures forall i :: 0 <= i < |rows| ==>
              && Stamped(rows, columns)[i] == rows[i] + columns
              && InTenant(classes, scope, model, Stamped(rows, columns)[i])
  {
    if rows != [] {
      StampedCarry(rows[1..], columns, classes, scope, model);
    }
  }
}
