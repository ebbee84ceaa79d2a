/**
 The tenant isolation control: every operation on a scoped model is rewritten to one tenant, or
 refused, before the database sees it.
 */
module TenantScope {
  import opened Outcomes
  import opened TenantRows

  datatype Scope = Scope(organizationId: string, branchId: Option<string>)

  datatype Model = Model(name: string, fields: set<string>)

  datatype Classes = Classes(branchScoped: set<string>, orgScoped: set<string>, softDeletable: set<string>)

  const EXEMPT_MODELS: set<string> := {"AuditLog"}

  const UNIQUE_OPERATIONS: set<Operation> := {FindUnique, FindUniqueOrThrow, Update, Delete, Upsert}

  const FILTERING_OPERATIONS: set<Operation> :=
    {FindFirst, FindFirstOrThrow, FindMany, Count, Aggregate, GroupBy, UpdateMany, UpdateManyAndReturn, DeleteMany}

  const CREATING_OPERATIONS: set<Operation> := {Create, CreateMany, CreateManyAndReturn}

  /** Derives the classes from the schema; exempt models are only ever soft-deletable. */
  method Classify(models: seq<Model>) returns (classes: Classes)
    requires forall j, k :: 0 <= j < k < |models| ==> models[j].name != models[k].name
    ensures forall k :: 0 <= k < |models| ==>
              var m := models[k];
              && (m.name in classes.softDeletable <==> "deletedAt" in m.fields)
              && (m.name in classes.branchScoped <==> "branchId" in m.fields && m.name != "AuditLog")
              && (m.name in classes.orgScoped
                  <==> "organizationId" in m.fields && "branchId" !in m.fields && m.name != "AuditLog")
    ensures classes.branchScoped !! classes.orgScoped
  {
    var branchScoped, orgScoped, softDeletable: set<string> := {}, {}, {};
    for i := 0 to |models|
      invariant forall name :: name in branchScoped || name in orgScoped || name in softDeletable ==>
                  exists k :: 0 <= k < i && models[k].name == name
      invariant forall k :: 0 <= k < i ==>
                  var m := models[k];
                  && (m.name in softDeletable <==> "deletedAt" in m.fields)
                  && (m.name in branchScoped <==> "branchId" in m.fields && m.name !in EXEMPT_MODELS)
                  && (m.name in orgScoped
                      <==> "organizationId" in m.fields && "branchId" !in m.fields && m.name !in EXEMPT_MODELS)
      invariant branchScoped !! orgScoped
    {
      var model := models[i];
      if "deletedAt" in model.fields {
        softDeletable := softDeletable + {model.name};
      }
      if model.name in EXEMPT_MODELS {
        continue;
      }
      if "branchId" in model.fields {
        branchScoped := branchScoped + {model.name};
      } else if "organizationId" in model.fields {
        orgScoped := orgScoped + {model.name};
      }
    }
    classes := Classes(branchScoped, orgScoped, softDeletable);
  }

  predicate IsScoped(classes: Classes, model: string) {
    model in classes.orgScoped || model in classes.branchScoped
  }

  function ScopeColumns(classes: Classes, model: string, scope: Scope): Result<Row> {
    var columns: Row := map["organizationId" := Text(scope.organizationId)];
    if model !in classes.branchScoped then Ok(columns)
    else if scope.branchId.None? then Err(Internal)
    else Ok(columns["branchId" := Text(scope.branchId.value)])
  }

  function ScopeTests(classes: Classes, model: string, scope: Scope, includeDeleted: bool): seq<Where> {
    (if IsScoped(classes, model) then [Equals("organizationId", Text(scope.organizationId))] else [])
    + (if model in classes.branchScoped && scope.branchId.Some?
       then [Equals("branchId", Text(scope.branchId.value))] else [])
    + (if model in classes.softDeletable && !includeDeleted then [Equals("deletedAt", Null)] else [])
  }

  /** Conjoined with the caller's predicate, never merged into it. */
  function Narrowed(tests: seq<Where>, where: Option<Where>): Option<Where> {
    if tests == [] then where
    else if where.Some? then Some(All([All(tests), where.value]))
    else Some(All(tests))
  }

  function Stamped(rows: seq<Row>, columns: Row): seq<Row> {
    Merged(rows, columns)
  }

  /** The rewritten arguments, or the refusal. */
  function Rewrite(classes: Classes, scope: Scope, includeDeleted: bool, model: string, operation: Operation, args: Args)
    : Result<Args>
  {
    var scoped := IsScoped(classes, model);
    if !scoped && model !in classes.softDeletable then Ok(args)
    else if scoped && operation in UNIQUE_OPERATIONS then Err(Internal)
    else if operation in FILTERING_OPERATIONS then
      Ok(args.(where := Narrowed(ScopeTests(classes, model, scope, includeDeleted), args.where)))
    else if scoped && operation in CREATING_OPERATIONS then
      match ScopeColumns(classes, model, scope)
      case Err(error) => Err(error)
      case Ok(columns) => Ok(args.(data := Stamped(args.data, columns)))
    else Ok(args)
  }

  datatype Request = Request(model: string, operation: Operation, args: Args)

  function ScopedRun(classes: Classes, scope: Scope, includeDeleted: bool, db: Database, r: Request)
    : (Database, Result<Answer>)
  {
    match Rewrite(classes, scope, includeDeleted, r.model, r.operation, r.args)
    case Err(error) => (db, Err(error))
    case Ok(args) =>
      var (rows, answer) := Execute(TableOf(db, r.model), r.operation, args);
      (db[r.model := rows], Ok(answer))
  }

  /** A client bound to one tenant. */
  class ScopedClient {
    const classes: Classes
    const scope: Scope
    const includeDeleted: bool
    var tables: Database

    constructor (classes: Classes, scope: Scope, includeDeleted: bool, tables: Database)
      ensures this.classes == classes && this.scope == scope && this.includeDeleted == includeDeleted
      ensures this.tables == tables
    {
      this.classes, this.scope, this.includeDeleted, this.tables := classes, scope, includeDeleted, tables;
    }

    method Query(model: string, operation: Operation, args: Args) returns (answer: Answer)
      modifies this`tables
      ensures (TableOf(tables, model), answer) == Execute(TableOf(old(tables), model), operation, args)
      ensures tables == old(tables)[model := TableOf(tables, model)]
    {
      var (rows, result) := Execute(TableOf(tables, model), operation, args);
      tables := tables[model := rows];
      answer := result;
    }

    /** `$allOperations`: the rewriting of `args` step by step, then the query. */
    method AllOperations(model: string, operation: Operation, arguments: Args) returns (result: Result<Answer>)
      modifies this`tables
      ensures (tables, result)
              == ScopedRun(classes, scope, includeDeleted, old(tables), Request(model, operation, arguments))
    {
      var args := arguments;
      var scoped := IsScoped(classes, model);
      var softDeletable := model in classes.softDeletable;
      if !scoped && !softDeletable {
        var answer := Query(model, operation, args);
        return Ok(answer);
      }
      if scoped && operation in UNIQUE_OPERATIONS {
        return Err(Internal);
      }
      if operation in FILTERING_OPERATIONS {
        var tests: seq<Where> := [];
        if scoped {
          tests := tests + [Equals("organizationId", Text(scope.organizationId))];
          if model in classes.branchScoped && scope.branchId.Some? {
            tests := tests + [Equals("branchId", Text(scope.branchId.value))];
          }
        }
        if softDeletable && !includeDeleted {
          tests := tests + [Equals("deletedAt", Null)];
        }
        if tests != [] {
          args := args.(where := Some(if args.where.Some? then All([All(tests), args.where.value]) else All(tests)));
        }
        assert tests == ScopeTests(classes, model, scope, includeDeleted);
        var answer := Query(model, operation, args);
        return Ok(answer);
      }
      if scoped && operation in CREATING_OPERATIONS {
        var columns := ScopeColumns(classes, model, scope);
        if columns.Err? {
          return Err(columns.error);
        }
        args := args.(data := Stamped(args.data, columns.value));
      }
      var answer := Query(model, operation, args);
      return Ok(answer);
    }
  }
}
