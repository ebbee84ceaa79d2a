/**
 Unique keys and the scoped client: the one way another tenant's rows can show through is a refusal
 by a key that reaches across tenants.
 */
module TenantKeys {
  import opened Outcomes
  import opened TenantRows
  import opened TenantScope
  import opened TenantIsolation

  /** The columns of one unique key. */
  type Unique = set<string>

  /** The unique keys of each model, the primary key among them. */
  type Keys = string -> seq<Unique>

  /** Null never equals null in a unique key. */
  predicate SameOn(key: Unique, a: Row, b: Row) {
    forall name :: name in key ==> Field(a, name) == Field(b, name) && Field(a, name) != Null
  }

  predicate Collide(keys: seq<Unique>, a: Row, b: Row) {
    exists k :: 0 <= k < |keys| && SameOn(keys[k], a, b)
  }

  predicate ApartFromAll(keys: seq<Unique>, row: Row, rows: seq<Row>) {
    forall k :: 0 <= k < |rows| ==> !Collide(keys, row, rows[k])
  }

  predicate Keyed(keys: seq<Unique>, rows: seq<Row>) {
    rows == [] || (ApartFromAll(keys, rows[0], rows[1..]) && Keyed(keys, rows[1..]))
  }

  predicate CrossApart(keys: seq<Unique>, a: seq<Row>, b: seq<Row>) {
    forall k :: 0 <= k < |a| ==> ApartFromAll(keys, a[k], b)
  }

  /** A request whose result would break a unique key is refused and leaves the database as it was. */
  function KeyedRun(classes: Classes, scope: Scope, includeDeleted: bool, keys: Keys, db: Database, r: Request)
    : (Database, Result<Answer>)
  {
    var (after, answer) := ScopedRun(classes, scope, includeDeleted, db, r);
    if answer.Ok? && !Keyed(keys(r.model), TableOf(after, r.model)) then (db, Err(Conflict)) else (after, answer)
  }

  /** Two rows share a key when they agree on every column of it and none of them is null. */
  lemma SameOnExactly(key: Unique, a: Row, b: Row)
    ensures SameOn(key, a, b) <==> forall name :: name in key ==> Field(a, name) != Null && Field(a, name) == Field(b, name)
  {
  }

  /** A table respects its keys when no two of its rows share one. */
  lemma {:induction false} KeyedExactly(keys: seq<Unique>, rows: seq<Row>)
    ensures Keyed(keys, rows)
            <==> forall i, j, k :: 0 <= i < j < |rows| && 0 <= k < |keys| ==> !SameOn(keys[k], rows[i], rows[j])
  {
    if rows != [] {
      KeyedExactly(keys, rows[1..]);
      assert forall i :: 0 < i < |rows| ==> rows[i] == rows[1..][i - 1];
    }
  }

  // ---------------------------------------------------------------------------------------------
  // A keyed table in two parts
  // ---------------------------------------------------------------------------------------------

  lemma CollideSymmetric(keys: seq<Unique>, a: Row, b: Row)
    ensures Collide(keys, a, b) <==> Collide(keys, b, a)
  {
    if k :| 0 <= k < |keys| && SameOn(keys[k], a, b) {
      assert SameOn(keys[k], b, a);
    }
    if k :| 0 <= k < |keys| && SameOn(keys[k], b, a) {
      assert SameOn(keys[k], a, b);
    }
  }

  lemma {:induction false} ApartSplits(keys: seq<Unique>, row: Row, rows: seq<Row>, t: Option<Where>)
    ensures ApartFromAll(keys, row, rows)
            <==> ApartFromAll(keys, row, Filter(rows, t)) && ApartFromAll(keys, row, Without(rows, t))
  {
    if rows != [] {
      ApartSplits(keys, row, rows[1..], t);
      ApartFirst(keys, row, rows);
      if Selected(t, rows[0]) {
        ApartFirst(keys, row, Filter(rows, t));
        assert Filter(rows, t)[1..] == Filter(rows[1..], t);
      } else {
        ApartFirst(keys, row, Without(rows, t));
        assert Without(rows, t)[1..] == Without(rows[1..], t);
      }
    }
  }

  lemma ApartFirst(keys: seq<Unique>, row: Row, rows: seq<Row>)
    requires rows != []
    ensures ApartFromAll(keys, row, rows) <==> !Collide(keys, row, rows[0]) && ApartFromAll(keys, row, rows[1..])
  {
    assert rows == [rows[0]] + rows[1..];
  }

  lemma CrossFirst(keys: seq<Unique>, a: seq<Row>, b: seq<Row>)
    requires a != []
    ensures CrossApart(keys, a, b) <==> ApartFromAll(keys, a[0], b) && CrossApart(keys, a[1..], b)
  {
    assert a == [a[0]] + a[1..];
  }

  lemma {:induction false} CrossLast(keys: seq<Unique>, a: seq<Row>, b: seq<Row>)
    requires b != []
    ensures CrossApart(keys, a, b) <==> ApartFromAll(keys, b[0], a) && CrossApart(keys, a, b[1..])
  {
    if a != [] {
      CrossLast(keys, a[1..], b);
      CrossFirst(keys, a, b);
      CrossFirst(keys, a, b[1..]);
      ApartFirst(keys, a[0], b);
      ApartFirst(keys, b[0], a);
      CollideSymmetric(keys, a[0], b[0]);
    }
  }

  /** A table is keyed exactly when the tenant's rows are, the others are, and no row of one collides with the other. */
  lemma {:induction false} KeyedSplits(keys: seq<Unique>, rows: seq<Row>, t: Option<Where>)
    ensures Keyed(keys, rows)
            <==> && Keyed(keys, Filter(rows, t)) && Keyed(keys, Without(rows, t))
                 && CrossApart(keys, Filter(rows, t), Without(rows, t))
  {
    if rows != [] {
      KeyedSplits(keys, rows[1..], t);
      ApartSplits(keys, rows[0], rows[1..], t);
      var own, others := Filter(rows[1..], t), Without(rows[1..], t);
      if Selected(t, rows[0]) {
        assert Filter(rows, t) == [rows[0]] + own && ([rows[0]] + own)[1..] == own;
        CrossFirst(keys, [rows[0]] + own, others);
      } else {
        assert Without(rows, t) == [rows[0]] + others && ([rows[0]] + others)[1..] == others;
        CrossLast(keys, own, [rows[0]] + others);
      }
    }
  }

  /** The same of a table whose selected rows change: they may even leave the tenant. */
  lemma {:induction false} ApartChanged(keys: seq<Unique>, row: Row, rows: seq<Row>, w: Option<Where>, t: Option<Where>,
                                        changes: Row)
    requires Narrower(w, t)
    ensures ApartFromAll(keys, row, Changed(rows, w, changes))
            <==> && ApartFromAll(keys, row, Changed(Filter(rows, t), w, changes))
                 && ApartFromAll(keys, row, Without(rows, t))
  {
    if rows != [] {
      ApartChanged(keys, row, rows[1..], w, t, changes);
      ChangedFirst(rows, w, changes);
      ApartFirst(keys, row, Changed(rows, w, changes));
      if Selected(t, rows[0]) {
        assert Filter(rows, t)[1..] == Filter(rows[1..], t);
        ChangedFirst(Filter(rows, t), w, changes);
        ApartFirst(keys, row, Changed(Filter(rows, t), w, changes));
      } else {
        assert Without(rows, t)[1..] == Without(rows[1..], t);
        ApartFirst(keys, row, Without(rows, t));
      }
    }
  }

  lemma ChangedFirst(rows: seq<Row>, w: Option<Where>, changes: Row)
    requires rows != []
    ensures var first := if Selected(w, rows[0]) then rows[0] + changes else rows[0];
            && Changed(rows, w, changes) == [first] + Changed(rows[1..], w, changes)
            && Changed(rows, w, changes)[1..] == Changed(rows[1..], w, changes)
  {
  }

  lemma {:induction false} KeyedChanged(keys: seq<Unique>, rows: seq<Row>, w: Option<Where>, t: Option<Where>,
                                        changes: Row)
    requires Narrower(w, t)
    ensures Keyed(keys, Changed(rows, w, changes))
            <==> && Keyed(keys, Changed(Filter(rows, t), w, changes)) && Keyed(keys, Without(rows, t))
                 && CrossApart(keys, Changed(Filter(rows, t), w, changes), Without(rows, t))
  {
    if rows != [] {
      KeyedChanged(keys, rows[1..], w, t, changes);
      ChangedFirst(rows, w, changes);
      var first := Changed(rows, w, changes)[0];
      ApartChanged(keys, first, rows[1..], w, t, changes);
      var own, others := Changed(Filter(rows[1..], t), w, changes), Without(rows[1..], t);
      if Selected(t, rows[0]) {
        assert Filter(rows, t)[1..] == Filter(rows[1..], t);
        ChangedFirst(Filter(rows, t), w, changes);
        assert Changed(Filter(rows, t), w, changes) == [first] + own && ([first] + own)[1..] == own;
        CrossFirst(keys, [first] + own, others);
      } else {
        assert Without(rows, t) == [first] + others && ([first] + others)[1..] == others;
        CrossLast(keys, own, [first] + others);
      }
    }
  }

  lemma {:induction false} WithoutAppends(a: seq<Row>, b: seq<Row>, t: Option<Where>)
    ensures Without(a + b, t) == Without(a, t) + Without(b, t)
  {
    if a == [] {
      assert a + b == b;
    } else {
      assert (a + b)[1..] == a[1..] + b;
      WithoutAppends(a[1..], b, t);
    }
  }

  lemma {:induction false} AllSelected(rows: seq<Row>, t: Option<Where>)
    requires forall i :: 0 <= i < |rows| ==> Selected(t, rows[i])
    ensures Filter(rows, t) == rows && Without(rows, t) == []
  {
    if rows != [] {
      AllSelected(rows[1..], t);
      assert rows == [rows[0]] + rows[1..];
    }
  }

  lemma CrossAppends(keys: seq<Unique>, a: seq<Row>, b: seq<Row>, others: seq<Row>)
    ensures CrossApart(keys, a + b, others) <==> CrossApart(keys, a, others) && CrossApart(keys, b, others)
  {
    assert forall k :: 0 <= k < |a| ==> (a + b)[k] == a[k];
    assert forall k :: 0 <= k < |b| ==> (a + b)[|a| + k] == b[k];
  }

  lemma {:induction false} OthersStay(rows: seq<Row>, w: Option<Where>, t: Option<Where>)
    requires Narrower(w, t)
    ensures Without(Without(rows, w), t) == Without(rows, t)
  {
    if rows != [] {
      OthersStay(rows[1..], w, t);
      if !Selected(w, rows[0]) {
        assert Without(rows, w)[1..] == Without(rows[1..], w);
      }
    }
  }

  // ---------------------------------------------------------------------------------------------
  // Refusals
  // ---------------------------------------------------------------------------------------------

  function OwnRows(classes: Classes, scope: Scope, db: Database, model: string): seq<Row> {
    Filter(TableOf(db, model), Tenant(classes, scope, model))
  }

  function OtherRows(classes: Classes, scope: Scope, db: Database, model: string): seq<Row> {
    Without(TableOf(db, model), Tenant(classes, scope, model))
  }

  /** What the request would make of the tenant's own rows alone. */
  function OwnResult(classes: Classes, scope: Scope, includeDeleted: bool, db: Database, r: Request): Option<seq<Row>> {
    match Rewrite(classes, scope, includeDeleted, r.model, r.operation, r.args)
    case Err(_) => None
    case Ok(args) => Some(Execute(OwnRows(classes, scope, db, r.model), r.operation, args).0)
  }

  /**
   The request would be fine among the tenant's own rows, but one of the rows it makes of them has a
   unique key that a row of another tenant holds. Nothing of this depends on performing the request.
   */
  predicate RefusedByOthers(classes: Classes, scope: Scope, includeDeleted: bool, keys: Keys, db: Database, r: Request) {
    var own := OwnResult(classes, scope, includeDeleted, db, r);
    && IsScoped(classes, r.model) && own.Some?
    && Keyed(keys(r.model), own.value)
    && !CrossApart(keys(r.model), own.value, OtherRows(classes, scope, db, r.model))
  }

  lemma ExecutedKeyed(keys: seq<Unique>, rows: seq<Row>, t: Option<Where>, operation: Operation, args: Args)
    requires operation in FILTERING_OPERATIONS && Narrower(args.where, t)
    ensures var own := Execute(Filter(rows, t), operation, args).0;
            Keyed(keys, Execute(rows, operation, args).0)
            <==> Keyed(keys, own) && Keyed(keys, Without(rows, t)) && CrossApart(keys, own, Without(rows, t))
  {
    var w := args.where;
    match operation
    case UpdateMany | UpdateManyAndReturn => KeyedChanged(keys, rows, w, t, args.changes);
    case DeleteMany =>
      KeyedSplits(keys, Without(rows, w), t);
      WithoutThrough(rows, w, t);
      OthersStay(rows, w, t);
    case _ => KeyedSplits(keys, rows, t);
  }

  lemma CreatedKeyed(keys: seq<Unique>, rows: seq<Row>, t: Option<Where>, operation: Operation, args: Args)
    requires operation in CREATING_OPERATIONS
    requires forall i :: 0 <= i < |args.data| ==> Selected(t, args.data[i])
    ensures var own := Execute(Filter(rows, t), operation, args).0;
            Keyed(keys, Execute(rows, operation, args).0)
            <==> Keyed(keys, own) && Keyed(keys, Without(rows, t)) && CrossApart(keys, own, Without(rows, t))
  {
    CreationAppends(rows, operation, args);
    CreationAppends(Filter(rows, t), operation, args);
    AllSelected(args.data, t);
    FilterAppends(rows, args.data, t);
    WithoutAppends(rows, args.data, t);
    assert Without(rows, t) + [] == Without(rows, t);
    KeyedSplits(keys, rows + args.data, t);
  }

  lemma CreatedInTenant(classes: Classes, scope: Scope, includeDeleted: bool, r: Request)
    requires IsScoped(classes, r.model) && r.operation in CREATING_OPERATIONS
    requires Rewrite(classes, scope, includeDeleted, r.model, r.operation, r.args).Ok?
    ensures var args := Rewrite(classes, scope, includeDeleted, r.model, r.operation, r.args).value;
            && ScopeColumns(classes, r.model, scope).Ok?
            && args.data == Stamped(r.args.data, ScopeColumns(classes, r.model, scope).value)
            && forall i :: 0 <= i < |args.data| ==> Selected(Tenant(classes, scope, r.model), args.data[i])
  {
    OperationsCovered(r.operation);
    var columns := ScopeColumns(classes, r.model, scope).value;
    StampedCarry(r.args.data, columns, classes, scope, r.model);
    forall i | 0 <= i < |r.args.data| ensures Selected(Tenant(classes, scope, r.model), Stamped(r.args.data, columns)[i]) {
      TenantMeaning(classes, scope, r.model, Stamped(r.args.data, columns)[i]);
    }
  }

  /**
   On a keyed table any operation is refused by the unique keys exactly when its result on the
   tenant's own rows breaks them, or other tenants' rows hold a key of that result.
   */
  lemma RefusedExactly(classes: Classes, scope: Scope, includeDeleted: bool, keys: Keys, db: Database, r: Request)
    requires IsScoped(classes, r.model) && Keyed(keys(r.model), TableOf(db, r.model))
    requires ScopedRun(classes, scope, includeDeleted, db, r).1.Ok?
    ensures var own := OwnResult(classes, scope, includeDeleted, db, r);
            && own.Some?
            && (KeyedRun(classes, scope, includeDeleted, keys, db, r).1.Err?
                <==> !Keyed(keys(r.model), own.value) || RefusedByOthers(classes, scope, includeDeleted, keys, db, r))
  {
    var t := Tenant(classes, scope, r.model);
    var args := Rewrite(classes, scope, includeDeleted, r.model, r.operation, r.args).value;
    OperationsCovered(r.operation);
    KeyedSplits(keys(r.model), TableOf(db, r.model), t);
    if Filtering(r.operation) {
      NarrowedInTenant(classes, scope, includeDeleted, r.model, r.args.where);
      ExecutedKeyed(keys(r.model), TableOf(db, r.model), t, r.operation, args);
    } else {
      CreatedInTenant(classes, scope, includeDeleted, r);
      CreatedKeyed(keys(r.model), TableOf(db, r.model), t, r.operation, args);
    }
  }

  ghost predicate AllKeyed(keys: Keys, db: Database) {
    forall model :: Keyed(keys(model), TableOf(db, model))
  }

  lemma KeyedRunKeepsKeyed(classes: Classes, scope: Scope, includeDeleted: bool, keys: Keys, db: Database, r: Request)
    requires AllKeyed(keys, db)
    ensures AllKeyed(keys, KeyedRun(classes, scope, includeDeleted, keys, db, r).0)
  {
    var after := KeyedRun(classes, scope, includeDeleted, keys, db, r).0;
    forall model ensures Keyed(keys(model), TableOf(after, model)) {
      if model != r.model {
        assert TableOf(after, model) == TableOf(db, model);
      }
    }
  }

  // ---------------------------------------------------------------------------------------------
  // Non-interference with unique keys
  // ---------------------------------------------------------------------------------------------

  /** Other tenants' keys refuse the request in both databases or in neither. */
  predicate HinderedAlike(classes: Classes, scope: Scope, includeDeleted: bool, keys: Keys, c: Database, d: Database,
                          r: Request)
  {
    RefusedByOthers(classes, scope, includeDeleted, keys, c, r)
    <==> RefusedByOthers(classes, scope, includeDeleted, keys, d, r)
  }

  lemma OwnResultsAgree(classes: Classes, scope: Scope, includeDeleted: bool, c: Database, d: Database, r: Request)
    requires Agree(classes, scope, c, d) && IsScoped(classes, r.model)
    ensures OwnResult(classes, scope, includeDeleted, c, r) == OwnResult(classes, scope, includeDeleted, d, r)
  {
    assert AgreeOn(classes, scope, c, d, r.model);
  }

  /**
   On databases that agree on the tenant's rows, a request is answered alike exactly when other
   tenants' keys refuse it in both or in neither; then the databases still agree.
   */
  lemma AnsweredAlikeExactly(classes: Classes, scope: Scope, includeDeleted: bool, keys: Keys, c: Database, d: Database,
                             r: Request)
    requires Agree(classes, scope, c, d) && AllKeyed(keys, c) && AllKeyed(keys, d)
    ensures var (c', a) := KeyedRun(classes, scope, includeDeleted, keys, c, r);
            var (d', b) := KeyedRun(classes, scope, includeDeleted, keys, d, r);
            && (a == b <==> HinderedAlike(classes, scope, includeDeleted, keys, c, d, r))
            && (a == b ==> Agree(classes, scope, c', d'))
  {
    var c', d' := ScopedRun(classes, scope, includeDeleted, c, r).0, ScopedRun(classes, scope, includeDeleted, d, r).0;
    ScopedRunAgrees(classes, scope, includeDeleted, c, d, r);
    assert AgreeOn(classes, scope, c', d', r.model);
    if IsScoped(classes, r.model) {
      OwnResultsAgree(classes, scope, includeDeleted, c, d, r);
      if ScopedRun(classes, scope, includeDeleted, c, r).1.Ok? {
        RefusedExactly(classes, scope, includeDeleted, keys, c, r);
        RefusedExactly(classes, scope, includeDeleted, keys, d, r);
      }
    }
  }

  function KeyedRuns(classes: Classes, scope: Scope, includeDeleted: bool, keys: Keys, db: Database,
                     requests: seq<Request>): (Database, seq<Result<Answer>>)
    decreases |requests|
  {
    if requests == [] then (db, [])
    else
      var (after, answer) := KeyedRun(classes, scope, includeDeleted, keys, db, requests[0]);
      var (end, answers) := KeyedRuns(classes, scope, includeDeleted, keys, after, requests[1..]);
      (end, [answer] + answers)
  }

  predicate AllHinderedAlike(classes: Classes, scope: Scope, includeDeleted: bool, keys: Keys, c: Database, d: Database,
                             requests: seq<Request>)
    decreases |requests|
  {
    requests == []
    || (&& HinderedAlike(classes, scope, includeDeleted, keys, c, d, requests[0])
        && AllHinderedAlike(classes, scope, includeDeleted, keys,
                            KeyedRun(classes, scope, includeDeleted, keys, c, requests[0]).0,
                            KeyedRun(classes, scope, includeDeleted, keys, d, requests[0]).0, requests[1..]))
  }

  /**
   Non-interference under any unique keys: databases that agree on the tenant's rows answer a whole
   sequence of requests identically exactly when other tenants' keys hinder both alike all along.
   */
  lemma {:induction false} KeyedNonInterference(classes: Classes, scope: Scope, includeDeleted: bool, keys: Keys,
                                                c: Database, d: Database, requests: seq<Request>)
    requires Agree(classes, scope, c, d) && AllKeyed(keys, c) && AllKeyed(keys, d)
    ensures var (c', a) := KeyedRuns(classes, scope, includeDeleted, keys, c, requests);
            var (d', b) := KeyedRuns(classes, scope, includeDeleted, keys, d, requests);
            && (a == b <==> AllHinderedAlike(classes, scope, includeDeleted, keys, c, d, requests))
            && (a == b ==> Agree(classes, scope, c', d'))
    decreases |requests|
  {
    if requests != [] {
      var c1, d1 := KeyedRun(classes, scope, includeDeleted, keys, c, requests[0]),
                    KeyedRun(classes, scope, includeDeleted, keys, d, requests[0]);
      AnsweredAlikeExactly(classes, scope, includeDeleted, keys, c, d, requests[0]);
      KeyedRunKeepsKeyed(classes, scope, includeDeleted, keys, c, requests[0]);
      KeyedRunKeepsKeyed(classes, scope, includeDeleted, keys, d, requests[0]);
      if c1.1 == d1.1 {
        KeyedNonInterference(classes, scope, includeDeleted, keys, c1.0, d1.0, requests[1..]);
      }
      var a, b := KeyedRuns(classes, scope, includeDeleted, keys, c, requests).1,
                  KeyedRuns(classes, scope, includeDeleted, keys, d, requests).1;
      assert a[0] == c1.1 && b[0] == d1.1;
      assert a[1..] == KeyedRuns(classes, scope, includeDeleted, keys, c1.0, requests[1..]).1;
      assert b[1..] == KeyedRuns(classes, scope, includeDeleted, keys, d1.0, requests[1..]).1;
    }
  }

  // ---------------------------------------------------------------------------------------------
  // What others' keys can refuse
  // ---------------------------------------------------------------------------------------------

  /** A creation that is fine among the tenant's rows is refused by others exactly when a created key is taken elsewhere. */
  lemma CreationRefusedExactly(classes: Classes, scope: Scope, includeDeleted: bool, keys: Keys, db: Database, r: Request)
    requires IsScoped(classes, r.model) && r.operation in CREATING_OPERATIONS
    requires Keyed(keys(r.model), TableOf(db, r.model))
    requires ScopeColumns(classes, r.model, scope).Ok?
    requires var own := OwnResult(classes, scope, includeDeleted, db, r);
             own.Some? ==> Keyed(keys(r.model), own.value)
    ensures RefusedByOthers(classes, scope, includeDeleted, keys, db, r)
            <==> !CrossApart(keys(r.model), Stamped(r.args.data, ScopeColumns(classes, r.model, scope).value),
                             OtherRows(classes, scope, db, r.model))
  {
    OperationsCovered(r.operation);
    var own, others := OwnRows(classes, scope, db, r.model), OtherRows(classes, scope, db, r.model);
    var stamped := Stamped(r.args.data, ScopeColumns(classes, r.model, scope).value);
    var args := Rewrite(classes, scope, includeDeleted, r.model, r.operation, r.args).value;
    CreationAppends(own, r.operation, args);
    KeyedSplits(keys(r.model), TableOf(db, r.model), Tenant(classes, scope, r.model));
    CrossAppends(keys(r.model), own, stamped, others);
  }

  lemma {:induction false} CrossChanged(keys: seq<Unique>, own: seq<Row>, w: Option<Where>, changes: Row, others: seq<Row>)
    requires CrossApart(keys, own, others)
    ensures CrossApart(keys, Changed(own, w, changes), others)
            <==> CrossApart(keys, Merged(Filter(own, w), changes), others)
  {
    if own != [] {
      CrossFirst(keys, own, others);
      CrossChanged(keys, own[1..], w, changes, others);
      ChangedFirst(own, w, changes);
      CrossFirst(keys, Changed(own, w, changes), others);
      if Selected(w, own[0]) {
        assert Filter(own, w)[1..] == Filter(own[1..], w);
        assert Merged(Filter(own, w), changes)[1..] == Merged(Filter(own[1..], w), changes);
        CrossFirst(keys, Merged(Filter(own, w), changes), others);
      }
    }
  }

  /** An update that is fine among the tenant's rows is refused by others exactly when an updated row's key is taken elsewhere. */
  lemma UpdateRefusedExactly(classes: Classes, scope: Scope, includeDeleted: bool, keys: Keys, db: Database, r: Request)
    requires IsScoped(classes, r.model) && (r.operation.UpdateMany? || r.operation.UpdateManyAndReturn?)
    requires Keyed(keys(r.model), TableOf(db, r.model))
    requires var own := OwnResult(classes, scope, includeDeleted, db, r);
             own.Some? ==> Keyed(keys(r.model), own.value)
    ensures var narrowed := Narrowed(ScopeTests(classes, r.model, scope, includeDeleted), r.args.where);
            RefusedByOthers(classes, scope, includeDeleted, keys, db, r)
            <==> !CrossApart(keys(r.model),
                             Merged(Filter(OwnRows(classes, scope, db, r.model), narrowed), r.args.changes),
                             OtherRows(classes, scope, db, r.model))
  {
    var own, others := OwnRows(classes, scope, db, r.model), OtherRows(classes, scope, db, r.model);
    var narrowed := Narrowed(ScopeTests(classes, r.model, scope, includeDeleted), r.args.where);
    UpdatedOwn(classes, scope, includeDeleted, db, r);
    KeyedSplits(keys(r.model), TableOf(db, r.model), Tenant(classes, scope, r.model));
    CrossChanged(keys(r.model), own, narrowed, r.args.changes, others);
  }

  lemma UpdatedOwn(classes: Classes, scope: Scope, includeDeleted: bool, db: Database, r: Request)
    requires IsScoped(classes, r.model) && (r.operation.UpdateMany? || r.operation.UpdateManyAndReturn?)
    ensures OwnResult(classes, scope, includeDeleted, db, r)
            == Some(Changed(OwnRows(classes, scope, db, r.model),
                            Narrowed(ScopeTests(classes, r.model, scope, includeDeleted), r.args.where), r.args.changes))
  {
    OperationsCovered(r.operation);
    UpdateChanges(OwnRows(classes, scope, db, r.model), r.operation,
                  Rewrite(classes, scope, includeDeleted, r.model, r.operation, r.args).value);
  }

  lemma UpdateChanges(rows: seq<Row>, operation: Operation, args: Args)
    requires operation.UpdateMany? || operation.UpdateManyAndReturn?
    ensures Execute(rows, operation, args).0 == Changed(rows, args.where, args.changes)
  {
  }

  /** Reads and deletions are never refused. */
  lemma {:induction false} WithoutApart(keys: seq<Unique>, own: seq<Row>, w: Option<Where>, others: seq<Row>)
    requires CrossApart(keys, own, others)
    ensures CrossApart(keys, Without(own, w), others)
  {
    if own != [] {
      CrossFirst(keys, own, others);
      WithoutApart(keys, own[1..], w, others);
      if !Selected(w, own[0]) {
        assert Without(own, w)[1..] == Without(own[1..], w);
        CrossFirst(keys, Without(own, w), others);
      }
    }
  }

  lemma OthersNeverRefuseRest(classes: Classes, scope: Scope, includeDeleted: bool, keys: Keys, db: Database, r: Request)
    requires IsScoped(classes, r.model) && Keyed(keys(r.model), TableOf(db, r.model))
    requires !(r.operation in CREATING_OPERATIONS) && !r.operation.UpdateMany? && !r.operation.UpdateManyAndReturn?
    ensures !RefusedByOthers(classes, scope, includeDeleted, keys, db, r)
  {
    OperationsCovered(r.operation);
    KeyedSplits(keys(r.model), TableOf(db, r.model), Tenant(classes, scope, r.model));
    var rewritten := Rewrite(classes, scope, includeDeleted, r.model, r.operation, r.args);
    if rewritten.Ok? {
      var own := OwnRows(classes, scope, db, r.model);
      FilteringLeaves(own, r.operation, rewritten.value);
      WithoutApart(keys(r.model), own, rewritten.value.where, OtherRows(classes, scope, db, r.model));
      assert r.operation.DeleteMany? || Execute(own, r.operation, rewritten.value).0 == own;
    }
  }

  // ---------------------------------------------------------------------------------------------
  // Keys inside one tenant
  // ---------------------------------------------------------------------------------------------

  /** The columns that tell this tenant's rows of the model from all others. */
  function TenantColumns(classes: Classes, scope: Scope, model: string): set<string> {
    if model in classes.branchScoped && scope.branchId.Some? then {"organizationId", "branchId"} else {"organizationId"}
  }

  predicate KeysInside(classes: Classes, scope: Scope, model: string, keys: seq<Unique>) {
    forall k :: 0 <= k < |keys| ==> TenantColumns(classes, scope, model) <= keys[k]
  }

  predicate KeepsTenant(classes: Classes, scope: Scope, r: Request) {
    forall name :: name in TenantColumns(classes, scope, r.model) ==> name !in r.args.changes
  }

  lemma InsideNeverCross(classes: Classes, scope: Scope, model: string, keys: seq<Unique>, a: Row, b: Row)
    requires IsScoped(classes, model) && KeysInside(classes, scope, model, keys)
    requires Selected(Tenant(classes, scope, model), a) && !Selected(Tenant(classes, scope, model), b)
    ensures !Collide(keys, a, b)
  {
    TenantMeaning(classes, scope, model, a);
    TenantMeaning(classes, scope, model, b);
    forall k | 0 <= k < |keys| ensures !SameOn(keys[k], a, b) {
      assert TenantColumns(classes, scope, model) <= keys[k];
    }
  }

  predicate AllIn(rows: seq<Row>, t: Option<Where>) {
    forall i :: 0 <= i < |rows| ==> Selected(t, rows[i])
  }

  lemma {:induction false} FilterAll(rows: seq<Row>, t: Option<Where>)
    ensures AllIn(Filter(rows, t), t)
  {
    if rows != [] {
      FilterAll(rows[1..], t);
    }
  }

  lemma {:induction false} WithoutAll(rows: seq<Row>, t: Option<Where>, i: nat)
    requires i < |Without(rows, t)|
    ensures !Selected(t, Without(rows, t)[i])
  {
    if Selected(t, rows[0]) {
      WithoutAll(rows[1..], t, i);
    } else if i > 0 {
      WithoutAll(rows[1..], t, i - 1);
    }
  }

  lemma {:induction false} StillIn(rows: seq<Row>, w: Option<Where>, t: Option<Where>, changes: Row)
    requires AllIn(rows, t) && forall row: Row :: Selected(t, row) ==> Selected(t, row + changes)
    ensures AllIn(Changed(rows, w, changes), t) && AllIn(Without(rows, w), t)
  {
    if rows != [] {
      assert Selected(t, rows[0]);
      assert forall i :: 0 <= i < |rows[1..]| ==> rows[1..][i] == rows[i + 1];
      StillIn(rows[1..], w, t, changes);
      ChangedFirst(rows, w, changes);
    }
  }

  lemma StaysInTenant(classes: Classes, scope: Scope, r: Request)
    requires IsScoped(classes, r.model) && KeepsTenant(classes, scope, r)
    ensures forall row: Row :: Selected(Tenant(classes, scope, r.model), row) ==>
              Selected(Tenant(classes, scope, r.model), row + r.args.changes)
  {
    forall row: Row | Selected(Tenant(classes, scope, r.model), row)
      ensures Selected(Tenant(classes, scope, r.model), row + r.args.changes)
    {
      TenantMeaning(classes, scope, r.model, row);
      TenantMeaning(classes, scope, r.model, row + r.args.changes);
      assert "organizationId" in TenantColumns(classes, scope, r.model);
      assert r.model in classes.branchScoped && scope.branchId.Some? ==> "branchId" in TenantColumns(classes, scope, r.model);
    }
  }

  lemma OwnResultIn(classes: Classes, scope: Scope, includeDeleted: bool, db: Database, r: Request)
    requires IsScoped(classes, r.model) && KeepsTenant(classes, scope, r)
    requires OwnResult(classes, scope, includeDeleted, db, r).Some?
    ensures AllIn(OwnResult(classes, scope, includeDeleted, db, r).value, Tenant(classes, scope, r.model))
  {
    OperationsCovered(r.operation);
    var own, t := OwnRows(classes, scope, db, r.model), Tenant(classes, scope, r.model);
    var args := Rewrite(classes, scope, includeDeleted, r.model, r.operation, r.args).value;
    FilterAll(TableOf(db, r.model), t);
    if Filtering(r.operation) {
      FilteringLeaves(own, r.operation, args);
      StaysInTenant(classes, scope, r);
      StillIn(own, args.where, t, args.changes);
    } else {
      CreatedInTenant(classes, scope, includeDeleted, r);
      CreationAppends(own, r.operation, args);
    }
  }

  /** Keys that contain the tenant columns never let other tenants' rows refuse a request that leaves those columns alone. */
  lemma InsideKeysNeverRefuse(classes: Classes, scope: Scope, includeDeleted: bool, keys: Keys, db: Database, r: Request)
    requires KeysInside(classes, scope, r.model, keys(r.model)) && KeepsTenant(classes, scope, r)
    ensures !RefusedByOthers(classes, scope, includeDeleted, keys, db, r)
  {
    var own := OwnResult(classes, scope, includeDeleted, db, r);
    var others := OtherRows(classes, scope, db, r.model);
    if IsScoped(classes, r.model) && own.Some? {
      OwnResultIn(classes, scope, includeDeleted, db, r);
      forall i, j | 0 <= i < |own.value| && 0 <= j < |others|
        ensures !Collide(keys(r.model), own.value[i], others[j])
      {
        WithoutAll(TableOf(db, r.model), Tenant(classes, scope, r.model), j);
        InsideNeverCross(classes, scope, r.model, keys(r.model), own.value[i], others[j]);
      }
    }
  }

  predicate Inside(classes: Classes, scope: Scope, keys: Keys, r: Request) {
    KeysInside(classes, scope, r.model, keys(r.model)) && KeepsTenant(classes, scope, r)
  }

  lemma {:induction false} InsideHinderedAlike(classes: Classes, scope: Scope, includeDeleted: bool, keys: Keys,
                                               c: Database, d: Database, requests: seq<Request>)
    requires forall i :: 0 <= i < |requests| ==> Inside(classes, scope, keys, requests[i])
    ensures AllHinderedAlike(classes, scope, includeDeleted, keys, c, d, requests)
    decreases |requests|
  {
    if requests != [] {
      assert Inside(classes, scope, keys, requests[0]);
      InsideKeysNeverRefuse(classes, scope, includeDeleted, keys, c, requests[0]);
      InsideKeysNeverRefuse(classes, scope, includeDeleted, keys, d, requests[0]);
      assert forall i :: 0 <= i < |requests[1..]| ==> requests[1..][i] == requests[i + 1];
      InsideHinderedAlike(classes, scope, includeDeleted, keys,
                          KeyedRun(classes, scope, includeDeleted, keys, c, requests[0]).0,
                          KeyedRun(classes, scope, includeDeleted, keys, d, requests[0]).0, requests[1..]);
    }
  }

  /** With keys inside the tenant and requests that leave the tenant columns alone, answers are always identical. */
  lemma InsideNonInterference(classes: Classes, scope: Scope, includeDeleted: bool, keys: Keys, c: Database, d: Database,
                              requests: seq<Request>)
    requires Agree(classes, scope, c, d) && AllKeyed(keys, c) && AllKeyed(keys, d)
    requires forall i :: 0 <= i < |requests| ==> Inside(classes, scope, keys, requests[i])
    ensures KeyedRuns(classes, scope, includeDeleted, keys, c, requests).1
            == KeyedRuns(classes, scope, includeDeleted, keys, d, requests).1
  {
    InsideHinderedAlike(classes, scope, includeDeleted, keys, c, d, requests);
    KeyedNonInterference(classes, scope, includeDeleted, keys, c, d, requests);
  }
}
