/** Rows, predicates and what one Prisma operation does to one table when nothing rewrites it. */
module TenantRows {
  import opened Outcomes

  datatype Value = Null | Text(text: string) | Number(number: int)

  type Row = map<string, Value>

  type Database = map<string, seq<Row>>

  /** A caller's predicate: any test of a row's own columns, and the boolean combinators. */
  datatype Where =
    | Equals(field: string, value: Value)
    | Test(holds: Row -> bool)
    | All(parts: seq<Where>)
    | Either(parts: seq<Where>)
    | Not(part: Where)

  function Field(row: Row, name: string): Value {
    if name in row then row[name] else Null
  }

  predicate Matches(where: Where, row: Row) {
    match where
    case Equals(field, value) => Field(row, field) == value
    case Test(holds) => holds(row)
    case All(parts) => forall i :: 0 <= i < |parts| ==> Matches(parts[i], row)
    case Either(parts) => exists i :: 0 <= i < |parts| && Matches(parts[i], row)
    case Not(part) => !Matches(part, row)
  }

  predicate Selected(where: Option<Where>, row: Row) {
    where.Some? ==> Matches(where.value, row)
  }

  function Filter(rows: seq<Row>, where: Option<Where>): seq<Row> {
    if rows == [] then []
    else if Selected(where, rows[0]) then [rows[0]] + Filter(rows[1..], where)
    else Filter(rows[1..], where)
  }

  /** Rows that do not match, in order. */
  function Without(rows: seq<Row>, where: Option<Where>): seq<Row> {
    if rows == [] then []
    else if Selected(where, rows[0]) then Without(rows[1..], where)
    else [rows[0]] + Without(rows[1..], where)
  }

  function Changed(rows: seq<Row>, where: Option<Where>, changes: Row): seq<Row> {
    if rows == [] then []
    else [if Selected(where, rows[0]) then rows[0] + changes else rows[0]] + Changed(rows[1..], where, changes)
  }

  function Merged(rows: seq<Row>, changes: Row): seq<Row> {
    if rows == [] then [] else [rows[0] + changes] + Merged(rows[1..], changes)
  }

  datatype Operation =
    | FindUnique | FindUniqueOrThrow | FindFirst | FindFirstOrThrow | FindMany
    | Count | Aggregate | GroupBy
    | Create | CreateMany | CreateManyAndReturn
    | Update | UpdateMany | UpdateManyAndReturn | Upsert
    | Delete | DeleteMany

  /**
   The arguments of one call. `post` stands for everything computed from the selected rows: order,
   paging, projection, grouping, sums.
   */
  datatype Args = Args(where: Option<Where>, data: seq<Row>, changes: Row, post: seq<Row> -> seq<Row>)

  datatype Answer = Rows(rows: seq<Row>) | Affected(count: nat) | Missing

  function TableOf(db: Database, model: string): seq<Row> {
    if model in db then db[model] else []
  }

  /** What the database does with one operation. Unique operations select like the others. */
  function Execute(rows: seq<Row>, operation: Operation, args: Args): (seq<Row>, Answer) {
    var selected := Filter(rows, args.where);
    match operation
    case FindFirstOrThrow | FindUniqueOrThrow => (rows, if selected == [] then Missing else Rows(args.post(selected)))
    case FindUnique | FindFirst | FindMany | Aggregate | GroupBy => (rows, Rows(args.post(selected)))
    case Count => (rows, Affected(|selected|))
    case Create | CreateManyAndReturn => (rows + args.data, Rows(args.post(args.data)))
    case CreateMany => (rows + args.data, Affected(|args.data|))
    case Update => if selected == [] then (rows, Missing)
                   else (Changed(rows, args.where, args.changes), Rows(args.post(Merged(selected, args.changes))))
    case UpdateMany => (Changed(rows, args.where, args.changes), Affected(|selected|))
    case UpdateManyAndReturn => (Changed(rows, args.where, args.changes), Rows(args.post(Merged(selected, args.changes))))
    case Upsert => if selected == [] then (rows + args.data, Rows(args.post(args.data)))
                   else (Changed(rows, args.where, args.changes), Rows(args.post(Merged(selected, args.changes))))
    case Delete => if selected == [] then (rows, Missing) else (Without(rows, args.where), Rows(args.post(selected)))
    case DeleteMany => (Without(rows, args.where), Affected(|selected|))
  }
}
