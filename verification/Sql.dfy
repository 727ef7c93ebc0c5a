/** The statements the data layer compiles to, with numbered placeholders, and what they mean. */
module Sql {
  import opened Prelude

  datatype PgType = Bigint | DoublePrecision | Boolean | TextType | DateType | Timestamptz

  /** A double is its place among the doubles as the server orders them: the two zeros share a place, and
      NaN comes last. */
  datatype SqlValue =
    | Null
    | TextV(s: string)
    | IntV(i: int)
    | FloatV(place: int)
    | BoolV(b: bool)
    | DateV(d: int)
    | TimeV(t: int)

  type Row = map<string, SqlValue>

  /** What the model leaves to the server: collation, pattern matching, input casts and output text. */
  datatype Db = Db(
    textLess: (string, string) -> bool,
    ilike: (string, string) -> bool,
    cast: (PgType, string) -> Option<SqlValue>,
    render: SqlValue -> string)

  type Binds = seq<Option<string>>

  datatype Op = Eq | Ne | Gt | Gte | Lt | Lte

  /** `column op $param::cast`, or `column ILIKE $param`. */
  datatype Cond = Compare(column: string, op: Op, param: nat, cast: PgType) | ILike(column: string, param: nat)

  datatype OrderKey = OrderKey(name: string, desc: bool)

  /** `SELECT (c)::text AS c, … FROM table WHERE … AND … ORDER BY … LIMIT …` */
  datatype Select = Select(columns: seq<string>, table: string, conds: seq<Cond>, order: seq<OrderKey>, limit: Option<nat>)

  /** An assignment `column = $param::cast`. */
  datatype Assign = Assign(column: string, param: nat, cast: PgType)

  datatype Change =
    | Insert(table: string, values: seq<Assign>, returning: seq<string>)
    | Update(table: string, sets: seq<Assign>, idParam: nat, idCast: PgType, returning: seq<string>)
    | Delete(table: string, idParam: nat, idCast: PgType, returning: seq<string>)

  // ── Values ──────────────────────────────────────────────────────────────────

  function Column(row: Row, name: string): SqlValue {
    if name in row then row[name] else Null
  }

  predicate Less(db: Db, v: SqlValue, w: SqlValue) {
    match (v, w)
    case (TextV(a), TextV(b)) => db.textLess(a, b)
    case (IntV(a), IntV(b)) => a < b
    case (FloatV(a), FloatV(b)) => a < b
    case (BoolV(a), BoolV(b)) => !a && b
    case (DateV(a), DateV(b)) => a < b
    case (TimeV(a), TimeV(b)) => a < b
    case _ => false
  }

  predicate Relates(db: Db, op: Op, v: SqlValue, w: SqlValue) {
    match op
    case Eq => v == w
    case Ne => v != w
    case Gt => Less(db, w, v)
    case Gte => v == w || Less(db, w, v)
    case Lt => Less(db, v, w)
    case Lte => v == w || Less(db, v, w)
  }

  /** The `::text` rendering; NULL stays NULL. */
  function Shown(db: Db, v: SqlValue): Option<string> {
    match v
    case Null => None
    case TextV(s) => Some(s)
    case _ => Some(db.render(v))
  }

  function AsText(db: Db, v: SqlValue): SqlValue {
    match Shown(db, v)
    case None => Null
    case Some(s) => TextV(s)
  }

  // ── WHERE ───────────────────────────────────────────────────────────────────

  /** A bound parameter after its cast; `None` when the server rejects the text. */
  function Parameter(db: Db, cast: PgType, bind: Option<string>): Option<SqlValue> {
    match bind
    case None => Some(Null)
    case Some(s) => db.cast(cast, s)
  }

  /** The placeholder is bound and its value accepted. */
  predicate Bound(db: Db, c: Cond, binds: Binds) {
    1 <= c.param <= |binds| && (c.Compare? ==> Parameter(db, c.cast, binds[c.param - 1]).Some?)
  }

  /** The three values of SQL logic. */
  datatype Logic = True | False | Unknown

  function Known(holds: bool): Logic {
    if holds then True else False
  }

  function Truth(db: Db, row: Row, c: Cond, binds: Binds): Logic
    requires Bound(db, c, binds)
  {
    var v, bind := Column(row, c.column), binds[c.param - 1];
    match c
    case Compare(_, op, _, cast) =>
      var w := Parameter(db, cast, bind).value;
      if v.Null? || w.Null? then Unknown else Known(Relates(db, op, v, w))
    case ILike(_, _) =>
      if v.TextV? && bind.Some? then Known(db.ilike(v.s, bind.value)) else Unknown
  }

  function And(a: Logic, b: Logic): Logic {
    if a.False? || b.False? then False else if a.Unknown? || b.Unknown? then Unknown else True
  }

  function Conjunction(db: Db, row: Row, conds: seq<Cond>, binds: Binds): Logic
    requires forall i | 0 <= i < |conds| :: Bound(db, conds[i], binds)
  {
    if conds == [] then True else And(Truth(db, row, conds[0], binds), Conjunction(db, row, conds[1..], binds))
  }

  /** A row passes only when every conjunct is true. */
  lemma {:induction false} ConjunctionIsAll(db: Db, row: Row, conds: seq<Cond>, binds: Binds)
    requires forall i | 0 <= i < |conds| :: Bound(db, conds[i], binds)
    ensures Conjunction(db, row, conds, binds) == True <==>
            forall i | 0 <= i < |conds| :: Truth(db, row, conds[i], binds) == True
  {
    hide Truth, Bound;
    if conds == [] {
    } else {
      var rest := conds[1..];
      ConjunctionIsAll(db, row, rest, binds);
      assert forall i | 0 <= i < |rest| :: rest[i] == conds[i + 1];
      assert forall i | 0 < i < |conds| :: conds[i] == rest[i - 1];
    }
  }

  function Passing(db: Db, table: seq<Row>, conds: seq<Cond>, binds: Binds): seq<Row>
    requires forall i | 0 <= i < |conds| :: Bound(db, conds[i], binds)
  {
    if table == [] then [] else
    (if Conjunction(db, table[0], conds, binds) == True then [table[0]] else [])
    + Passing(db, table[1..], conds, binds)
  }

  // ── ORDER BY, LIMIT and the result ──────────────────────────────────────────

  /** NULLs sort as larger than every value. */
  predicate KeyBefore(db: Db, v: SqlValue, w: SqlValue, desc: bool)
    decreases desc
  {
    if desc then KeyBefore(db, w, v, false)
    else if v.Null? then false
    else w.Null? || Less(db, v, w)
  }

  /** What a name in ORDER BY stands for. */
  datatype OrderBy = TableColumns | OutputColumns(columns: seq<string>)

  /** A bare name in ORDER BY means the output column of that name when there is one, and here every
      output column is text; otherwise it means the table's column. */
  function SortValue(db: Db, keys: OrderBy, row: Row, name: string): SqlValue {
    if keys.OutputColumns? && name in keys.columns then AsText(db, Column(row, name)) else Column(row, name)
  }

  /** Lexicographic over the order keys. */
  predicate RowBefore(db: Db, order: seq<OrderKey>, keys: OrderBy, a: Row, b: Row) {
    if order == [] then false else
    var k := order[0];
    var v, w := SortValue(db, keys, a, k.name), SortValue(db, keys, b, k.name);
    KeyBefore(db, v, w, k.desc) || (!KeyBefore(db, w, v, k.desc) && RowBefore(db, order[1..], keys, a, b))
  }

  predicate Sorted(db: Db, order: seq<OrderKey>, keys: OrderBy, rows: seq<Row>) {
    forall i, j | 0 <= i < j < |rows| :: !RowBefore(db, order, keys, rows[j], rows[i])
  }

  function Limited<T>(rows: seq<T>, limit: Option<nat>): seq<T> {
    if limit.Some? && limit.value < |rows| then rows[..limit.value] else rows
  }

  type OutRow = seq<Option<string>>

  function Project(db: Db, columns: seq<string>, row: Row): OutRow {
    seq(|columns|, i requires 0 <= i < |columns| => Shown(db, Column(row, columns[i])))
  }

  function ProjectAll(db: Db, columns: seq<string>, rows: seq<Row>): seq<OutRow> {
    seq(|rows|, i requires 0 <= i < |rows| => Project(db, columns, rows[i]))
  }

  /** Descending is the reverse of ascending, which puts values in their order and NULLs last. */
  lemma KeyOrder(db: Db, v: SqlValue, w: SqlValue)
    ensures KeyBefore(db, v, w, true) <==> KeyBefore(db, w, v, false)
    ensures KeyBefore(db, v, w, false) <==> v != Null && (w == Null || Less(db, v, w))
  {
  }

  /** Every result row has the columns asked for, in their order, as text; NULL stays NULL. */
  lemma Projected(db: Db, columns: seq<string>, rows: seq<Row>, i: nat, k: nat)
    requires i < |rows| && k < |columns|
    ensures var out := ProjectAll(db, columns, rows);
            && |out| == |rows| && |out[i]| == |columns|
            && out[i][k] == match Column(rows[i], columns[k])
                            case Null => None
                            case TextV(s) => Some(s)
                            case v => Some(db.render(v))
  {
  }

  /** `rows` is an order that sorting `passing` may give: ties may fall either way. */
  predicate OneOrder(db: Db, order: seq<OrderKey>, keys: OrderBy, passing: seq<Row>, rows: seq<Row>) {
    multiset(rows) == multiset(passing) && Sorted(db, order, keys, rows)
  }

  /** Some order of the passing rows, limited and projected, is the result. */
  ghost predicate Gives(db: Db, s: Select, keys: OrderBy, passing: seq<Row>, result: seq<OutRow>) {
    exists rows | OneOrder(db, s.order, keys, passing, rows) :: result == ProjectAll(db, s.columns, Limited(rows, s.limit))
  }

  /** The server may answer the statement, run over `table`, with `result`. */
  ghost predicate Answers(db: Db, s: Select, binds: Binds, table: seq<Row>, result: Option<seq<OutRow>>) {
    if exists i | 0 <= i < |s.conds| :: !Bound(db, s.conds[i], binds) then result.None?
    else
      && result.Some?
      && Gives(db, s, OutputColumns(s.columns), Passing(db, table, s.conds, binds), result.value)
  }

  // ── Changes ─────────────────────────────────────────────────────────────────

  predicate AssignsBound(db: Db, sets: seq<Assign>, binds: Binds) {
    forall i | 0 <= i < |sets| :: 1 <= sets[i].param <= |binds| && Parameter(db, sets[i].cast, binds[sets[i].param - 1]).Some?
  }

  /** A column may be assigned once. */
  predicate AssignedOnce(sets: seq<Assign>) {
    forall i, j | 0 <= i < j < |sets| :: sets[i].column != sets[j].column
  }

  function Assigned(db: Db, sets: seq<Assign>, binds: Binds, row: Row): Row
    requires AssignsBound(db, sets, binds)
  {
    if sets == [] then row else
    var a := sets[|sets| - 1];
    Assigned(db, sets[..|sets| - 1], binds, row)[a.column := Parameter(db, a.cast, binds[a.param - 1]).value]
  }

  /** `id = value` is true of the row. */
  predicate HasId(row: Row, id: SqlValue) {
    !id.Null? && Column(row, "id") == id
  }

  function UpdateRows(db: Db, sets: seq<Assign>, binds: Binds, id: SqlValue, table: seq<Row>): seq<Row>
    requires AssignsBound(db, sets, binds)
  {
    seq(|table|, k requires 0 <= k < |table| =>
      if HasId(table[k], id) then Assigned(db, sets, binds, table[k]) else table[k])
  }

  function RowsWithout(table: seq<Row>, id: SqlValue): seq<Row> {
    if table == [] then [] else (if HasId(table[0], id) then [] else [table[0]]) + RowsWithout(table[1..], id)
  }

  function IdParameter(db: Db, param: nat, cast: PgType, binds: Binds): Option<SqlValue> {
    if 1 <= param <= |binds| then Parameter(db, cast, binds[param - 1]) else None
  }

  /** The table afterwards; `None` when the server rejects the statement. `defaults` fills the columns an
      insert leaves out. */
  function After(db: Db, c: Change, binds: Binds, defaults: Row, table: seq<Row>): Option<seq<Row>> {
    match c
    case Insert(_, values, _) =>
      if AssignsBound(db, values, binds) && AssignedOnce(values) then Some(table + [Assigned(db, values, binds, defaults)])
      else None
    case Update(_, sets, idParam, idCast, _) =>
      var id := IdParameter(db, idParam, idCast, binds);
      if AssignsBound(db, sets, binds) && AssignedOnce(sets) && id.Some? then
        Some(UpdateRows(db, sets, binds, id.value, table))
      else None
    case Delete(_, idParam, idCast, _) =>
      var id := IdParameter(db, idParam, idCast, binds);
      if id.Some? then Some(RowsWithout(table, id.value)) else None
  }

  /** Each assigned column gets its parameter, every other column keeps its value. */
  lemma {:induction false} AssignedColumns(db: Db, sets: seq<Assign>, binds: Binds, row: Row, name: string)
    requires AssignsBound(db, sets, binds) && AssignedOnce(sets)
    ensures (forall i | 0 <= i < |sets| :: sets[i].column != name) ==>
              Column(Assigned(db, sets, binds, row), name) == Column(row, name)
    ensures forall i | 0 <= i < |sets| && sets[i].column == name ::
              Column(Assigned(db, sets, binds, row), name) == Parameter(db, sets[i].cast, binds[sets[i].param - 1]).value
  {
    hide Parameter;
    if sets == [] {
    } else {
      AssignedColumns(db, sets[..|sets| - 1], binds, row, name);
    }
  }
}
