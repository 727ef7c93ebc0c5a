/** Compiling a typed request over a declared domain to a bound statement. */
module DataCompiler {
  import opened Prelude
  import opened Sql

  datatype FieldType = String | Text | Int | Float | Bool | Date | Datetime

  datatype Field = Field(name: string, ftype: FieldType, filterable: bool, readOnly: bool)

  datatype Action = Read | Write | Delete

  datatype Domain = Domain(source: string, fields: seq<Field>, permissions: seq<(string, seq<Action>)>)

  /** A request value; booleans, numbers and nested values come in their JSON text. */
  datatype Json = JNull | JString(s: string) | JOther(text: string)

  datatype WhereCond = WhereCond(field: string, op: string, value: Json)
  datatype OrderTerm = OrderTerm(field: string, dir: Option<string>)

  datatype QueryReq = QueryReq(
    fields: Option<seq<string>>, conditions: seq<WhereCond>, order: seq<OrderTerm>, limit: Option<int>)

  datatype CompileError =
    | UnknownField(name: string) | NotFilterable(name: string) | OpNotAllowed(op: string, name: string)
    | UnknownOrderField(name: string) | InvalidDirection(dir: string) | NegativeLimit
    | NoSettableField | IdRequired | UnknownOp(op: string) | RoleRequired | NotAllowed

  // ── Mapping helpers ─────────────────────────────────────────────────────────

  /** The first field of that name. */
  function FindField(fields: seq<Field>, name: string): (f: Option<Field>)
    ensures f.None? <==> forall i | 0 <= i < |fields| :: fields[i].name != name
    ensures f.Some? ==> f.value in fields && f.value.name == name
  {
    if fields == [] then None
    else if fields[0].name == name then Some(fields[0])
    else FindField(fields[1..], name)
  }

  function AllowedOps(t: FieldType): set<string> {
    match t
    case String => {"eq", "ne", "contains"}
    case Text => {"eq", "ne", "contains"}
    case Int => {"eq", "ne", "gt", "gte", "lt", "lte"}
    case Float => {"eq", "ne", "gt", "gte", "lt", "lte"}
    case Bool => {"eq"}
    case Date => {"eq", "gt", "lt"}
    case Datetime => {"eq", "gt", "lt"}
  }

  function OpSql(op: string): Option<Op> {
    if op == "eq" then Some(Eq)
    else if op == "ne" then Some(Ne)
    else if op == "gt" then Some(Gt)
    else if op == "gte" then Some(Gte)
    else if op == "lt" then Some(Lt)
    else if op == "lte" then Some(Lte)
    else None
  }

  /** Every allowed operator other than `contains` has a comparison. */
  lemma AllowedOpsCompile(t: FieldType, op: string)
    requires op in AllowedOps(t)
    ensures op == "contains" || OpSql(op).Some?
    ensures op == "contains" ==> t == String || t == Text
  {
  }

  function PgCast(t: FieldType): PgType {
    match t
    case Int => Bigint
    case Float => DoublePrecision
    case Bool => Boolean
    case String => TextType
    case Text => TextType
    case Date => DateType
    case Datetime => Timestamptz
  }

  function IdCast(domain: Domain): PgType {
    match FindField(domain.fields, "id")
    case Some(f) => PgCast(f.ftype)
    case None => Bigint
  }

  function TextOf(v: Json): Option<string> {
    match v
    case JNull => None
    case JString(s) => Some(s)
    case JOther(text) => Some(text)
  }

  function CoerceBind(v: Json, contains: bool): Option<string> {
    match TextOf(v)
    case None => None
    case Some(s) => if contains then Some("%" + s + "%") else Some(s)
  }

  function FieldNames(fields: seq<Field>): seq<string> {
    seq(|fields|, i requires 0 <= i < |fields| => fields[i].name)
  }

  // ── Legal requests ──────────────────────────────────────────────────────────

  predicate Declared(domain: Domain, name: string) {
    FindField(domain.fields, name).Some?
  }

  predicate LegalCond(domain: Domain, c: WhereCond) {
    && Declared(domain, c.field)
    && var f := FindField(domain.fields, c.field).value;
       (f.filterable || f.name == "id") && c.op in AllowedOps(f.ftype)
  }

  predicate LegalDir(dir: Option<string>) {
    dir.None? || dir.value in {"asc", "ASC", "desc", "DESC"}
  }

  predicate Named(fields: Option<seq<string>>) {
    fields.Some? && fields.value != []
  }

  predicate Legal(domain: Domain, req: QueryReq) {
    && (Named(req.fields) ==> forall i | 0 <= i < |req.fields.value| :: Declared(domain, req.fields.value[i]))
    && (forall i | 0 <= i < |req.conditions| :: LegalCond(domain, req.conditions[i]))
    && (forall i | 0 <= i < |req.order| :: LegalTerm(domain, req.order[i]))
    && (req.limit.Some? ==> req.limit.value >= 0)
  }

  // ── Which error an illegal request gets ─────────────────────────────────────

  /** What is wrong with a condition, in the order the checks are made. */
  function CondError(domain: Domain, c: WhereCond): Option<CompileError> {
    match FindField(domain.fields, c.field)
    case None => Some(UnknownField(c.field))
    case Some(f) =>
      if !(f.filterable || f.name == "id") then Some(NotFilterable(c.field))
      else if c.op !in AllowedOps(f.ftype) then Some(OpNotAllowed(c.op, c.field))
      else None
  }

  function TermError(domain: Domain, o: OrderTerm): Option<CompileError> {
    if !Declared(domain, o.field) then Some(UnknownOrderField(o.field))
    else if !LegalDir(o.dir) then Some(InvalidDirection(o.dir.value))
    else None
  }

  /** The error of the first field that is not declared. */
  predicate FirstUndeclared(domain: Domain, fields: seq<string>, e: CompileError) {
    exists k | 0 <= k < |fields| ::
      e == UnknownField(fields[k]) && !Declared(domain, fields[k]) && forall j | 0 <= j < k :: Declared(domain, fields[j])
  }

  predicate FirstBadCond(domain: Domain, conditions: seq<WhereCond>, e: CompileError) {
    exists k | 0 <= k < |conditions| ::
      CondError(domain, conditions[k]) == Some(e) && forall j | 0 <= j < k :: LegalCond(domain, conditions[j])
  }

  predicate LegalTerm(domain: Domain, o: OrderTerm) {
    Declared(domain, o.field) && LegalDir(o.dir)
  }

  predicate FirstBadTerm(domain: Domain, order: seq<OrderTerm>, e: CompileError) {
    exists k | 0 <= k < |order| ::
      TermError(domain, order[k]) == Some(e) && forall j | 0 <= j < k :: LegalTerm(domain, order[j])
  }

  /** Columns are checked first, then conditions, then order terms, then the limit. */
  predicate IsSelectError(domain: Domain, req: QueryReq, e: CompileError) {
    if Named(req.fields) && exists i | 0 <= i < |req.fields.value| :: !Declared(domain, req.fields.value[i])
    then FirstUndeclared(domain, req.fields.value, e)
    else if exists i | 0 <= i < |req.conditions| :: !LegalCond(domain, req.conditions[i])
    then FirstBadCond(domain, req.conditions, e)
    else if exists i | 0 <= i < |req.order| :: !LegalTerm(domain, req.order[i])
    then FirstBadTerm(domain, req.order, e)
    else e == NegativeLimit
  }

  /** The columns a legal request asks for. */
  function Wanted(domain: Domain, req: QueryReq): seq<string> {
    if Named(req.fields) then req.fields.value else FieldNames(domain.fields)
  }

  // ── What compiling yields ───────────────────────────────────────────────────

  function CompiledCond(domain: Domain, c: WhereCond, param: nat): (Cond, Option<string>)
    requires LegalCond(domain, c)
  {
    var f := FindField(domain.fields, c.field).value;
    AllowedOpsCompile(f.ftype, c.op);
    if c.op == "contains" then (ILike(f.name, param), CoerceBind(c.value, true))
    else (Compare(f.name, OpSql(c.op).value, param, PgCast(f.ftype)), CoerceBind(c.value, false))
  }

  function CompiledKey(o: OrderTerm): OrderKey {
    OrderKey(o.field, o.dir == Some("desc") || o.dir == Some("DESC"))
  }

  function CompiledSelect(domain: Domain, req: QueryReq): Select
    requires Legal(domain, req)
  {
    Select(
      Wanted(domain, req), domain.source,
      seq(|req.conditions|, i requires 0 <= i < |req.conditions| => CompiledCond(domain, req.conditions[i], i + 1).0),
      seq(|req.order|, i requires 0 <= i < |req.order| => CompiledKey(req.order[i])),
      if req.limit.None? then None else Some(req.limit.value))
  }

  function CompiledBinds(domain: Domain, req: QueryReq): Binds
    requires Legal(domain, req)
  {
    seq(|req.conditions|, i requires 0 <= i < |req.conditions| => CompiledCond(domain, req.conditions[i], i + 1).1)
  }

  // ── The select compiler ─────────────────────────────────────────────────────

  method ColumnNames(domain: Domain, fields: Option<seq<string>>) returns (r: Result<seq<string>, CompileError>)
    ensures r.Ok? <==> (Named(fields) ==> forall i | 0 <= i < |fields.value| :: Declared(domain, fields.value[i]))
    ensures r.Ok? ==> r.value == if Named(fields) then fields.value else FieldNames(domain.fields)
    ensures r.Err? ==> FirstUndeclared(domain, fields.value, r.error)
  {
    if fields.Some? && |fields.value| > 0 {
      for i := 0 to |fields.value|
        invariant forall j | 0 <= j < i :: Declared(domain, fields.value[j])
      {
        if FindField(domain.fields, fields.value[i]).None? {
          return Err(UnknownField(fields.value[i]));
        }
      }
      return Ok(fields.value);
    }
    return Ok(FieldNames(domain.fields));
  }

  method CompileWhere(domain: Domain, conditions: seq<WhereCond>) returns (r: Result<(seq<Cond>, Binds), CompileError>)
    ensures r.Ok? <==> forall i | 0 <= i < |conditions| :: LegalCond(domain, conditions[i])
    ensures r.Ok? ==> |r.value.0| == |conditions| && |r.value.1| == |conditions|
    ensures r.Ok? ==> forall i | 0 <= i < |conditions| ::
              (r.value.0[i], r.value.1[i]) == CompiledCond(domain, conditions[i], i + 1)
    ensures r.Err? ==> FirstBadCond(domain, conditions, r.error)
  {
    hide FirstBadCond;
    var parts: seq<Cond>, binds: Binds := [], [];
    var i := 1;
    for k := 0 to |conditions|
      invariant i == k + 1 && |parts| == k && |binds| == k
      invariant forall j | 0 <= j < k :: LegalCond(domain, conditions[j])
      invariant forall j | 0 <= j < k :: (parts[j], binds[j]) == CompiledCond(domain, conditions[j], j + 1)
    {
      var c := conditions[k];
      var field := FindField(domain.fields, c.field);
      if field.None? {
        BadCondFound(domain, conditions, k, UnknownField(c.field));
        return Err(UnknownField(c.field));
      }
      var f := field.value;
      if !(f.filterable || f.name == "id") {
        BadCondFound(domain, conditions, k, NotFilterable(c.field));
        return Err(NotFilterable(c.field));
      }
      if c.op !in AllowedOps(f.ftype) {
        BadCondFound(domain, conditions, k, OpNotAllowed(c.op, c.field));
        return Err(OpNotAllowed(c.op, c.field));
      }
      AllowedOpsCompile(f.ftype, c.op);
      if c.op == "contains" {
        parts := parts + [ILike(f.name, i)];
        binds := binds + [CoerceBind(c.value, true)];
      } else {
        parts := parts + [Compare(f.name, OpSql(c.op).value, i, PgCast(f.ftype))];
        binds := binds + [CoerceBind(c.value, false)];
      }
      i := i + 1;
    }
    return Ok((parts, binds));
  }

  lemma BadCondFound(domain: Domain, conditions: seq<WhereCond>, k: nat, e: CompileError)
    requires k < |conditions| && CondError(domain, conditions[k]) == Some(e)
    requires forall j | 0 <= j < k :: LegalCond(domain, conditions[j])
    ensures FirstBadCond(domain, conditions, e)
  {
  }

  method CompileOrder(domain: Domain, order: seq<OrderTerm>) returns (r: Result<seq<OrderKey>, CompileError>)
    ensures r.Ok? <==> forall i | 0 <= i < |order| :: LegalTerm(domain, order[i])
    ensures r.Ok? ==> |r.value| == |order| && forall i | 0 <= i < |order| :: r.value[i] == CompiledKey(order[i])
    ensures r.Err? ==> FirstBadTerm(domain, order, r.error)
  {
    var terms: seq<OrderKey> := [];
    for i := 0 to |order|
      invariant |terms| == i && forall j | 0 <= j < i :: terms[j] == CompiledKey(order[j])
      invariant forall j | 0 <= j < i :: LegalTerm(domain, order[j])
    {
      var o := order[i];
      if FindField(domain.fields, o.field).None? {
        return Err(UnknownOrderField(o.field));
      }
      var desc: bool;
      if o.dir.None? || o.dir.value == "asc" || o.dir.value == "ASC" {
        desc := false;
      } else if o.dir.value == "desc" || o.dir.value == "DESC" {
        desc := true;
      } else {
        return Err(InvalidDirection(o.dir.value));
      }
      terms := terms + [OrderKey(o.field, desc)];
    }
    return Ok(terms);
  }

  /** Accepts exactly the legal requests. */
  method BuildSelect(domain: Domain, req: QueryReq) returns (r: Result<(Select, Binds), CompileError>)
    ensures r.Ok? <==> Legal(domain, req)
    ensures r.Ok? ==> r.value == (CompiledSelect(domain, req), CompiledBinds(domain, req))
    ensures r.Err? ==> IsSelectError(domain, req, r.error)
  {
    hide LegalCond, CompiledCond, CompiledKey, LegalTerm, Declared, FirstUndeclared, FirstBadCond, FirstBadTerm;
    var cols := ColumnNames(domain, req.fields);
    if cols.Err? { return Err(cols.error); }
    var where := CompileWhere(domain, req.conditions);
    if where.Err? { return Err(where.error); }
    var order := CompileOrder(domain, req.order);
    if order.Err? { return Err(order.error); }
    var limit: Option<nat> := None;
    if req.limit.Some? {
      if req.limit.value < 0 {
        return Err(NegativeLimit);
      }
      limit := Some(req.limit.value);
    }
    r := Ok((Select(cols.value, domain.source, where.value.0, order.value, limit), where.value.1));
    assert r.value.0.conds == CompiledSelect(domain, req).conds;
    assert r.value.0.order == CompiledSelect(domain, req).order;
    assert r.value.1 == CompiledBinds(domain, req);
  }

  // ── Which requests are accepted, and what is bound ──────────────────────────

  /** The operators a value of this type can be compared with: every type by equality, texts and numbers also
      by inequality, texts by containment, numbers and times by size, and only numbers by size or equality. */
  predicate OperatorFits(op: string, t: FieldType) {
    || op == "eq"
    || (op == "ne" && t in {String, Text, Int, Float})
    || (op == "contains" && t in {String, Text})
    || (op in {"gt", "lt"} && t in {Int, Float, Date, Datetime})
    || (op in {"gte", "lte"} && t in {Int, Float})
  }

  /** Field `i` is the one a request means by this name. */
  predicate Names(domain: Domain, i: nat, name: string) {
    i < |domain.fields| && domain.fields[i].name == name && forall j | 0 <= j < i :: domain.fields[j].name != name
  }

  predicate Filters(domain: Domain, c: WhereCond) {
    exists i | 0 <= i < |domain.fields| ::
      && Names(domain, i, c.field) && OperatorFits(c.op, domain.fields[i].ftype)
      && (domain.fields[i].filterable || c.field == "id")
  }

  predicate Has(domain: Domain, name: string) {
    exists i | 0 <= i < |domain.fields| :: domain.fields[i].name == name
  }

  predicate SortsBy(domain: Domain, o: OrderTerm) {
    Has(domain, o.field) && o.dir in {None, Some("asc"), Some("ASC"), Some("desc"), Some("DESC")}
  }

  /** Requests that can be answered: over fields of the domain, with conditions that can be checked, in one of
      the two directions, up to a limit that is not negative. */
  predicate Answerable(domain: Domain, req: QueryReq) {
    && (req.fields.Some? ==> forall name | name in req.fields.value :: Has(domain, name))
    && (forall c | c in req.conditions :: Filters(domain, c))
    && (forall o | o in req.order :: SortsBy(domain, o))
    && (req.limit == None || req.limit.value >= 0)
  }

  lemma {:induction false} FindsNamed(fields: seq<Field>, name: string, i: nat)
    requires i < |fields| && fields[i].name == name && forall j | 0 <= j < i :: fields[j].name != name
    ensures FindField(fields, name) == Some(fields[i])
  {
    if i == 0 {
    } else {
      FindsNamed(fields[1..], name, i - 1);
    }
  }

  lemma FirstNamed(domain: Domain, name: string) returns (i: nat)
    requires Has(domain, name)
    ensures Names(domain, i, name)
  {
    i := 0;
    while domain.fields[i].name != name
      invariant i < |domain.fields| && forall j | 0 <= j < i :: domain.fields[j].name != name
      decreases |domain.fields| - i
    {
      i := i + 1;
    }
  }

  lemma DeclaredIsThere(domain: Domain, name: string)
    ensures Declared(domain, name) <==> Has(domain, name)
  {
  }

  lemma LegalCondIff(domain: Domain, c: WhereCond)
    ensures LegalCond(domain, c) <==> Filters(domain, c)
  {
    DeclaredIsThere(domain, c.field);
    if Has(domain, c.field) {
      var i := FirstNamed(domain, c.field);
      FindsNamed(domain.fields, c.field, i);
      assert c.op in AllowedOps(domain.fields[i].ftype) <==> OperatorFits(c.op, domain.fields[i].ftype);
      if Filters(domain, c) {
        var k :| 0 <= k < |domain.fields| && Names(domain, k, c.field) && OperatorFits(c.op, domain.fields[k].ftype)
                 && (domain.fields[k].filterable || c.field == "id");
        assert k == i;
      }
    }
  }

  /** Which complaint a condition gets: its field does not exist, cannot be filtered by, or does not go with
      the operator; none when the condition can be checked. */
  lemma CondErrorMeans(domain: Domain, c: WhereCond)
    ensures match CondError(domain, c)
            case None => Filters(domain, c)
            case Some(UnknownField(name)) => name == c.field && !Has(domain, c.field)
            case Some(NotFilterable(name)) =>
              name == c.field && c.field != "id" &&
              exists i | 0 <= i < |domain.fields| :: Names(domain, i, c.field) && !domain.fields[i].filterable
            case Some(OpNotAllowed(op, name)) =>
              op == c.op && name == c.field &&
              exists i | 0 <= i < |domain.fields| ::
                && Names(domain, i, c.field) && (c.field == "id" || domain.fields[i].filterable)
                && !OperatorFits(c.op, domain.fields[i].ftype)
            case _ => false
  {
    DeclaredIsThere(domain, c.field);
    if Has(domain, c.field) {
      var i := FirstNamed(domain, c.field);
      FindsNamed(domain.fields, c.field, i);
      assert c.op in AllowedOps(domain.fields[i].ftype) <==> OperatorFits(c.op, domain.fields[i].ftype);
      hide FindField, AllowedOps, OperatorFits;
      assert Names(domain, i, c.field);
    }
  }

  /** And which an order term gets. */
  lemma TermErrorMeans(domain: Domain, o: OrderTerm)
    ensures match TermError(domain, o)
            case None => Has(domain, o.field) && (o.dir == None || o.dir.value in {"asc", "ASC", "desc", "DESC"})
            case Some(UnknownOrderField(name)) => name == o.field && !Has(domain, o.field)
            case Some(InvalidDirection(dir)) =>
              Has(domain, o.field) && o.dir == Some(dir) && dir !in {"asc", "ASC", "desc", "DESC"}
            case _ => false
  {
    DeclaredIsThere(domain, o.field);
  }

  lemma NamesIndexed(domain: Domain, req: QueryReq)
    ensures (req.fields.Some? ==> forall name | name in req.fields.value :: Has(domain, name)) <==>
            (Named(req.fields) ==> forall i | 0 <= i < |req.fields.value| :: Declared(domain, req.fields.value[i]))
  {
    forall name ensures Declared(domain, name) <==> Has(domain, name) {
      DeclaredIsThere(domain, name);
    }
    hide Has, Declared;
    if req.fields.Some? {
      assert forall i | 0 <= i < |req.fields.value| :: req.fields.value[i] in req.fields.value;
    }
  }

  lemma CondsIndexed(domain: Domain, conditions: seq<WhereCond>)
    ensures (forall c | c in conditions :: Filters(domain, c)) <==>
            forall i | 0 <= i < |conditions| :: LegalCond(domain, conditions[i])
  {
    forall c ensures LegalCond(domain, c) <==> Filters(domain, c) {
      LegalCondIff(domain, c);
    }
    hide LegalCond, Filters;
    assert forall i | 0 <= i < |conditions| :: conditions[i] in conditions;
  }

  lemma TermsIndexed(domain: Domain, order: seq<OrderTerm>)
    ensures (forall o | o in order :: SortsBy(domain, o)) <==>
            forall i | 0 <= i < |order| :: LegalTerm(domain, order[i])
  {
    forall o ensures LegalTerm(domain, o) <==> SortsBy(domain, o) {
      DeclaredIsThere(domain, o.field);
    }
    hide LegalTerm, SortsBy;
    assert forall i | 0 <= i < |order| :: order[i] in order;
  }

  /** The compiler accepts exactly the requests that can be answered. */
  lemma LegalIffAnswerable(domain: Domain, req: QueryReq)
    ensures Legal(domain, req) <==> Answerable(domain, req)
  {
    hide LegalCond, Filters, Declared, Has, LegalTerm, SortsBy;
    NamesIndexed(domain, req);
    CondsIndexed(domain, req.conditions);
    TermsIndexed(domain, req.order);
  }

  /** What is bound for condition `i`: nothing for null, else the text of its value, between percent signs for
      containment. The statement reads the table of the domain. */
  lemma BoundTexts(domain: Domain, req: QueryReq, i: nat)
    requires Legal(domain, req) && i < |req.conditions|
    ensures CompiledSelect(domain, req).table == domain.source
    ensures i < |CompiledBinds(domain, req)|
    ensures CompiledBinds(domain, req)[i] ==
      match req.conditions[i].value
      case JNull => None
      case JString(s) => Some(if req.conditions[i].op == "contains" then "%" + s + "%" else s)
      case JOther(s) => Some(if req.conditions[i].op == "contains" then "%" + s + "%" else s)
  {
    hide LegalCond, LegalTerm, PgCast, OpSql;
  }

  /** Placeholders are `$1` to `$n`, in order, and there are `n` binds. */
  lemma PlaceholdersMatchBinds(domain: Domain, req: QueryReq)
    requires Legal(domain, req)
    ensures var (s, binds) := (CompiledSelect(domain, req), CompiledBinds(domain, req));
            && |s.conds| == |binds| == |req.conditions|
            && forall i | 0 <= i < |binds| :: s.conds[i].param == i + 1
  {
    hide LegalCond;
  }

  /** Names and types a result row is read back with: the requested names that are declared, or every
      declared field under its own type. */
  function SelectedFields(domain: Domain, fields: Option<seq<string>>): seq<(string, FieldType)> {
    if Named(fields) then DeclaredAmong(domain, fields.value)
    else seq(|domain.fields|, i requires 0 <= i < |domain.fields| => (domain.fields[i].name, domain.fields[i].ftype))
  }

  function DeclaredAmong(domain: Domain, names: seq<string>): seq<(string, FieldType)> {
    if names == [] then [] else
    var rest := DeclaredAmong(domain, names[1..]);
    match FindField(domain.fields, names[0])
    case Some(f) => [(names[0], f.ftype)] + rest
    case None => rest
  }

  /** Every selected column is read back, under its own name and declared type. */
  lemma SelectedFieldsAreColumns(domain: Domain, req: QueryReq)
    requires Legal(domain, req)
    ensures |SelectedFields(domain, req.fields)| == |CompiledSelect(domain, req).columns|
    ensures forall i | 0 <= i < |Wanted(domain, req)| ::
              SelectedFields(domain, req.fields)[i] == (CompiledSelect(domain, req).columns[i], ReadType(domain, req, i))
  {
    hide LegalCond, LegalTerm, Declared;
    if Named(req.fields) {
      DeclaredNames(domain, req.fields.value);
    }
  }

  /** The type column `i` is read back as. */
  function ReadType(domain: Domain, req: QueryReq, i: nat): FieldType
    requires Legal(domain, req) && i < |Wanted(domain, req)|
  {
    if Named(req.fields) then TypeOf(domain, req.fields.value[i]) else domain.fields[i].ftype
  }

  /** A named column is read back as the type of the field it means; without names, column `i` as that of
      field `i`, even when an earlier field has its name. */
  lemma ReadBackAs(domain: Domain, req: QueryReq, i: nat)
    requires Legal(domain, req) && i < |Wanted(domain, req)|
    ensures if req.fields.Some? && req.fields.value != []
            then forall k | 0 <= k < |domain.fields| && Names(domain, k, req.fields.value[i]) ::
                   ReadType(domain, req, i) == domain.fields[k].ftype
            else i < |domain.fields| && ReadType(domain, req, i) == domain.fields[i].ftype
  {
    hide LegalCond, LegalTerm;
    if Named(req.fields) {
      forall k | 0 <= k < |domain.fields| && Names(domain, k, req.fields.value[i])
        ensures ReadType(domain, req, i) == domain.fields[k].ftype
      {
        FindsNamed(domain.fields, req.fields.value[i], k);
      }
    }
  }

  lemma {:induction false} DeclaredNames(domain: Domain, names: seq<string>)
    requires forall i | 0 <= i < |names| :: Declared(domain, names[i])
    ensures |DeclaredAmong(domain, names)| == |names|
    ensures forall i | 0 <= i < |names| :: DeclaredAmong(domain, names)[i] == (names[i], TypeOf(domain, names[i]))
  {
    if names == [] {
    } else {
      assert Declared(domain, names[0]);
      assert forall i | 0 <= i < |names| - 1 :: names[1..][i] == names[i + 1];
      DeclaredNames(domain, names[1..]);
    }
  }

  // ── What a query asks for ───────────────────────────────────────────────────

  /** The request's value, read as the field's type; `None` when it cannot be. */
  function ReadAs(db: Db, t: FieldType, v: Json): Option<SqlValue> {
    match TextOf(v)
    case None => Some(Null)
    case Some(s) => db.cast(PgCast(t), s)
  }

  predicate Readable(db: Db, domain: Domain, c: WhereCond)
    requires LegalCond(domain, c)
  {
    c.op == "contains" || ReadAs(db, FindField(domain.fields, c.field).value.ftype, c.value).Some?
  }

  /** The row's value and the request's are both there, and related as the operator says. */
  predicate Satisfies(db: Db, domain: Domain, row: Row, c: WhereCond)
    requires LegalCond(domain, c) && Readable(db, domain, c)
  {
    var f := FindField(domain.fields, c.field).value;
    var v := Column(row, c.field);
    if c.op == "contains" then
      v.TextV? && !c.value.JNull? && db.ilike(v.s, "%" + TextOf(c.value).value + "%")
    else
      var w := ReadAs(db, f.ftype, c.value).value;
      && !v.Null? && !w.Null?
      && (c.op == "eq" ==> v == w)
      && (c.op == "ne" ==> v != w)
      && (c.op == "gt" ==> Less(db, w, v))
      && (c.op == "gte" ==> v == w || Less(db, w, v))
      && (c.op == "lt" ==> Less(db, v, w))
      && (c.op == "lte" ==> v == w || Less(db, v, w))
  }

  predicate SatisfiesAll(db: Db, domain: Domain, row: Row, conditions: seq<WhereCond>)
    requires forall i | 0 <= i < |conditions| :: LegalCond(domain, conditions[i]) && Readable(db, domain, conditions[i])
  {
    forall i | 0 <= i < |conditions| :: Satisfies(db, domain, row, conditions[i])
  }

  function Satisfying(db: Db, domain: Domain, table: seq<Row>, conditions: seq<WhereCond>): seq<Row>
    requires forall i | 0 <= i < |conditions| :: LegalCond(domain, conditions[i]) && Readable(db, domain, conditions[i])
  {
    if table == [] then [] else
    (if SatisfiesAll(db, domain, table[0], conditions) then [table[0]] else [])
    + Satisfying(db, domain, table[1..], conditions)
  }

  /** The request asks for these columns: the fields it names, or all fields of the domain. */
  predicate AsksFor(domain: Domain, req: QueryReq, names: seq<string>) {
    if req.fields.Some? && req.fields.value != [] then names == req.fields.value
    else |names| == |domain.fields| && forall i | 0 <= i < |names| :: names[i] == domain.fields[i].name
  }

  /** The order the request asks for: by the values of its fields, the first that differ deciding. */
  predicate AskedBefore(db: Db, order: seq<OrderTerm>, a: Row, b: Row) {
    if order == [] then false else
    var o := order[0];
    var desc := o.dir in {Some("desc"), Some("DESC")};
    var v, w := Column(a, o.field), Column(b, o.field);
    KeyBefore(db, v, w, desc) || (!KeyBefore(db, w, v, desc) && AskedBefore(db, order[1..], a, b))
  }

  predicate AskedOrder(db: Db, order: seq<OrderTerm>, passing: seq<Row>, rows: seq<Row>) {
    && multiset(rows) == multiset(passing)
    && forall i, j | 0 <= i < j < |rows| :: !AskedBefore(db, order, rows[j], rows[i])
  }

  function UpTo(rows: seq<Row>, limit: Option<int>): seq<Row> {
    if limit.Some? && 0 <= limit.value < |rows| then rows[..limit.value] else rows
  }

  /** The rows that satisfy all conditions, in the order asked for, up to the limit, with the columns asked
      for; ties may fall either way. */
  ghost predicate Delivers(db: Db, domain: Domain, req: QueryReq, names: seq<string>, passing: seq<Row>,
                           result: seq<OutRow>)
  {
    && AsksFor(domain, req, names)
    && exists rows | AskedOrder(db, req.order, passing, rows) :: result == ProjectAll(db, names, UpTo(rows, req.limit))
  }

  /** What may be answered to the request, over the table of its domain. */
  ghost predicate Asked(db: Db, domain: Domain, req: QueryReq, table: seq<Row>, result: Option<seq<OutRow>>)
    requires Legal(domain, req)
  {
    if exists i | 0 <= i < |req.conditions| :: !Readable(db, domain, req.conditions[i]) then result.None?
    else
      && result.Some?
      && exists names :: Delivers(db, domain, req, names, Satisfying(db, domain, table, req.conditions), result.value)
  }

  // ── The compiled statement says what was asked ──────────────────────────────

  lemma {:induction false} AskedIsCompiledOrder(db: Db, order: seq<OrderTerm>, keys: seq<OrderKey>, a: Row, b: Row)
    requires |keys| == |order| && forall i | 0 <= i < |order| :: keys[i] == CompiledKey(order[i])
    ensures AskedBefore(db, order, a, b) == RowBefore(db, keys, TableColumns, a, b)
  {
    hide KeyBefore;
    if order == [] {
    } else {
      AskedIsCompiledOrder(db, order[1..], keys[1..], a, b);
      assert keys[0] == CompiledKey(order[0]);
    }
  }

  /** The rows may come in the order asked for exactly when they may come in the compiled order of the
      table's own columns. */
  lemma AskedOrderIsCompiled(db: Db, domain: Domain, req: QueryReq, passing: seq<Row>, rows: seq<Row>)
    requires Legal(domain, req)
    ensures AskedOrder(db, req.order, passing, rows) <==>
            OneOrder(db, CompiledSelect(domain, req).order, TableColumns, passing, rows)
  {
    hide LegalCond, Declared, LegalDir, RowBefore, AskedBefore, CompiledKey;
    var keys := CompiledSelect(domain, req).order;
    forall i, j | 0 <= i < j < |rows|
      ensures AskedBefore(db, req.order, rows[j], rows[i]) == RowBefore(db, keys, TableColumns, rows[j], rows[i])
    {
      AskedIsCompiledOrder(db, req.order, keys, rows[j], rows[i]);
    }
  }

  lemma AskedNames(domain: Domain, req: QueryReq, names: seq<string>)
    ensures AsksFor(domain, req, names) <==> names == Wanted(domain, req)
  {
  }

  lemma DeliversIsGiven(db: Db, domain: Domain, req: QueryReq, passing: seq<Row>, result: seq<OutRow>)
    requires Legal(domain, req)
    ensures (exists names :: Delivers(db, domain, req, names, passing, result)) <==>
            Gives(db, CompiledSelect(domain, req), TableColumns, passing, result)
  {
    hide LegalCond, LegalTerm, AskedOrder, OneOrder, AsksFor, CompiledKey, ProjectAll, Wanted, Limited, UpTo;
    var s := CompiledSelect(domain, req);
    AskedNames(domain, req, s.columns);
    forall rows ensures AskedOrder(db, req.order, passing, rows) <==> OneOrder(db, s.order, TableColumns, passing, rows) {
      AskedOrderIsCompiled(db, domain, req, passing, rows);
    }
    forall rows ensures UpTo(rows, req.limit) == Limited(rows, s.limit) {
      SameLimit(domain, req, rows);
    }
    if Gives(db, s, TableColumns, passing, result) {
      assert Delivers(db, domain, req, s.columns, passing, result);
    }
    forall names | Delivers(db, domain, req, names, passing, result) ensures names == s.columns {
      AskedNames(domain, req, names);
    }
  }

  lemma SameLimit(domain: Domain, req: QueryReq, rows: seq<Row>)
    requires Legal(domain, req)
    ensures UpTo(rows, req.limit) == Limited(rows, CompiledSelect(domain, req).limit)
  {
  }

  /** What is asked, in terms of the compiled statement run with the table's own columns in ORDER BY. */
  lemma AskedMeans(db: Db, domain: Domain, req: QueryReq, table: seq<Row>, result: Option<seq<OutRow>>)
    requires Legal(domain, req)
    ensures Asked(db, domain, req, table, result) <==>
      if exists i | 0 <= i < |req.conditions| :: !Readable(db, domain, req.conditions[i]) then result.None?
      else
        && result.Some?
        && Gives(db, CompiledSelect(domain, req), TableColumns, Satisfying(db, domain, table, req.conditions), result.value)
  {
    hide Readable, LegalCond, LegalTerm, Gives, Delivers, Satisfying, CompiledSelect;
    if result.Some? && forall i | 0 <= i < |req.conditions| :: Readable(db, domain, req.conditions[i]) {
      DeliversIsGiven(db, domain, req, Satisfying(db, domain, table, req.conditions), result.value);
    }
  }

  // ── Filtering is preserved ──────────────────────────────────────────────────

  lemma CondIsBound(db: Db, domain: Domain, req: QueryReq, i: nat)
    requires Legal(domain, req) && i < |req.conditions|
    ensures Bound(db, CompiledSelect(domain, req).conds[i], CompiledBinds(domain, req)) <==>
            Readable(db, domain, req.conditions[i])
  {
    var c := req.conditions[i];
    assert LegalCond(domain, c);
    var compiled := CompiledCond(domain, c, i + 1);
    assert CompiledSelect(domain, req).conds[i] == compiled.0 && CompiledBinds(domain, req)[i] == compiled.1;
    hide AllowedOps, OpSql;
  }

  lemma CondIsTrue(db: Db, domain: Domain, req: QueryReq, i: nat, row: Row)
    requires Legal(domain, req) && i < |req.conditions| && Readable(db, domain, req.conditions[i])
    requires Bound(db, CompiledSelect(domain, req).conds[i], CompiledBinds(domain, req))
    ensures Truth(db, row, CompiledSelect(domain, req).conds[i], CompiledBinds(domain, req)) == True <==>
            Satisfies(db, domain, row, req.conditions[i])
  {
    var c := req.conditions[i];
    assert LegalCond(domain, c);
    var f := FindField(domain.fields, c.field).value;
    AllowedOpsCompile(f.ftype, c.op);
    var compiled := CompiledCond(domain, c, i + 1);
    assert CompiledSelect(domain, req).conds[i] == compiled.0 && CompiledBinds(domain, req)[i] == compiled.1;
  }

  predicate AllReadable(db: Db, domain: Domain, req: QueryReq)
    requires Legal(domain, req)
  {
    forall i | 0 <= i < |req.conditions| :: Readable(db, domain, req.conditions[i])
  }

  predicate AllBound(db: Db, s: Select, binds: Binds) {
    forall i | 0 <= i < |s.conds| :: Bound(db, s.conds[i], binds)
  }

  lemma BoundIffReadable(db: Db, domain: Domain, req: QueryReq)
    requires Legal(domain, req)
    ensures AllBound(db, CompiledSelect(domain, req), CompiledBinds(domain, req)) <==> AllReadable(db, domain, req)
  {
    hide Readable, Bound, LegalCond;
    var s, binds := CompiledSelect(domain, req), CompiledBinds(domain, req);
    forall i | 0 <= i < |req.conditions| ensures Bound(db, s.conds[i], binds) <==> Readable(db, domain, req.conditions[i]) {
      CondIsBound(db, domain, req, i);
    }
    hide CompiledSelect, CompiledBinds;
    assert |s.conds| == |req.conditions| by { LengthsAgree(domain, req); }
  }

  lemma LengthsAgree(domain: Domain, req: QueryReq)
    requires Legal(domain, req)
    ensures |CompiledSelect(domain, req).conds| == |req.conditions| == |CompiledBinds(domain, req)|
  {
    hide Legal;
  }

  lemma RowPasses(db: Db, domain: Domain, req: QueryReq, row: Row)
    requires Legal(domain, req) && AllReadable(db, domain, req)
    requires AllBound(db, CompiledSelect(domain, req), CompiledBinds(domain, req))
    ensures Conjunction(db, row, CompiledSelect(domain, req).conds, CompiledBinds(domain, req)) == True <==>
            SatisfiesAll(db, domain, row, req.conditions)
  {
    hide Bound, Satisfies, Truth, Conjunction;
    var s, binds := CompiledSelect(domain, req), CompiledBinds(domain, req);
    LengthsAgree(domain, req);
    ConjunctionIsAll(db, row, s.conds, binds);
    forall i | 0 <= i < |req.conditions|
      ensures Truth(db, row, s.conds[i], binds) == True <==> Satisfies(db, domain, row, req.conditions[i])
    {
      CondIsTrue(db, domain, req, i, row);
    }
    hide CompiledSelect, CompiledBinds, Legal, Readable;
  }

  lemma {:induction false} SamePassing(db: Db, domain: Domain, req: QueryReq, table: seq<Row>)
    requires Legal(domain, req) && AllReadable(db, domain, req)
    requires AllBound(db, CompiledSelect(domain, req), CompiledBinds(domain, req))
    ensures Passing(db, table, CompiledSelect(domain, req).conds, CompiledBinds(domain, req)) ==
            Satisfying(db, domain, table, req.conditions)
  {
    hide Bound, SatisfiesAll, Conjunction, CompiledSelect, CompiledBinds, Readable, Legal;
    if table == [] {
    } else {
      RowPasses(db, domain, req, table[0]);
      SamePassing(db, domain, req, table[1..]);
    }
  }

  // ── Ordering: where the output alias gets in the way ────────────────────────

  /** Sorting the values of a type by their text gives the same order. */
  ghost predicate TextOrderAgrees(db: Db, t: FieldType) {
    forall v, w | OfType(t, v) && OfType(t, w) :: Less(db, AsText(db, v), AsText(db, w)) <==> Less(db, v, w)
  }

  predicate OfType(t: FieldType, v: SqlValue) {
    match t
    case String => v.TextV?
    case Text => v.TextV?
    case Int => v.IntV?
    case Float => v.FloatV?
    case Bool => v.BoolV?
    case Date => v.DateV?
    case Datetime => v.TimeV?
  }

  /** The values of a server type. */
  predicate HasType(c: PgType, v: SqlValue) {
    match v
    case Null => true
    case TextV(_) => c == TextType
    case IntV(_) => c == Bigint
    case FloatV(_) => c == DoublePrecision
    case BoolV(_) => c == Boolean
    case DateV(_) => c == DateType
    case TimeV(_) => c == Timestamptz
  }

  /** A cast yields values of the type it names. */
  ghost predicate CastsTyped(db: Db) {
    forall c, s | db.cast(c, s).Some? :: HasType(c, db.cast(c, s).value)
  }

  /** A request's value is read as a value of the type of its field. */
  lemma ReadIsOfType(db: Db, t: FieldType, v: Json)
    requires CastsTyped(db) && ReadAs(db, t, v).Some?
    ensures ReadAs(db, t, v).value.Null? || OfType(t, ReadAs(db, t, v).value)
    ensures v.JNull? ==> ReadAs(db, t, v) == Some(Null)
  {
  }

  /** Every declared column holds NULL or a value of its declared type. */
  predicate WellTyped(domain: Domain, row: Row) {
    forall i | 0 <= i < |domain.fields| ::
      var f := FindField(domain.fields, domain.fields[i].name).value;
      Column(row, f.name).Null? || OfType(f.ftype, Column(row, f.name))
  }

  function TypeOf(domain: Domain, name: string): FieldType
    requires Declared(domain, name)
  {
    FindField(domain.fields, name).value.ftype
  }

  /** Ordering by this field is ordering by its values: it is not selected, or is text already, or its
      text sorts as its values do. */
  ghost predicate OrderTermSafe(db: Db, domain: Domain, req: QueryReq, o: OrderTerm)
    requires Declared(domain, o.field)
  {
    o.field !in Wanted(domain, req) || TextOrderAgrees(db, TypeOf(domain, o.field))
  }

  ghost predicate OrderSafe(db: Db, domain: Domain, req: QueryReq)
    requires Legal(domain, req)
  {
    forall i | 0 <= i < |req.order| :: OrderTermSafe(db, domain, req, req.order[i])
  }

  /** Text is always safe to order by. */
  lemma TextIsSafe(db: Db)
    ensures TextOrderAgrees(db, String) && TextOrderAgrees(db, Text)
  {
  }

  lemma TypedColumn(domain: Domain, row: Row, name: string)
    requires WellTyped(domain, row) && Declared(domain, name)
    ensures Column(row, name).Null? || OfType(TypeOf(domain, name), Column(row, name))
  {
    var f := FindField(domain.fields, name).value;
    var i :| 0 <= i < |domain.fields| && domain.fields[i] == f;
  }

  lemma SameKeyOrder(db: Db, t: FieldType, v: SqlValue, w: SqlValue, desc: bool)
    requires TextOrderAgrees(db, t) && (v.Null? || OfType(t, v)) && (w.Null? || OfType(t, w))
    ensures KeyBefore(db, AsText(db, v), AsText(db, w), desc) == KeyBefore(db, v, w, desc)
  {
    hide OfType, Less;
    assert AsText(db, v).Null? <==> v.Null?;
    assert AsText(db, w).Null? <==> w.Null?;
  }

  lemma {:induction false} SameRowOrder(db: Db, domain: Domain, req: QueryReq, order: seq<OrderKey>, a: Row, b: Row)
    requires WellTyped(domain, a) && WellTyped(domain, b)
    requires forall i | 0 <= i < |order| :: Declared(domain, order[i].name) &&
               (order[i].name !in Wanted(domain, req) || TextOrderAgrees(db, TypeOf(domain, order[i].name)))
    ensures RowBefore(db, order, OutputColumns(Wanted(domain, req)), a, b) == RowBefore(db, order, TableColumns, a, b)
  {
    hide WellTyped, TextOrderAgrees, Declared, KeyBefore, AsText, Wanted;
    if order == [] {
    } else {
      SameRowOrder(db, domain, req, order[1..], a, b);
      var k := order[0];
      if k.name in Wanted(domain, req) {
        TypedColumn(domain, a, k.name);
        TypedColumn(domain, b, k.name);
        SameKeyOrder(db, TypeOf(domain, k.name), Column(a, k.name), Column(b, k.name), k.desc);
        SameKeyOrder(db, TypeOf(domain, k.name), Column(b, k.name), Column(a, k.name), k.desc);
      }
    }
  }

  lemma SameOneOrder(db: Db, domain: Domain, req: QueryReq, passing: seq<Row>, rows: seq<Row>)
    requires Legal(domain, req) && OrderSafe(db, domain, req)
    requires forall row | row in passing :: WellTyped(domain, row)
    ensures OneOrder(db, CompiledSelect(domain, req).order, OutputColumns(Wanted(domain, req)), passing, rows) <==>
            OneOrder(db, CompiledSelect(domain, req).order, TableColumns, passing, rows)
  {
    hide WellTyped, RowBefore, TextOrderAgrees, LegalCond, Declared, Wanted;
    if multiset(rows) == multiset(passing) {
      var order := CompiledSelect(domain, req).order;
      assert forall i | 0 <= i < |req.order| :: order[i].name == req.order[i].field;
      forall i, j | 0 <= i < j < |rows|
        ensures RowBefore(db, order, OutputColumns(Wanted(domain, req)), rows[j], rows[i]) ==
                RowBefore(db, order, TableColumns, rows[j], rows[i])
      {
        assert rows[i] in multiset(rows) && rows[j] in multiset(rows);
        SameRowOrder(db, domain, req, order, rows[j], rows[i]);
      }
    }
  }

  lemma {:induction false} SatisfyingAreRows(db: Db, domain: Domain, table: seq<Row>, conditions: seq<WhereCond>)
    requires forall i | 0 <= i < |conditions| :: LegalCond(domain, conditions[i]) && Readable(db, domain, conditions[i])
    ensures forall row | row in Satisfying(db, domain, table, conditions) :: row in table
  {
    hide SatisfiesAll, LegalCond, Readable;
    if table == [] {
    } else {
      SatisfyingAreRows(db, domain, table[1..], conditions);
    }
  }

  /** The compiled statement, run over the tables of the server, may answer exactly what was asked for over
      the table of the domain, when every order term is safe. */
  lemma CompiledMeansAsked(db: Db, domain: Domain, req: QueryReq, tables: string -> seq<Row>,
                           result: Option<seq<OutRow>>)
    requires Legal(domain, req) && OrderSafe(db, domain, req)
    requires forall row | row in tables(domain.source) :: WellTyped(domain, row)
    ensures var s := CompiledSelect(domain, req);
            Answers(db, s, CompiledBinds(domain, req), tables(s.table), result) <==>
            Asked(db, domain, req, tables(domain.source), result)
  {
    hide Asked, Legal, OrderSafe, WellTyped, Answers;
    SafeMeansAsked(db, domain, req, tables(domain.source), result);
  }

  lemma SafeMeansAsked(db: Db, domain: Domain, req: QueryReq, table: seq<Row>, result: Option<seq<OutRow>>)
    requires Legal(domain, req) && OrderSafe(db, domain, req)
    requires forall row | row in table :: WellTyped(domain, row)
    ensures Answers(db, CompiledSelect(domain, req), CompiledBinds(domain, req), table, result) <==>
            Asked(db, domain, req, table, result)
  {
    hide Bound, Readable, LegalCond, WellTyped, OrderSafe, OneOrder, Passing, Satisfying, Wanted, Asked, CompiledKey;
    BoundIffReadable(db, domain, req);
    LengthsAgree(domain, req);
    AskedMeans(db, domain, req, table, result);
    if AllReadable(db, domain, req) {
      SamePassing(db, domain, req, table);
      SatisfyingAreRows(db, domain, table, req.conditions);
      var passing := Satisfying(db, domain, table, req.conditions);
      forall rows ensures
        OneOrder(db, CompiledSelect(domain, req).order, OutputColumns(Wanted(domain, req)), passing, rows) <==>
        OneOrder(db, CompiledSelect(domain, req).order, TableColumns, passing, rows)
      {
        SameOneOrder(db, domain, req, passing, rows);
      }
    }
  }
}
