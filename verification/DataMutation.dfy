/** Inserts, updates and deletes: the role gate, and what the compiled statement changes. */
module DataMutation {
  import opened Prelude
  import opened Sql
  import opened DataCompiler

  type Values = map<string, Json>

  // ── The role gate ───────────────────────────────────────────────────────────

  /** The first permission entry of the role decides; without one nothing is allowed. */
  predicate Allowed(domain: Domain, role: string, action: Action) {
    exists k | 0 <= k < |domain.permissions| ::
      && domain.permissions[k].0 == role && action in domain.permissions[k].1
      && forall j | 0 <= j < k :: domain.permissions[j].0 != role
  }

  method IsActionAllowed(domain: Domain, role: string, action: Action) returns (ok: bool)
    ensures ok <==> Allowed(domain, role, action)
  {
    for i := 0 to |domain.permissions|
      invariant forall j | 0 <= j < i :: domain.permissions[j].0 != role
    {
      if domain.permissions[i].0 == role {
        ok := action in domain.permissions[i].1;
        assert ok ==> Allowed(domain, role, action);
        return;
      }
    }
    return false;
  }

  // ── Settable fields ─────────────────────────────────────────────────────────

  predicate Settable(f: Field) {
    !f.readOnly && f.name != "id"
  }

  /** The fields a request sets, in the order they are declared. */
  function Chosen(fields: seq<Field>, values: Values): seq<Field> {
    if fields == [] then [] else
    var f := fields[|fields| - 1];
    Chosen(fields[..|fields| - 1], values) + if Settable(f) && f.name in values then [f] else []
  }

  lemma {:induction false} ChosenExactly(fields: seq<Field>, values: Values, f: Field)
    ensures f in Chosen(fields, values) <==> f in fields && Settable(f) && f.name in values
  {
    hide Settable;
    if fields == [] {
    } else {
      ChosenExactly(fields[..|fields| - 1], values, f);
    }
  }

  function AssignsOf(chosen: seq<Field>): seq<Assign> {
    seq(|chosen|, k requires 0 <= k < |chosen| => Assign(chosen[k].name, k + 1, PgCast(chosen[k].ftype)))
  }

  function BindsOf(chosen: seq<Field>, values: Values): Binds
    requires forall k | 0 <= k < |chosen| :: chosen[k].name in values
  {
    seq(|chosen|, k requires 0 <= k < |chosen| => CoerceBind(values[chosen[k].name], false))
  }

  /** Columns, placeholders from `start` on, and binds, kept in step. */
  method SettableAssignments(domain: Domain, values: Values, start: nat)
    returns (cols: seq<string>, placeholders: seq<(nat, PgType)>, binds: Binds)
    ensures var chosen := Chosen(domain.fields, values);
            && |cols| == |placeholders| == |binds| == |chosen|
            && forall k | 0 <= k < |chosen| :: chosen[k].name in values &&
                 (cols[k], placeholders[k], binds[k]) ==
                 (chosen[k].name, (start + k, PgCast(chosen[k].ftype)), CoerceBind(values[chosen[k].name], false))
  {
    cols, placeholders, binds := [], [], [];
    var i := start;
    for n := 0 to |domain.fields|
      invariant var chosen := Chosen(domain.fields[..n], values);
            && |cols| == |placeholders| == |binds| == |chosen| && i == start + |chosen|
            && forall k | 0 <= k < |chosen| :: chosen[k].name in values &&
                 (cols[k], placeholders[k], binds[k]) ==
                 (chosen[k].name, (start + k, PgCast(chosen[k].ftype)), CoerceBind(values[chosen[k].name], false))
    {
      var f := domain.fields[n];
      assert domain.fields[..n + 1][..n] == domain.fields[..n];
      if f.readOnly || f.name == "id" {
        continue;
      }
      if f.name in values {
        cols := cols + [f.name];
        placeholders := placeholders + [(i, PgCast(f.ftype))];
        binds := binds + [CoerceBind(values[f.name], false)];
        i := i + 1;
      }
    }
    assert domain.fields[..|domain.fields|] == domain.fields;
  }

  lemma {:induction false} ChosenAreGiven(fields: seq<Field>, values: Values)
    ensures forall k | 0 <= k < |Chosen(fields, values)| :: Chosen(fields, values)[k].name in values
  {
    if fields == [] {
    } else {
      ChosenAreGiven(fields[..|fields| - 1], values);
    }
  }

  // ── The mutation compiler ───────────────────────────────────────────────────

  function CompiledChange(domain: Domain, op: string, values: Values,
                          id: Option<Json>): Result<(Change, Binds), CompileError>
  {
    var chosen := Chosen(domain.fields, values);
    ChosenAreGiven(domain.fields, values);
    var returning := FieldNames(domain.fields);
    if op == "insert" then
      if chosen == [] then Err(NoSettableField)
      else Ok((Insert(domain.source, AssignsOf(chosen), returning), BindsOf(chosen, values)))
    else if op == "update" then
      if id.None? then Err(IdRequired)
      else if chosen == [] then Err(NoSettableField)
      else Ok((Update(domain.source, AssignsOf(chosen), |chosen| + 1, IdCast(domain), returning),
               BindsOf(chosen, values) + [CoerceBind(id.value, false)]))
    else if op == "delete" then
      if id.None? then Err(IdRequired)
      else Ok((Change.Delete(domain.source, 1, IdCast(domain), returning), [CoerceBind(id.value, false)]))
    else Err(UnknownOp(op))
  }

  method BuildMutate(domain: Domain, op: string, values: Values, id: Option<Json>)
    returns (r: Result<(Change, Binds), CompileError>)
    ensures r == CompiledChange(domain, op, values, id)
  {
    ghost var chosen := Chosen(domain.fields, values);
    var returning := FieldNames(domain.fields);
    if op == "insert" {
      var cols, placeholders, binds := SettableAssignments(domain, values, 1);
      if |cols| == 0 {
        return Err(NoSettableField);
      }
      var assigns := Zip(cols, placeholders);
      assert assigns == AssignsOf(chosen) && binds == BindsOf(chosen, values);
      return Ok((Insert(domain.source, assigns, returning), binds));
    } else if op == "update" {
      if id.None? {
        return Err(IdRequired);
      }
      var cols, placeholders, binds := SettableAssignments(domain, values, 1);
      if |cols| == 0 {
        return Err(NoSettableField);
      }
      var assigns := Zip(cols, placeholders);
      assert assigns == AssignsOf(chosen) && binds == BindsOf(chosen, values);
      var i := |binds| + 1;
      binds := binds + [CoerceBind(id.value, false)];
      return Ok((Update(domain.source, assigns, i, IdCast(domain), returning), binds));
    } else if op == "delete" {
      if id.None? {
        return Err(IdRequired);
      }
      return Ok((Change.Delete(domain.source, 1, IdCast(domain), returning), [CoerceBind(id.value, false)]));
    } else {
      return Err(UnknownOp(op));
    }
  }

  function Zip(cols: seq<string>, placeholders: seq<(nat, PgType)>): seq<Assign>
    requires |cols| == |placeholders|
  {
    seq(|cols|, k requires 0 <= k < |cols| => Assign(cols[k], placeholders[k].0, placeholders[k].1))
  }

  predicate White(c: char) {
    || '\t' <= c <= '\r' || c in {' ', '\U{0085}', '\U{00A0}', '\U{1680}'}
    || c in {'\U{2028}', '\U{2029}', '\U{202F}', '\U{205F}', '\U{3000}'}
    || '\U{2000}' <= c <= '\U{200A}'
  }

  predicate Blank(role: string) {
    forall i | 0 <= i < |role| :: White(role[i])
  }

  function ActionOf(op: string): Option<Action> {
    if op == "insert" || op == "update" then Some(Action.Write) else if op == "delete" then Some(Action.Delete) else None
  }

  /** Compiles a change only for a role that may make it. */
  method Mutate(domain: Domain, op: string, role: string, values: Values, id: Option<Json>)
    returns (r: Result<(Change, Binds), CompileError>)
    ensures op !in {"insert", "update", "delete"} ==> r == Err(UnknownOp(op))
    ensures op in {"insert", "update", "delete"} && Blank(role) ==> r == Err(RoleRequired)
    ensures op in {"insert", "update"} && !Blank(role) ==>
              r == if Allowed(domain, role, Action.Write) then CompiledChange(domain, op, values, id) else Err(NotAllowed)
    ensures op == "delete" && !Blank(role) ==>
              r == if Allowed(domain, role, Action.Delete) then CompiledChange(domain, op, values, id) else Err(NotAllowed)
    ensures r.Ok? && r.value.0.Delete? ==> Allowed(domain, role, Action.Delete)
    ensures r.Ok? && !r.value.0.Delete? ==> Allowed(domain, role, Action.Write)
  {
    hide Allowed;
    var action := ActionOf(op);
    if action.None? {
      return Err(UnknownOp(op));
    }
    if Blank(role) {
      return Err(RoleRequired);
    }
    var ok := IsActionAllowed(domain, role, action.value);
    if !ok {
      return Err(NotAllowed);
    }
    r := BuildMutate(domain, op, values, id);
  }

  /** Unicode white space, code point by code point. */
  lemma WhiteTable(c: char)
    ensures White(c) <==> c as int in {
              0x9, 0xA, 0xB, 0xC, 0xD, 0x20, 0x85, 0xA0, 0x1680, 0x2000, 0x2001, 0x2002, 0x2003, 0x2004, 0x2005,
              0x2006, 0x2007, 0x2008, 0x2009, 0x200A, 0x2028, 0x2029, 0x202F, 0x205F, 0x3000}
  {
  }

  // ── What is compiled, and when ──────────────────────────────────────────────

  /** The request gives a field a value that it may set: neither `id` nor read-only. */
  predicate GivesSome(domain: Domain, values: Values) {
    exists i | 0 <= i < |domain.fields| ::
      !domain.fields[i].readOnly && domain.fields[i].name != "id" && domain.fields[i].name in values
  }

  /** A change is compiled exactly for an insert or update that sets something and an update or delete that
      names an id, and it is the change asked for, to the table of the domain. */
  lemma CompiledExactly(domain: Domain, op: string, values: Values, id: Option<Json>)
    ensures var r := CompiledChange(domain, op, values, id);
            && (r.Ok? <==> op in {"insert", "update", "delete"}
                           && (op != "insert" ==> id.Some?) && (op != "delete" ==> GivesSome(domain, values)))
            && (r.Err? ==> r.error == if op !in {"insert", "update", "delete"} then UnknownOp(op)
                                      else if op != "insert" && id.None? then IdRequired else NoSettableField)
            && (r.Ok? ==> var c := r.value.0;
                  && c.table == domain.source && c.returning == FieldNames(domain.fields)
                  && (c.Insert? <==> op == "insert") && (c.Update? <==> op == "update")
                  && (c.Delete? <==> op == "delete"))
  {
    hide AssignsOf, BindsOf, Chosen;
    var chosen := Chosen(domain.fields, values);
    ChosenAreGiven(domain.fields, values);
    if chosen != [] {
      ChosenExactly(domain.fields, values, chosen[0]);
      var i :| 0 <= i < |domain.fields| && domain.fields[i] == chosen[0];
      assert GivesSome(domain, values);
    }
    if GivesSome(domain, values) {
      var i :| 0 <= i < |domain.fields| && !domain.fields[i].readOnly && domain.fields[i].name != "id"
               && domain.fields[i].name in values;
      ChosenExactly(domain.fields, values, domain.fields[i]);
    }
  }

  function AssignsIn(c: Change): seq<Assign> {
    match c
    case Insert(_, values, _) => values
    case Update(_, sets, _, _, _) => sets
    case Delete(_, _, _, _) => []
  }

  /** An insert or update assigns exactly the fields given that are neither `id` nor read-only. */
  lemma AssignsExactly(domain: Domain, op: string, values: Values, id: Option<Json>, name: string)
    requires CompiledChange(domain, op, values, id).Ok? && op != "delete"
    ensures (exists a | a in AssignsIn(CompiledChange(domain, op, values, id).value.0) :: a.column == name) <==>
            exists f | f in domain.fields :: !f.readOnly && name == f.name != "id" && name in values
  {
    hide BindsOf, Chosen;
    var chosen := Chosen(domain.fields, values);
    ChosenAreGiven(domain.fields, values);
    var assigns := AssignsIn(CompiledChange(domain, op, values, id).value.0);
    assert assigns == AssignsOf(chosen);
    if a :| a in assigns && a.column == name {
      var k :| 0 <= k < |assigns| && assigns[k] == a;
      ChosenExactly(domain.fields, values, chosen[k]);
    }
    if f :| f in domain.fields && !f.readOnly && name == f.name != "id" && name in values {
      ChosenExactly(domain.fields, values, f);
      var k :| 0 <= k < |chosen| && chosen[k] == f;
      assert assigns[k].column == name;
    }
  }

  // ── What a change does ──────────────────────────────────────────────────────

  /** A declared, settable field the request gives a value. */
  predicate Sets(domain: Domain, values: Values, f: Field) {
    f in domain.fields && Settable(f) && f.name in values
  }

  /** Column by column, `row'` is `row` with the request's values in the fields it may set. */
  ghost predicate Overlaid(db: Db, domain: Domain, values: Values, row: Row, row': Row) {
    && (forall name | (forall f | f in domain.fields :: Sets(domain, values, f) ==> f.name != name) ::
          Column(row', name) == Column(row, name))
    && (forall f | Sets(domain, values, f) :: Some(Column(row', f.name)) == ReadAs(db, f.ftype, values[f.name]))
  }

  lemma ParameterIsValue(db: Db, t: FieldType, v: Json)
    ensures Parameter(db, PgCast(t), CoerceBind(v, false)) == ReadAs(db, t, v)
  {
  }

  /** The assignments of a request, once the server takes them, overlay its values. */
  lemma AssignmentsOverlay(db: Db, domain: Domain, values: Values, binds: Binds, row: Row)
    requires forall k | 0 <= k < |Chosen(domain.fields, values)| :: Chosen(domain.fields, values)[k].name in values
    requires BindsOf(Chosen(domain.fields, values), values) <= binds
    requires AssignsBound(db, AssignsOf(Chosen(domain.fields, values)), binds)
    requires AssignedOnce(AssignsOf(Chosen(domain.fields, values)))
    ensures Overlaid(db, domain, values, row, Assigned(db, AssignsOf(Chosen(domain.fields, values)), binds, row))
  {
    hide Assigned, Parameter, CoerceBind, ReadAs, Chosen, Settable, PgCast;
    var chosen := Chosen(domain.fields, values);
    var sets := AssignsOf(chosen);
    var row' := Assigned(db, sets, binds, row);
    forall name | forall f | f in domain.fields :: Sets(domain, values, f) ==> f.name != name
      ensures Column(row', name) == Column(row, name)
    {
      AssignedColumns(db, sets, binds, row, name);
      forall k | 0 <= k < |sets| ensures sets[k].column != name {
        ChosenExactly(domain.fields, values, chosen[k]);
      }
    }
    forall f | Sets(domain, values, f) ensures Some(Column(row', f.name)) == ReadAs(db, f.ftype, values[f.name]) {
      ChosenExactly(domain.fields, values, f);
      var k :| 0 <= k < |chosen| && chosen[k] == f;
      AssignedColumns(db, sets, binds, row, f.name);
      assert sets[k].column == f.name && binds[k] == BindsOf(chosen, values)[k];
      ParameterIsValue(db, f.ftype, values[f.name]);
    }
  }

  /** The id a request names, read as the id column's type. */
  function ReadId(db: Db, domain: Domain, id: Json): Option<SqlValue> {
    match TextOf(id)
    case None => Some(Null)
    case Some(s) => db.cast(IdCast(domain), s)
  }

  /** An id is read as the type of the declared field `id`, or as an integer when there is none. */
  lemma IdIsOfType(db: Db, domain: Domain, id: Json)
    requires CastsTyped(db) && ReadId(db, domain, id).Some? && !ReadId(db, domain, id).value.Null?
    ensures var v := ReadId(db, domain, id).value;
            && (forall i | 0 <= i < |domain.fields| && Names(domain, i, "id") :: OfType(domain.fields[i].ftype, v))
            && (!Has(domain, "id") ==> v.IntV?)
  {
    hide OfType, HasType, CastsTyped, PgCast;
    DeclaredIsThere(domain, "id");
    var s := TextOf(id).value;
    if Has(domain, "id") {
      var i := FirstNamed(domain, "id");
      FindsNamed(domain.fields, "id", i);
      CastOfField(db, domain.fields[i].ftype, s);
    } else {
      CastOfInteger(db, s);
    }
  }

  lemma CastOfField(db: Db, t: FieldType, s: string)
    requires CastsTyped(db) && db.cast(PgCast(t), s).Some? && !db.cast(PgCast(t), s).value.Null?
    ensures OfType(t, db.cast(PgCast(t), s).value)
  {
  }

  lemma CastOfInteger(db: Db, s: string)
    requires CastsTyped(db) && db.cast(Bigint, s).Some? && !db.cast(Bigint, s).value.Null?
    ensures db.cast(Bigint, s).value.IntV?
  {
  }

  /** An update the server takes overlays the request's values on the rows with that id and leaves every
      other row alone. */
  lemma UpdateMeans(db: Db, domain: Domain, values: Values, id: Json, defaults: Row, table: seq<Row>)
    requires CompiledChange(domain, "update", values, Some(id)).Ok?
    requires var (c, binds) := CompiledChange(domain, "update", values, Some(id)).value;
             After(db, c, binds, defaults, table).Some?
    ensures var (c, binds) := CompiledChange(domain, "update", values, Some(id)).value;
            var out := After(db, c, binds, defaults, table).value;
            && ReadId(db, domain, id).Some? && |out| == |table|
            && forall k | 0 <= k < |table| ::
                 if HasId(table[k], ReadId(db, domain, id).value) then Overlaid(db, domain, values, table[k], out[k])
                 else out[k] == table[k]
  {
    hide Overlaid, Assigned, Chosen, AssignsBound, AssignedOnce, AssignsOf, BindsOf;
    var (c, binds) := CompiledChange(domain, "update", values, Some(id)).value;
    var chosen := Chosen(domain.fields, values);
    ChosenAreGiven(domain.fields, values);
    assert binds[|binds| - 1] == CoerceBind(id, false);
    LastBindIsId(domain, values, id);
    forall k | 0 <= k < |table| && HasId(table[k], ReadId(db, domain, id).value)
      ensures Overlaid(db, domain, values, table[k], Assigned(db, AssignsOf(chosen), binds, table[k]))
    {
      AssignmentsOverlay(db, domain, values, binds, table[k]);
    }
  }

  /** Placeholders are `$1` to `$n`, each once, the id's last, and there are `n` binds. */
  lemma LastBindIsId(domain: Domain, values: Values, id: Json)
    requires CompiledChange(domain, "update", values, Some(id)).Ok?
    ensures var (c, binds) := CompiledChange(domain, "update", values, Some(id)).value;
            && c.Update? && c.idParam == |binds| == |c.sets| + 1 && binds[|binds| - 1] == CoerceBind(id, false)
            && forall k | 0 <= k < |c.sets| :: c.sets[k].param == k + 1
  {
    hide CoerceBind, PgCast;
  }

  /** An insert the server takes appends one row: the request's values over the defaults. */
  lemma InsertMeans(db: Db, domain: Domain, values: Values, id: Option<Json>, defaults: Row, table: seq<Row>)
    requires CompiledChange(domain, "insert", values, id).Ok?
    requires var (c, binds) := CompiledChange(domain, "insert", values, id).value;
             After(db, c, binds, defaults, table).Some?
    ensures var (c, binds) := CompiledChange(domain, "insert", values, id).value;
            var out := After(db, c, binds, defaults, table).value;
            |out| == |table| + 1 && out[..|table|] == table && Overlaid(db, domain, values, defaults, out[|table|])
  {
    hide Overlaid, Assigned, Chosen, AssignsBound, AssignedOnce, AssignsOf, BindsOf;
    var (c, binds) := CompiledChange(domain, "insert", values, id).value;
    ChosenAreGiven(domain.fields, values);
    AssignmentsOverlay(db, domain, values, binds, defaults);
  }

  /** A delete the server takes removes exactly the rows with that id. */
  lemma DeleteMeans(db: Db, domain: Domain, values: Values, id: Json, defaults: Row, table: seq<Row>)
    requires ReadId(db, domain, id).Some?
    ensures CompiledChange(domain, "delete", values, Some(id)).Ok?
    ensures var (c, binds) := CompiledChange(domain, "delete", values, Some(id)).value;
            After(db, c, binds, defaults, table) == Some(RowsWithout(table, ReadId(db, domain, id).value))
    ensures Removed(table, ReadId(db, domain, id).value, RowsWithout(table, ReadId(db, domain, id).value))
  {
    hide HasId, IdCast;
    var w := ReadId(db, domain, id).value;
    forall row ensures multiset(RowsWithout(table, w))[row] == (if HasId(row, w) then 0 else multiset(table)[row]) {
      WithoutCounts(table, w, row);
    }
  }

  /** Rows with the id are gone; every other row is there as often as before. */
  ghost predicate Removed(table: seq<Row>, id: SqlValue, out: seq<Row>) {
    forall row :: multiset(out)[row] == (if HasId(row, id) then 0 else multiset(table)[row])
  }

  lemma {:induction false} WithoutCounts(table: seq<Row>, id: SqlValue, row: Row)
    ensures multiset(RowsWithout(table, id))[row] == if HasId(row, id) then 0 else multiset(table)[row]
  {
    hide HasId;
    if table == [] {
    } else {
      var rest := table[1..];
      WithoutCounts(rest, id, row);
      assert table == [table[0]] + rest;
      assert multiset(table) == multiset([table[0]]) + multiset(rest);
      assert RowsWithout(table, id) == (if HasId(table[0], id) then [] else [table[0]]) + RowsWithout(rest, id);
      hide RowsWithout;
    }
  }

  // ── When the server takes a change ──────────────────────────────────────────

  predicate DistinctNames(fields: seq<Field>) {
    forall i, j | 0 <= i < j < |fields| :: fields[i].name != fields[j].name
  }

  lemma {:induction false} ChosenAreDistinct(fields: seq<Field>, values: Values)
    requires DistinctNames(fields)
    ensures DistinctNames(Chosen(fields, values))
  {
    hide Settable;
    if fields == [] {
    } else {
      var n := |fields| - 1;
      ChosenAreDistinct(fields[..n], values);
      var init := Chosen(fields[..n], values);
      forall i | 0 <= i < |init| ensures init[i].name != fields[n].name {
        ChosenExactly(fields[..n], values, init[i]);
        assert init[i] in fields[..n];
      }
    }
  }

  lemma AssignsBoundIff(db: Db, domain: Domain, values: Values, binds: Binds)
    requires forall k | 0 <= k < |Chosen(domain.fields, values)| :: Chosen(domain.fields, values)[k].name in values
    requires BindsOf(Chosen(domain.fields, values), values) <= binds
    ensures AssignsBound(db, AssignsOf(Chosen(domain.fields, values)), binds) <==>
            forall f | Sets(domain, values, f) :: ReadAs(db, f.ftype, values[f.name]).Some?
  {
    hide Parameter, CoerceBind, ReadAs, Chosen, Settable, PgCast;
    var chosen := Chosen(domain.fields, values);
    var sets := AssignsOf(chosen);
    forall k | 0 <= k < |chosen|
      ensures Sets(domain, values, chosen[k])
      ensures Parameter(db, sets[k].cast, binds[sets[k].param - 1]) == ReadAs(db, chosen[k].ftype, values[chosen[k].name])
    {
      AssignAt(db, domain, values, binds, k);
    }
    hide BindsOf, AssignsOf;
    if AssignsBound(db, sets, binds) {
      forall f | Sets(domain, values, f) ensures ReadAs(db, f.ftype, values[f.name]).Some? {
        ChosenExactly(domain.fields, values, f);
        var k :| 0 <= k < |chosen| && chosen[k] == f;
        assert Parameter(db, sets[k].cast, binds[sets[k].param - 1]).Some?;
      }
    }
  }

  lemma AssignAt(db: Db, domain: Domain, values: Values, binds: Binds, k: nat)
    requires forall k | 0 <= k < |Chosen(domain.fields, values)| :: Chosen(domain.fields, values)[k].name in values
    requires BindsOf(Chosen(domain.fields, values), values) <= binds
    requires k < |Chosen(domain.fields, values)|
    ensures var f := Chosen(domain.fields, values)[k]; Sets(domain, values, f)
    ensures var (f, a) := (Chosen(domain.fields, values)[k], AssignsOf(Chosen(domain.fields, values))[k]);
            a.param == k + 1 <= |binds| && Parameter(db, a.cast, binds[k]) == ReadAs(db, f.ftype, values[f.name])
  {
    hide Parameter, CoerceBind, ReadAs, Chosen, Settable, PgCast;
    var chosen := Chosen(domain.fields, values);
    ChosenExactly(domain.fields, values, chosen[k]);
    assert binds[k] == BindsOf(chosen, values)[k];
    ParameterIsValue(db, chosen[k].ftype, values[chosen[k].name]);
  }

  /** With distinct field names, an insert goes through exactly when every value it may set can be read as
      its column's type. */
  lemma InsertTakenIff(db: Db, domain: Domain, values: Values, id: Option<Json>, defaults: Row, table: seq<Row>)
    requires DistinctNames(domain.fields) && CompiledChange(domain, "insert", values, id).Ok?
    ensures var (c, binds) := CompiledChange(domain, "insert", values, id).value;
            After(db, c, binds, defaults, table).Some? <==>
              forall f | Sets(domain, values, f) :: ReadAs(db, f.ftype, values[f.name]).Some?
  {
    hide Assigned, Chosen, AssignsBound, BindsOf, Sets, ReadAs;
    var (c, binds) := CompiledChange(domain, "insert", values, id).value;
    ChosenAreGiven(domain.fields, values);
    ChosenAreDistinct(domain.fields, values);
    AssignsBoundIff(db, domain, values, binds);
  }

  /** With distinct field names, an update goes through exactly when its id and every value it may set can
      be read as their columns' types. */
  lemma UpdateTakenIff(db: Db, domain: Domain, values: Values, id: Json, defaults: Row, table: seq<Row>)
    requires DistinctNames(domain.fields) && CompiledChange(domain, "update", values, Some(id)).Ok?
    ensures var (c, binds) := CompiledChange(domain, "update", values, Some(id)).value;
            After(db, c, binds, defaults, table).Some? <==>
              ReadId(db, domain, id).Some? && forall f | Sets(domain, values, f) :: ReadAs(db, f.ftype, values[f.name]).Some?
  {
    hide Assigned, Chosen, AssignsBound, BindsOf, Sets, ReadAs;
    var (c, binds) := CompiledChange(domain, "update", values, Some(id)).value;
    ChosenAreGiven(domain.fields, values);
    ChosenAreDistinct(domain.fields, values);
    AssignsBoundIff(db, domain, values, binds);
    LastBindIsId(domain, values, id);
  }
}
