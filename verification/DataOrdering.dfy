/** Where the compiled ORDER BY departs from the order asked for: result columns are text and carry the
    names of the fields, and a bare name in ORDER BY means the result column. */
module DataOrdering {
  import opened Prelude
  import opened Sql
  import opened DataCompiler

  // ── Exactly when ordering is preserved ──────────────────────────────────────

  /** The compiled ORDER BY puts rows in the order the request names. */
  ghost predicate OrdersAsAsked(db: Db, domain: Domain, req: QueryReq)
    requires Legal(domain, req)
  {
    forall a, b | WellTyped(domain, a) && WellTyped(domain, b) ::
      RowBefore(db, CompiledSelect(domain, req).order, OutputColumns(Wanted(domain, req)), a, b) ==
      AskedBefore(db, req.order, a, b)
  }

  lemma AskedIsColumnOrder(db: Db, domain: Domain, req: QueryReq, a: Row, b: Row)
    requires Legal(domain, req)
    ensures AskedBefore(db, req.order, a, b) == RowBefore(db, CompiledSelect(domain, req).order, TableColumns, a, b)
  {
    hide LegalCond, LegalTerm, CompiledKey;
    AskedIsCompiledOrder(db, req.order, CompiledSelect(domain, req).order, a, b);
  }

  /** A row with a single column set. */
  function Lone(name: string, v: SqlValue): Row {
    map[name := v]
  }

  lemma LoneIsWellTyped(domain: Domain, name: string, v: SqlValue)
    requires Declared(domain, name) && OfType(TypeOf(domain, name), v)
    ensures WellTyped(domain, Lone(name, v))
  {
    hide OfType;
  }

  /** Rows no key tells apart are not before one another. */
  lemma {:induction false} TiesAreNotBefore(db: Db, order: seq<OrderKey>, keys: OrderBy, a: Row, b: Row)
    requires forall i | 0 <= i < |order| :: Tied(db, order[i], keys, a, b)
    ensures !RowBefore(db, order, keys, a, b)
  {
    hide KeyBefore, SortValue;
    if order == [] {
    } else {
      assert Tied(db, order[0], keys, a, b);
      TiesAreNotBefore(db, order[1..], keys, a, b);
    }
  }

  predicate Tied(db: Db, k: OrderKey, keys: OrderBy, a: Row, b: Row) {
    var v, w := SortValue(db, keys, a, k.name), SortValue(db, keys, b, k.name);
    !KeyBefore(db, v, w, k.desc) && !KeyBefore(db, w, v, k.desc)
  }

  /** Among rows that differ in one column only, that column's first key decides. */
  lemma {:induction false} LoneRowsCompare(db: Db, order: seq<OrderKey>, keys: OrderBy, i: nat, v: SqlValue,
                                           w: SqlValue)
    requires i < |order| && forall j | 0 <= j < i :: order[j].name != order[i].name
    ensures var (name, desc) := (order[i].name, order[i].desc); var (a, b) := (Lone(name, v), Lone(name, w));
            RowBefore(db, order, keys, a, b) ==
            KeyBefore(db, SortValue(db, keys, a, name), SortValue(db, keys, b, name), desc)
    decreases i
  {
    var (name, desc) := (order[i].name, order[i].desc);
    var (a, b) := (Lone(name, v), Lone(name, w));
    if i > 0 {
      assert Tied(db, order[0], keys, a, b);
      assert order[1..][i - 1] == order[i];
      LoneRowsCompare(db, order[1..], keys, i - 1, v, w);
    } else if Tied(db, order[0], keys, a, b) {
      forall j | 0 <= j < |order| ensures Tied(db, order[j], keys, a, b) {
        OtherKeysTie(db, order[0], order[j], keys, a, b);
      }
      TiesAreNotBefore(db, order, keys, a, b);
    } else {
      OneKeyDecides(db, order, keys, a, b);
    }
  }

  /** Two rows that a key ties are tied on that column in either direction, and on columns neither has. */
  lemma OtherKeysTie(db: Db, k: OrderKey, other: OrderKey, keys: OrderBy, a: Row, b: Row)
    requires Tied(db, k, keys, a, b) && a.Keys == {k.name} && b.Keys == {k.name}
    ensures Tied(db, other, keys, a, b)
  {
  }

  lemma OneKeyDecides(db: Db, order: seq<OrderKey>, keys: OrderBy, a: Row, b: Row)
    requires order != [] && !Tied(db, order[0], keys, a, b)
    ensures var (name, desc) := (order[0].name, order[0].desc);
            RowBefore(db, order, keys, a, b) ==
            KeyBefore(db, SortValue(db, keys, a, name), SortValue(db, keys, b, name), desc)
  {
  }

  /** The output order and the value order disagree about the two rows. */
  ghost predicate Misordered(db: Db, domain: Domain, req: QueryReq, a: Row, b: Row)
    requires Legal(domain, req)
  {
    RowBefore(db, CompiledSelect(domain, req).order, OutputColumns(Wanted(domain, req)), a, b) !=
    AskedBefore(db, req.order, a, b)
  }

  lemma MisorderedIsNotAsAsked(db: Db, domain: Domain, req: QueryReq, a: Row, b: Row)
    requires Legal(domain, req) && WellTyped(domain, a) && WellTyped(domain, b) && Misordered(db, domain, req, a, b)
    ensures !OrdersAsAsked(db, domain, req)
  {
    hide RowBefore, WellTyped;
  }

  lemma AgreementIsSafety(db: Db, domain: Domain, req: QueryReq)
    requires Legal(domain, req) && OrdersAsAsked(db, domain, req)
    ensures OrderSafe(db, domain, req)
  {
    hide WellTyped, LegalCond, TextOrderAgrees, LegalDir, Declared;
    if !OrderSafe(db, domain, req) {
      var i := FirstUnsafe(db, domain, req);
      var a, b := UnsafeTermMisorders(db, domain, req, i);
      MisorderedIsNotAsAsked(db, domain, req, a, b);
    }
  }

  lemma FirstUnsafe(db: Db, domain: Domain, req: QueryReq) returns (i: nat)
    requires Legal(domain, req) && !OrderSafe(db, domain, req)
    ensures i < |req.order| && !OrderTermSafe(db, domain, req, req.order[i])
    ensures forall j | 0 <= j < i :: OrderTermSafe(db, domain, req, req.order[j])
  {
    hide LegalCond, LegalDir, OrderTermSafe;
    i := 0;
    while OrderTermSafe(db, domain, req, req.order[i])
      invariant i < |req.order| && forall j | 0 <= j < i :: OrderTermSafe(db, domain, req, req.order[j])
      decreases |req.order| - i
    {
      i := i + 1;
    }
  }

  /** The first unsafe term misplaces two rows that differ in its column only. */
  lemma UnsafeTermMisorders(db: Db, domain: Domain, req: QueryReq, i: nat) returns (a: Row, b: Row)
    requires Legal(domain, req) && i < |req.order| && !OrderTermSafe(db, domain, req, req.order[i])
    requires forall j | 0 <= j < i :: OrderTermSafe(db, domain, req, req.order[j])
    ensures WellTyped(domain, a) && WellTyped(domain, b) && Misordered(db, domain, req, a, b)
  {
    hide WellTyped, LegalCond, LegalDir, Declared, Wanted, AskedBefore;
    var o, order := req.order[i], CompiledSelect(domain, req).order;
    assert order[i] == CompiledKey(o);
    forall j | 0 <= j < i ensures order[j].name != order[i].name {
      assert order[j] == CompiledKey(req.order[j]);
    }
    var t := TypeOf(domain, o.field);
    var v, w :| OfType(t, v) && OfType(t, w) && Less(db, AsText(db, v), AsText(db, w)) != Less(db, v, w);
    var (x, y) := if order[i].desc then (w, v) else (v, w);
    LoneIsWellTyped(domain, o.field, x);
    LoneIsWellTyped(domain, o.field, y);
    LoneRowsCompare(db, order, OutputColumns(Wanted(domain, req)), i, x, y);
    LoneRowsCompare(db, order, TableColumns, i, x, y);
    KeysDisagree(db, t, v, w);
    assert KeyBefore(db, AsText(db, x), AsText(db, y), order[i].desc) != KeyBefore(db, x, y, order[i].desc);
    a, b := Lone(o.field, x), Lone(o.field, y);
    AskedIsColumnOrder(db, domain, req, a, b);
  }

  lemma KeysDisagree(db: Db, t: FieldType, v: SqlValue, w: SqlValue)
    requires OfType(t, v) && OfType(t, w) && Less(db, AsText(db, v), AsText(db, w)) != Less(db, v, w)
    ensures KeyBefore(db, AsText(db, v), AsText(db, w), false) != KeyBefore(db, v, w, false)
    ensures KeyBefore(db, AsText(db, v), AsText(db, w), true) == KeyBefore(db, AsText(db, w), AsText(db, v), false)
  {
  }

  /** Ordering is as asked exactly when no order field is both selected and of a type whose text sorts
      differently from its values. */
  lemma OrdersAsAskedIff(db: Db, domain: Domain, req: QueryReq)
    requires Legal(domain, req)
    ensures OrdersAsAsked(db, domain, req) <==> OrderSafe(db, domain, req)
  {
    if OrdersAsAsked(db, domain, req) {
      AgreementIsSafety(db, domain, req);
    }
    if OrderSafe(db, domain, req) {
      hide WellTyped, LegalCond, LegalDir, Declared, TextOrderAgrees, Wanted, RowBefore, AskedBefore;
      var order := CompiledSelect(domain, req).order;
      assert forall i | 0 <= i < |order| :: order[i].name == req.order[i].field;
      forall a, b | WellTyped(domain, a) && WellTyped(domain, b)
        ensures RowBefore(db, order, OutputColumns(Wanted(domain, req)), a, b) == AskedBefore(db, req.order, a, b)
      {
        SameRowOrder(db, domain, req, order, a, b);
        AskedIsColumnOrder(db, domain, req, a, b);
      }
    }
  }

  // ── Exactly when answers are as asked ───────────────────────────────────────

  ghost predicate AllTyped(domain: Domain, table: seq<Row>) {
    forall i | 0 <= i < |table| :: WellTyped(domain, table[i])
  }

  /** Over this table the compiled statement may give this result exactly when the request may. */
  ghost predicate AnsweredAsAsked(db: Db, domain: Domain, req: QueryReq, table: seq<Row>, result: Option<seq<OutRow>>)
    requires Legal(domain, req)
  {
    Answers(db, CompiledSelect(domain, req), CompiledBinds(domain, req), table, result) <==>
    Asked(db, domain, req, table, result)
  }

  ghost predicate AlwaysAsAsked(db: Db, domain: Domain, req: QueryReq)
    requires Legal(domain, req)
  {
    forall table, result | AllTyped(domain, table) :: AnsweredAsAsked(db, domain, req, table, result)
  }

  /** Two rows that one order keeps apart and the other does not: only the other may give them swapped. */
  lemma OrdersTell(db: Db, s: Select, one: OrderBy, other: OrderBy, a: Row, b: Row)
    requires RowBefore(db, s.order, one, a, b) && !RowBefore(db, s.order, other, a, b)
    requires Project(db, s.columns, a) != Project(db, s.columns, b) && s.limit != Some(0)
    ensures var swapped := ProjectAll(db, s.columns, Limited([b, a], s.limit));
            Gives(db, s, other, [a, b], swapped) && !Gives(db, s, one, [a, b], swapped)
  {
    hide RowBefore, Project, ProjectAll, Limited;
    var rows := [b, a];
    assert OneOrder(db, s.order, other, [a, b], rows);
    FirstShown(db, s.columns, a, b, s.limit);
    forall rows | OneOrder(db, s.order, one, [a, b], rows) ensures rows == [a, b] {
      OrderedPair(rows, a, b);
      NotSwapped(db, s.order, one, a, b);
    }
  }

  lemma NotSwapped(db: Db, order: seq<OrderKey>, keys: OrderBy, a: Row, b: Row)
    requires RowBefore(db, order, keys, a, b)
    ensures !Sorted(db, order, keys, [b, a])
  {
    hide RowBefore;
    var rows := [b, a];
    assert rows[1] == a && rows[0] == b;
  }

  lemma FirstShown(db: Db, columns: seq<string>, a: Row, b: Row, limit: Option<nat>)
    requires Project(db, columns, a) != Project(db, columns, b) && limit != Some(0)
    ensures ProjectAll(db, columns, Limited([a, b], limit)) != ProjectAll(db, columns, Limited([b, a], limit))
  {
    hide Project;
    assert ProjectAll(db, columns, Limited([a, b], limit))[0] == Project(db, columns, a);
    assert ProjectAll(db, columns, Limited([b, a], limit))[0] == Project(db, columns, b);
  }

  /** Text is strictly ordered, and values of one type that are shown alike are equal. */
  ghost predicate Legible(db: Db) {
    && (forall s :: !db.textLess(s, s))
    && forall t, v, w | OfType(t, v) && OfType(t, w) && Shown(db, v) == Shown(db, w) :: v == w
  }

  /** Such a server exists: one that renders numbers in decimal and sorts text by its characters. */
  lemma SomeLegible() returns (db: Db)
    ensures Legible(db) && PlainIntegers(db)
  {
    db := Db(TextLess, (s, p) => false, (t, s) => None, Rendered);
    forall s ensures !db.textLess(s, s) {
      NotBeforeItself(s);
    }
    forall t, v, w | OfType(t, v) && OfType(t, w) && Shown(db, v) == Shown(db, w) ensures v == w {
      RenderedApart(t, v, w);
    }
    assert Decimal(10) == Decimal(1) + [DIGITS[0]] == "10";
    assert "10"[0] < "9"[0];
  }

  const DIGITS := "0123456789"

  function Decimal(n: nat): (s: string)
    ensures s != [] && forall i | 0 <= i < |s| :: s[i] in DIGITS
  {
    if n < 10 then [DIGITS[n]] else Decimal(n / 10) + [DIGITS[n % 10]]
  }

  function Signed(n: int): string {
    if n < 0 then "-" + Decimal(-n) else Decimal(n)
  }

  function Rendered(v: SqlValue): string {
    match v
    case Null => ""
    case TextV(s) => s
    case IntV(i) => Signed(i)
    case FloatV(p) => Signed(p)
    case BoolV(b) => if b then "true" else "false"
    case DateV(d) => Signed(d)
    case TimeV(t) => Signed(t)
  }

  predicate TextLess(s: string, t: string) {
    t != "" && (s == "" || s[0] < t[0] || (s[0] == t[0] && TextLess(s[1..], t[1..])))
  }

  lemma {:induction false} NotBeforeItself(s: string)
    ensures !TextLess(s, s)
  {
    if s == "" {
    } else {
      NotBeforeItself(s[1..]);
    }
  }

  lemma {:induction false} DecimalApart(m: nat, n: nat)
    requires Decimal(m) == Decimal(n)
    ensures m == n
  {
    var s := Decimal(m);
    if m < 10 || n < 10 {
    } else {
      assert s[..|s| - 1] == Decimal(m / 10) == Decimal(n / 10);
      assert s[|s| - 1] == DIGITS[m % 10] == DIGITS[n % 10];
      DecimalApart(m / 10, n / 10);
    }
  }

  lemma MinusIsNoDigit(n: nat)
    ensures Decimal(n)[0] != '-'
  {
    hide Decimal;
    assert Decimal(n)[0] in DIGITS;
  }

  lemma SignedApart(m: int, n: int)
    requires Signed(m) == Signed(n)
    ensures m == n
  {
    hide Decimal;
    if m < 0 && n < 0 {
      assert Signed(m)[1..] == Decimal(-m) && Signed(n)[1..] == Decimal(-n);
      DecimalApart(-m, -n);
    } else if m >= 0 && n >= 0 {
      DecimalApart(m, n);
    } else {
      MinusIsNoDigit(if m < 0 then n else m);
    }
  }

  lemma RenderedApart(t: FieldType, v: SqlValue, w: SqlValue)
    requires OfType(t, v) && OfType(t, w) && Rendered(v) == Rendered(w)
    ensures v == w
  {
    hide Signed;
    match v
    case IntV(i) => SignedApart(i, w.i);
    case FloatV(p) => SignedApart(p, w.place);
    case DateV(d) => SignedApart(d, w.d);
    case TimeV(n) => SignedApart(n, w.t);
    case BoolV(b) => assert "true"[0] != "false"[0];
    case _ =>
  }

  lemma NotLessThanItself(db: Db, v: SqlValue)
    requires Legible(db)
    ensures !Less(db, v, v)
  {
  }

  /** Values shown alike do not count as different in either order. */
  lemma ShownAlike(db: Db, domain: Domain, columns: seq<string>, k: OrderKey, a: Row, b: Row)
    requires Legible(db) && WellTyped(domain, a) && WellTyped(domain, b) && Declared(domain, k.name)
    requires Project(db, columns, a) == Project(db, columns, b) && k.name in columns
    ensures Tied(db, k, OutputColumns(columns), a, b) && Tied(db, k, TableColumns, a, b)
  {
    hide WellTyped, Declared, OfType, Less, Legible;
    TypedColumn(domain, a, k.name);
    TypedColumn(domain, b, k.name);
    var i :| 0 <= i < |columns| && columns[i] == k.name;
    assert Project(db, columns, a)[i] == Shown(db, Column(a, k.name));
    assert Project(db, columns, b)[i] == Shown(db, Column(b, k.name));
    SameValue(db, TypeOf(domain, k.name), Column(a, k.name), Column(b, k.name));
    EqualIsTied(db, k, OutputColumns(columns), a, b);
    EqualIsTied(db, k, TableColumns, a, b);
  }

  lemma EqualIsTied(db: Db, k: OrderKey, keys: OrderBy, a: Row, b: Row)
    requires Legible(db) && Column(a, k.name) == Column(b, k.name)
    ensures Tied(db, k, keys, a, b)
  {
    hide Less, Legible, AsText;
    var v := SortValue(db, keys, a, k.name);
    NotLessThanItself(db, v);
    assert !KeyBefore(db, v, v, false);
  }

  lemma SameValue(db: Db, t: FieldType, v: SqlValue, w: SqlValue)
    requires Legible(db) && (v.Null? || OfType(t, v)) && (w.Null? || OfType(t, w)) && Shown(db, v) == Shown(db, w)
    ensures v == w
  {
    hide OfType;
  }

  /** Rows that the two orders tell apart are shown differently. */
  lemma {:induction false} AlikeIsOrderedAlike(db: Db, domain: Domain, columns: seq<string>, order: seq<OrderKey>,
                                               a: Row, b: Row)
    requires Legible(db) && WellTyped(domain, a) && WellTyped(domain, b)
    requires forall i | 0 <= i < |order| :: Declared(domain, order[i].name)
    requires Project(db, columns, a) == Project(db, columns, b)
    ensures RowBefore(db, order, OutputColumns(columns), a, b) == RowBefore(db, order, TableColumns, a, b)
  {
    hide Legible, WellTyped, Declared, Project, KeyBefore, AsText;
    if order == [] {
    } else {
      AlikeIsOrderedAlike(db, domain, columns, order[1..], a, b);
      if order[0].name in columns {
        ShownAlike(db, domain, columns, order[0], a, b);
      }
    }
  }

  /** Two rows the request asks for, about which the two orders disagree. */
  ghost predicate ToldApart(db: Db, domain: Domain, req: QueryReq, a: Row, b: Row)
    requires Legal(domain, req) && AllReadable(db, domain, req)
  {
    && WellTyped(domain, a) && SatisfiesAll(db, domain, a, req.conditions)
    && WellTyped(domain, b) && SatisfiesAll(db, domain, b, req.conditions)
    && Misordered(db, domain, req, a, b)
  }

  ghost predicate SomeToldApart(db: Db, domain: Domain, req: QueryReq)
    requires Legal(domain, req)
  {
    AllReadable(db, domain, req) && exists a, b :: ToldApart(db, domain, req, a, b)
  }

  lemma OrderFieldsDeclared(domain: Domain, req: QueryReq)
    requires Legal(domain, req)
    ensures var order := CompiledSelect(domain, req).order;
            forall i | 0 <= i < |order| :: Declared(domain, order[i].name)
  {
    hide Declared, LegalCond, LegalDir;
    var order := CompiledSelect(domain, req).order;
    assert forall i | 0 <= i < |order| :: order[i].name == req.order[i].field;
  }

  /** The two orders may give different results for just these two rows. */
  lemma ToldApartGives(db: Db, domain: Domain, req: QueryReq, a: Row, b: Row) returns (shown: seq<OutRow>)
    requires Legal(domain, req) && AllReadable(db, domain, req) && ToldApart(db, domain, req, a, b)
    requires Legible(db) && req.limit != Some(0)
    ensures var s := CompiledSelect(domain, req);
            Gives(db, s, OutputColumns(s.columns), [a, b], shown) != Gives(db, s, TableColumns, [a, b], shown)
  {
    hide WellTyped, Legal, Wanted, Legible, Project, SatisfiesAll, RowBefore, Readable, OneOrder, ProjectAll, Limited;
    var s := CompiledSelect(domain, req);
    ToldApartIsShown(db, domain, req, a, b);
    AskedIsColumnOrder(db, domain, req, a, b);
    hide Gives;
    if RowBefore(db, s.order, OutputColumns(s.columns), a, b) {
      OrdersTell(db, s, OutputColumns(s.columns), TableColumns, a, b);
    } else {
      OrdersTell(db, s, TableColumns, OutputColumns(s.columns), a, b);
    }
    shown := ProjectAll(db, s.columns, Limited([b, a], s.limit));
  }

  /** Over a table of just these two rows the two answers differ. */
  lemma ToldApartDiffers(db: Db, domain: Domain, req: QueryReq, a: Row, b: Row) returns (result: Option<seq<OutRow>>)
    requires Legal(domain, req) && AllReadable(db, domain, req) && ToldApart(db, domain, req, a, b)
    requires Legible(db) && req.limit != Some(0)
    ensures AllTyped(domain, [a, b]) && !AnsweredAsAsked(db, domain, req, [a, b], result)
  {
    hide WellTyped, Legal, Legible, Satisfying, Passing, SatisfiesAll, Readable, Gives, CompiledSelect, CompiledBinds,
      Misordered, Asked;
    var shown := ToldApartGives(db, domain, req, a, b);
    BothSatisfy(db, domain, req, a, b);
    result := Some(shown);
    AskedMeans(db, domain, req, [a, b], result);
  }

  lemma ToldApartIsShown(db: Db, domain: Domain, req: QueryReq, a: Row, b: Row)
    requires Legal(domain, req) && AllReadable(db, domain, req) && ToldApart(db, domain, req, a, b) && Legible(db)
    ensures Project(db, Wanted(domain, req), a) != Project(db, Wanted(domain, req), b)
  {
    hide WellTyped, Legal, Wanted, Legible, Project, SatisfiesAll, RowBefore, Readable, Declared;
    OrderFieldsDeclared(domain, req);
    AskedIsColumnOrder(db, domain, req, a, b);
    if Project(db, Wanted(domain, req), a) == Project(db, Wanted(domain, req), b) {
      AlikeIsOrderedAlike(db, domain, Wanted(domain, req), CompiledSelect(domain, req).order, a, b);
    }
  }

  lemma BothSatisfy(db: Db, domain: Domain, req: QueryReq, a: Row, b: Row)
    requires Legal(domain, req) && AllReadable(db, domain, req)
    requires SatisfiesAll(db, domain, a, req.conditions) && SatisfiesAll(db, domain, b, req.conditions)
    ensures AllBound(db, CompiledSelect(domain, req), CompiledBinds(domain, req))
    ensures Passing(db, [a, b], CompiledSelect(domain, req).conds, CompiledBinds(domain, req)) == [a, b]
    ensures Satisfying(db, domain, [a, b], req.conditions) == [a, b]
  {
    hide Legal, Readable, CompiledSelect, CompiledBinds, Bound, SatisfiesAll, Conjunction;
    BoundIffReadable(db, domain, req);
    SamePassing(db, domain, req, [a, b]);
    ConditionsLegal(domain, req);
    SatisfyingPair(db, domain, a, b, req.conditions);
  }

  lemma ConditionsLegal(domain: Domain, req: QueryReq)
    requires Legal(domain, req)
    ensures forall i | 0 <= i < |req.conditions| :: LegalCond(domain, req.conditions[i])
  {
    hide LegalCond;
  }

  lemma SatisfyingPair(db: Db, domain: Domain, a: Row, b: Row, conditions: seq<WhereCond>)
    requires forall i | 0 <= i < |conditions| :: LegalCond(domain, conditions[i]) && Readable(db, domain, conditions[i])
    requires SatisfiesAll(db, domain, a, conditions) && SatisfiesAll(db, domain, b, conditions)
    ensures Satisfying(db, domain, [a, b], conditions) == [a, b]
  {
    hide SatisfiesAll, LegalCond, Readable;
    assert [a, b][1..] == [b] && [b][1..] == [];
    assert Satisfying(db, domain, [b], conditions) == [b];
  }

  lemma {:induction false} SatisfyingSatisfy(db: Db, domain: Domain, table: seq<Row>, conditions: seq<WhereCond>)
    requires forall i | 0 <= i < |conditions| :: LegalCond(domain, conditions[i]) && Readable(db, domain, conditions[i])
    ensures forall row | row in Satisfying(db, domain, table, conditions) :: SatisfiesAll(db, domain, row, conditions)
  {
    hide SatisfiesAll, LegalCond, Readable;
    if table == [] {
    } else {
      SatisfyingSatisfy(db, domain, table[1..], conditions);
    }
  }

  /** Where the orders agree about the rows asked for, they sort these alike. */
  lemma AgreeingOrders(db: Db, domain: Domain, req: QueryReq, passing: seq<Row>, rows: seq<Row>)
    requires Legal(domain, req) && forall a, b | a in passing && b in passing :: !Misordered(db, domain, req, a, b)
    ensures OneOrder(db, CompiledSelect(domain, req).order, OutputColumns(Wanted(domain, req)), passing, rows) <==>
            OneOrder(db, CompiledSelect(domain, req).order, TableColumns, passing, rows)
  {
    hide RowBefore, Legal, Wanted, AskedBefore;
    if multiset(rows) == multiset(passing) {
      var order := CompiledSelect(domain, req).order;
      forall i, j | 0 <= i < j < |rows|
        ensures RowBefore(db, order, OutputColumns(Wanted(domain, req)), rows[j], rows[i]) ==
                RowBefore(db, order, TableColumns, rows[j], rows[i])
      {
        assert rows[i] in multiset(rows) && rows[j] in multiset(rows);
        assert !Misordered(db, domain, req, rows[j], rows[i]);
        AskedIsColumnOrder(db, domain, req, rows[j], rows[i]);
      }
    }
  }

  lemma AgreeingAnswers(db: Db, domain: Domain, req: QueryReq, table: seq<Row>, result: Option<seq<OutRow>>)
    requires Legal(domain, req) && !SomeToldApart(db, domain, req) && AllTyped(domain, table)
    ensures AnsweredAsAsked(db, domain, req, table, result)
  {
    hide Bound, Readable, LegalCond, WellTyped, OneOrder, Passing, Satisfying, Wanted, SatisfiesAll, Misordered, Asked;
    BoundIffReadable(db, domain, req);
    LengthsAgree(domain, req);
    AskedMeans(db, domain, req, table, result);
    if AllReadable(db, domain, req) {
      SamePassing(db, domain, req, table);
      SatisfyingAreRows(db, domain, table, req.conditions);
      SatisfyingSatisfy(db, domain, table, req.conditions);
      var passing := Satisfying(db, domain, table, req.conditions);
      forall a, b | a in passing && b in passing ensures !Misordered(db, domain, req, a, b) {
        assert a in table && b in table;
        assert !ToldApart(db, domain, req, a, b);
      }
      forall rows ensures
        OneOrder(db, CompiledSelect(domain, req).order, OutputColumns(Wanted(domain, req)), passing, rows) <==>
        OneOrder(db, CompiledSelect(domain, req).order, TableColumns, passing, rows)
      {
        AgreeingOrders(db, domain, req, passing, rows);
      }
    }
  }

  /** A request is answered as asked over every table exactly when no two rows it asks for are told apart
      by the order of their texts and the order of their values. (With a limit of 0 there is no row to
      see.) */
  lemma AnsweredAsAskedIff(db: Db, domain: Domain, req: QueryReq)
    requires Legal(domain, req) && Legible(db) && req.limit != Some(0)
    ensures AlwaysAsAsked(db, domain, req) <==> !SomeToldApart(db, domain, req)
  {
    hide AnsweredAsAsked, Legal, Legible, ToldApart, AllTyped;
    if SomeToldApart(db, domain, req) {
      var a, b :| ToldApart(db, domain, req, a, b);
      var result := ToldApartDiffers(db, domain, req, a, b);
    } else {
      forall table, result | AllTyped(domain, table) ensures AnsweredAsAsked(db, domain, req, table, result) {
        AgreeingAnswers(db, domain, req, table, result);
      }
    }
  }

  /** Without conditions that is the guard a caller can check: every order field is safe. With conditions
      a safe order still suffices. */
  lemma SafeTellsNoneApart(db: Db, domain: Domain, req: QueryReq)
    requires Legal(domain, req)
    ensures OrderSafe(db, domain, req) ==> !SomeToldApart(db, domain, req)
    ensures req.conditions == [] ==> (OrderSafe(db, domain, req) <==> !SomeToldApart(db, domain, req))
  {
    hide Legal, WellTyped, OrderSafe, Misordered, SatisfiesAll, Readable;
    OrdersAsAskedIff(db, domain, req);
    if OrderSafe(db, domain, req) && SomeToldApart(db, domain, req) {
      var a, b :| ToldApart(db, domain, req, a, b);
      MisorderedIsNotAsAsked(db, domain, req, a, b);
    }
    if !OrderSafe(db, domain, req) && req.conditions == [] {
      var i := FirstUnsafe(db, domain, req);
      var a, b := UnsafeTermMisorders(db, domain, req, i);
      NoConditions(db, domain, a);
      NoConditions(db, domain, b);
      assert ToldApart(db, domain, req, a, b);
    }
  }

  lemma NoConditions(db: Db, domain: Domain, row: Row)
    ensures SatisfiesAll(db, domain, row, [])
  {
  }

  /** Integers are not: `10` comes before `9` as text. */
  lemma IntIsUnsafe(db: Db)
    requires PlainIntegers(db)
    ensures !TextOrderAgrees(db, Int)
  {
    assert Less(db, AsText(db, IntV(10)), AsText(db, IntV(9)));
  }

  // ── A request that is answered in the wrong order ───────────────────────────

  /** Asking for the ages 9 and 10 in ascending order. */
  const PEOPLE := Domain("person", [Field("age", Int, true, false)], [])
  const BY_AGE := QueryReq(None, [], [OrderTerm("age", None)], None)

  const NINE := Lone("age", IntV(9))
  const TEN := Lone("age", IntV(10))
  const BACKWARDS: Option<seq<OutRow>> := Some([[Some("10")], [Some("9")]])

  predicate PlainIntegers(db: Db) {
    && db.render(IntV(9)) == "9" && db.render(IntV(10)) == "10"
    && db.textLess("10", "9") && !db.textLess("9", "10")
  }

  lemma {:induction false} UnfilteredRows(db: Db, domain: Domain, table: seq<Row>)
    ensures Passing(db, table, [], []) == table == Satisfying(db, domain, table, [])
  {
    if table == [] {
    } else {
      UnfilteredRows(db, domain, table[1..]);
      assert table == [table[0]] + table[1..];
    }
  }

  lemma AgesCompiled(db: Db)
    ensures Legal(PEOPLE, BY_AGE)
    ensures CompiledSelect(PEOPLE, BY_AGE) == Select(["age"], "person", [], [OrderKey("age", false)], None)
    ensures CompiledBinds(PEOPLE, BY_AGE) == []
    ensures Passing(db, [NINE, TEN], [], []) == [NINE, TEN] == Satisfying(db, PEOPLE, [NINE, TEN], [])
  {
    var age := Field("age", Int, true, false);
    assert PEOPLE.fields == [age] && FindField(PEOPLE.fields, "age") == Some(age);
    assert FieldNames(PEOPLE.fields) == ["age"];
    assert CompiledSelect(PEOPLE, BY_AGE).order == [OrderKey("age", false)];
    assert CompiledSelect(PEOPLE, BY_AGE).conds == [];
    UnfilteredRows(db, PEOPLE, [NINE, TEN]);
  }

  lemma AgeIsOrdered(db: Db)
    requires Legal(PEOPLE, BY_AGE) && !TextOrderAgrees(db, Int)
    ensures !OrderSafe(db, PEOPLE, BY_AGE)
  {
    var age := Field("age", Int, true, false);
    assert PEOPLE.fields == [age] && FindField(PEOPLE.fields, "age") == Some(age);
    assert Wanted(PEOPLE, BY_AGE)[0] == "age";
    hide TextOrderAgrees;
    assert !OrderTermSafe(db, PEOPLE, BY_AGE, BY_AGE.order[0]);
  }

  lemma AgesCompare(db: Db)
    requires PlainIntegers(db)
    ensures RowBefore(db, [OrderKey("age", false)], TableColumns, NINE, TEN)
    ensures !RowBefore(db, [OrderKey("age", false)], OutputColumns(["age"]), NINE, TEN)
  {
    var k := OrderKey("age", false);
    assert SortValue(db, TableColumns, NINE, "age") == IntV(9) && SortValue(db, TableColumns, TEN, "age") == IntV(10);
    assert SortValue(db, OutputColumns(["age"]), NINE, "age") == TextV("9");
    assert SortValue(db, OutputColumns(["age"]), TEN, "age") == TextV("10");
    assert [k][1..] == [];
  }

  lemma AgesShown(db: Db)
    requires PlainIntegers(db)
    ensures ProjectAll(db, ["age"], [TEN, NINE]) == BACKWARDS.value
    ensures ProjectAll(db, ["age"], [NINE, TEN]) != BACKWARDS.value
  {
    assert Project(db, ["age"], NINE) == [Some("9")] && Project(db, ["age"], TEN) == [Some("10")];
    assert ProjectAll(db, ["age"], [NINE, TEN])[0] == [Some("9")];
    assert "9"[0] != "10"[0];
  }

  lemma OrderedPair(rows: seq<Row>, a: Row, b: Row)
    requires multiset(rows) == multiset([a, b])
    ensures rows == [a, b] || rows == [b, a]
  {
    assert |rows| == |multiset(rows)| == 2;
    assert rows == [rows[0], rows[1]];
    assert rows[0] in multiset([a, b]);
    if rows[0] == a {
      assert multiset(rows)[b] == multiset([a, b])[b];
    }
  }

  const AGES := Select(["age"], "person", [], [OrderKey("age", false)], None)

  lemma AgesGiven(db: Db)
    requires PlainIntegers(db)
    ensures Gives(db, AGES, OutputColumns(["age"]), [NINE, TEN], BACKWARDS.value)
    ensures !Gives(db, AGES, TableColumns, [NINE, TEN], BACKWARDS.value)
  {
    AgesCompare(db);
    AgesShown(db);
    hide RowBefore, ProjectAll, Lone, PlainIntegers;
    var order, table := [OrderKey("age", false)], [NINE, TEN];
    var wrong := [TEN, NINE];
    assert OneOrder(db, order, OutputColumns(["age"]), table, wrong);
    assert Limited(wrong, None) == wrong;
    NotSwapped(db, order, TableColumns, NINE, TEN);
    forall rows | OneOrder(db, order, TableColumns, table, rows) ensures rows == table {
      OrderedPair(rows, NINE, TEN);
    }
  }

  /** The compiled statement answers 10 before 9, which is not what was asked for. */
  lemma AgesComeBackAsText(db: Db)
    requires PlainIntegers(db)
    ensures Legal(PEOPLE, BY_AGE)
    ensures Answers(db, CompiledSelect(PEOPLE, BY_AGE), CompiledBinds(PEOPLE, BY_AGE), [NINE, TEN], BACKWARDS)
    ensures !Asked(db, PEOPLE, BY_AGE, [NINE, TEN], BACKWARDS)
    ensures !OrderSafe(db, PEOPLE, BY_AGE)
  {
    IntIsUnsafe(db);
    AgesCompiled(db);
    AgeIsOrdered(db);
    AgesGiven(db);
    AskedMeans(db, PEOPLE, BY_AGE, [NINE, TEN], BACKWARDS);
    hide Asked, Passing, Satisfying, CompiledSelect, CompiledBinds, PlainIntegers, Gives, OrderSafe, Legal, Lone;
  }
}
