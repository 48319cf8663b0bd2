/**
 * Tenant isolation at the query layer: the rewrite of every operation's
 * arguments, and a meaning for the queries it produces. A table is a sequence
 * of rows in storage order; where-clauses follow SQL's three-valued logic.
 */
module TenantScope {
  import opened Wrappers

  // ----- rows and where-clauses

  datatype Value = Null | Num(n: int) | Text(s: string)

  /** A row, or the fields given in a `data` object; an undefined field is absent. */
  type Row = map<string, Value>

  type Table = seq<Row>

  const TENANT := "tenantId"

  datatype Cond = Equals(v: Value) | In(vs: seq<Value>) | Differs(v: Value) | Gte(n: int) | Lte(n: int)

  /** The fields of a where object are a conjunction; `AND`, `OR` and `NOT` nest. */
  datatype Where = Where(fields: map<string, Cond>, and: seq<Where>, hasOr: bool, or: seq<Where>, not: seq<Where>)

  datatype Truth = True | False | Unknown

  function Both(a: Truth, b: Truth): Truth {
    if a == False || b == False then False else if a == True && b == True then True else Unknown
  }

  function Negate(a: Truth): Truth {
    match a case True => False case False => True case Unknown => Unknown
  }

  function Decide(b: bool): Truth {
    if b then True else False
  }

  function Field(row: Row, f: string): Value {
    if f in row then row[f] else Null
  }

  function Test(c: Cond, v: Value): Truth {
    match c
    case Equals(Null) => Decide(v == Null)
    case Differs(Null) => Decide(v != Null)
    case _ =>
      if v == Null then Unknown
      else match c
        case Equals(w) => Decide(v == w)
        case In(ws) => Decide(v in ws)
        case Differs(w) => Decide(v != w)
        case Gte(n) => if v.Num? then Decide(v.n >= n) else Unknown
        case Lte(n) => if v.Num? then Decide(v.n <= n) else Unknown
  }

  function Fields(fields: map<string, Cond>, row: Row): Truth {
    if exists f | f in fields :: Test(fields[f], Field(row, f)) == False then False
    else if forall f | f in fields :: Test(fields[f], Field(row, f)) == True then True
    else Unknown
  }

  function Eval(w: Where, row: Row): Truth
    decreases w, 1
  {
    Both(Fields(w.fields, row),
         Both(EvalAll(w.and, row),
              Both(if w.hasOr then EvalAny(w.or, row) else True, EvalNone(w.not, row))))
  }

  function EvalAll(ws: seq<Where>, row: Row): Truth
    decreases ws, 0
  {
    if ws == [] then True else Both(Eval(ws[0], row), EvalAll(ws[1..], row))
  }

  function EvalAny(ws: seq<Where>, row: Row): Truth
    decreases ws, 0
  {
    if ws == [] then False
    else Negate(Both(Negate(Eval(ws[0], row)), Negate(EvalAny(ws[1..], row))))
  }

  function EvalNone(ws: seq<Where>, row: Row): Truth
    decreases ws, 0
  {
    if ws == [] then True else Both(Negate(Eval(ws[0], row)), EvalNone(ws[1..], row))
  }

  predicate Hits(w: Where, row: Row) {
    Eval(w, row) == True
  }

  function Matching(w: Where): Row -> bool {
    (row: Row) => Hits(w, row)
  }

  // ----- operations

  datatype Operation =
    | FindUnique | FindUniqueOrThrow | FindFirst | FindFirstOrThrow | FindMany
    | Create | CreateMany | CreateManyAndReturn
    | Update | UpdateMany | UpdateManyAndReturn | Upsert
    | Delete | DeleteMany | Count | Aggregate | GroupBy

  predicate IsRead(op: Operation) {
    op.FindUnique? || op.FindUniqueOrThrow? || op.FindFirst? || op.FindFirstOrThrow? || op.FindMany?
    || op.Count? || op.Aggregate? || op.GroupBy?
  }

  predicate IsCreate(op: Operation) {
    op.Create? || op.CreateMany? || op.CreateManyAndReturn?
  }

  predicate IsUpdate(op: Operation) {
    op.Update? || op.UpdateMany? || op.UpdateManyAndReturn?
  }

  predicate IsWhereScoped(op: Operation) {
    IsRead(op) || IsUpdate(op) || op.Delete? || op.DeleteMany?
  }

  datatype Data = NoData | One(row: Row) | Many(rows: seq<Row>)

  /** `shape` stands for ordering, paging, projection and aggregation of the rows a read finds. */
  datatype Args = Args(where: Option<Where>, data: Data, create: Row, update: Row, shape: seq<Row> -> seq<Row>)

  datatype Outcome = Rows(rows: seq<Row>) | Affected(n: nat) | NotFound

  const EVERYTHING := Where(map[], [], false, [], [])

  function WhereOf(args: Args): Where {
    if args.where.Some? then args.where.value else EVERYTHING
  }

  function DataRows(d: Data): seq<Row> {
    match d case NoData => [map[]] case One(row) => [row] case Many(rows) => rows
  }

  function Patch(d: Data): Row {
    if d.One? then d.row else map[]
  }

  /** Replaces each row by the rows `f` makes of it. */
  function Each(t: Table, f: Row -> Table): Table {
    if t == [] then [] else Each(t[..|t| - 1], f) + f(t[|t| - 1])
  }

  function Hit(p: Row -> bool): Row -> Table {
    (row: Row) => if p(row) then [row] else []
  }

  /** Applies `f` to the rows that `p` accepts and keeps the others. */
  function OnHits(p: Row -> bool, f: Row -> Table): Row -> Table {
    (row: Row) => if p(row) then f(row) else [row]
  }

  function Select(t: Table, p: Row -> bool): Table {
    Each(t, Hit(p))
  }

  /** Applies `f` to the first accepted row only; a unique where-clause has no second one. */
  function OnFirst(t: Table, p: Row -> bool, f: Row -> Table): Table {
    if t == [] then []
    else
      var rest, last := t[..|t| - 1], t[|t| - 1];
      if Select(rest, p) != [] then OnFirst(rest, p, f) + [last] else rest + (if p(last) then f(last) else [last])
  }

  function Patching(patch: Row): Row -> Table {
    (row: Row) => [row + patch]
  }

  function Dropping(): Row -> Table {
    (row: Row) => []
  }

  function Patched(rows: seq<Row>, patch: Row): seq<Row> {
    seq(|rows|, i requires 0 <= i < |rows| => rows[i] + patch)
  }

  function First(rows: seq<Row>): seq<Row> {
    if rows == [] then [] else [rows[0]]
  }

  /** What a read makes of the rows it finds. */
  function Report(op: Operation, hits: seq<Row>, shape: seq<Row> -> seq<Row>): Outcome {
    match op
    case FindUnique => Rows(First(hits))
    case FindUniqueOrThrow => if hits == [] then NotFound else Rows(First(hits))
    case FindFirst => Rows(First(shape(hits)))
    case FindFirstOrThrow => if shape(hits) == [] then NotFound else Rows(First(shape(hits)))
    case Count => Affected(|shape(hits)|)
    case _ => Rows(shape(hits))
  }

  /** The operation on the rows that `p` accepts. */
  function Perform(t: Table, p: Row -> bool, op: Operation, args: Args): (Table, Outcome) {
    if IsRead(op) then (t, Report(op, Select(t, p), args.shape))
    else match op
      case Create => (t + DataRows(args.data), Rows(DataRows(args.data)))
      case CreateMany => (t + DataRows(args.data), Affected(|DataRows(args.data)|))
      case CreateManyAndReturn => (t + DataRows(args.data), Rows(DataRows(args.data)))
      case Update =>
        if Select(t, p) == [] then (t, NotFound)
        else (OnFirst(t, p, Patching(Patch(args.data))), Rows(Patched(First(Select(t, p)), Patch(args.data))))
      case UpdateMany => (Each(t, OnHits(p, Patching(Patch(args.data)))), Affected(|Select(t, p)|))
      case UpdateManyAndReturn =>
        (Each(t, OnHits(p, Patching(Patch(args.data)))), Rows(Patched(Select(t, p), Patch(args.data))))
      case Upsert =>
        if Select(t, p) == [] then (t + [args.create], Rows([args.create]))
        else (OnFirst(t, p, Patching(args.update)), Rows(Patched(First(Select(t, p)), args.update)))
      case Delete =>
        if Select(t, p) == [] then (t, NotFound) else (OnFirst(t, p, Dropping()), Rows(First(Select(t, p))))
      case DeleteMany => (Each(t, OnHits(p, Dropping())), Affected(|Select(t, p)|))
  }

  function Execute(t: Table, op: Operation, args: Args): (Table, Outcome) {
    Perform(t, Matching(WhereOf(args)), op, args)
  }

  // ----- the rewrite

  const SCOPED_MODELS := {"User", "Category", "Product", "Warehouse", "DeliveryOption", "DeliveryQuote",
                          "ScriptTemplate", "Lead", "Deal", "Payout", "Notification", "ActivityLog"}

  /** Every model of the schema, and whether its table has a `tenantId` column. */
  const HAS_TENANT_COLUMN := map[
    "Tenant" := false, "User" := true, "RefreshToken" := false, "PasswordResetToken" := false,
    "Category" := true, "Product" := true, "Warehouse" := true, "Stock" := false, "DeliveryOption" := true,
    "DeliveryQuote" := true, "ScriptTemplate" := true, "Lead" := true, "Deal" := true, "DealItem" := false,
    "Payout" := true, "Notification" := true, "ActivityLog" := true]

  /** No table with the column was forgotten, and none without it is rewritten. */
  lemma ScopedIffColumn(model: string)
    ensures model in SCOPED_MODELS <==> model in HAS_TENANT_COLUMN && HAS_TENANT_COLUMN[model]
  {
  }

  function ScopeWhere(w: Where, tenant: string): Where {
    w.(fields := w.fields[TENANT := Equals(Text(tenant))])
  }

  function ScopeRow(row: Row, tenant: string): Row {
    row[TENANT := Text(tenant)]
  }

  function ScopeRows(rows: seq<Row>, tenant: string): seq<Row> {
    seq(|rows|, i requires 0 <= i < |rows| => ScopeRow(rows[i], tenant))
  }

  function ScopeData(d: Data, tenant: string): Data {
    if d.Many? then Many(ScopeRows(d.rows, tenant)) else One(ScopeRow(Patch(d), tenant))
  }

  function Rewrite(op: Operation, args: Args, tenant: string): Args {
    var scoped := args.(where := Some(ScopeWhere(WhereOf(args), tenant)));
    if op.Create? then args.(data := One(ScopeRow(Patch(args.data), tenant)))
    else if op.CreateMany? || op.CreateManyAndReturn? then
      args.(data := ScopeData(args.data, tenant))
    else if op.Upsert? then
      scoped.(create := ScopeRow(args.create, tenant), update := ScopeRow(args.update, tenant))
    else if IsWhereScoped(op) then scoped
    else args
  }

  datatype ScopeError = NoTenantContext

  /** What the extension hands on: untouched for an unscoped model, an error without a tenant. */
  function Intercept(model: string, context: Option<string>, op: Operation, args: Args): Result<Args, ScopeError> {
    if model !in SCOPED_MODELS then Ok(args)
    else if context.None? || context.value == "" then Err(NoTenantContext)
    else Ok(Rewrite(op, args, context.value))
  }

  // ----- what the rewritten query means

  function TenantOf(row: Row): Value {
    Field(row, TENANT)
  }

  function Own(tenant: string): Row -> Table {
    (row: Row) => if TenantOf(row) == Text(tenant) then [row] else []
  }

  function Slice(t: Table, tenant: string): Table {
    Each(t, Own(tenant))
  }

  /** The row with every field the caller gave, owned by the tenant. */
  function Owned(row: Row, tenant: string): Row {
    map f | f in row.Keys + {TENANT} :: if f == TENANT then Text(tenant) else row[f]
  }

  function OwnedRows(rows: seq<Row>, tenant: string): seq<Row> {
    seq(|rows|, i requires 0 <= i < |rows| => Owned(rows[i], tenant))
  }

  /** The query a caller meant who had only the tenant's own rows: no tenant in the where-clause, every
      row it creates or upserts is the tenant's, and nothing else differs from the caller's own query. */
  function Local(op: Operation, args: Args, tenant: string): Args {
    var data := if !IsCreate(op) then args.data
                else if op.Create? || !args.data.Many? then One(Owned(Patch(args.data), tenant))
                else Many(OwnedRows(args.data.rows, tenant));
    if op.Upsert?
    then Args(Some(Unscoped(WhereOf(args))), data, Owned(args.create, tenant), Owned(args.update, tenant), args.shape)
    else Args(Some(Unscoped(WhereOf(args))), data, args.create, args.update, args.shape)
  }

  function Unscoped(w: Where): Where {
    w.(fields := w.fields - {TENANT})
  }

  /** The patch of an update operation leaves the row with its tenant. */
  predicate KeepsTenant(op: Operation, args: Args, tenant: string) {
    IsUpdate(op) ==> TENANT !in Patch(args.data) || Patch(args.data)[TENANT] == Text(tenant)
  }

  lemma ScopedHits(w: Where, tenant: string, row: Row)
    ensures Hits(ScopeWhere(w, tenant), row) <==> TenantOf(row) == Text(tenant) && Hits(Unscoped(w), row)
  {
    var scoped, rest := w.fields[TENANT := Equals(Text(tenant))], w.fields - {TENANT};
    if Fields(scoped, row) == True {
      assert Test(scoped[TENANT], Field(row, TENANT)) == True;
      forall f | f in rest ensures Test(rest[f], Field(row, f)) == True {
        assert scoped[f] == rest[f];
      }
    }
    if TenantOf(row) == Text(tenant) && Fields(rest, row) == True {
      forall f | f in scoped ensures Test(scoped[f], Field(row, f)) == True {
        assert f != TENANT ==> f in rest;
      }
    }
  }

  lemma EachSnoc(t: Table, row: Row, f: Row -> Table)
    ensures Each(t + [row], f) == Each(t, f) + f(row)
  {
    assert (t + [row])[..|t|] == t;
  }

  lemma {:induction false} EachAppend(t: Table, more: Table, f: Row -> Table)
    ensures Each(t + more, f) == Each(t, f) + Each(more, f)
  {
    if more == [] {
      assert t + more == t;
    } else {
      var rest, last := more[..|more| - 1], more[|more| - 1];
      calc {
        Each(t + more, f);
        { assert t + more == (t + rest) + [last]; }
        Each((t + rest) + [last], f);
        { EachSnoc(t + rest, last, f); }
        Each(t + rest, f) + f(last);
        { EachAppend(t, rest, f); }
        (Each(t, f) + Each(rest, f)) + f(last);
        Each(t, f) + (Each(rest, f) + f(last));
        { EachSnoc(rest, last, f); assert rest + [last] == more; }
        Each(t, f) + Each(more, f);
      }
    }
  }

  lemma EachOne(row: Row, f: Row -> Table)
    ensures Each([row], f) == f(row)
  {
    assert [row][..0] == [];
  }

  /** Two row-by-row passes in either order, when they commute on every single row. */
  lemma {:induction false} PassesCommute(t: Table, f: Row -> Table, g: Row -> Table, f': Row -> Table, g': Row -> Table)
    requires forall row :: Each(f(row), g) == Each(g'(row), f')
    ensures Each(Each(t, f), g) == Each(Each(t, g'), f')
  {
    if t != [] {
      var rest, last := t[..|t| - 1], t[|t| - 1];
      PassesCommute(rest, f, g, f', g');
      EachAppend(Each(rest, f), f(last), g);
      EachAppend(Each(rest, g'), g'(last), f');
    }
  }

  function Keep(): Row -> Table {
    (row: Row) => [row]
  }

  lemma {:induction false} EachKeep(t: Table)
    ensures Each(t, Keep()) == t
  {
    if t != [] {
      EachKeep(t[..|t| - 1]);
    }
  }

  /** `p` accepts exactly the tenant's rows that `q` accepts. */
  ghost predicate Restricts(p: Row -> bool, q: Row -> bool, tenant: string) {
    forall row :: p(row) <==> TenantOf(row) == Text(tenant) && q(row)
  }

  lemma SelectMeansSlice(t: Table, p: Row -> bool, q: Row -> bool, tenant: string)
    requires Restricts(p, q, tenant)
    ensures Select(t, p) == Select(Slice(t, tenant), q)
  {
    forall row ensures Each(Hit(p)(row), Keep()) == Each(Own(tenant)(row), Hit(q)) {
      EachKeep(Hit(p)(row));
      EachOne(row, Hit(q));
    }
    PassesCommute(t, Hit(p), Keep(), Hit(q), Own(tenant));
    EachKeep(Select(t, p));
  }

  lemma {:induction false} SliceOfScoped(rows: seq<Row>, tenant: string, other: string)
    ensures Slice(ScopeRows(rows, tenant), other) == if other == tenant then ScopeRows(rows, tenant) else []
  {
    if rows != [] {
      SliceOfScoped(rows[..|rows| - 1], tenant, other);
      assert ScopeRows(rows, tenant)[..|rows| - 1] == ScopeRows(rows[..|rows| - 1], tenant);
    }
  }

  /** `after` is `before` with the tenant's slice replaced by `own` and every other slice untouched. */
  ghost predicate OnlySlice(before: Table, after: Table, tenant: string, own: Table) {
    && Slice(after, tenant) == own
    && forall other | other != tenant :: Slice(after, other) == Slice(before, other)
  }

  /** What `f` makes of an owner's row stays with the owner. */
  ghost predicate StaysHomeFor(f: Row -> Table, owner: string) {
    forall row, tenant | TenantOf(row) == Text(owner) :: Slice(f(row), tenant) == if tenant == owner then f(row) else []
  }

  lemma PassOnOwnSlice(t: Table, p: Row -> bool, q: Row -> bool, tenant: string, f: Row -> Table)
    requires Restricts(p, q, tenant) && StaysHomeFor(f, tenant)
    ensures Slice(Each(t, OnHits(p, f)), tenant) == Each(Slice(t, tenant), OnHits(q, f))
  {
    forall row ensures Each(OnHits(p, f)(row), Own(tenant)) == Each(Own(tenant)(row), OnHits(q, f)) {
      EachOne(row, OnHits(q, f));
      EachOne(row, Own(tenant));
      assert TenantOf(row) == Text(tenant) ==> Slice(f(row), tenant) == f(row);
    }
    PassesCommute(t, OnHits(p, f), Own(tenant), OnHits(q, f), Own(tenant));
  }

  lemma PassOnOtherSlice(t: Table, p: Row -> bool, q: Row -> bool, tenant: string, f: Row -> Table, other: string)
    requires Restricts(p, q, tenant) && StaysHomeFor(f, tenant) && other != tenant
    ensures Slice(Each(t, OnHits(p, f)), other) == Slice(t, other)
  {
    forall row ensures Each(OnHits(p, f)(row), Own(other)) == Each(Own(other)(row), Keep()) {
      EachOne(row, Own(other));
      EachKeep(Own(other)(row));
      assert TenantOf(row) == Text(tenant) ==> Slice(f(row), other) == [];
    }
    PassesCommute(t, OnHits(p, f), Own(other), Keep(), Own(other));
    EachKeep(Slice(t, other));
  }

  /** A pass over the restricted hits that keeps them at home is the same pass on the slice. */
  lemma PassMeansSlice(t: Table, p: Row -> bool, q: Row -> bool, tenant: string, f: Row -> Table)
    requires Restricts(p, q, tenant) && StaysHomeFor(f, tenant)
    ensures OnlySlice(t, Each(t, OnHits(p, f)), tenant, Each(Slice(t, tenant), OnHits(q, f)))
  {
    PassOnOwnSlice(t, p, q, tenant, f);
    forall other | other != tenant ensures Slice(Each(t, OnHits(p, f)), other) == Slice(t, other) {
      PassOnOtherSlice(t, p, q, tenant, f, other);
    }
  }

  lemma PatchStaysHome(patch: Row, tenant: string)
    requires TENANT in patch ==> patch[TENANT] == Text(tenant)
    ensures StaysHomeFor(Patching(patch), tenant)
  {
    forall row, other ensures Slice([row + patch], other) == Own(other)(row + patch) {
      EachOne(row + patch, Own(other));
    }
  }

  lemma {:induction false} OnFirstIdle(t: Table, p: Row -> bool, f: Row -> Table)
    requires Select(t, p) == []
    ensures OnFirst(t, p, f) == t
  {
  }

  lemma OnFirstSnoc(t: Table, row: Row, p: Row -> bool, f: Row -> Table)
    ensures OnFirst(t + [row], p, f) ==
            if Select(t, p) != [] then OnFirst(t, p, f) + [row] else t + (if p(row) then f(row) else [row])
  {
    assert (t + [row])[..|t|] == t;
  }

  /** The slice after one more row, seen from any tenant. */
  lemma SliceOfOnFirst(t: Table, row: Row, p: Row -> bool, f: Row -> Table, other: string)
    ensures Slice(OnFirst(t + [row], p, f), other) ==
            if Select(t, p) != [] then Slice(OnFirst(t, p, f), other) + Own(other)(row)
            else Slice(t, other) + (if p(row) then Slice(f(row), other) else Own(other)(row))
  {
    OnFirstSnoc(t, row, p, f);
    EachSnoc(OnFirst(t, p, f), row, Own(other));
    EachAppend(t, f(row), Own(other));
    EachSnoc(t, row, Own(other));
  }

  lemma {:induction false} OnFirstOfOwnSlice(t: Table, p: Row -> bool, q: Row -> bool, tenant: string, f: Row -> Table)
    requires Restricts(p, q, tenant) && StaysHomeFor(f, tenant)
    ensures Slice(OnFirst(t, p, f), tenant) == OnFirst(Slice(t, tenant), q, f)
  {
    if t != [] {
      var rest, last := t[..|t| - 1], t[|t| - 1];
      assert t == rest + [last];
      OnFirstOfOwnSlice(rest, p, q, tenant, f);
      SelectMeansSlice(rest, p, q, tenant);
      OneMoreOwnRow(rest, last, p, q, tenant, f);
    }
  }

  lemma OneMoreOwnRow(rest: Table, last: Row, p: Row -> bool, q: Row -> bool, tenant: string, f: Row -> Table)
    requires p(last) <==> TenantOf(last) == Text(tenant) && q(last)
    requires TenantOf(last) == Text(tenant) ==> Slice(f(last), tenant) == f(last)
    requires Slice(OnFirst(rest, p, f), tenant) == OnFirst(Slice(rest, tenant), q, f)
    requires Select(rest, p) == Select(Slice(rest, tenant), q)
    ensures Slice(OnFirst(rest + [last], p, f), tenant) == OnFirst(Slice(rest + [last], tenant), q, f)
  {
    var own := Slice(rest, tenant);
    SliceOfOnFirst(rest, last, p, f, tenant);
    assert Slice(rest + [last], tenant) == own + Own(tenant)(last) by {
      EachSnoc(rest, last, Own(tenant));
    }
    if TenantOf(last) == Text(tenant) {
      assert own + Own(tenant)(last) == own + [last];
      OnFirstSnoc(own, last, q, f);
    } else {
      assert own + Own(tenant)(last) == own;
      if Select(rest, p) == [] {
        OnFirstIdle(own, q, f);
      }
    }
  }

  lemma {:induction false} OnFirstOfOtherSlice(t: Table, p: Row -> bool, q: Row -> bool, tenant: string,
                                               f: Row -> Table, other: string)
    requires Restricts(p, q, tenant) && StaysHomeFor(f, tenant) && other != tenant
    ensures Slice(OnFirst(t, p, f), other) == Slice(t, other)
  {
    if t != [] {
      var rest, last := t[..|t| - 1], t[|t| - 1];
      assert t == rest + [last];
      OnFirstOfOtherSlice(rest, p, q, tenant, f, other);
      SliceOfOnFirst(rest, last, p, f, other);
      EachSnoc(rest, last, Own(other));
    }
  }

  lemma OnFirstMeansSlice(t: Table, p: Row -> bool, q: Row -> bool, tenant: string, f: Row -> Table)
    requires Restricts(p, q, tenant) && StaysHomeFor(f, tenant)
    ensures OnlySlice(t, OnFirst(t, p, f), tenant, OnFirst(Slice(t, tenant), q, f))
  {
    OnFirstOfOwnSlice(t, p, q, tenant, f);
    forall other | other != tenant ensures Slice(OnFirst(t, p, f), other) == Slice(t, other) {
      OnFirstOfOtherSlice(t, p, q, tenant, f, other);
    }
  }

  lemma AppendScoped(t: Table, rows: seq<Row>, tenant: string)
    ensures OnlySlice(t, t + ScopeRows(rows, tenant), tenant, Slice(t, tenant) + ScopeRows(rows, tenant))
  {
    forall other ensures Slice(t + ScopeRows(rows, tenant), other)
                         == Slice(t, other) + if other == tenant then ScopeRows(rows, tenant) else []
    {
      EachAppend(t, ScopeRows(rows, tenant), Own(other));
      SliceOfScoped(rows, tenant, other);
    }
  }

  /** `full`, run on `t`, is `own` run on the tenant's slice: same outcome, same slice, no other touched. */
  ghost predicate Confined(t: Table, full: (Table, Outcome), own: (Table, Outcome), tenant: string) {
    full.1 == own.1 && OnlySlice(t, full.0, tenant, own.0)
  }

  /** The rows an operation writes carry the tenant, as far as the rewrite sees to it. */
  ghost predicate WritesFor(op: Operation, args: Args, tenant: string) {
    && (IsCreate(op) ==> DataRows(args.data) == ScopeRows(DataRows(args.data), tenant))
    && (op.Upsert? ==> args.create == ScopeRow(args.create, tenant) && args.update == ScopeRow(args.update, tenant))
    && KeepsTenant(op, args, tenant)
  }

  lemma UpdateMeaning(t: Table, p: Row -> bool, q: Row -> bool, op: Operation, args: Args, tenant: string)
    requires Restricts(p, q, tenant) && IsUpdate(op) && KeepsTenant(op, args, tenant)
    ensures Confined(t, Perform(t, p, op, args), Perform(Slice(t, tenant), q, op, args), tenant)
  {
    SelectMeansSlice(t, p, q, tenant);
    PatchMeaning(t, p, q, Patch(args.data), tenant);
  }

  lemma UpsertMeaning(t: Table, p: Row -> bool, q: Row -> bool, args: Args, tenant: string)
    requires Restricts(p, q, tenant) && WritesFor(Upsert, args, tenant)
    ensures Confined(t, Perform(t, p, Upsert, args), Perform(Slice(t, tenant), q, Upsert, args), tenant)
  {
    SelectMeansSlice(t, p, q, tenant);
    PatchMeaning(t, p, q, args.update, tenant);
    AppendScoped(t, [args.create], tenant);
    assert ScopeRows([args.create], tenant) == [args.create];
  }

  /** Whatever the operation does to the restricted rows, it does on the slice. */
  lemma PerformMeansLocal(t: Table, p: Row -> bool, q: Row -> bool, op: Operation, args: Args, tenant: string)
    requires Restricts(p, q, tenant) && WritesFor(op, args, tenant)
    ensures Confined(t, Perform(t, p, op, args), Perform(Slice(t, tenant), q, op, args), tenant)
  {
    SelectMeansSlice(t, p, q, tenant);
    if IsUpdate(op) {
      UpdateMeaning(t, p, q, op, args, tenant);
    } else if op.Upsert? {
      UpsertMeaning(t, p, q, args, tenant);
    } else if op.Delete? {
      OnFirstMeansSlice(t, p, q, tenant, Dropping());
    } else if op.DeleteMany? {
      PassMeansSlice(t, p, q, tenant, Dropping());
    } else if !IsRead(op) {
      AppendScoped(t, DataRows(args.data), tenant);
    }
  }

  /** What the rewritten arguments write is the tenant's, except for an update that names another one. */
  lemma RewriteWritesFor(op: Operation, args: Args, tenant: string)
    ensures WritesFor(op, Rewrite(op, args, tenant), tenant) <==> KeepsTenant(op, args, tenant)
  {
    forall rows ensures ScopeRows(ScopeRows(rows, tenant), tenant) == ScopeRows(rows, tenant) {
      forall i | 0 <= i < |rows| ensures ScopeRow(ScopeRow(rows[i], tenant), tenant) == ScopeRow(rows[i], tenant) {}
    }
    assert DataRows(ScopeData(args.data, tenant)) ==
           ScopeRows(if args.data.Many? then args.data.rows else [Patch(args.data)], tenant);
    assert [ScopeRow(Patch(args.data), tenant)] == ScopeRows([Patch(args.data)], tenant);
  }

  lemma CreatesIgnoreWhere(t: Table, p: Row -> bool, q: Row -> bool, op: Operation, args: Args)
    requires IsCreate(op)
    ensures Perform(t, p, op, args) == Perform(t, q, op, args)
  {
  }

  lemma KeepingTenantsConfines(t: Table, op: Operation, args: Args, tenant: string)
    requires KeepsTenant(op, args, tenant)
    ensures Confined(t, Execute(t, op, Rewrite(op, args, tenant)),
                     Execute(Slice(t, tenant), op, Local(op, args, tenant)), tenant)
  {
    var w, rewritten := WhereOf(args), Rewrite(op, args, tenant);
    var p, q := Matching(ScopeWhere(w, tenant)), Matching(Unscoped(w));
    ScopedMatching(w, tenant);
    RewriteWritesFor(op, args, tenant);
    PerformMeansLocal(t, p, q, op, rewritten, tenant);
    WhereIsAllThatDiffers(Slice(t, tenant), q, op, args, tenant);
    if IsCreate(op) {
      CreatesIgnoreWhere(t, p, Matching(WhereOf(rewritten)), op, rewritten);
    }
  }

  lemma WhereIsAllThatDiffers(t: Table, q: Row -> bool, op: Operation, args: Args, tenant: string)
    ensures Perform(t, q, op, Local(op, args, tenant)) == Perform(t, q, op, Rewrite(op, args, tenant))
  {
    forall row ensures ScopeRow(row, tenant) == Owned(row, tenant) {}
    assert args.data.Many? ==> ScopeRows(args.data.rows, tenant) == OwnedRows(args.data.rows, tenant);
  }

  lemma ScopedMatching(w: Where, tenant: string)
    ensures Restricts(Matching(ScopeWhere(w, tenant)), Matching(Unscoped(w)), tenant)
  {
    forall row ensures Hits(ScopeWhere(w, tenant), row) <==> TenantOf(row) == Text(tenant) && Hits(Unscoped(w), row) {
      ScopedHits(w, tenant, row);
    }
  }

  lemma PatchMeaning(t: Table, p: Row -> bool, q: Row -> bool, patch: Row, tenant: string)
    requires Restricts(p, q, tenant) && (TENANT in patch ==> patch[TENANT] == Text(tenant))
    ensures OnlySlice(t, Each(t, OnHits(p, Patching(patch))), tenant,
                      Each(Slice(t, tenant), OnHits(q, Patching(patch))))
    ensures OnlySlice(t, OnFirst(t, p, Patching(patch)), tenant, OnFirst(Slice(t, tenant), q, Patching(patch)))
  {
    PatchStaysHome(patch, tenant);
    PassMeansSlice(t, p, q, tenant, Patching(patch));
    OnFirstMeansSlice(t, p, q, tenant, Patching(patch));
  }

  // ----- what the bulk operations do to a table

  lemma {:induction false} SelectFinds(t: Table, p: Row -> bool, row: Row)
    ensures multiset(Select(t, p))[row] == if p(row) then multiset(t)[row] else 0
  {
    if t != [] {
      var rest, last := t[..|t| - 1], t[|t| - 1];
      assert t == rest + [last];
      EachSnoc(rest, last, Hit(p));
      SelectFinds(rest, p, row);
    }
  }

  /** What is deleted is what would have been found, and nothing else. */
  lemma {:induction false} DeletingKeepsTheRest(t: Table, p: Row -> bool)
    ensures Each(t, OnHits(p, Dropping())) == Select(t, (row: Row) => !p(row))
  {
    if t != [] {
      DeletingKeepsTheRest(t[..|t| - 1], p);
    }
  }

  // ----- the one thing the rewrite does not overwrite

  lemma {:induction false} PatchRowByRow(t: Table, p: Row -> bool, patch: Row)
    ensures var after := Each(t, OnHits(p, Patching(patch)));
            && |after| == |t|
            && forall i | 0 <= i < |t| :: after[i] == if p(t[i]) then t[i] + patch else t[i]
  {
    if t != [] {
      PatchRowByRow(t[..|t| - 1], p, patch);
    }
  }

  lemma {:induction false} SelectIsEmptyIff(t: Table, p: Row -> bool)
    ensures Select(t, p) == [] <==> forall i | 0 <= i < |t| :: !p(t[i])
  {
    if t != [] {
      SelectIsEmptyIff(t[..|t| - 1], p);
    }
  }

  /** Row by row `after` is `t`, some accepted rows patched, at least one if any is accepted. */
  ghost predicate SomePatched(t: Table, after: Table, p: Row -> bool, patch: Row) {
    && |after| == |t|
    && (forall i | 0 <= i < |t| :: after[i] == t[i] || (p(t[i]) && after[i] == t[i] + patch))
    && (Select(t, p) != [] ==> exists i | 0 <= i < |t| :: p(t[i]) && after[i] == t[i] + patch)
  }

  lemma {:induction false} FirstIsPatched(t: Table, p: Row -> bool, patch: Row)
    ensures SomePatched(t, OnFirst(t, p, Patching(patch)), p, patch)
  {
    if t != [] {
      var rest, last := t[..|t| - 1], t[|t| - 1];
      assert t == rest + [last];
      FirstIsPatched(rest, p, patch);
      OnFirstSnoc(rest, last, p, Patching(patch));
      EachSnoc(rest, last, Hit(p));
      if Select(rest, p) != [] {
        PatchedBefore(rest, last, OnFirst(rest, p, Patching(patch)), p, patch);
      } else if p(last) {
        assert (rest + [last + patch])[|rest|] == t[|rest|] + patch;
      }
    }
  }

  lemma PatchedBefore(rest: Table, last: Row, after: Table, p: Row -> bool, patch: Row)
    requires SomePatched(rest, after, p, patch) && Select(rest, p) != []
    ensures SomePatched(rest + [last], after + [last], p, patch)
  {
    var t := rest + [last];
    var i :| 0 <= i < |rest| && p(rest[i]) && after[i] == rest[i] + patch;
    assert p(t[i]) && (after + [last])[i] == t[i] + patch;
  }

  lemma AllArePatched(t: Table, p: Row -> bool, patch: Row)
    ensures SomePatched(t, Each(t, OnHits(p, Patching(patch))), p, patch)
  {
    PatchRowByRow(t, p, patch);
    SelectIsEmptyIff(t, p);
  }

  lemma TenantsKeptIff(t: Table, after: Table, p: Row -> bool, patch: Row, tenant: string)
    requires SomePatched(t, after, p, patch)
    requires forall row :: p(row) ==> TenantOf(row) == Text(tenant)
    ensures (forall i | 0 <= i < |t| :: TenantOf(after[i]) == TenantOf(t[i])) <==>
            (TENANT in patch ==> patch[TENANT] == Text(tenant)) || Select(t, p) == []
  {
    if Select(t, p) == [] {
      SelectIsEmptyIff(t, p);
    } else {
      var i :| 0 <= i < |t| && p(t[i]) && after[i] == t[i] + patch;
      assert TENANT in patch ==> TenantOf(after[i]) == patch[TENANT];
    }
  }

  /** An update keeps every row with its tenant if and only if its data names no other tenant or
      nothing of the tenant matches: unlike for creation, `data` is not overwritten for updates. */
  lemma UpdatesKeepTenantsIff(t: Table, op: Operation, args: Args, tenant: string)
    requires IsUpdate(op)
    ensures var after := Execute(t, op, Rewrite(op, args, tenant)).0;
            && |after| == |t|
            && ((forall i | 0 <= i < |t| :: TenantOf(after[i]) == TenantOf(t[i])) <==>
                KeepsTenant(op, args, tenant) || Select(Slice(t, tenant), Matching(Unscoped(WhereOf(args)))) == [])
  {
    var w, patch := WhereOf(args), Patch(args.data);
    var p := Matching(ScopeWhere(w, tenant));
    ScopedMatching(w, tenant);
    SelectMeansSlice(t, p, Matching(Unscoped(w)), tenant);
    FirstIsPatched(t, p, patch);
    AllArePatched(t, p, patch);
    TenantsKeptIff(t, Execute(t, op, Rewrite(op, args, tenant)).0, p, patch, tenant);
  }

  /** A concrete row that changes hands: its tenant's own update names another tenant. */
  lemma UpdateDataCanMoveARow(shape: seq<Row> -> seq<Row>)
    ensures var row := map[TENANT := Text("a")];
            var args := Args(None, One(map[TENANT := Text("b")]), map[], map[], shape);
            Execute([row], UpdateMany, Rewrite(UpdateMany, args, "a")).0 == [map[TENANT := Text("b")]]
  {
    var row, patch := map[TENANT := Text("a")], map[TENANT := Text("b")];
    ScopedHits(EVERYTHING, "a", row);
    assert Hits(Unscoped(EVERYTHING), row);
    EachOne(row, OnHits(Matching(ScopeWhere(EVERYTHING, "a")), Patching(patch)));
    assert row + patch == patch;
  }

  // ----- the meaning of a rewritten query, in full

  lemma {:induction false} PassIdle(t: Table, p: Row -> bool, f: Row -> Table)
    requires Select(t, p) == []
    ensures Each(t, OnHits(p, f)) == t
  {
    if t != [] {
      var rest, last := t[..|t| - 1], t[|t| - 1];
      assert t == rest + [last];
      EachSnoc(rest, last, Hit(p));
      EachSnoc(rest, last, OnHits(p, f));
      PassIdle(rest, p, f);
    }
  }

  /** No operation but a creation or an upsert does anything when nothing matches. */
  lemma IdleUpdate(t: Table, p: Row -> bool, q: Row -> bool, op: Operation, args: Args, tenant: string)
    requires Restricts(p, q, tenant) && IsUpdate(op) && Select(Slice(t, tenant), q) == []
    ensures Confined(t, Perform(t, p, op, args), Perform(Slice(t, tenant), q, op, args), tenant)
  {
    SelectMeansSlice(t, p, q, tenant);
    PassIdle(t, p, Patching(Patch(args.data)));
    PassIdle(Slice(t, tenant), q, Patching(Patch(args.data)));
  }

  lemma {:induction false} SliceRowsBelong(t: Table, tenant: string)
    ensures forall row | row in Slice(t, tenant) :: TenantOf(row) == Text(tenant)
  {
    if t != [] {
      SliceRowsBelong(t[..|t| - 1], tenant);
    }
  }

  /** An update that hits a row and names another tenant makes a row that is in no slice of its own tenant. */
  lemma MovedRowLeaves(t: Table, q: Row -> bool, op: Operation, args: Args, tenant: string)
    requires IsUpdate(op) && !KeepsTenant(op, args, tenant) && Select(t, q) != []
    ensures exists row | row in Perform(t, q, op, args).0 :: TenantOf(row) != Text(tenant)
  {
    var patch, after := Patch(args.data), Perform(t, q, op, args).0;
    FirstIsPatched(t, q, patch);
    AllArePatched(t, q, patch);
    var i :| 0 <= i < |t| && q(t[i]) && after[i] == t[i] + patch;
    assert after[i] in after && TenantOf(after[i]) == patch[TENANT];
  }

  lemma MovedRowEscapes(t: Table, full: (Table, Outcome), op: Operation, args: Args, tenant: string)
    requires IsUpdate(op) && !KeepsTenant(op, args, tenant)
    requires Select(Slice(t, tenant), Matching(Unscoped(WhereOf(args)))) != []
    ensures !Confined(t, full, Execute(Slice(t, tenant), op, Local(op, args, tenant)), tenant)
  {
    MovedRowLeaves(Slice(t, tenant), Matching(Unscoped(WhereOf(args))), op, Local(op, args, tenant), tenant);
    SliceRowsBelong(full.0, tenant);
  }

  /** Running the rewritten query on the whole table is running the query on the tenant's own slice
      (same result, same change there, every other slice untouched) exactly when it is no update that
      hits one of the tenant's rows and names another tenant in its data. */
  lemma ScopedQueryMeaning(t: Table, op: Operation, args: Args, tenant: string)
    ensures Confined(t, Execute(t, op, Rewrite(op, args, tenant)),
                     Execute(Slice(t, tenant), op, Local(op, args, tenant)), tenant)
            <==> KeepsTenant(op, args, tenant) || Select(Slice(t, tenant), Matching(Unscoped(WhereOf(args)))) == []
  {
    var w := WhereOf(args);
    if KeepsTenant(op, args, tenant) {
      KeepingTenantsConfines(t, op, args, tenant);
    } else if Select(Slice(t, tenant), Matching(Unscoped(w))) == [] {
      ScopedMatching(w, tenant);
      IdleUpdate(t, Matching(ScopeWhere(w, tenant)), Matching(Unscoped(w)), op, args, tenant);
    } else {
      MovedRowEscapes(t, Execute(t, op, Rewrite(op, args, tenant)), op, args, tenant);
    }
  }

  /** Whatever the extension lets through for a scoped model has a tenant, and is confined to it exactly
      when it moves no row away. */
  lemma InterceptedIsConfined(model: string, context: Option<string>, t: Table, op: Operation, args: Args)
    requires model in SCOPED_MODELS && Intercept(model, context, op, args).Ok?
    ensures context.Some? && context.value != ""
    ensures Confined(t, Execute(t, op, Intercept(model, context, op, args).value),
                     Execute(Slice(t, context.value), op, Local(op, args, context.value)), context.value)
            <==> || KeepsTenant(op, args, context.value)
                 || Select(Slice(t, context.value), Matching(Unscoped(WhereOf(args)))) == []
  {
    ScopedQueryMeaning(t, op, args, context.value);
  }
}
