/**
 * Whole runs of calls by many tenants on many models, each through the extension:
 * what one tenant sees does not depend on what the others do.
 */
module TenantRuns {
  import opened Wrappers
  import opened TenantScope

  /** One table per model; a model without a table has no rows. */
  type Db = map<string, Table>

  function TableOf(db: Db, model: string): Table {
    if model in db then db[model] else []
  }

  /** A call as the extension sees it; the context is the tenant of the request, if it has one. */
  datatype Call = Call(model: string, context: Option<string>, op: Operation, args: Args)

  datatype Reply = Refused | Done(outcome: Outcome)

  function On(db: Db, model: string, op: Operation, args: Args): (Db, Reply) {
    var (t, outcome) := Execute(TableOf(db, model), op, args);
    (db[model := t], Done(outcome))
  }

  /** One call on the shared database, through the extension. */
  function Step(db: Db, c: Call): (Db, Reply) {
    match Intercept(c.model, c.context, c.op, c.args)
    case Err(_) => (db, Refused)
    case Ok(args) => On(db, c.model, c.op, args)
  }

  /** The same call on a database with no other tenant in it and no extension in front. */
  function StepAlone(db: Db, c: Call): (Db, Reply) {
    if c.context.None? || c.context.value == "" then (db, Refused)
    else On(db, c.model, c.op, Local(c.op, c.args, c.context.value))
  }

  type Stepper = (Db, Call) -> (Db, Reply)

  function Scoped(): Stepper {
    (db: Db, c: Call) => Step(db, c)
  }

  function Alone(): Stepper {
    (db: Db, c: Call) => StepAlone(db, c)
  }

  function Run(step: Stepper, db: Db, calls: seq<Call>): Db {
    if calls == [] then db else step(Run(step, db, calls[..|calls| - 1]), calls[|calls| - 1]).0
  }

  /** A tenant's own calls on scoped models. */
  predicate IsOwn(c: Call, tenant: string) {
    c.model in SCOPED_MODELS && c.context == Some(tenant)
  }

  /** The replies to one tenant's own calls during a run. */
  function RepliesTo(step: Stepper, db: Db, calls: seq<Call>, tenant: string): seq<Reply> {
    if calls == [] then []
    else
      var rest, last := calls[..|calls| - 1], calls[|calls| - 1];
      if IsOwn(last, tenant) then RepliesTo(step, db, rest, tenant) + [step(Run(step, db, rest), last).1]
      else RepliesTo(step, db, rest, tenant)
  }

  function CallsOf(calls: seq<Call>, tenant: string): seq<Call> {
    if calls == [] then []
    else
      var rest, last := calls[..|calls| - 1], calls[|calls| - 1];
      if IsOwn(last, tenant) then CallsOf(rest, tenant) + [last] else CallsOf(rest, tenant)
  }

  /** The tenant's rows in every scoped table. */
  function Share(db: Db, tenant: string): Db {
    map model | model in SCOPED_MODELS :: Slice(TableOf(db, model), tenant)
  }

  /** The call is no update of a scoped model whose data names another tenant. */
  predicate Harmless(c: Call) {
    c.model in SCOPED_MODELS && c.context.Some? ==> KeepsTenant(c.op, c.args, c.context.value)
  }

  /** On its tenant's share the call is its local form; it changes no other share. */
  ghost predicate IsolatesOn(step: Stepper, local: Stepper, c: Call, db: Db, tenant: string) {
    && (!IsOwn(c, tenant) ==> Share(step(db, c).0, tenant) == Share(db, tenant))
    && (IsOwn(c, tenant) ==> Share(step(db, c).0, tenant) == local(Share(db, tenant), c).0)
    && (IsOwn(c, tenant) ==> step(db, c).1 == local(Share(db, tenant), c).1)
  }

  ghost predicate Isolates(step: Stepper, local: Stepper, c: Call) {
    forall db, tenant :: IsolatesOn(step, local, c, db, tenant)
  }

  /** Replacing one scoped table replaces its slice in every share. */
  lemma ShareOfUpdate(db: Db, model: string, t: Table, tenant: string)
    ensures Share(db[model := t], tenant) ==
            if model in SCOPED_MODELS then Share(db, tenant)[model := Slice(t, tenant)] else Share(db, tenant)
  {
  }

  lemma CallIsolatesOn(c: Call, db: Db, tenant: string)
    requires Harmless(c)
    ensures IsolatesOn(Scoped(), Alone(), c, db, tenant)
  {
    var intercepted := Intercept(c.model, c.context, c.op, c.args);
    if intercepted.Ok? {
      var t := TableOf(db, c.model);
      ShareOfUpdate(db, c.model, Execute(t, c.op, intercepted.value).0, tenant);
      if c.model in SCOPED_MODELS {
        ScopedQueryMeaning(t, c.op, c.args, c.context.value);
        assert TableOf(Share(db, tenant), c.model) == Slice(t, tenant);
      }
    }
  }

  lemma CallIsolates(c: Call)
    requires Harmless(c)
    ensures Isolates(Scoped(), Alone(), c)
  {
    forall db, tenant ensures IsolatesOn(Scoped(), Alone(), c, db, tenant) {
      CallIsolatesOn(c, db, tenant);
    }
  }

  lemma RunSnoc(step: Stepper, db: Db, calls: seq<Call>, last: Call, tenant: string)
    ensures Run(step, db, calls + [last]) == step(Run(step, db, calls), last).0
    ensures RepliesTo(step, db, calls + [last], tenant) ==
            if IsOwn(last, tenant) then RepliesTo(step, db, calls, tenant) + [step(Run(step, db, calls), last).1]
            else RepliesTo(step, db, calls, tenant)
  {
    assert (calls + [last])[..|calls|] == calls;
  }

  /** One tenant's share and replies under `calls` are those of `own` run on the share alone. */
  ghost predicate RunsAlone(step: Stepper, local: Stepper, db: Db, calls: seq<Call>, own: seq<Call>, tenant: string) {
    && Share(Run(step, db, calls), tenant) == Run(local, Share(db, tenant), own)
    && RepliesTo(step, db, calls, tenant) == RepliesTo(local, Share(db, tenant), own, tenant)
  }

  lemma OwnCall(step: Stepper, local: Stepper, db: Db, calls: seq<Call>, own: seq<Call>, last: Call, tenant: string)
    requires Isolates(step, local, last) && IsOwn(last, tenant) && RunsAlone(step, local, db, calls, own, tenant)
    ensures RunsAlone(step, local, db, calls + [last], own + [last], tenant)
  {
    RunSnoc(step, db, calls, last, tenant);
    RunSnoc(local, Share(db, tenant), own, last, tenant);
    assert IsolatesOn(step, local, last, Run(step, db, calls), tenant);
  }

  lemma OtherCall(step: Stepper, local: Stepper, db: Db, calls: seq<Call>, own: seq<Call>, last: Call, tenant: string)
    requires Isolates(step, local, last) && !IsOwn(last, tenant) && RunsAlone(step, local, db, calls, own, tenant)
    ensures RunsAlone(step, local, db, calls + [last], own, tenant)
  {
    RunSnoc(step, db, calls, last, tenant);
    assert IsolatesOn(step, local, last, Run(step, db, calls), tenant);
  }

  lemma {:induction false} IsolationComposes(step: Stepper, local: Stepper, db: Db, calls: seq<Call>, tenant: string)
    requires forall i | 0 <= i < |calls| :: Isolates(step, local, calls[i])
    ensures RunsAlone(step, local, db, calls, CallsOf(calls, tenant), tenant)
  {
    if calls != [] {
      var rest, last := calls[..|calls| - 1], calls[|calls| - 1];
      assert calls == rest + [last];
      IsolationComposes(step, local, db, rest, tenant);
      if IsOwn(last, tenant) {
        OwnCall(step, local, db, rest, CallsOf(rest, tenant), last, tenant);
      } else {
        OtherCall(step, local, db, rest, CallsOf(rest, tenant), last, tenant);
      }
    }
  }

  /** In any interleaving of calls by many tenants on many models, refused ones and unscoped ones
      included, one tenant's rows and replies are those of its own calls on a database that holds
      nothing but its own rows. */
  lemma TenantRunsAlone(db: Db, calls: seq<Call>, tenant: string)
    requires forall i | 0 <= i < |calls| :: Harmless(calls[i])
    ensures Share(Run(Scoped(), db, calls), tenant) == Run(Alone(), Share(db, tenant), CallsOf(calls, tenant))
    ensures RepliesTo(Scoped(), db, calls, tenant)
            == RepliesTo(Alone(), Share(db, tenant), CallsOf(calls, tenant), tenant)
  {
    forall i | 0 <= i < |calls| ensures Isolates(Scoped(), Alone(), calls[i]) {
      CallIsolates(calls[i]);
    }
    IsolationComposes(Scoped(), Alone(), db, calls, tenant);
  }

  lemma {:induction false} CallsOfTwice(calls: seq<Call>, tenant: string)
    ensures CallsOf(CallsOf(calls, tenant), tenant) == CallsOf(calls, tenant)
    ensures forall c | c in CallsOf(calls, tenant) :: c in calls
  {
    if calls != [] {
      var rest, last := calls[..|calls| - 1], calls[|calls| - 1];
      CallsOfTwice(rest, tenant);
      var own := CallsOf(rest, tenant);
      assert (own + [last])[..|own|] == own;
      assert forall c | c in rest :: c in calls;
    }
  }

  /** Deleting from a run every other tenant's calls, all refused ones of theirs, and all calls on unscoped
      models changes nothing one tenant can see of the scoped models. */
  lemma NonInterference(db: Db, calls: seq<Call>, tenant: string)
    requires forall c | c in calls :: Harmless(c)
    ensures Share(Run(Scoped(), db, calls), tenant) == Share(Run(Scoped(), db, CallsOf(calls, tenant)), tenant)
    ensures RepliesTo(Scoped(), db, calls, tenant) == RepliesTo(Scoped(), db, CallsOf(calls, tenant), tenant)
  {
    CallsOfTwice(calls, tenant);
    TenantRunsAlone(db, calls, tenant);
    TenantRunsAlone(db, CallsOf(calls, tenant), tenant);
  }

  /** One call that is not harmless is enough: tenant "b" gets a lead it never had. */
  lemma MovedRowInterferes(shape: seq<Row> -> seq<Row>)
    ensures var args := Args(None, One(map[TENANT := Text("b")]), map[], map[], shape);
            var calls := [Call("Lead", Some("a"), UpdateMany, args)];
            var db: Db := map["Lead" := [map[TENANT := Text("a")]]];
            && TableOf(Share(Run(Scoped(), db, calls), "b"), "Lead") == [map[TENANT := Text("b")]]
            && TableOf(Share(Run(Scoped(), db, CallsOf(calls, "b")), "b"), "Lead") == []
  {
    var args := Args(None, One(map[TENANT := Text("b")]), map[], map[], shape);
    var call := Call("Lead", Some("a"), UpdateMany, args);
    var db: Db := map["Lead" := [map[TENANT := Text("a")]]];
    UpdateDataCanMoveARow(shape);
    assert [call][..0] == [];
    EachOne(map[TENANT := Text("a")], Own("b"));
    EachOne(map[TENANT := Text("b")], Own("b"));
  }

  // ----- unscoped models

  /** A plain client on one table: every call is executed just as it was made. */
  function Directly(t: Table, calls: seq<Call>): Table {
    if calls == [] then t
    else
      var last := calls[|calls| - 1];
      Execute(Directly(t, calls[..|calls| - 1]), last.op, last.args).0
  }

  function DirectReplies(t: Table, calls: seq<Call>): seq<Reply> {
    if calls == [] then []
    else
      var rest, last := calls[..|calls| - 1], calls[|calls| - 1];
      DirectReplies(t, rest) + [Done(Execute(Directly(t, rest), last.op, last.args).1)]
  }

  function CallsOn(calls: seq<Call>, model: string): seq<Call> {
    if calls == [] then []
    else
      var rest, last := calls[..|calls| - 1], calls[|calls| - 1];
      if last.model == model then CallsOn(rest, model) + [last] else CallsOn(rest, model)
  }

  function RepliesOn(db: Db, calls: seq<Call>, model: string): seq<Reply> {
    if calls == [] then []
    else
      var rest, last := calls[..|calls| - 1], calls[|calls| - 1];
      if last.model == model then RepliesOn(db, rest, model) + [Step(Run(Scoped(), db, rest), last).1]
      else RepliesOn(db, rest, model)
  }

  /** For a model without a tenant column the extension does not exist, whoever calls and with or without
      a tenant: in every run its table and the replies on it are those of a plain client. */
  lemma {:induction false} UnscopedModelsAreUntouched(db: Db, calls: seq<Call>, model: string)
    requires model !in SCOPED_MODELS
    ensures TableOf(Run(Scoped(), db, calls), model) == Directly(TableOf(db, model), CallsOn(calls, model))
    ensures RepliesOn(db, calls, model) == DirectReplies(TableOf(db, model), CallsOn(calls, model))
  {
    if calls != [] {
      var rest, last := calls[..|calls| - 1], calls[|calls| - 1];
      UnscopedModelsAreUntouched(db, rest, model);
      var before := CallsOn(rest, model);
      if last.model == model {
        assert (before + [last])[..|before|] == before;
      }
    }
  }
}
