/** Planning row security for tables that carry a discriminator column and have no policies yet. */
module Generate {
  import opened Prelude
  import opened Predicate
  import opened Cells
  import opened Privileges
  import opened CellFor
  import Quoting

  /** A table as introspected: its access control, its columns, and the types captured for them. */
  datatype Source = Source(table: Table, columns: seq<string>, types: map<string, string>, partition: bool)

  datatype Convention = AppGuc | Postgrest | Supabase

  /** `owner` scopes rows to the current user rather than to a tenant; `setting` overrides the convention's own. */
  datatype Options = Options(
    column: string, explicit: map<string, string>, role: string, restrictive: bool, owner: bool,
    convention: Convention, setting: Option<string>, authFunction: string, strict: bool)

  datatype Statement =
    | CreateFunction(fn: string)
    | EnableRls(table: string)
    | ForceRls(table: string)
    | CreatePolicy(table: string, policy: Policy)
    | CreateIndex(table: string, column: string)

  datatype Reason = IsPartition | ColumnMissing | HasPolicies | TypeMissing

  datatype Plan = Plan(statements: seq<Statement>, skipped: seq<(string, Reason)>)

  const TEXT_TYPES := {"text", "character varying", "varchar", "citext", "name"}

  function Label(o: Options): string {
    if o.owner then "owner" else "tenant"
  }

  function BindingFunction(o: Options): string {
    "pgrls_require_" + Label(o)
  }

  /** The session setting the predicate reads for a column. */
  function ResolvedSetting(o: Options, column: string): string {
    if Given(o.setting) then o.setting.value
    else if o.convention == Postgrest then "request.jwt.claim." + (if o.owner then "sub" else column)
    else "app." + column
  }

  /** Settings are text, so a column of another type is compared with a cast. */
  function CastTo(coltype: string, value: Expr): Expr {
    if coltype == "" || Quoting.Lower(coltype) in TEXT_TYPES then value else Call("::" + coltype, false, [value])
  }

  /** `column = (SELECT <session value>)`. */
  function SessionPredicate(column: string, coltype: string, o: Options): Expr {
    var setting := Call(ResolvedSetting(o, column), false, []);
    var value :=
      if o.strict then CastTo(coltype, Call(BindingFunction(o), true, [setting]))
      else if o.convention == Supabase then Call(o.authFunction, o.authFunction != "auth.uid", [])
      else CastTo(coltype, Call("current_setting", false, [setting]));
    Oper("=", false, [Column(column), SubSelect([], value)])
  }

  function Isolation(t: string, pred: Expr, o: Options): Policy {
    Policy(t + "_" + Label(o) + "_isolation", None, true, {o.role}, Some(pred), Some(pred))
  }

  function Floor(t: string, pred: Expr, o: Options): Policy {
    Policy(t + "_" + Label(o) + "_floor", None, false, {o.role}, Some(pred), Some(pred))
  }

  function StatementsFor(s: Source, column: string, coltype: string, o: Options): seq<Statement> {
    var t, pred := s.table.name, SessionPredicate(column, coltype, o);
    (if s.table.rlsEnabled then [] else [EnableRls(t)])
    + (if s.table.forceRls then [] else [ForceRls(t)])
    + [CreatePolicy(t, Isolation(t, pred, o))]
    + (if o.restrictive then [CreatePolicy(t, Floor(t, pred, o))] else [])
    + [CreateIndex(t, column)]
  }

  /** The discriminator of a table the plan considers, if it considers it. */
  function Target(s: Source, o: Options): Option<string> {
    if s.table.name in o.explicit then Some(o.explicit[s.table.name])
    else if o.column in s.columns then Some(o.column)
    else None
  }

  /** Why a considered table is passed over, if it is. */
  function Refused(s: Source, column: string): Option<Reason> {
    if s.partition then Some(IsPartition)
    else if column !in s.columns then Some(ColumnMissing)
    else if s.table.policies != [] then Some(HasPolicies)
    else if column !in s.types then Some(TypeMissing)
    else None
  }

  predicate Generates(s: Source, o: Options) {
    Target(s, o).Some? && Refused(s, Target(s, o).value).None?
  }

  /** What one table contributes: its statements, or the reason it is passed over. */
  function PlanTable(s: Source, o: Options): Plan {
    var column := Target(s, o);
    if column.None? then Plan([], [])
    else
      var reason := Refused(s, column.value);
      if reason.Some? then Plan([], [(s.table.name, reason.value)])
      else Plan(StatementsFor(s, column.value, s.types[column.value], o), [])
  }

  function Append(a: Plan, b: Plan): Plan {
    Plan(a.statements + b.statements, a.skipped + b.skipped)
  }

  function PlanTables(sources: seq<Source>, o: Options): Plan {
    if sources == [] then Plan([], []) else Append(PlanTable(sources[0], o), PlanTables(sources[1..], o))
  }

  function PlanGeneration(sources: seq<Source>, o: Options): Plan {
    var p := PlanTables(sources, o);
    if o.strict && p.statements != [] then p.(statements := [CreateFunction(BindingFunction(o))] + p.statements) else p
  }

  lemma AppendAssociative(a: Plan, b: Plan, c: Plan)
    ensures Append(Append(a, b), c) == Append(a, Append(b, c))
  {}

  lemma {:induction false} PlanAppends(done: seq<Source>, s: Source, o: Options)
    ensures PlanTables(done + [s], o) == Append(PlanTables(done, o), PlanTable(s, o))
  {
    if done == [] {
      assert done + [s] == [s] && [s][1..] == [];
      assert Append(PlanTable(s, o), Plan([], [])) == PlanTable(s, o) == Append(Plan([], []), PlanTable(s, o));
    } else {
      assert (done + [s])[1..] == done[1..] + [s];
      PlanAppends(done[1..], s, o);
      AppendAssociative(PlanTable(done[0], o), PlanTables(done[1..], o), PlanTable(s, o));
    }
  }

  /** The planner's loop. */
  method MakePlan(sources: seq<Source>, o: Options) returns (plan: Plan)
    ensures plan == PlanGeneration(sources, o)
  {
    var statements: seq<Statement>, skipped: seq<(string, Reason)> := [], [];
    for i := 0 to |sources|
      invariant Plan(statements, skipped) == PlanTables(sources[..i], o)
    {
      var s := sources[i];
      PlanAppends(sources[..i], s, o);
      assert sources[..i + 1] == sources[..i] + [s];
      var column := Target(s, o);
      if column.None? {
        continue;
      }
      var reason := Refused(s, column.value);
      if reason.Some? {
        skipped := skipped + [(s.table.name, reason.value)];
        continue;
      }
      statements := statements + StatementsFor(s, column.value, s.types[column.value], o);
    }
    assert sources[..|sources|] == sources;
    if o.strict && statements != [] {
      statements := [CreateFunction(BindingFunction(o))] + statements;
    }
    plan := Plan(statements, skipped);
  }

  // --- applying a plan ---

  function ApplyOne(t: Table, st: Statement): Table {
    match st
    case EnableRls(n) => if n == t.name then t.(rlsEnabled := true) else t
    case ForceRls(n) => if n == t.name then t.(forceRls := true) else t
    case CreatePolicy(n, p) => if n == t.name then t.(policies := t.policies + [p]) else t
    case _ => t
  }

  function ApplyAll(t: Table, sts: seq<Statement>): Table
    decreases |sts|
  {
    if sts == [] then t else ApplyAll(ApplyOne(t, sts[0]), sts[1..])
  }

  function Applied(s: Source, p: Plan): Source {
    s.(table := ApplyAll(s.table, p.statements))
  }

  lemma {:induction false} ApplyConcat(t: Table, a: seq<Statement>, b: seq<Statement>)
    ensures ApplyAll(t, a + b) == ApplyAll(ApplyAll(t, a), b)
    decreases |a|
  {
    if a == [] { assert a + b == b; }
    else {
      assert (a + b)[1..] == a[1..] + b;
      ApplyConcat(ApplyOne(t, a[0]), a[1..], b);
    }
  }

  predicate ForTable(st: Statement, n: string) {
    match st
    case CreateFunction(_) => false
    case _ => st.table == n
  }

  lemma {:induction false} ApplyOthers(t: Table, sts: seq<Statement>)
    requires forall st :: st in sts ==> !ForTable(st, t.name)
    ensures ApplyAll(t, sts) == t
    decreases |sts|
  {
    if sts != [] {
      assert sts[0] in sts;
      ApplyOthers(t, sts[1..]);
    }
  }

  predicate DistinctTables(sources: seq<Source>) {
    forall i, j :: 0 <= i < j < |sources| ==> sources[i].table.name != sources[j].table.name
  }

  /** What applying a plan makes of a table it generates for. */
  function Secured(s: Source, o: Options): Table
    requires Generates(s, o)
  {
    var column := Target(s, o).value;
    var pred := SessionPredicate(column, s.types[column], o);
    s.table.(rlsEnabled := true, forceRls := true,
             policies := [Isolation(s.table.name, pred, o)] + if o.restrictive then [Floor(s.table.name, pred, o)]
                 else [])
  }

  lemma ApplyWhen(t: Table, wanted: bool, st: Statement)
    ensures ApplyAll(t, if wanted then [st] else []) == if wanted then ApplyOne(t, st) else t
  {
    assert [st][1..] == [];
  }

  lemma OwnStatements(s: Source, o: Options)
    requires Generates(s, o)
    ensures var column := Target(s, o).value;
            ApplyAll(s.table, StatementsFor(s, column, s.types[column], o)) == Secured(s, o)
  {
    var column := Target(s, o).value;
    var t, pred := s.table.name, SessionPredicate(column, s.types[column], o);
    var enable := if !s.table.rlsEnabled then [EnableRls(t)] else [];
    var force := if !s.table.forceRls then [ForceRls(t)] else [];
    var isolate := CreatePolicy(t, Isolation(t, pred, o));
    var floor := if o.restrictive then [CreatePolicy(t, Floor(t, pred, o))] else [];
    var t0 := s.table;
    ApplyConcat(t0, enable + force + [isolate] + floor, [CreateIndex(t, column)]);
    ApplyConcat(t0, enable + force + [isolate], floor);
    ApplyConcat(t0, enable + force, [isolate]);
    ApplyConcat(t0, enable, force);
    ApplyWhen(t0, !t0.rlsEnabled, EnableRls(t));
    ApplyWhen(ApplyAll(t0, enable), !t0.forceRls, ForceRls(t));
    ApplyWhen(ApplyAll(t0, enable + force), true, isolate);
    ApplyWhen(ApplyAll(t0, enable + force + [isolate]), o.restrictive, CreatePolicy(t, Floor(t, pred, o)));
    ApplyWhen(ApplyAll(t0, enable + force + [isolate] + floor), true, CreateIndex(t, column));
  }

  lemma {:induction false} StatementsNameTables(sources: seq<Source>, o: Options, st: Statement)
    requires st in PlanTables(sources, o).statements
    ensures exists s :: s in sources && ForTable(st, s.table.name)
  {
    if sources != [] {
      var s := sources[0];
      if st in PlanTables(sources[1..], o).statements {
        StatementsNameTables(sources[1..], o, st);
        var u :| u in sources[1..] && ForTable(st, u.table.name);
        assert u in sources;
      } else {
        assert s in sources && ForTable(st, s.table.name);
      }
    }
  }

  lemma {:induction false} ApplyPlan(sources: seq<Source>, o: Options, s: Source)
    requires DistinctTables(sources) && s in sources
    ensures ApplyAll(s.table, PlanTables(sources, o).statements) == if Generates(s, o) then Secured(s, o) else s.table
  {
    var first, rest := sources[0], PlanTables(sources[1..], o).statements;
    var own := if Generates(first, o) then StatementsFor(first, Target(first, o).value,
        first.types[Target(first, o).value], o) else [];
    assert PlanTables(sources, o).statements == own + rest;
    ApplyConcat(s.table, own, rest);
    if s == first {
      forall st | st in rest ensures !ForTable(st, s.table.name) {
        StatementsNameTables(sources[1..], o, st);
        var u :| u in sources[1..] && ForTable(st, u.table.name);
        var j :| 0 <= j < |sources[1..]| && sources[1..][j] == u;
        assert sources[j + 1] == u;
      }
      if Generates(s, o) {
        OwnStatements(s, o);
        ApplyOthers(Secured(s, o), rest);
      } else {
        ApplyOthers(s.table, rest);
      }
    } else {
      var j :| 0 <= j < |sources| && sources[j] == s;
      assert sources[1..][j - 1] == s;
      assert first.table.name != s.table.name;
      ApplyOthers(s.table, own);
      ApplyPlan(sources[1..], o, s);
    }
  }

  lemma AppliedSource(sources: seq<Source>, o: Options, s: Source)
    requires DistinctTables(sources) && s in sources
    ensures Applied(s, PlanGeneration(sources, o)) == s.(table := if Generates(s, o) then Secured(s, o) else s.table)
  {
    ApplyPlan(sources, o, s);
    var p := PlanTables(sources, o);
    if o.strict && p.statements != [] {
      var fn := [CreateFunction(BindingFunction(o))];
      ApplyConcat(s.table, fn, p.statements);
      assert fn[1..] == [] && ApplyAll(s.table, fn) == s.table;
    }
  }

  /** Planning again after the plan is applied yields no statements. */
  lemma PlanIsIdempotent(sources: seq<Source>, o: Options)
    requires DistinctTables(sources)
    ensures var p := PlanGeneration(sources, o);
            PlanGeneration(seq(|sources|, i requires 0 <= i < |sources| => Applied(sources[i], p)), o).statements == []
  {
    var p := PlanGeneration(sources, o);
    var after := seq(|sources|, i requires 0 <= i < |sources| => Applied(sources[i], p));
    forall i | 0 <= i < |after| ensures !Generates(after[i], o) {
      AppliedSource(sources, o, sources[i]);
    }
    NothingGenerates(after, o);
  }

  lemma {:induction false} NothingGenerates(sources: seq<Source>, o: Options)
    requires forall i :: 0 <= i < |sources| ==> !Generates(sources[i], o)
    ensures PlanTables(sources, o).statements == []
  {
    if sources != [] { NothingGenerates(sources[1..], o); }
  }

  // --- what the generated row security achieves ---

  lemma NeverLiterallyOpen(column: string, coltype: string, o: Options)
    ensures !ClauseIsOpen(SessionPredicate(column, coltype, o))
  {
    var pred := SessionPredicate(column, coltype, o);
    assert FlattenOr(pred) == [pred];
  }

  function Chosen(p: Policy, all: seq<Policy>, c: Command, session: Session, permissive: bool,
                  verdict: Option<bool>): seq<Policy>
    requires p in all
  {
    if p.permissive == permissive && VerdictByName(all, p.name, c, session) == verdict then [p] else []
  }

  lemma VerdictsOfFew(ps: seq<Policy>, all: seq<Policy>, c: Command, session: Session, permissive: bool,
                      verdict: Option<bool>)
    requires forall p :: p in ps ==> p in all
    ensures |ps| == 1 ==>
              WithVerdict(ps, all, c, session, permissive, verdict)
              == Chosen(ps[0], all, c, session, permissive, verdict)
    ensures |ps| == 2 ==>
              WithVerdict(ps, all, c, session, permissive, verdict)
              == Chosen(ps[0], all, c, session, permissive, verdict)
                 + Chosen(ps[1], all, c, session, permissive, verdict)
  {
    assert WithVerdict([], all, c, session, permissive, verdict) == [];
    if |ps| == 2 { VerdictsOfFew(ps[1..], all, c, session, permissive, verdict); }
  }

  lemma ClausesOfOne(p: Policy, c: Command, e: Expr)
    requires EffectiveClause(p, c) == Some(e)
    ensures Clauses([p], c) == [e] && Clauses([], c) == []
  {
    assert [p][1..] == [];
  }

  /** A FOR ALL policy to one role with one clause both ways. */
  predicate Uniform(p: Policy, permissive: bool, role: string, pred: Expr) {
    p.command.None? && p.permissive == permissive && p.roles == {role} && p.using == Some(pred) && p.check == Some(pred)
  }

  lemma UniformVerdicts(ps: seq<Policy>, p: Policy, permissive: bool, role: string, pred: Expr, c: Command,
                        session: Session)
    requires UniqueNames(ps) && p in ps && Uniform(p, permissive, role, pred)
    ensures VerdictByName(ps, p.name, c, session) ==
            if role in session.appliesTo then Some(true) else if session.complete then Some(false) else None
    ensures Clauses([p], c) == [pred] && Clauses([], c) == []
  {
    NamedVerdict(ps, p, c, session);
    assert {role} * session.appliesTo == if role in session.appliesTo then {role} else {};
    ClausesOfOne(p, c, pred);
  }

  /** Which of the two policies carry a given verdict. */
  lemma PickUniform(ps: seq<Policy>, iso: Policy, floor: Policy, both: bool, c: Command, session: Session,
                    permissive: bool, verdict: Option<bool>, common: Option<bool>)
    requires iso.permissive && !floor.permissive && ps == if both then [iso, floor] else [iso]
    requires VerdictByName(ps, iso.name, c, session) == common
    requires both ==> VerdictByName(ps, floor.name, c, session) == common
    ensures WithVerdict(ps, ps, c, session, permissive, verdict) ==
            if common != verdict then [] else if permissive then [iso] else if both then [floor] else []
  {
    VerdictsOfFew(ps, ps, c, session, permissive, verdict);
  }

  lemma UniformClauses(t: Table, iso: Policy, floor: Policy, both: bool, role: string, pred: Expr, c: Command,
                       session: Session)
    requires Uniform(iso, true, role, pred) && Uniform(floor, false, role, pred) && iso.name != floor.name
    requires t.policies == if both then [iso, floor] else [iso]
    ensures UnknownPermissive(t, c, session) == if role in session.appliesTo || session.complete then [] else [iso]
    ensures Applicable(t, c, session, true) == if role in session.appliesTo then [iso] else []
    ensures role in session.appliesTo ==>
              && Clauses(Applicable(t, c, session, true), c) == [pred]
              && Clauses(Applicable(t, c, session, false), c) == if both then [pred] else []
  {
    var ps := t.policies;
    var common := if role in session.appliesTo then Some(true) else if session.complete then Some(false) else None;
    assert ps[0] == iso;
    UniformVerdicts(ps, iso, true, role, pred, c, session);
    if both {
      assert ps[1] == floor;
      UniformVerdicts(ps, floor, false, role, pred, c, session);
    }
    PickUniform(ps, iso, floor, both, c, session, true, Some(true), common);
    PickUniform(ps, iso, floor, both, c, session, false, Some(true), common);
    PickUniform(ps, iso, floor, both, c, session, true, None, common);
  }

  lemma DistinctNames(t: string, tag: string)
    ensures t + "_" + tag + "_isolation" != t + "_" + tag + "_floor"
  {
    var a, b := t + "_" + tag + "_isolation", t + "_" + tag + "_floor";
    assert |a| == |t| + 1 + |tag| + 10 && |b| == |t| + 1 + |tag| + 6;
  }

  /** Two policies' worth of clauses that are not literally true assemble to a filter that is their predicate. */
  lemma AssembledPredicate(pred: Expr, both: bool, w: World, user: string, reader: string)
    requires !ClauseIsOpen(pred)
    ensures var cell := Assemble(true, false, [pred], if both then [pred] else []);
            && cell.verdict == Conditional && cell.filter.Some?
            && (Predicate.Passes(cell.filter.value, w, user, reader) <==> Predicate.Passes(pred, w, user, reader))
  {
    AssembledFilter([pred], if both then [pred] else [], w, user, reader);
  }

  /** A FORCE'd table leaves no branch open to a plain role: it is the policies that decide. */
  lemma ForcedTableDecides(t: Table, c: Command, session: Session)
    requires t.rlsEnabled && t.forceRls && c != Truncate && !session.role.superuser && !session.role.bypassrls
    ensures var cell := CellFor.CellFor(t, c, session, None).cell;
            if PrivilegePaths(session, t.acl, c) != {} then cell == PolicyCell(t, c, session)
            else cell == Plain(if PrivilegeKnown(session, t.acl, c) then Denied else Undecided, cell.note)
  {}

  /** The verdict on a generated table, by what is known of the session. */
  function Isolated(t: Table, c: Command, session: Session, role: string): Verdict {
    if PrivilegePaths(session, t.acl, c) == {} then if PrivilegeKnown(session, t.acl, c) then Denied else Undecided
    else if role in session.appliesTo then Conditional
    else if session.complete then Denied
    else Undecided
  }

  lemma UniformAssembles(t: Table, iso: Policy, floor: Policy, both: bool, role: string, pred: Expr, c: Command,
                         session: Session)
    requires Uniform(iso, true, role, pred) && Uniform(floor, false, role, pred) && iso.name != floor.name
    requires t.policies == if both then [iso, floor] else [iso]
    ensures var cell := PolicyCell(t, c, session);
            if role in session.appliesTo then cell == Assemble(true, false, [pred], if both then [pred] else [])
            else cell.verdict == if session.complete then Denied else Undecided
  {
    UniformClauses(t, iso, floor, both, role, pred, c, session);
    var some, unknown := Applicable(t, c, session, true), UnknownPermissive(t, c, session);
    AssembledFrom(some != [], unknown != [], Clauses(some, c), Clauses(Applicable(t, c, session, false), c), pred, both);
  }

  lemma AssembledFrom(some: bool, unknown: bool, perm: seq<Expr>, restr: seq<Expr>, pred: Expr, both: bool)
    requires some ==> !unknown && perm == [pred] && restr == if both then [pred] else []
    ensures var cell := Assemble(some, unknown, perm, restr);
            if some then cell == Assemble(true, false, [pred], if both then [pred] else [])
            else cell.verdict == if unknown then Undecided else Denied
  {}

  /** What two such policies, or the first alone, assemble to. */
  lemma UniformCell(t: Table, iso: Policy, floor: Policy, both: bool, role: string, pred: Expr, c: Command,
                    session: Session, w: World, user: string, reader: string)
    requires Uniform(iso, true, role, pred) && Uniform(floor, false, role, pred) && iso.name != floor.name
    requires t.policies == (if both then [iso, floor] else [iso]) && !ClauseIsOpen(pred)
    ensures var cell := PolicyCell(t, c, session);
            && cell.verdict == (if role in session.appliesTo then Conditional
                                else if session.complete then Denied else Undecided)
            && (cell.verdict == Conditional ==>
                  && cell.filter.Some?
                  && (Predicate.Passes(cell.filter.value, w, user, reader) <==>
                      Predicate.Passes(pred, w, user, reader)))
  {
    UniformAssembles(t, iso, floor, both, role, pred, c, session);
    if role in session.appliesTo { AssembledPredicate(pred, both, w, user, reader); }
  }

  /**
    On every table generated for, no row command is ever open for a role that is neither a
    superuser nor BYPASSRLS, the owner included and the membership graph captured or not. It is
    conditional on exactly the session predicate when the session is seen to hold the privilege
    and the policies' role, undecided only when the missing graph might yet give it one of them,
    and denied otherwise.
   */
  lemma GeneratedIsolates(sources: seq<Source>, o: Options, s: Source, c: Command, session: Session,
                          w: World, user: string, reader: string)
    requires DistinctTables(sources) && s in sources && Generates(s, o) && c != Truncate
    requires !session.role.superuser && !session.role.bypassrls
    ensures var t := Applied(s, PlanGeneration(sources, o)).table;
            var pred := SessionPredicate(Target(s, o).value, s.types[Target(s, o).value], o);
            var cell := CellFor.CellFor(t, c, session, None).cell;
            && cell.verdict == Isolated(t, c, session, o.role) && cell.verdict != Verdict.Open
            && (cell.verdict == Conditional ==>
                  && cell.filter.Some?
                  && (Predicate.Passes(cell.filter.value, w, user, reader) <==>
                      Predicate.Passes(pred, w, user, reader)))
  {
    AppliedSource(sources, o, s);
    var t := Secured(s, o);
    var pred := SessionPredicate(Target(s, o).value, s.types[Target(s, o).value], o);
    DistinctNames(s.table.name, Label(o));
    NeverLiterallyOpen(Target(s, o).value, s.types[Target(s, o).value], o);
    UniformCell(t, Isolation(s.table.name, pred, o), Floor(s.table.name, pred, o), o.restrictive, o.role, pred, c,
        session, w, user, reader);
    ForcedTableDecides(t, c, session);
  }
}
