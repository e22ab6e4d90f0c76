/**
 The grants that `provision-runtime-roles` leaves, and what `verify-runtime-roles` compares them with.

 The access control lists of the application's tables, columns and functions are three sets. The
 provisioning statements change them one at a time; `Provisioned` is what all of them together come to.
 `ProvisionedIsExact` shows that nothing of the state before remains for the grantees it covers, and
 `AcceptedExactlyWhenReviewed` when the verifier, which is proved to compare against the same allowlist,
 accepts the result.
 */
module RoleGrants {

  datatype Privilege = Select | Insert | Update | Delete | References | Truncate | Trigger

  datatype TableGrant = TableGrant(grantee: string, table: string, privilege: Privilege)

  datatype ColumnGrant = ColumnGrant(grantee: string, table: string, column: string, privilege: Privilege)

  datatype Execute = Execute(grantee: string, name: string)

  /** The explicit grants in a database. */
  datatype Acl = Acl(tables: set<TableGrant>, columns: set<ColumnGrant>, executes: set<Execute>)

  const PUBLIC := "PUBLIC"
  const ON_COLUMNS := {Select, Insert, Update, References}

  // ---- The reviewed allowlist ----

  datatype TableRule = TableRule(table: string, privileges: set<Privilege>)

  datatype ColumnRule = ColumnRule(table: string, privilege: Privilege, columns: seq<string>)

  datatype RoleRules = RoleRules(role: string, tables: seq<TableRule>, columns: seq<ColumnRule>)

  datatype FunctionRule = FunctionRule(name: string, executeRoles: set<string>)

  datatype Policy = Policy(
    tables: seq<string>,
    functions: seq<FunctionRule>,
    runtime: seq<RoleRules>,
    dataApi: seq<string>)

  function Members<T>(s: seq<T>): set<T> {
    set x | x in s
  }

  lemma MembersNext<T>(s: seq<T>, i: nat)
    requires i < |s|
    ensures Members(s[..i + 1]) == Members(s[..i]) + {s[i]}
  {
    assert s[..i + 1] == s[..i] + [s[i]];
  }

  lemma MembersPlus<T>(s: seq<T>, x: T)
    ensures Members(s + [x]) == Members(s) + {x}
  {
    assert (s + [x])[|s|] == x;
    assert forall k :: 0 <= k < |s| ==> (s + [x])[k] == s[k];
  }

  function Names(functions: seq<FunctionRule>): set<string> {
    set f | f in functions :: f.name
  }

  function Roles(runtime: seq<RoleRules>): set<string> {
    set r | r in runtime :: r.role
  }

  function OnTable(role: string, table: string, privileges: set<Privilege>): set<TableGrant> {
    set p | p in privileges :: TableGrant(role, table, p)
  }

  function TableGrants(role: string, rules: seq<TableRule>): set<TableGrant> {
    if rules == [] then {}
    else
      var last := rules[|rules| - 1];
      TableGrants(role, rules[..|rules| - 1]) + OnTable(role, last.table, last.privileges)
  }

  function OnColumns(role: string, rule: ColumnRule): set<ColumnGrant> {
    set c | c in rule.columns :: ColumnGrant(role, rule.table, c, rule.privilege)
  }

  function ColumnGrants(role: string, rules: seq<ColumnRule>): set<ColumnGrant> {
    if rules == [] then {}
    else ColumnGrants(role, rules[..|rules| - 1]) + OnColumns(role, rules[|rules| - 1])
  }

  function Executes(role: string, functions: seq<FunctionRule>): set<Execute> {
    if functions == [] then {}
    else
      var last := functions[|functions| - 1];
      Executes(role, functions[..|functions| - 1])
      + if role in last.executeRoles then {Execute(role, last.name)} else {}
  }

  /** Everything the allowlist gives one role. */
  function ReviewedOf(rules: RoleRules, functions: seq<FunctionRule>): Acl {
    Acl(TableGrants(rules.role, rules.tables), ColumnGrants(rules.role, rules.columns), Executes(rules.role, functions))
  }

  /** Everything the allowlist gives the roles of `runtime`. */
  function Reviewed(runtime: seq<RoleRules>, functions: seq<FunctionRule>): Acl {
    if runtime == [] then Acl({}, {}, {})
    else Plus(Reviewed(runtime[..|runtime| - 1], functions), ReviewedOf(runtime[|runtime| - 1], functions))
  }

  lemma ReviewedNext(runtime: seq<RoleRules>, functions: seq<FunctionRule>, i: nat)
    requires i < |runtime|
    ensures Reviewed(runtime[..i + 1], functions)
         == Plus(Reviewed(runtime[..i], functions), ReviewedOf(runtime[i], functions))
  {
    assert runtime[..i + 1][..i] == runtime[..i];
  }

  function Plus(a: Acl, b: Acl): Acl {
    Acl(a.tables + b.tables, a.columns + b.columns, a.executes + b.executes)
  }

  lemma PlusAssociates(a: Acl, b: Acl, c: Acl)
    ensures Plus(Plus(a, b), c) == Plus(a, Plus(b, c))
  {
    assert (a.tables + b.tables) + c.tables == a.tables + (b.tables + c.tables);
    assert (a.columns + b.columns) + c.columns == a.columns + (b.columns + c.columns);
    assert (a.executes + b.executes) + c.executes == a.executes + (b.executes + c.executes);
  }

  // ---- What statements take away ----

  /** Without any privilege of `grantees` on `tables` and `functions`; revoking on a table may reach its columns. */
  function Revoked(a: Acl, tables: set<string>, functions: set<string>, grantees: set<string>, reachesColumns: bool)
    : Acl
  {
    Acl(set g | g in a.tables && !(g.table in tables && g.grantee in grantees),
        set g | g in a.columns && !(reachesColumns && g.table in tables && g.grantee in grantees),
        set e | e in a.executes && !(e.name in functions && e.grantee in grantees))
  }

  type Catalog = map<string, seq<string>>

  /** Without the column privileges of `grantees` on the columns of `tables` there are. */
  function ColumnsRevoked(a: Acl, catalog: Catalog, tables: set<string>, grantees: set<string>): Acl {
    a.(columns := set g | g in a.columns && !(
      && g.table in tables && g.table in catalog && g.column in catalog[g.table]
      && g.privilege in ON_COLUMNS && g.grantee in grantees))
  }

  /** PUBLIC and those of the Data API roles that exist. */
  function Browsers(p: Policy, roles: set<string>): set<string> {
    {PUBLIC} + set r | r in p.dataApi && r in roles
  }

  function Cleared(a: Acl, p: Policy, catalog: Catalog, grantees: set<string>, reachesColumns: bool): Acl {
    ColumnsRevoked(Revoked(a, Members(p.tables), Names(p.functions), grantees, reachesColumns),
                   catalog, Members(p.tables), grantees)
  }

  /** The whole of `revokeUnsafeApplicationBaseline` and `applyRuntimeGrants`. */
  function Provisioned(a: Acl, p: Policy, catalog: Catalog, roles: set<string>, reachesColumns: bool): Acl {
    var cleared := Cleared(a, p, catalog, Browsers(p, roles), reachesColumns);
    Plus(Cleared(cleared, p, catalog, Roles(p.runtime), reachesColumns), Reviewed(p.runtime, p.functions))
  }

  class Database {
    var acl: Acl
    const catalog: Catalog
    const roles: set<string>
    /** Whether revoking on a table also revokes on its columns. */
    const reachesColumns: bool

    constructor (acl: Acl, catalog: Catalog, roles: set<string>, reachesColumns: bool)
      ensures this.acl == acl && this.catalog == catalog && this.roles == roles && this.reachesColumns == reachesColumns
    {
      this.acl, this.catalog, this.roles, this.reachesColumns := acl, catalog, roles, reachesColumns;
    }

    /** `REVOKE ALL PRIVILEGES` on every application table and function. */
    method RevokeAll(p: Policy, grantee: string)
      modifies this
      ensures acl == Revoked(old(acl), Members(p.tables), Names(p.functions), {grantee}, reachesColumns)
    {
      for i := 0 to |p.tables|
        invariant acl == Revoked(old(acl), Members(p.tables[..i]), {}, {grantee}, reachesColumns)
      {
        MembersNext(p.tables, i);
        acl := Revoked(acl, {p.tables[i]}, {}, {grantee}, reachesColumns);
      }
      assert p.tables[..|p.tables|] == p.tables;
      for i := 0 to |p.functions|
        invariant acl == Revoked(old(acl), Members(p.tables), Names(p.functions[..i]), {grantee}, reachesColumns)
      {
        assert p.functions[..i + 1] == p.functions[..i] + [p.functions[i]];
        acl := Revoked(acl, {}, {p.functions[i].name}, {grantee}, reachesColumns);
      }
      assert p.functions[..|p.functions|] == p.functions;
    }

    /** `clearApplicationColumnPrivileges` */
    method ClearColumns(tables: seq<string>, grantees: seq<string>)
      modifies this
      ensures acl == ColumnsRevoked(old(acl), catalog, Members(tables), Members(grantees))
    {
      for i := 0 to |tables|
        invariant acl == ColumnsRevoked(old(acl), catalog, Members(tables[..i]), Members(grantees))
      {
        MembersNext(tables, i);
        ghost var before := acl;
        if tables[i] in catalog {
          for k := 0 to |grantees|
            invariant acl == ColumnsRevoked(before, catalog, {tables[i]}, Members(grantees[..k]))
          {
            MembersNext(grantees, k);
            acl := ColumnsRevoked(acl, catalog, {tables[i]}, {grantees[k]});
          }
          assert grantees[..|grantees|] == grantees;
        }
        assert acl == ColumnsRevoked(before, catalog, {tables[i]}, Members(grantees));
      }
      assert tables[..|tables|] == tables;
    }

    /** `revokeUnsafeApplicationBaseline` */
    method RevokeBaseline(p: Policy)
      modifies this
      ensures acl == Cleared(old(acl), p, catalog, Browsers(p, roles), reachesColumns)
    {
      RevokeAll(p, PUBLIC);
      var grantees := [PUBLIC];
      for i := 0 to |p.dataApi|
        invariant Members(grantees) == {PUBLIC} + set r | r in p.dataApi[..i] && r in roles
        invariant acl == Revoked(old(acl), Members(p.tables), Names(p.functions), Members(grantees), reachesColumns)
      {
        assert p.dataApi[..i + 1] == p.dataApi[..i] + [p.dataApi[i]];
        if p.dataApi[i] in roles {
          RevokeAll(p, p.dataApi[i]);
          MembersPlus(grantees, p.dataApi[i]);
          grantees := grantees + [p.dataApi[i]];
        }
      }
      assert p.dataApi[..|p.dataApi|] == p.dataApi;
      ClearColumns(p.tables, grantees);
    }

    /** The `GRANT` statements of one role on tables. */
    method GrantTables(role: string, rules: seq<TableRule>)
      modifies this
      ensures acl == old(acl).(tables := old(acl).tables + TableGrants(role, rules))
    {
      for i := 0 to |rules|
        invariant acl == old(acl).(tables := old(acl).tables + TableGrants(role, rules[..i]))
      {
        assert rules[..i + 1][..i] == rules[..i];
        if rules[i].privileges != {} {
          acl := acl.(tables := acl.tables + OnTable(role, rules[i].table, rules[i].privileges));
        }
      }
      assert rules[..|rules|] == rules;
    }

    method GrantColumns(role: string, rules: seq<ColumnRule>)
      modifies this
      ensures acl == old(acl).(columns := old(acl).columns + ColumnGrants(role, rules))
    {
      for i := 0 to |rules|
        invariant acl == old(acl).(columns := old(acl).columns + ColumnGrants(role, rules[..i]))
      {
        assert rules[..i + 1][..i] == rules[..i];
        acl := acl.(columns := acl.columns + OnColumns(role, rules[i]));
      }
      assert rules[..|rules|] == rules;
    }

    method GrantExecutes(role: string, functions: seq<FunctionRule>)
      modifies this
      ensures acl == old(acl).(executes := old(acl).executes + Executes(role, functions))
    {
      for i := 0 to |functions|
        invariant acl == old(acl).(executes := old(acl).executes + Executes(role, functions[..i]))
      {
        assert functions[..i + 1][..i] == functions[..i];
        if role in functions[i].executeRoles {
          acl := acl.(executes := acl.executes + {Execute(role, functions[i].name)});
        }
      }
      assert functions[..|functions|] == functions;
    }

    method GrantRole(rules: RoleRules, functions: seq<FunctionRule>)
      modifies this
      ensures acl == Plus(old(acl), ReviewedOf(rules, functions))
    {
      GrantTables(rules.role, rules.tables);
      GrantColumns(rules.role, rules.columns);
      GrantExecutes(rules.role, functions);
    }

    method RevokeRuntime(p: Policy)
      modifies this
      ensures acl == Cleared(old(acl), p, catalog, Roles(p.runtime), reachesColumns)
    {
      var grantees := [];
      for i := 0 to |p.runtime|
        invariant Members(grantees) == Roles(p.runtime[..i])
        invariant acl == Revoked(old(acl), Members(p.tables), Names(p.functions), Members(grantees), reachesColumns)
      {
        assert p.runtime[..i + 1] == p.runtime[..i] + [p.runtime[i]];
        RevokeAll(p, p.runtime[i].role);
        MembersPlus(grantees, p.runtime[i].role);
        grantees := grantees + [p.runtime[i].role];
      }
      assert p.runtime[..|p.runtime|] == p.runtime;
      ClearColumns(p.tables, grantees);
    }

    /** `applyRuntimeGrants` */
    method ApplyRuntimeGrants(p: Policy)
      modifies this
      ensures acl == Plus(Cleared(old(acl), p, catalog, Roles(p.runtime), reachesColumns),
                          Reviewed(p.runtime, p.functions))
    {
      RevokeRuntime(p);
      ghost var cleared := acl;
      for i := 0 to |p.runtime|
        invariant acl == Plus(cleared, Reviewed(p.runtime[..i], p.functions))
      {
        ReviewedNext(p.runtime, p.functions, i);
        PlusAssociates(cleared, Reviewed(p.runtime[..i], p.functions), ReviewedOf(p.runtime[i], p.functions));
        GrantRole(p.runtime[i], p.functions);
      }
      assert p.runtime[..|p.runtime|] == p.runtime;
    }

    method Provision(p: Policy)
      modifies this
      ensures acl == Provisioned(old(acl), p, catalog, roles, reachesColumns)
    {
      RevokeBaseline(p);
      ApplyRuntimeGrants(p);
    }
  
    /** The comparison of table privileges in `verifyCatalog`, up to the first that differs. */
    method VerifyTables(p: Policy) returns (ok: bool)
      ensures ok <==> TablesAgree(acl, p.runtime, p.tables)
      ensures ok <==> forall rules <- p.runtime, t <- p.tables ::
        && AgreesOn(acl, rules, t, Select) && AgreesOn(acl, rules, t, Insert)
        && AgreesOn(acl, rules, t, Update) && AgreesOn(acl, rules, t, Delete)
    {
      AgreeExactly(acl, p.runtime, p.tables);
      for i := 0 to |p.runtime|
        invariant TablesAgree(acl, p.runtime[..i], p.tables)
      {
        var rules := p.runtime[i];
        assert p.runtime[..i + 1] == p.runtime[..i] + [rules];
        for k := 0 to |p.tables|
          invariant forall t <- p.tables[..k] :: TableAgrees(acl, rules, t)
        {
          assert p.tables[..k + 1] == p.tables[..k] + [p.tables[k]];
          for n := 0 to |COMPARED|
            invariant forall x <- COMPARED[..n] :: PrivilegeAgrees(acl, rules, p.tables[k], x)
          {
            assert COMPARED[..n + 1] == COMPARED[..n] + [COMPARED[n]];
            if !PrivilegeAgrees(acl, rules, p.tables[k], COMPARED[n]) {
              assert !TableAgrees(acl, rules, p.tables[k]);
              return false;
            }
          }
        }
      }
      assert p.runtime[..|p.runtime|] == p.runtime;
      return true;
    }
  }

  // ---- What the verifier compares ----

  const COMPARED := [Select, Insert, Update, Delete]

  /** `has_table_privilege`, for roles that belong to no other. */
  predicate HasTable(a: Acl, role: string, table: string, x: Privilege) {
    TableGrant(role, table, x) in a.tables || TableGrant(PUBLIC, table, x) in a.tables
  }

  predicate PrivilegeAgrees(a: Acl, rules: RoleRules, table: string, x: Privilege) {
    HasTable(a, rules.role, table, x) <==> RulesAllowTable(rules.tables, TableGrant(rules.role, table, x))
  }

  predicate TableAgrees(a: Acl, rules: RoleRules, table: string) {
    forall x <- COMPARED :: PrivilegeAgrees(a, rules, table, x)
  }

  predicate TablesAgree(a: Acl, runtime: seq<RoleRules>, tables: seq<string>) {
    forall rules <- runtime, t <- tables :: TableAgrees(a, rules, t)
  }

  /** A role can do what its rules say, by a grant to it or to everyone, and nothing else. */
  ghost predicate AgreesOn(a: Acl, rules: RoleRules, table: string, x: Privilege) {
    (TableGrant(rules.role, table, x) in a.tables || TableGrant("PUBLIC", table, x) in a.tables)
    == exists rule <- rules.tables :: rule.table == table && x in rule.privileges
  }

  lemma TableAgreesExactly(a: Acl, rules: RoleRules, t: string)
    ensures TableAgrees(a, rules, t) <==>
      && AgreesOn(a, rules, t, Select) && AgreesOn(a, rules, t, Insert)
      && AgreesOn(a, rules, t, Update) && AgreesOn(a, rules, t, Delete)
  {
    assert COMPARED[0] == Select && COMPARED[1] == Insert && COMPARED[2] == Update && COMPARED[3] == Delete;
    forall x: Privilege ensures PrivilegeAgrees(a, rules, t, x) <==> AgreesOn(a, rules, t, x) {}
    hide PrivilegeAgrees, AgreesOn;
    assert TableAgrees(a, rules, t) <==> forall x | x in COMPARED :: PrivilegeAgrees(a, rules, t, x);
  }

  lemma AgreeExactly(a: Acl, runtime: seq<RoleRules>, tables: seq<string>)
    ensures TablesAgree(a, runtime, tables) <==> forall rules <- runtime, t <- tables ::
      && AgreesOn(a, rules, t, Select) && AgreesOn(a, rules, t, Insert)
      && AgreesOn(a, rules, t, Update) && AgreesOn(a, rules, t, Delete)
  {
    hide TableAgrees, AgreesOn;
    forall rules, t {
      TableAgreesExactly(a, rules, t);
    }
  }

  /** `has_column_privilege` */
  predicate HasColumn(a: Acl, g: ColumnGrant) {
    || HasTable(a, g.grantee, g.table, g.privilege)
    || g in a.columns || ColumnGrant(PUBLIC, g.table, g.column, g.privilege) in a.columns
  }

  /** The explicit column grants of the runtime roles on the application's tables. */
  function ExplicitColumns(a: Acl, p: Policy): set<ColumnGrant> {
    set g | g in a.columns && g.table in p.tables && g.grantee in Roles(p.runtime)
  }

  /** No grant on the application's tables or their columns is for PUBLIC or a Data API role. */
  predicate BrowsersDenied(a: Acl, p: Policy, roles: set<string>) {
    && (forall g <- a.tables :: !(g.table in p.tables && g.grantee in Browsers(p, roles)))
    && (forall g <- a.columns :: !(g.table in p.tables && g.grantee in Browsers(p, roles)))
  }

  /** No Data API role has effective access. */
  predicate NoEffectiveAccess(a: Acl, p: Policy, catalog: Catalog, roles: set<string>) {
    forall r <- p.dataApi, t <- p.tables | r in roles ::
      && (forall x <- [Delete, Truncate, Trigger] :: !HasTable(a, r, t, x))
      && (t in catalog ==> forall c <- catalog[t], x <- [Select, Insert, Update, References] ::
        !HasColumn(a, ColumnGrant(r, t, c, x)))
  }

  /** Every column of the rules can be reached. */
  predicate ColumnsReached(a: Acl, p: Policy) {
    forall rules <- p.runtime, g <- ColumnGrants(rules.role, rules.columns) :: HasColumn(a, g)
  }

  /** The comparisons of `verifyCatalog` on tables and columns. */
  predicate Accepted(a: Acl, p: Policy, catalog: Catalog, roles: set<string>) {
    && TablesAgree(a, p.runtime, p.tables)
    && ColumnsReached(a, p)
    && Reviewed(p.runtime, p.functions).columns == ExplicitColumns(a, p)
    && BrowsersDenied(a, p, roles)
    && NoEffectiveAccess(a, p, catalog, roles)
  }

  // ---- The allowlist ----

  /** Role names are distinct, and none is PUBLIC or a Data API role. */
  predicate WellFormed(p: Policy) {
    && (forall i, j :: 0 <= i < j < |p.runtime| ==> p.runtime[i].role != p.runtime[j].role)
    && (forall rules <- p.runtime :: rules.role != PUBLIC && rules.role !in p.dataApi)
  }

  predicate RulesAllowTable(rules: seq<TableRule>, g: TableGrant) {
    exists rule <- rules :: rule.table == g.table && g.privilege in rule.privileges
  }

  predicate RulesAllowColumn(rules: seq<ColumnRule>, g: ColumnGrant) {
    exists rule <- rules :: rule.table == g.table && rule.privilege == g.privilege && g.column in rule.columns
  }

  predicate AllowsTable(rules: RoleRules, g: TableGrant) {
    rules.role == g.grantee && RulesAllowTable(rules.tables, g)
  }

  predicate AllowsColumn(rules: RoleRules, g: ColumnGrant) {
    rules.role == g.grantee && RulesAllowColumn(rules.columns, g)
  }

  predicate AllowsExecute(functions: seq<FunctionRule>, e: Execute) {
    exists f <- functions :: f.name == e.name && e.grantee in f.executeRoles
  }

  lemma {:induction false} TableGrantsAre(role: string, rules: seq<TableRule>, g: TableGrant)
    ensures g in TableGrants(role, rules) <==> role == g.grantee && RulesAllowTable(rules, g)
  {
    if rules != [] {
      var before, last := rules[..|rules| - 1], rules[|rules| - 1];
      TableGrantsAre(role, before, g);
      assert rules == before + [last];
    }
  }

  lemma {:induction false} ColumnGrantsAre(role: string, rules: seq<ColumnRule>, g: ColumnGrant)
    ensures g in ColumnGrants(role, rules) <==> role == g.grantee && RulesAllowColumn(rules, g)
  {
    if rules != [] {
      var before, last := rules[..|rules| - 1], rules[|rules| - 1];
      ColumnGrantsAre(role, before, g);
      assert rules == before + [last];
    }
  }

  lemma {:induction false} ExecutesAre(role: string, functions: seq<FunctionRule>, e: Execute)
    ensures e in Executes(role, functions) <==> e.grantee == role && AllowsExecute(functions, e)
  {
    if functions != [] {
      var before, last := functions[..|functions| - 1], functions[|functions| - 1];
      ExecutesAre(role, before, e);
      assert functions == before + [last];
    }
  }

  /** What is reviewed is what some role's rules say. */
  lemma {:induction false} ReviewedTables(runtime: seq<RoleRules>, functions: seq<FunctionRule>, g: TableGrant)
    ensures g in Reviewed(runtime, functions).tables <==> exists rules <- runtime :: AllowsTable(rules, g)
  {
    if runtime != [] {
      var before, last := runtime[..|runtime| - 1], runtime[|runtime| - 1];
      ReviewedTables(before, functions, g);
      TableGrantsAre(last.role, last.tables, g);
      assert runtime == before + [last];
      assert g in Reviewed(runtime, functions).tables
        <==> g in Reviewed(before, functions).tables || AllowsTable(last, g);
    }
  }

  lemma {:induction false} ReviewedColumns(runtime: seq<RoleRules>, functions: seq<FunctionRule>, g: ColumnGrant)
    ensures g in Reviewed(runtime, functions).columns <==> exists rules <- runtime :: AllowsColumn(rules, g)
  {
    if runtime != [] {
      var before, last := runtime[..|runtime| - 1], runtime[|runtime| - 1];
      ReviewedColumns(before, functions, g);
      ColumnGrantsAre(last.role, last.columns, g);
      assert runtime == before + [last];
      assert g in Reviewed(runtime, functions).columns
        <==> g in Reviewed(before, functions).columns || AllowsColumn(last, g);
    }
  }

  lemma {:induction false} ReviewedExecutes(runtime: seq<RoleRules>, functions: seq<FunctionRule>, e: Execute)
    ensures e in Reviewed(runtime, functions).executes <==> e.grantee in Roles(runtime) && AllowsExecute(functions, e)
  {
    if runtime != [] {
      var before, last := runtime[..|runtime| - 1], runtime[|runtime| - 1];
      ReviewedExecutes(before, functions, e);
      ExecutesAre(last.role, functions, e);
      assert runtime == before + [last];
    }
  }

  // ---- Convergence ----

  /** Column privileges are held only on columns there are: a fact about databases. */
  predicate Live(a: Acl, catalog: Catalog) {
    forall g <- a.columns ::
      g.table in catalog && g.column in catalog[g.table] && g.privilege in {Select, Insert, Update, References}
  }

  /** Whose privileges are settled: the runtime roles, PUBLIC, and the Data API roles that exist. */
  predicate Covered(p: Policy, roles: set<string>, grantee: string) {
    grantee == "PUBLIC" || (grantee in p.dataApi && grantee in roles) || exists r <- p.runtime :: r.role == grantee
  }

  lemma CoveredIs(p: Policy, roles: set<string>, grantee: string)
    ensures Covered(p, roles, grantee) <==> grantee in Browsers(p, roles) + Roles(p.runtime)
  {}

  predicate AllowedTable(p: Policy, g: TableGrant) {
    exists rules <- p.runtime :: AllowsTable(rules, g)
  }

  predicate AllowedColumn(p: Policy, g: ColumnGrant) {
    exists rules <- p.runtime :: AllowsColumn(rules, g)
  }

  predicate AllowedExecute(p: Policy, e: Execute) {
    e.grantee in Roles(p.runtime) && AllowsExecute(p.functions, e)
  }

  /**
   From any earlier state: a covered grantee holds on the application's tables, columns and functions
   exactly what the allowlist says, and every other grant is as it was or newly allowed. Provisioning
   once more changes nothing.
   */
  lemma ProvisionedIsExact(a: Acl, p: Policy, catalog: Catalog, roles: set<string>, reachesColumns: bool)
    requires Live(a, catalog)
    ensures var b := Provisioned(a, p, catalog, roles, reachesColumns);
      && Provisioned(b, p, catalog, roles, reachesColumns) == b
      && (forall g: TableGrant :: g in b.tables <==>
        AllowedTable(p, g) || (g in a.tables && !(g.table in p.tables && Covered(p, roles, g.grantee))))
      && (forall g: ColumnGrant :: g in b.columns <==>
        AllowedColumn(p, g) || (g in a.columns && !(g.table in p.tables && Covered(p, roles, g.grantee))))
      && (forall e: Execute :: e in b.executes <==>
        AllowedExecute(p, e) || (e in a.executes && !(e.name in Names(p.functions) && Covered(p, roles, e.grantee))))
  {
    hide Covered;
    forall grantee: string {
      CoveredIs(p, roles, grantee);
    }
    forall g: TableGrant {
      ReviewedTables(p.runtime, p.functions, g);
    }
    forall g: ColumnGrant {
      ReviewedColumns(p.runtime, p.functions, g);
    }
    forall e: Execute {
      ReviewedExecutes(p.runtime, p.functions, e);
    }
  }

  /** On the application's tables, the runtime roles have the compared privileges the allowlist gives them. */
  ghost predicate TablesExact(a: Acl, p: Policy) {
    forall g: TableGrant | g.table in p.tables && g.grantee in Roles(p.runtime)
                           && g.privilege in {Select, Insert, Update, Delete} ::
      g in a.tables <==> AllowedTable(p, g)
  }

  /** And the column privileges: no other, and none of the allowlist's is missing or elsewhere. */
  ghost predicate ColumnsExact(a: Acl, p: Policy) {
    forall g: ColumnGrant ::
      g in a.columns && g.table in p.tables && g.grantee in Roles(p.runtime) <==> AllowedColumn(p, g)
  }

  /** What the verifier means to check: the allowlist itself, and nothing for PUBLIC and the Data API. */
  ghost predicate Exact(a: Acl, p: Policy, roles: set<string>) {
    TablesExact(a, p) && ColumnsExact(a, p) && NothingForBrowsers(a, p, roles)
  }

  ghost predicate NothingForBrowsers(a: Acl, p: Policy, roles: set<string>) {
    && (forall g <- a.tables | g.table in p.tables ::
          g.grantee != "PUBLIC" && (g.grantee in roles ==> g.grantee !in p.dataApi))
    && (forall g <- a.columns | g.table in p.tables ::
          g.grantee != "PUBLIC" && (g.grantee in roles ==> g.grantee !in p.dataApi))
  }

  lemma DeniedIsNothing(a: Acl, p: Policy, roles: set<string>)
    ensures BrowsersDenied(a, p, roles) <==> NothingForBrowsers(a, p, roles)
  {}

  lemma OneRulesPerRole(p: Policy, rules: RoleRules, g: TableGrant)
    requires WellFormed(p) && rules in p.runtime && g.grantee == rules.role
    ensures AllowedTable(p, g) <==> RulesAllowTable(rules.tables, g)
  {
    assert RulesAllowTable(rules.tables, g) ==> AllowsTable(rules, g);
  }

  lemma TablesAgreeExactly(a: Acl, p: Policy, roles: set<string>)
    requires WellFormed(p) && BrowsersDenied(a, p, roles)
    ensures TablesAgree(a, p.runtime, p.tables) <==> TablesExact(a, p)
  {
    AgreeExactly(a, p.runtime, p.tables);
    forall rules, t, x | rules in p.runtime && t in p.tables
      ensures AgreesOn(a, rules, t, x) <==>
        (TableGrant(rules.role, t, x) in a.tables <==> AllowedTable(p, TableGrant(rules.role, t, x)))
    {
      OneRulesPerRole(p, rules, TableGrant(rules.role, t, x));
      assert TableGrant(PUBLIC, t, x) !in a.tables;
    }
    hide AgreesOn, AllowedTable;
  }

  lemma ColumnsCompared(a: Acl, p: Policy)
    ensures Reviewed(p.runtime, p.functions).columns == ExplicitColumns(a, p) <==> ColumnsExact(a, p)
  {
    var reviewed := Reviewed(p.runtime, p.functions).columns;
    forall g: ColumnGrant
      ensures g in reviewed <==> AllowedColumn(p, g)
    {
      ReviewedColumns(p.runtime, p.functions, g);
    }
    assert reviewed == ExplicitColumns(a, p)
      <==> forall g: ColumnGrant :: g in reviewed <==> g in ExplicitColumns(a, p);
  }

  lemma ExactColumnsAreReached(a: Acl, p: Policy)
    requires ColumnsExact(a, p)
    ensures ColumnsReached(a, p)
  {
    forall rules, g | rules in p.runtime && g in ColumnGrants(rules.role, rules.columns)
      ensures HasColumn(a, g)
    {
      ColumnGrantsAre(rules.role, rules.columns, g);
      assert AllowsColumn(rules, g);
      assert AllowedColumn(p, g);
    }
  }

  /** Effective privileges of a Data API role are its own or those of PUBLIC. */
  lemma DeniedMeansNoAccess(a: Acl, p: Policy, catalog: Catalog, roles: set<string>)
    requires BrowsersDenied(a, p, roles)
    ensures NoEffectiveAccess(a, p, catalog, roles)
  {}

  /** The verifier's questions about effective privileges, answered from explicit grants, come to the same. */
  lemma AcceptedIsExact(a: Acl, p: Policy, catalog: Catalog, roles: set<string>)
    requires WellFormed(p)
    ensures Accepted(a, p, catalog, roles) <==> Exact(a, p, roles)
  {
    hide TablesAgree, TablesExact, ColumnsExact, ColumnsReached, BrowsersDenied, NoEffectiveAccess, Reviewed,
      ExplicitColumns, WellFormed, NothingForBrowsers;
    DeniedIsNothing(a, p, roles);
    ColumnsCompared(a, p);
    if BrowsersDenied(a, p, roles) {
      TablesAgreeExactly(a, p, roles);
      DeniedMeansNoAccess(a, p, catalog, roles);
      if ColumnsExact(a, p) {
        ExactColumnsAreReached(a, p);
      }
    }
  }

  /** What a provisioned state has is what `ProvisionedIsExact` says, one grant at a time. */
  ghost predicate IsProvisioned(a: Acl, b: Acl, p: Policy, roles: set<string>) {
    && (forall g: TableGrant :: g in b.tables <==>
      AllowedTable(p, g) || (g in a.tables && !(g.table in p.tables && Covered(p, roles, g.grantee))))
    && (forall g: ColumnGrant :: g in b.columns <==>
      AllowedColumn(p, g) || (g in a.columns && !(g.table in p.tables && Covered(p, roles, g.grantee))))
  }

  lemma ProvisionedTables(a: Acl, b: Acl, p: Policy, roles: set<string>)
    requires IsProvisioned(a, b, p, roles)
    ensures TablesExact(b, p)
  {}

  lemma ProvisionedBrowsers(a: Acl, b: Acl, p: Policy, roles: set<string>)
    requires WellFormed(p) && IsProvisioned(a, b, p, roles)
    ensures BrowsersDenied(b, p, roles)
  {
    AllowedIsForRuntime(p);
    hide WellFormed, AllowedTable, AllowedColumn;
  }

  lemma ProvisionedColumns(a: Acl, b: Acl, p: Policy, roles: set<string>)
    requires WellFormed(p) && IsProvisioned(a, b, p, roles)
    ensures ColumnsExact(b, p) <==> forall g: ColumnGrant | AllowedColumn(p, g) :: g.table in p.tables
  {
    AllowedIsForRuntime(p);
    hide WellFormed, AllowedTable, AllowedColumn;
  }

  /** Every state is provisioned to one the verifier accepts, exactly when column rules name application tables. */
  lemma AcceptedExactlyWhenReviewed(a: Acl, p: Policy, catalog: Catalog, roles: set<string>, reachesColumns: bool)
    requires WellFormed(p) && Live(a, catalog)
    ensures Accepted(Provisioned(a, p, catalog, roles, reachesColumns), p, catalog, roles) <==>
      forall rules <- p.runtime, rule <- rules.columns | rule.columns != [] :: rule.table in p.tables
  {
    hide Provisioned, Accepted, TablesExact, ColumnsExact, BrowsersDenied, NothingForBrowsers, WellFormed, Live,
      AllowedTable, AllowedColumn, Covered, AllowedExecute;
    var b := Provisioned(a, p, catalog, roles, reachesColumns);
    ProvisionedIsExact(a, p, catalog, roles, reachesColumns);
    assert IsProvisioned(a, b, p, roles);
    ProvisionedTables(a, b, p, roles);
    ProvisionedBrowsers(a, b, p, roles);
    ProvisionedColumns(a, b, p, roles);
    AcceptedIsExact(b, p, catalog, roles);
    DeniedIsNothing(b, p, roles);
    ColumnsWithin(p);
  }

  lemma AllowedIsForRuntime(p: Policy)
    requires WellFormed(p)
    ensures forall g: TableGrant | AllowedTable(p, g) ::
      g.grantee in Roles(p.runtime) && g.grantee !in {PUBLIC} + Members(p.dataApi)
    ensures forall g: ColumnGrant | AllowedColumn(p, g) ::
      g.grantee in Roles(p.runtime) && g.grantee !in {PUBLIC} + Members(p.dataApi)
  {}

  lemma ColumnsWithin(p: Policy)
    ensures (forall g: ColumnGrant | AllowedColumn(p, g) :: g.table in p.tables) <==>
      forall rules <- p.runtime, rule <- rules.columns | rule.columns != [] :: rule.table in p.tables
  {
    forall rules, rule | rules in p.runtime && rule in rules.columns && rule.columns != []
      ensures AllowedColumn(p, ColumnGrant(rules.role, rule.table, rule.columns[0], rule.privilege))
    {
      assert AllowsColumn(rules, ColumnGrant(rules.role, rule.table, rule.columns[0], rule.privilege));
    }
  }
}
