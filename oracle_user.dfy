/**
 * The reconciliation step of the Oracle user module: read the account
 * record, choose at most one statement, execute it, read the record again.
 *
 * The database is abstracted as a table from account names to the row the
 * catalog lookup returns, plus an `apply` effect that gives the table after
 * one statement, or nothing when the database rejects the statement.
 */
module OracleUser {
  import opened Wrappers
  import opened OracleSql
  import opened OracleState

  /**
   * A row of the catalog lookup: default tablespace, temporary tablespace,
   * password hash and account status, in the order they are selected.
   */
  type Row = (Option<string>, Option<string>, Option<string>, Option<string>)

  /** The account record the module reports. */
  datatype UserRecord = UserRecord(
    name: string,
    defaultTablespace: Option<string>,
    temporaryTablespace: Option<string>,
    password: Option<string>,
    accountStatus: Option<string>)

  /** The row a record was read from. */
  function RowOf(user: UserRecord): Row {
    (user.defaultTablespace, user.temporaryTablespace, user.password, user.accountStatus)
  }

  /** The row-to-record mapping of `getUser`; it loses nothing of the row. */
  function RecordOfRow(name: string, row: Row): (user: UserRecord)
    ensures user.name == name && RowOf(user) == row
  {
    UserRecord(name, row.0, row.1, row.2, row.3)
  }

  /** The first row the lookup by exact name returns, if any. */
  function Fetch(table: map<string, Row>, name: string): Option<Row> {
    if name in table then Some(table[name]) else None
  }

  /** `getUser` after the query: no row gives no record, a row gives its record. */
  function ReadUser(name: string, fetched: Option<Row>): (user: Option<UserRecord>)
    ensures user.Some? <==> fetched.Some?
    ensures user.Some? ==> user.value.name == name && RowOf(user.value) == fetched.value
  {
    match fetched
    case None => None
    case Some(row) => Some(RecordOfRow(name, row))
  }

  /** The options of one pass, apart from the account name. */
  datatype Desired = Desired(
    password: Option<string>,
    state: Lifecycle,
    defaultTablespace: Option<string>,
    temporaryTablespace: Option<string>)

  /** A field check fires when the option is given and the stored value is different. */
  predicate Differs(wanted: Option<string>, stored: Option<string>) {
    Truthy(wanted) && stored != wanted
  }

  /** The observed lock state disagrees with the desired one. */
  predicate LockMismatch(state: Lifecycle, status: Option<string>) {
    (status == Some("OPEN")) == (state == Locked)
  }

  function NameOf(s: Statement): string {
    match s
    case Create(n, _, _) => n
    case Alter(n, _) => n
    case Drop(n) => n
  }

  /**
   * The statement a pass issues, as a precedence table, highest first:
   * temporary tablespace, default tablespace, password, then drop or the
   * lock-state ALTER.  A missing account is created unless it should be absent.
   */
  function Decide(name: string, d: Desired, user: Option<UserRecord>): (plan: Option<Statement>)
    ensures plan.Some? ==> NameOf(plan.value) == name
    ensures plan.Some? && plan.value.Alter? ==> |plan.value.clauses| <= 1
  {
    match user
    case None =>
      if d.state == Absent then None
      else Some(Create(name, Show(d.password),
                       PresentClauses(None, d.defaultTablespace, d.temporaryTablespace, Some(MapState(d.state)))))
    case Some(u) =>
      if Differs(d.temporaryTablespace, u.temporaryTablespace) then
        Some(Alter(name, [TemporaryTablespace(d.temporaryTablespace.value)]))
      else if Differs(d.defaultTablespace, u.defaultTablespace) then
        Some(Alter(name, [DefaultTablespace(d.defaultTablespace.value)]))
      else if Differs(d.password, u.password) then
        Some(Alter(name, [IdentifiedByValues(d.password.value)]))
      else if d.state == Absent then
        Some(Drop(name))
      else if LockMismatch(d.state, u.accountStatus) then
        Some(Alter(name, []))
      else
        None
  }

  function RenderPlan(plan: Option<Statement>): Option<string> {
    match plan
    case None => None
    case Some(s) => Some(Render(s))
  }

  /**
   * The statement selection of `ensure`: a chain of `if`s that each
   * overwrite `sql`, so the last check that fires decides.
   */
  method PlanStatement(name: string, d: Desired, user: Option<UserRecord>) returns (sql: Option<string>)
    ensures sql == RenderPlan(Decide(name, d, user))
  {
    sql := None;
    ghost var plan: Option<Statement> := None;
    if user.None? {
      if d.state != Absent {
        sql := Some(CreateUserSql(name, d.password, d.defaultTablespace, d.temporaryTablespace,
                                  Some(MapState(d.state))));
        plan := Some(Create(name, Show(d.password),
                            PresentClauses(None, d.defaultTablespace, d.temporaryTablespace, Some(MapState(d.state)))));
        CreateUserSqlShape(name, d.password, d.defaultTablespace, d.temporaryTablespace, Some(MapState(d.state)));
      }
    } else {
      var u := user.value;
      if d.state == Absent {
        sql := Some(DropUserSql(name));
        plan := Some(Drop(name));
        DropUserSqlShape(name);
      } else if !Contains(MapAccountStatus(u.accountStatus), StateName(d.state)) {
        sql := Some(UpdateUserSql(name, None, None, None, Some(MapState(d.state))));
        plan := Some(Alter(name, []));
        UpdateUserSqlShape(name, None, None, None, Some(MapState(d.state)));
        assert PresentClauses(None, None, None, None) == [];
        LockBranchTaken(u.accountStatus, d.state);
      } else {
        LockBranchTaken(u.accountStatus, d.state);
      }
      assert sql == RenderPlan(plan);
      if Truthy(d.password) && u.password != d.password {
        sql := Some(UpdateUserSql(name, d.password, None, None, None));
        plan := Some(Alter(name, [IdentifiedByValues(d.password.value)]));
        UpdateUserSqlShape(name, d.password, None, None, None);
        assert PresentClauses(d.password, None, None, None) == [IdentifiedByValues(d.password.value)];
      }
      assert sql == RenderPlan(plan);
      if Truthy(d.defaultTablespace) && u.defaultTablespace != d.defaultTablespace {
        sql := Some(UpdateUserSql(name, None, d.defaultTablespace, None, None));
        plan := Some(Alter(name, [DefaultTablespace(d.defaultTablespace.value)]));
        UpdateUserSqlShape(name, None, d.defaultTablespace, None, None);
        assert PresentClauses(None, d.defaultTablespace, None, None) == [DefaultTablespace(d.defaultTablespace.value)];
      }
      assert sql == RenderPlan(plan);
      if Truthy(d.temporaryTablespace) && u.temporaryTablespace != d.temporaryTablespace {
        sql := Some(UpdateUserSql(name, None, None, d.temporaryTablespace, None));
        plan := Some(Alter(name, [TemporaryTablespace(d.temporaryTablespace.value)]));
        UpdateUserSqlShape(name, None, None, d.temporaryTablespace, None);
        assert PresentClauses(None, None, d.temporaryTablespace, None) == [TemporaryTablespace(d.temporaryTablespace.value)];
      }
    }
    assert sql == RenderPlan(plan);
    assert plan == Decide(name, d, user);
  }

  /**
   * A missing account is left alone when it should be absent; otherwise it
   * is created, and the CREATE always ends with an ACCOUNT LOCK or ACCOUNT
   * UNLOCK clause, LOCK exactly for the `locked` state.
   */
  lemma MissingAccount(name: string, d: Desired)
    ensures Decide(name, d, None).None? <==> d.state == Absent
    ensures d.state != Absent ==>
      && Decide(name, d, None).value.Create?
      && EndsWith(Render(Decide(name, d, None).value),
                  " ACCOUNT " + if d.state == Locked then "LOCK" else "UNLOCK")
  {
    if d.state != Absent {
      var status := Some(MapState(d.state));
      var plan := Decide(name, d, None);
      var sql := CreateUserSql(name, d.password, d.defaultTablespace, d.temporaryTablespace, status);
      CreateUserSqlShape(name, d.password, d.defaultTablespace, d.temporaryTablespace, status);
      assert Render(plan.value) == sql;
      CreateEndsWithAccount(name, d.password, d.defaultTablespace, d.temporaryTablespace, status);
      assert status.value == if d.state == Locked then "LOCK" else "UNLOCK";
    }
  }

  /**
   * Last diff wins: a differing temporary tablespace beats a differing
   * default tablespace, which beats a differing password, which beats both
   * the DROP and the lock-state ALTER.  Each winner is a single-clause ALTER.
   */
  lemma LastDiffWins(name: string, d: Desired, u: UserRecord)
    ensures var plan := Decide(name, d, Some(u));
      && (Differs(d.temporaryTablespace, u.temporaryTablespace) ==>
            Render(plan.value) == "ALTER USER " + name + " TEMPORARY TABLESPACE " + d.temporaryTablespace.value)
      && (!Differs(d.temporaryTablespace, u.temporaryTablespace) && Differs(d.defaultTablespace, u.defaultTablespace) ==>
            Render(plan.value) == "ALTER USER " + name + " DEFAULT TABLESPACE " + d.defaultTablespace.value)
      && (!Differs(d.temporaryTablespace, u.temporaryTablespace) && !Differs(d.defaultTablespace, u.defaultTablespace)
          && Differs(d.password, u.password) ==>
            Render(plan.value) == "ALTER USER " + name + " IDENTIFIED BY VALUES '" + d.password.value + "'")
  {
    var plan := Decide(name, d, Some(u));
    if Differs(d.temporaryTablespace, u.temporaryTablespace) {
      var t := d.temporaryTablespace.value;
      assert ClausesText([TemporaryTablespace(t)]) == ClauseText(TemporaryTablespace(t));
      assert ("ALTER USER " + name) + (" TEMPORARY TABLESPACE " + t) == "ALTER USER " + name + " TEMPORARY TABLESPACE " + t;
    } else if Differs(d.defaultTablespace, u.defaultTablespace) {
      var t := d.defaultTablespace.value;
      assert ClausesText([DefaultTablespace(t)]) == ClauseText(DefaultTablespace(t));
      assert ("ALTER USER " + name) + (" DEFAULT TABLESPACE " + t) == "ALTER USER " + name + " DEFAULT TABLESPACE " + t;
    } else if Differs(d.password, u.password) {
      var h := d.password.value;
      assert ClausesText([IdentifiedByValues(h)]) == ClauseText(IdentifiedByValues(h));
      assert ("ALTER USER " + name) + (" IDENTIFIED BY VALUES '" + h + "'")
          == "ALTER USER " + name + " IDENTIFIED BY VALUES '" + h + "'";
    }
  }

  /**
   * When no provided field differs, an existing account is dropped for
   * `absent`, gets the bare lock-state ALTER exactly when its lock state
   * disagrees, and is otherwise left alone.
   */
  lemma FieldsAgree(name: string, d: Desired, u: UserRecord)
    requires !Differs(d.temporaryTablespace, u.temporaryTablespace)
    requires !Differs(d.defaultTablespace, u.defaultTablespace)
    requires !Differs(d.password, u.password)
    ensures var plan := Decide(name, d, Some(u));
      && (d.state == Absent ==> plan.Some? && Render(plan.value) == "DROP USER \"" + name + "\" CASCADE")
      && (d.state != Absent ==> (plan.Some? <==> LockMismatch(d.state, u.accountStatus)))
      && (d.state != Absent && plan.Some? ==> Render(plan.value) == "ALTER USER " + name)
  {
  }

  /** What a pass reports, or the statement whose failure aborted it. */
  datatype Outcome =
    | Reported(changed: bool, user: Option<UserRecord>)
    | StatementFailed(sql: string)

  /** The database as the module sees it: the user catalog and the statements sent to it. */
  class Database {
    var users: map<string, Row>
    var log: seq<string>
    /** The table after one statement, or `None` when the database rejects it. */
    const apply: (string, map<string, Row>) -> Option<map<string, Row>>

    constructor (users: map<string, Row>, apply: (string, map<string, Row>) -> Option<map<string, Row>>)
      ensures this.users == users && this.apply == apply && log == []
    {
      this.users := users;
      this.apply := apply;
      log := [];
    }

    /** `getUser`: look the exact name up and map the row to a record. */
    method GetUser(name: string) returns (user: Option<UserRecord>)
      ensures user.Some? <==> name in users
      ensures user.Some? ==> user.value.name == name && RowOf(user.value) == users[name]
    {
      var row := Fetch(users, name);
      user := ReadUser(name, row);
    }

    /** `executeSQL`: send one statement; a rejected statement leaves the table as it was. */
    method Execute(sql: string) returns (ok: bool)
      modifies this
      ensures log == old(log) + [sql]
      ensures ok <==> apply(sql, old(users)).Some?
      ensures users == if ok then apply(sql, old(users)).value else old(users)
    {
      log := log + [sql];
      var next := apply(sql, users);
      ok := next.Some?;
      if ok {
        users := next.value;
      }
    }

    /**
     * `ensure`: one reconciliation pass.  At most one statement is sent;
     * `changed` is set exactly when one was and it succeeded, and the
     * reported record is a fresh read of the upper-cased name.
     */
    method Ensure(rawName: string, d: Desired) returns (outcome: Outcome)
      modifies this
      ensures var name := Upper(rawName);
        var plan := Decide(name, d, ReadUser(name, Fetch(old(users), name)));
        match plan
        case None =>
          && users == old(users) && log == old(log)
          && outcome == Reported(false, ReadUser(name, Fetch(users, name)))
        case Some(s) =>
          && log == old(log) + [Render(s)]
          && (if apply(Render(s), old(users)).Some? then
                && users == apply(Render(s), old(users)).value
                && outcome == Reported(true, ReadUser(name, Fetch(users, name)))
              else
                users == old(users) && outcome == StatementFailed(Render(s)))
    {
      var name := Upper(rawName);
      var user := GetUser(name);
      var sql := PlanStatement(name, d, user);
      var changed := false;
      if sql.Some? && sql.value != "" {
        var ok := Execute(sql.value);
        if !ok {
          return StatementFailed(sql.value);
        }
        changed := true;
      }
      var after := GetUser(name);
      outcome := Reported(changed, after);
    }
  }
}
