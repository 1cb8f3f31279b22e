# Oracle user account reconciliation, in Dafny

A model of the core of the Ansible module `oracle_user`. The module brings one Oracle
database account in line with a desired state: whether it exists, its password hash,
its default and temporary tablespaces, and whether it is locked. One pass does this:

1. It upper-cases the account name.
2. It reads the account record.
3. It chooses at most one SQL statement.
4. It executes that statement.
5. It reads the record again and reports `changed` together with that record.

Modules:

- `Wrappers` (`wrappers.dfy`): the `Option` type. It stands for Python's `None` versus
  a present value.
- `OracleSql` (`oracle_sql.dfy`): Python truthiness of optional strings, ASCII
  upper-casing, and the three statement builders (CREATE USER, DROP USER, ALTER USER).
  It also holds a structured view of a statement (`Statement`, a list of `Clause`s, and
  `Render`). The ALTER builder is proved to produce exactly the rendering of the clauses
  whose arguments are truthy, in the fixed order. The CREATE builder is proved to do the
  same after a password clause that is always written, with a missing password written as
  `None`. The DROP builder has no clauses: it is proved to be a fixed template around the
  quoted name.
- `OracleState` (`oracle_state.dfy`): the `state` option as the enum `Lifecycle`, and
  `mapState`. It also holds `mapAccountStatus`, including its two return types: a list for
  `OPEN` and the string `'locked'` otherwise. The caller's `in` test is therefore list
  membership in one case and substring containment in the other; both are modelled
  (`Contains`, `IsSubstring`).
- `OracleUser` (`oracle_user.dfy`):
  - the row-to-record mapping of `getUser`;
  - `Decide`, a reference statement of which statement a pass issues, written as a
    precedence table;
  - `PlanStatement`, the statement selection written as the source writes it (a chain of
    `if`s that overwrite `sql`), proved equal to the rendering of `Decide`;
  - the class `Database`. It holds the user catalog (`users`, a map from account name to
    the looked-up row) and the log of statements sent. Its method `Ensure` is the
    reconciliation pass.

The database's reaction to a statement is not modelled. It is the constant function
`apply` of a `Database`, which gives the catalog after a statement, or `None` when the
database rejects it. A rejected statement aborts the module (`StatementFailed`); no
record is reported. The reported record is otherwise whatever the second lookup returns.

Behaviour as written, which the model keeps:

- **Last diff wins.** The field checks are independent `if`s, so the last one that fires
  chooses the statement. Precedence, highest first: temporary tablespace, default
  tablespace, password, then the DROP or the lock-state ALTER. A differing password even
  replaces the DROP of an account whose state is `absent` (`LastDiffWins`). Field
  differences also override a lock-state mismatch.
- **The lock-state ALTER has no ACCOUNT clause.** `getUpdateUserSQL` ignores its
  `account_status` argument, so the lock-state branch sends the bare text
  `ALTER USER <NAME>` (`LockAlterIsBare`, `FieldsAgree`). That statement does not change
  the lock state. So when the fields agree and the lock state does not, every pass sends
  it again: each such pass reports `changed` if the database accepts it, and aborts if the
  database rejects it.
- **Falsy means absent.** `None` and `""` both count as "not given" (`Truthy`). The CREATE
  statement always writes the password, so a missing one is written as the text `None`
  (`Show`).
- **Repeated passes need not converge in one more step.** When both tablespaces differ,
  the first pass changes only the temporary tablespace. A second pass is needed for the
  default tablespace.

## Model

| member | source | states |
|---|---|---|
| OracleSql.UpperChar | oracle_user.py:138 | the upper-cased character is never an ASCII lower-case letter; a lower-case letter becomes its capital, and every other character is unchanged |
| OracleSql.Upper | oracle_user.py:138 | the upper-cased name has the length of the given one, and each of its characters is the upper-cased character at the same position of the given name. So two names give the same upper-cased name only if their characters agree position by position after upper-casing; `APP` and `BOB` stay distinct |
| OracleSql.UpperIdempotent | oracle_user.py:138 | upper-casing an already upper-cased name changes nothing, so `app_user` and `APP_USER` name the same account |
| OracleSql.UpperHasNoLowercase | oracle_user.py:138 | the normalised name contains no lower-case letter |
| OracleSql.Truthy | oracle_user.py:91-97 | Python's `if x:` on an optional argument: `None` and `""` are both falsy; specified by PresentClausesExactly, whose clauses are present exactly when their argument is truthy |
| OracleSql.Show | oracle_user.py:89-90 | what `str.format` writes for the password, with `None` written as the text `None`; specified by CreateUserSqlShape |
| OracleSql.PresentClausesOrdered | oracle_user.py:88-119 | the optional clauses appear in the fixed order IDENTIFIED BY VALUES, DEFAULT TABLESPACE, TEMPORARY TABLESPACE, ACCOUNT |
| OracleSql.PresentClausesExactly | oracle_user.py:88-119 | a clause kind is present exactly when its argument is truthy (neither `None` nor empty) |
| OracleSql.PresentClausesCarryArguments | oracle_user.py:88-119 | every present clause carries its own argument, and that argument is non-empty |
| OracleSql.CreateUserSql | oracle_user.py:88-100 | `getCreateUserSQL`, written as its sequence of conditional appends; specified by CreateUserSqlShape and CreateEndsWithAccount |
| OracleSql.DropUserSql | oracle_user.py:103-105 | `getDropUserSQL`; specified by DropUserSqlShape |
| OracleSql.UpdateUserSql | oracle_user.py:108-119 | `getUpdateUserSQL`, written as its sequence of conditional appends; specified by UpdateUserSqlShape and LockAlterIsBare |
| OracleSql.CreateUserSqlShape | oracle_user.py:88-100 | the CREATE text is `CREATE USER <name> IDENTIFIED BY VALUES '<pass>'` followed by exactly the truthy DEFAULT TABLESPACE, TEMPORARY TABLESPACE and ACCOUNT clauses, in that order; an absent password is written as `None` |
| OracleSql.DropUserSqlShape | oracle_user.py:103-105 | the DROP text is the rendering of a drop of the name; it is `DROP USER `, a double quote, the name itself, a double quote and ` CASCADE`, each at its own position |
| OracleSql.UpdateUserSqlShape | oracle_user.py:108-119 | the ALTER text is `ALTER USER <name>` followed by exactly the truthy IDENTIFIED BY VALUES, DEFAULT TABLESPACE and TEMPORARY TABLESPACE clauses, in order; the account status argument never appears |
| OracleSql.LockAlterIsBare | oracle_user.py:108-119 | with only an account status, the ALTER text is the bare `ALTER USER <name>` |
| OracleSql.CreateEndsWithAccount | oracle_user.py:97-100 | a CREATE built with a truthy account status ends with ` ACCOUNT <status>` |
| OracleState.MapState | oracle_user.py:122-125 | the result is `UNLOCK` exactly for `present` and `unlocked`, and `LOCK` exactly for `absent` and `locked` |
| OracleState.MapAccountStatus | oracle_user.py:128-131 | `mapAccountStatus`, returning a list for `OPEN` and a string otherwise; specified by AccountStatusSatisfies |
| OracleState.IsSubstring | oracle_user.py:156 | Python's `in` between two strings, as a scan; specified by IsSubstringOccurs |
| OracleState.IsSubstringOccurs | oracle_user.py:156 | the scan holds exactly when the needle occurs at some position of the string |
| OracleState.Contains | oracle_user.py:156 | Python's `in` on the list or string `mapAccountStatus` returns; specified by AccountStatusSatisfies and LockBranchTaken |
| OracleState.AccountStatusSatisfies | oracle_user.py:128-131 | through Python's `in` (list membership for `OPEN`, substring of `'locked'` otherwise), an OPEN status satisfies exactly `present` and `unlocked`, and any other status exactly `locked` |
| OracleState.LockBranchTaken | oracle_user.py:156-157 | for a state other than `absent`, the lock-state branch is taken exactly when (status is OPEN) equals (state is `locked`) |
| OracleUser.RecordOfRow | oracle_user.py:76-81 | the record carries the looked-up name, and its fields are the row's four columns in select order; nothing of the row is lost |
| OracleUser.ReadUser | oracle_user.py:74-83 | no row gives no record, and a row gives the record of that row under the given name |
| OracleUser.Decide | oracle_user.py:146-165 | every chosen statement names the given account, and every chosen ALTER has at most one clause |
| OracleUser.PlanStatement | oracle_user.py:146-165 | the overwriting `if` chain selects exactly the rendering of the precedence table `Decide` |
| OracleUser.MissingAccount | oracle_user.py:146-152 | a missing account gets no statement exactly when its state is `absent`; otherwise it gets a CREATE that ends with ` ACCOUNT LOCK` for `locked` and ` ACCOUNT UNLOCK` for the other states |
| OracleUser.LastDiffWins | oracle_user.py:153-165 | for an existing account, a differing temporary tablespace yields only the TEMPORARY TABLESPACE ALTER; otherwise a differing default tablespace yields only that ALTER; otherwise a differing password yields only the password ALTER, whatever the state, `absent` included |
| OracleUser.FieldsAgree | oracle_user.py:153-157 | when no provided field differs, an existing account is dropped with `DROP USER "<NAME>" CASCADE` for `absent`; otherwise it gets the bare `ALTER USER <NAME>` exactly when its lock state disagrees, and no statement at all when it agrees |
| OracleUser.Database.GetUser | oracle_user.py:68-83 | the record exists exactly when the catalog has the name, and then it is that row's record under that name |
| OracleUser.Database.Execute | oracle_user.py:59-65 | the statement is appended to the log; on success the catalog becomes `apply`'s result, on rejection it is unchanged |
| OracleUser.Database.Ensure | oracle_user.py:134-169 | a pass sends at most one statement, namely the rendering of `Decide` on the upper-cased name and the record read first. With no statement, nothing changes and `changed` is false. With a statement, it is logged; on success `changed` is true and the catalog is `apply`'s result; on rejection the pass aborts. The reported record is a fresh read of the upper-cased name |

## Left out

- Connection set-up (`createConnection`), the cursor and query of `getUser`, and the
  driver call of `executeSQL` are driver I/O. They are replaced by the `users` map, the
  exact-name lookup `Fetch`, and the `apply` effect of `Database`.
- Oracle's own semantics of the executed statements. The model does not claim that the
  second read reflects the change; `apply` is a parameter of the model.
- A failing lookup in `getUser` (its `fail_json` path) is not modelled: the lookup is a
  total map. A failing statement is modelled as the aborting outcome `StatementFailed`.
- `main`, the `AnsibleModule` argument parsing, its defaults and `choices` check,
  `exit_json`, the `cx_Oracle` import detection and the `DOCUMENTATION` string are host
  glue. The `choices` check is reflected only in `state` being the four-valued `Lifecycle`.
- Upper: Python's `str.upper` is modelled for ASCII letters only. Non-ASCII case mapping
  is not modelled.
- Concurrent passes against the same account are not modelled. The module does no
  coordination.
