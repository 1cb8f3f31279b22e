/**
 * The statement builders of the Oracle user module: the text of the
 * CREATE USER, DROP USER and ALTER USER statements, built from optional
 * arguments that are appended only when they are truthy, in a fixed order.
 *
 * Beside the builders sits a structured view of the statements (a list of
 * clauses and a renderer); the builders are proved to produce exactly the
 * rendering of the clauses whose arguments are present.
 */
module OracleSql {
  import opened Wrappers

  /** Python truthiness of an optional string: `None` and `""` are both absent. */
  predicate Truthy(o: Option<string>) {
    o.Some? && o.value != ""
  }

  /** What `str.format` writes for an optional string: `None` becomes the text `None`. */
  function Show(o: Option<string>): string {
    match o
    case None => "None"
    case Some(s) => s
  }

  /** `str.upper` on one character, restricted to ASCII letters. */
  function UpperChar(c: char): (u: char)
    ensures !IsLower(u)
    ensures !IsLower(c) ==> u == c
    ensures IsLower(c) ==> u as int == c as int - ('a' as int - 'A' as int)
  {
    if 'a' <= c <= 'z' then (c as int - 32) as char else c
  }

  /** `str.upper`, restricted to ASCII letters: each character is upper-cased in place. */
  function Upper(s: string): (r: string)
    ensures |r| == |s|
    ensures forall i :: 0 <= i < |s| ==> r[i] == UpperChar(s[i])
  {
    if s == [] then [] else [UpperChar(s[0])] + Upper(s[1..])
  }

  predicate IsLower(c: char) {
    'a' <= c <= 'z'
  }

  /** An upper-cased name holds no lower-case ASCII letter; a corollary of `Upper`'s contract. */
  lemma UpperHasNoLowercase(s: string)
    ensures forall i :: 0 <= i < |Upper(s)| ==> !IsLower(Upper(s)[i])
  {
  }

  /**
   * Upper-casing twice is upper-casing once: `app_user` and `APP_USER` name
   * the same account.  A corollary of `Upper`'s contract.
   */
  lemma UpperIdempotent(s: string)
    ensures Upper(Upper(s)) == Upper(s)
  {
  }

  /** One optional clause of a CREATE USER or ALTER USER statement. */
  datatype Clause =
    | IdentifiedByValues(hash: string)
    | DefaultTablespace(ts: string)
    | TemporaryTablespace(ts: string)
    | Account(status: string)

  /** The position of a clause kind in the fixed clause order. */
  function Rank(c: Clause): nat {
    match c
    case IdentifiedByValues(_) => 0
    case DefaultTablespace(_) => 1
    case TemporaryTablespace(_) => 2
    case Account(_) => 3
  }

  /** The text a clause carries. */
  function Payload(c: Clause): string {
    match c
    case IdentifiedByValues(h) => h
    case DefaultTablespace(t) => t
    case TemporaryTablespace(t) => t
    case Account(s) => s
  }

  /** The builder argument that supplies a clause of the kind of `c`. */
  function ArgumentFor(c: Clause, userpass: Option<string>, defaultTs: Option<string>,
                       temporaryTs: Option<string>, status: Option<string>): Option<string>
  {
    match c
    case IdentifiedByValues(_) => userpass
    case DefaultTablespace(_) => defaultTs
    case TemporaryTablespace(_) => temporaryTs
    case Account(_) => status
  }

  function ClauseText(c: Clause): string {
    match c
    case IdentifiedByValues(h) => " IDENTIFIED BY VALUES '" + h + "'"
    case DefaultTablespace(t) => " DEFAULT TABLESPACE " + t
    case TemporaryTablespace(t) => " TEMPORARY TABLESPACE " + t
    case Account(s) => " ACCOUNT " + s
  }

  function ClausesText(cs: seq<Clause>): string {
    if cs == [] then "" else ClauseText(cs[0]) + ClausesText(cs[1..])
  }

  lemma {:induction false} ClausesTextAppend(a: seq<Clause>, b: seq<Clause>)
    ensures ClausesText(a + b) == ClausesText(a) + ClausesText(b)
  {
    if a == [] {
      assert a + b == b;
    } else {
      assert (a + b)[0] == a[0];
      assert (a + b)[1..] == a[1..] + b;
      ClausesTextAppend(a[1..], b);
    }
  }

  /** The text of a one-clause list is the text of that clause. */
  lemma ClausesTextSingle(c: Clause)
    ensures ClausesText([c]) == ClauseText(c)
  {
    assert [c][1..] == [];
  }

  /**
   * Regrouping a concatenation.  The solver knows this, but handing it the
   * instance keeps the builder proofs within their resource budget.
   */
  lemma ConcatAssoc(a: string, b: string, c: string)
    ensures (a + b) + c == a + (b + c)
  {
  }

  /** One step of a builder: appending a clause when its condition holds. */
  lemma AppendClauseIf(base: string, cs: seq<Clause>, sql: string, b: bool, c: Clause)
    requires sql == base + ClausesText(cs)
    ensures (if b then sql + ClauseText(c) else sql) == base + ClausesText(cs + (if b then [c] else []))
  {
    if b {
      ClausesTextAppend(cs, [c]);
      ClausesTextSingle(c);
      ConcatAssoc(base, ClausesText(cs), ClauseText(c));
    } else {
      assert cs + [] == cs;
    }
  }

  /** A builder step that appends a keyword and a value, as the tablespace and account clauses do. */
  lemma AppendIfStep(base: string, cs: seq<Clause>, sql: string, keyword: string, arg: Option<string>, c: Clause)
    requires sql == base + ClausesText(cs)
    requires ClauseText(c) == keyword + Show(arg)
    ensures AppendIf(sql, keyword, arg) == base + ClausesText(cs + (if Truthy(arg) then [c] else []))
  {
    AppendClauseIf(base, cs, sql, Truthy(arg), c);
    if Truthy(arg) {
      assert (sql + keyword) + arg.value == sql + (keyword + arg.value);
    }
  }

  /** The builder step that appends the quoted password hash. */
  lemma AppendPasswordIf(base: string, cs: seq<Clause>, sql: string, b: bool, h: string)
    requires sql == base + ClausesText(cs)
    ensures (if b then sql + " IDENTIFIED BY VALUES '" + h + "'" else sql)
         == base + ClausesText(cs + (if b then [IdentifiedByValues(h)] else []))
  {
    AppendClauseIf(base, cs, sql, b, IdentifiedByValues(h));
    if b {
      assert (sql + " IDENTIFIED BY VALUES '" + h) + "'" == sql + (" IDENTIFIED BY VALUES '" + h + "'");
    }
  }

  /** A user statement, before it is written out as text. */
  datatype Statement =
    | Create(name: string, hash: string, clauses: seq<Clause>)
    | Alter(name: string, clauses: seq<Clause>)
    | Drop(name: string)

  function Render(s: Statement): string {
    match s
    case Create(n, h, cs) => "CREATE USER " + n + ClauseText(IdentifiedByValues(h)) + ClausesText(cs)
    case Alter(n, cs) => "ALTER USER " + n + ClausesText(cs)
    case Drop(n) => "DROP USER \"" + n + "\" CASCADE"
  }

  /**
   * The clauses whose argument is truthy, in the fixed order IDENTIFIED BY
   * VALUES, DEFAULT TABLESPACE, TEMPORARY TABLESPACE, ACCOUNT.
   */
  function PresentClauses(userpass: Option<string>, defaultTs: Option<string>,
                          temporaryTs: Option<string>, status: Option<string>): seq<Clause>
  {
    (if Truthy(userpass) then [IdentifiedByValues(userpass.value)] else [])
    + (if Truthy(defaultTs) then [DefaultTablespace(defaultTs.value)] else [])
    + (if Truthy(temporaryTs) then [TemporaryTablespace(temporaryTs.value)] else [])
    + (if Truthy(status) then [Account(status.value)] else [])
  }

  /** The builders' repeated step: append the keyword and the argument when the argument is truthy. */
  function AppendIf(sql: string, keyword: string, arg: Option<string>): string {
    if Truthy(arg) then sql + keyword + arg.value else sql
  }

  /** `getCreateUserSQL`: the password is always written, even when it is absent. */
  function CreateUserSql(name: string, userpass: Option<string>, defaultTs: Option<string>,
                         temporaryTs: Option<string>, status: Option<string>): string
  {
    var sql := "CREATE USER " + name + " IDENTIFIED BY VALUES '" + Show(userpass) + "'";
    var sql := AppendIf(sql, " DEFAULT TABLESPACE ", defaultTs);
    var sql := AppendIf(sql, " TEMPORARY TABLESPACE ", temporaryTs);
    AppendIf(sql, " ACCOUNT ", status)
  }

  /** `getDropUserSQL`: the name is quoted and owned objects are dropped too. */
  function DropUserSql(name: string): string
  {
    "DROP USER \"" + name + "\" CASCADE"
  }

  /** `getUpdateUserSQL`: the account status argument is accepted and never used. */
  function UpdateUserSql(name: string, userpass: Option<string>, defaultTs: Option<string>,
                         temporaryTs: Option<string>, status: Option<string>): string
  {
    var sql := "ALTER USER " + name;
    var sql := if Truthy(userpass) then sql + " IDENTIFIED BY VALUES '" + userpass.value + "'" else sql;
    var sql := AppendIf(sql, " DEFAULT TABLESPACE ", defaultTs);
    AppendIf(sql, " TEMPORARY TABLESPACE ", temporaryTs)
  }

  /** Clause kinds strictly increase in the fixed order. */
  predicate Ordered(cs: seq<Clause>) {
    forall i, j :: 0 <= i < j < |cs| ==> Rank(cs[i]) < Rank(cs[j])
  }

  /**
   * The present clauses follow the fixed order IDENTIFIED BY VALUES,
   * DEFAULT TABLESPACE, TEMPORARY TABLESPACE, ACCOUNT.
   */
  lemma PresentClausesOrdered(userpass: Option<string>, defaultTs: Option<string>,
                              temporaryTs: Option<string>, status: Option<string>)
    ensures Ordered(PresentClauses(userpass, defaultTs, temporaryTs, status))
  {
  }

  /** Every present clause carries its own argument, which is non-empty. */
  lemma PresentClausesCarryArguments(userpass: Option<string>, defaultTs: Option<string>,
                                     temporaryTs: Option<string>, status: Option<string>)
    ensures forall c :: c in PresentClauses(userpass, defaultTs, temporaryTs, status) ==>
      ArgumentFor(c, userpass, defaultTs, temporaryTs, status) == Some(Payload(c)) && Payload(c) != ""
  {
    var p := if Truthy(userpass) then [IdentifiedByValues(userpass.value)] else [];
    var d := if Truthy(defaultTs) then [DefaultTablespace(defaultTs.value)] else [];
    var t := if Truthy(temporaryTs) then [TemporaryTablespace(temporaryTs.value)] else [];
    var a := if Truthy(status) then [Account(status.value)] else [];
    var cs := PresentClauses(userpass, defaultTs, temporaryTs, status);
    assert cs == p + d + t + a;
    forall c | c in cs
      ensures ArgumentFor(c, userpass, defaultTs, temporaryTs, status) == Some(Payload(c)) && Payload(c) != ""
    {
      assert c in p || c in d || c in t || c in a;
    }
  }

  /** A clause kind is present exactly when its argument is truthy. */
  lemma PresentClausesExactly(userpass: Option<string>, defaultTs: Option<string>,
                              temporaryTs: Option<string>, status: Option<string>)
    ensures var cs := PresentClauses(userpass, defaultTs, temporaryTs, status);
      && (Truthy(userpass) <==> IdentifiedByValues(Show(userpass)) in cs)
      && (Truthy(defaultTs) <==> DefaultTablespace(Show(defaultTs)) in cs)
      && (Truthy(temporaryTs) <==> TemporaryTablespace(Show(temporaryTs)) in cs)
      && (Truthy(status) <==> Account(Show(status)) in cs)
  {
  }

  lemma CreateUserSqlShape(name: string, userpass: Option<string>, defaultTs: Option<string>,
                           temporaryTs: Option<string>, status: Option<string>)
    ensures CreateUserSql(name, userpass, defaultTs, temporaryTs, status)
         == Render(Create(name, Show(userpass), PresentClauses(None, defaultTs, temporaryTs, status)))
  {
    var base := "CREATE USER " + name + ClauseText(IdentifiedByValues(Show(userpass)));
    AppendPasswordIf("CREATE USER " + name, [], "CREATE USER " + name, true, Show(userpass));
    var s0 := "CREATE USER " + name + " IDENTIFIED BY VALUES '" + Show(userpass) + "'";
    assert s0 == base + ClausesText([]);
    var d := if Truthy(defaultTs) then [DefaultTablespace(defaultTs.value)] else [];
    var t := if Truthy(temporaryTs) then [TemporaryTablespace(temporaryTs.value)] else [];
    var a := if Truthy(status) then [Account(status.value)] else [];
    AppendIfStep(base, [], s0, " DEFAULT TABLESPACE ", defaultTs, DefaultTablespace(Show(defaultTs)));
    var s1 := AppendIf(s0, " DEFAULT TABLESPACE ", defaultTs);
    AppendIfStep(base, [] + d, s1, " TEMPORARY TABLESPACE ", temporaryTs, TemporaryTablespace(Show(temporaryTs)));
    var s2 := AppendIf(s1, " TEMPORARY TABLESPACE ", temporaryTs);
    AppendIfStep(base, [] + d + t, s2, " ACCOUNT ", status, Account(Show(status)));
    assert PresentClauses(None, defaultTs, temporaryTs, status) == [] + d + t + a;
  }

  /**
   * The DROP text is the rendering of a drop of the name, and the name sits
   * between two double quotes right after `DROP USER `.
   */
  lemma DropUserSqlShape(name: string)
    ensures DropUserSql(name) == Render(Drop(name))
    ensures var sql := DropUserSql(name);
      && |sql| == |name| + 20
      && sql[..10] == "DROP USER "
      && sql[10] == '"' && sql[11..11 + |name|] == name && sql[11 + |name|] == '"'
      && sql[12 + |name|..] == " CASCADE"
  {
  }

  /** The ALTER text carries the present clauses in order, and the account status is ignored. */
  lemma UpdateUserSqlShape(name: string, userpass: Option<string>, defaultTs: Option<string>,
                           temporaryTs: Option<string>, status: Option<string>)
    ensures UpdateUserSql(name, userpass, defaultTs, temporaryTs, status)
         == Render(Alter(name, PresentClauses(userpass, defaultTs, temporaryTs, None)))
  {
    var base := "ALTER USER " + name;
    assert base == base + ClausesText([]);
    var p := if Truthy(userpass) then [IdentifiedByValues(userpass.value)] else [];
    var d := if Truthy(defaultTs) then [DefaultTablespace(defaultTs.value)] else [];
    var t := if Truthy(temporaryTs) then [TemporaryTablespace(temporaryTs.value)] else [];
    AppendPasswordIf(base, [], base, Truthy(userpass), Show(userpass));
    var s1 := if Truthy(userpass) then base + " IDENTIFIED BY VALUES '" + Show(userpass) + "'" else base;
    assert [] + p == p;
    AppendIfStep(base, p, s1, " DEFAULT TABLESPACE ", defaultTs, DefaultTablespace(Show(defaultTs)));
    var s2 := AppendIf(s1, " DEFAULT TABLESPACE ", defaultTs);
    AppendIfStep(base, p + d, s2, " TEMPORARY TABLESPACE ", temporaryTs, TemporaryTablespace(Show(temporaryTs)));
    assert PresentClauses(userpass, defaultTs, temporaryTs, None) == p + d + t + [];
    assert p + d + t + [] == p + d + t;
  }

  /** `text` ends with `suffix`. */
  predicate EndsWith(text: string, suffix: string) {
    |suffix| <= |text| && text[|text| - |suffix|..] == suffix
  }

  /** A CREATE built with a truthy account status ends with its ACCOUNT clause. */
  lemma CreateEndsWithAccount(name: string, userpass: Option<string>, defaultTs: Option<string>,
                              temporaryTs: Option<string>, status: Option<string>)
    requires Truthy(status)
    ensures EndsWith(CreateUserSql(name, userpass, defaultTs, temporaryTs, status), " ACCOUNT " + status.value)
  {
  }

  /** The lock-state ALTER: without the other arguments the text is the bare `ALTER USER <name>`. */
  lemma LockAlterIsBare(name: string, status: Option<string>)
    ensures UpdateUserSql(name, None, None, None, status) == "ALTER USER " + name
  {
  }
}
