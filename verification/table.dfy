/** The two input tables and the joined table the exporter builds from them:
    duplicate resolution on the roster (`sort_values('matricula',
    ascending=False)` then `drop_duplicates('cpf', keep='first')`), the left
    joins on `cpf` in either direction (`pd.merge(..., how='left')`) and the
    final `sort_values('nome', na_position='last')`. */
module Table {
  import opened Wrappers
  import opened Text
  import Sorting
  import Eligibility

  /** A roster row. `cpf` is kept as text (leading zeros matter); `nome` may
      be missing; `salario` is the amount in whole cents, `int(value * 100)`,
      and `None` when the cell is missing (the two configurable versions also
      read an amount that does not parse as `None`). */
  datatype Employee = Employee(cpf: string, nome: Option<string>, matricula: int, salario: Option<int>)

  /** A row of the bank's account-return table, all columns read as text. */
  datatype Account = Account(cpf: string, banco: string, agencia: string, conta: string)

  /** A row of the joined table: the side that found no match has its
      columns missing (NaN). */
  datatype Row = Row(
    cpf: string,
    nome: Option<string>,
    matricula: Option<int>,
    salario: Option<int>,
    banco: Option<string>,
    agencia: Option<string>,
    conta: Option<string>)

  /** `str(cell)` of a text cell: a missing cell (NaN) prints as "nan". */
  function CellText(c: Option<string>): (r: string)
    ensures c.Some? ==> r == c.value
    ensures c.None? ==> r == "nan"
  {
    match c
    case Some(s) => s
    case None => "nan"
  }

  /** `str(cell)` of an integer cell. */
  function NumberText(c: Option<int>): (r: string)
    ensures c.Some? ==> r == IntToString(c.value)
    ensures c.None? ==> r == "nan"
  {
    match c
    case Some(n) => IntToString(n)
    case None => "nan"
  }

  predicate FromAccount(r: Row, a: Account) {
    r.cpf == a.cpf && r.banco == Some(a.banco) && r.agencia == Some(a.agencia) && r.conta == Some(a.conta)
  }

  predicate FromEmployee(r: Row, e: Employee) {
    r.cpf == e.cpf && r.nome == e.nome && r.matricula == Some(e.matricula) && r.salario == e.salario
  }

  predicate NoEmployee(r: Row) {
    r.nome.None? && r.matricula.None? && r.salario.None?
  }

  predicate NoAccount(r: Row) {
    r.banco.None? && r.agencia.None? && r.conta.None?
  }

  /** The bank columns, in the order the fill and the override visit them. */
  const BankColumns: seq<string> := ["banco", "agencia", "conta"]

  /** The 38/39 rule of the accounts-driving versions, decided once per row:
      the employee was not found (the joined row has no name), or the
      stripped account begins with 38 or 39. */
  predicate UsesOverride(row: Row) {
    Eligibility.DecideByMatch(row.nome.Some?, CellText(row.conta)) == Eligibility.UseOverride
  }

  predicate UniqueCpfs(s: seq<Employee>) {
    forall i, j :: 0 <= i < j < |s| ==> s[i].cpf != s[j].cpf
  }

  // ---------------------------------------------------------------------
  // Duplicate resolution

  /** Descending by registration number. */
  predicate RegistrationLe(a: Employee, b: Employee) {
    a.matricula >= b.matricula
  }

  lemma RegistrationOrderIsTotal()
    ensures Sorting.TotalPreorder(RegistrationLe)
  {
  }

  /** `sort_values(by='matricula', ascending=False)`. */
  function SortByRegistration(emps: seq<Employee>): (r: seq<Employee>)
    ensures multiset(r) == multiset(emps)
    ensures forall i, j :: 0 <= i < j < |r| ==> r[i].matricula >= r[j].matricula
  {
    RegistrationOrderIsTotal();
    Sorting.Sort(emps, RegistrationLe)
  }

  /** No earlier row of `s` has the cpf of `s[i]`. */
  predicate IsFirstOfCpf(s: seq<Employee>, i: int) {
    0 <= i < |s| && forall j :: 0 <= j < i ==> s[j].cpf != s[i].cpf
  }

  function Cpfs(s: seq<Employee>): set<string> {
    set e | e in s :: e.cpf
  }

  /** `drop_duplicates(subset='cpf', keep='first')`: the rows that are the
      first of their cpf, in their original order. */
  function KeepFirstByCpf(s: seq<Employee>): (r: seq<Employee>)
    ensures UniqueCpfs(r)
    ensures Cpfs(r) == Cpfs(s)
    ensures forall d :: d in r ==> exists i :: IsFirstOfCpf(s, i) && s[i] == d
  {
    if s == [] then []
    else
      var init := s[..|s| - 1];
      var last := s[|s| - 1];
      var kept := KeepFirstByCpf(init);
      assert s == init + [last];
      assert Cpfs(s) == Cpfs(init) + {last.cpf};
      assert forall i :: IsFirstOfCpf(init, i) ==> IsFirstOfCpf(s, i);
      if last.cpf in Cpfs(init) then
        kept
      else
        assert IsFirstOfCpf(s, |s| - 1);
        assert Cpfs(kept + [last]) == Cpfs(kept) + {last.cpf};
        kept + [last]
  }

  /** The roster as the exporter cleans it: the row with the greatest
      registration number of each cpf. */
  function Deduplicate(emps: seq<Employee>): seq<Employee> {
    KeepFirstByCpf(SortByRegistration(emps))
  }

  lemma PermutationKeepsCpfs(a: seq<Employee>, b: seq<Employee>)
    requires multiset(a) == multiset(b)
    ensures Cpfs(a) == Cpfs(b)
    ensures forall e :: e in a <==> e in b
  {
    forall e ensures e in a <==> e in b {
      assert e in a <==> e in multiset(a);
      assert e in b <==> e in multiset(b);
    }
  }

  /** Keeping the first row of each cpf of a table sorted by descending
      registration keeps the greatest registration of each cpf. */
  lemma FirstOfSortedIsGreatest(sorted: seq<Employee>, i: int, j: int)
    requires forall x, y :: 0 <= x < y < |sorted| ==> sorted[x].matricula >= sorted[y].matricula
    requires IsFirstOfCpf(sorted, i)
    requires 0 <= j < |sorted| && sorted[j].cpf == sorted[i].cpf
    ensures sorted[i].matricula >= sorted[j].matricula
  {
  }

  /** After clean-up there is exactly one row per cpf of the roster, taken
      from the roster, and it carries that cpf's greatest registration. */
  lemma DeduplicateKeepsGreatestRegistration(emps: seq<Employee>)
    ensures UniqueCpfs(Deduplicate(emps))
    ensures forall d :: d in Deduplicate(emps) ==> d in emps
    ensures Cpfs(Deduplicate(emps)) == Cpfs(emps)
    ensures forall d, e :: d in Deduplicate(emps) && e in emps && d.cpf == e.cpf ==> d.matricula >= e.matricula
  {
    var sorted := SortByRegistration(emps);
    var r := KeepFirstByCpf(sorted);
    PermutationKeepsCpfs(sorted, emps);
    forall d | d in r ensures d in emps {
      var i :| IsFirstOfCpf(sorted, i) && sorted[i] == d;
    }
    forall d, e | d in r && e in emps && d.cpf == e.cpf ensures d.matricula >= e.matricula {
      var i :| IsFirstOfCpf(sorted, i) && sorted[i] == d;
      var j :| 0 <= j < |sorted| && sorted[j] == e;
      FirstOfSortedIsGreatest(sorted, i, j);
    }
  }

  /** The switch some variants hard-code: drop duplicates, or only reorder. */
  function PrepareEmployees(emps: seq<Employee>, removeDuplicates: bool): seq<Employee> {
    if removeDuplicates then Deduplicate(emps) else SortByRegistration(emps)
  }

  // ---------------------------------------------------------------------
  // Accounts-driving left join: pd.merge(accounts, employees, on='cpf', how='left')

  function MatchesOf(cpf: string, emps: seq<Employee>): (r: seq<Employee>)
    ensures forall e :: e in r <==> e in emps && e.cpf == cpf
    ensures |r| <= |emps|
  {
    if emps == [] then []
    else (if emps[0].cpf == cpf then [emps[0]] else []) + MatchesOf(cpf, emps[1..])
  }

  function Combine(a: Account, e: Employee): (r: Row)
    requires a.cpf == e.cpf
    ensures FromAccount(r, a) && FromEmployee(r, e)
  {
    Row(a.cpf, e.nome, Some(e.matricula), e.salario, Some(a.banco), Some(a.agencia), Some(a.conta))
  }

  /** The rows one account row contributes: one per roster row with its
      cpf, or one with the employee side missing. */
  function JoinAccount(a: Account, emps: seq<Employee>): (r: seq<Row>)
    ensures |r| >= 1
  {
    var ms := MatchesOf(a.cpf, emps);
    if ms == [] then
      [Row(a.cpf, None, None, None, Some(a.banco), Some(a.agencia), Some(a.conta))]
    else
      seq(|ms|, i requires 0 <= i < |ms| => Combine(a, ms[i]))
  }

  /** Each row an account contributes carries that account's columns, and
      its employee side is a roster row or, when the roster has no row with
      that cpf, missing. */
  lemma JoinAccountRows(a: Account, emps: seq<Employee>)
    ensures forall x :: x in JoinAccount(a, emps) ==> FromAccount(x, a)
    ensures forall x :: x in JoinAccount(a, emps) ==>
              (exists e :: e in emps && FromEmployee(x, e))
              || (NoEmployee(x) && forall e :: e in emps ==> e.cpf != a.cpf)
  {
    var ms := MatchesOf(a.cpf, emps);
    if ms != [] {
      var r := JoinAccount(a, emps);
      forall x | x in r ensures FromAccount(x, a) && exists e :: e in emps && FromEmployee(x, e) {
        var i :| 0 <= i < |ms| && r[i] == x;
        assert ms[i] in ms;
      }
    }
  }

  /** `pd.merge(accounts, employees, on='cpf', how='left')`: the rows of each
      account row, in account order. */
  function JoinAccounts(accts: seq<Account>, emps: seq<Employee>): (r: seq<Row>)
    ensures |r| >= |accts|
  {
    if accts == [] then []
    else JoinAccount(accts[0], emps) + JoinAccounts(accts[1..], emps)
  }

  /** Every account row survives the join (with its own bank columns); every
      joined row comes from an account row; its employee side is a roster row
      with that cpf, or missing when the roster has none. */
  lemma {:induction false} JoinAccountsRows(accts: seq<Account>, emps: seq<Employee>)
    ensures forall a :: a in accts ==> exists x :: x in JoinAccounts(accts, emps) && FromAccount(x, a)
    ensures forall x :: x in JoinAccounts(accts, emps) ==> exists a :: a in accts && FromAccount(x, a)
    ensures forall x :: x in JoinAccounts(accts, emps) ==>
              (exists e :: e in emps && FromEmployee(x, e))
              || (NoEmployee(x) && forall e :: e in emps ==> e.cpf != x.cpf)
    decreases |accts|
  {
    if accts != [] {
      var head := JoinAccount(accts[0], emps);
      var rest := JoinAccounts(accts[1..], emps);
      var r := JoinAccounts(accts, emps);
      assert r == head + rest;
      JoinAccountRows(accts[0], emps);
      JoinAccountsRows(accts[1..], emps);
      assert head[0] in r;
      forall a | a in accts ensures exists x :: x in r && FromAccount(x, a) {
        if a != accts[0] {
          assert a in accts[1..];
          var x :| x in rest && FromAccount(x, a);
          assert x in r;
        }
      }
      forall x | x in r
        ensures exists a :: a in accts && FromAccount(x, a)
        ensures (exists e :: e in emps && FromEmployee(x, e))
                || (NoEmployee(x) && forall e :: e in emps ==> e.cpf != x.cpf)
      {
        if x in head {
          assert FromAccount(x, accts[0]);
        } else {
          assert x in rest;
          var a :| a in accts[1..] && FromAccount(x, a);
          assert a in accts;
        }
      }
    }
  }

  lemma {:induction false} MatchesOfNone(cpf: string, emps: seq<Employee>)
    requires forall e :: e in emps ==> e.cpf != cpf
    ensures MatchesOf(cpf, emps) == []
    decreases |emps|
  {
    if emps != [] {
      MatchesOfNone(cpf, emps[1..]);
    }
  }

  lemma {:induction false} MatchesOfUnique(cpf: string, emps: seq<Employee>)
    requires UniqueCpfs(emps)
    ensures |MatchesOf(cpf, emps)| <= 1
    decreases |emps|
  {
    if emps != [] {
      MatchesOfUnique(cpf, emps[1..]);
      if emps[0].cpf == cpf {
        forall e | e in emps[1..] ensures e.cpf != cpf {
          var k :| 0 <= k < |emps[1..]| && emps[1..][k] == e;
          assert emps[k + 1] == e;
        }
        MatchesOfNone(cpf, emps[1..]);
      }
    }
  }

  lemma JoinAccountUnique(a: Account, emps: seq<Employee>)
    requires UniqueCpfs(emps)
    ensures |JoinAccount(a, emps)| == 1
    ensures forall e :: e in emps && e.cpf == a.cpf ==> FromEmployee(JoinAccount(a, emps)[0], e)
    ensures a.cpf !in Cpfs(emps) ==> NoEmployee(JoinAccount(a, emps)[0])
  {
    var ms := MatchesOf(a.cpf, emps);
    MatchesOfUnique(a.cpf, emps);
    forall e | e in emps && e.cpf == a.cpf ensures FromEmployee(JoinAccount(a, emps)[0], e) {
      assert e in ms;
      assert ms[0] == e;
    }
  }

  lemma {:induction false} JoinAccountsRowForRow(accts: seq<Account>, emps: seq<Employee>)
    requires UniqueCpfs(emps)
    ensures |JoinAccounts(accts, emps)| == |accts|
    ensures forall i :: 0 <= i < |accts| ==> JoinAccounts(accts, emps)[i] == JoinAccount(accts[i], emps)[0]
    decreases |accts|
  {
    if accts != [] {
      JoinAccountUnique(accts[0], emps);
      JoinAccountsRowForRow(accts[1..], emps);
      var head := JoinAccount(accts[0], emps);
      var rest := JoinAccounts(accts[1..], emps);
      var r := JoinAccounts(accts, emps);
      assert r == head + rest && |head| == 1;
      forall i | 1 <= i < |accts| ensures r[i] == JoinAccount(accts[i], emps)[0] {
        assert r[i] == rest[i - 1];
        assert accts[i] == accts[1..][i - 1];
      }
    }
  }

  /** With one roster row per cpf (after clean-up) the join is row for row:
      joined row `i` is account row `i`, plus its employee when there is one. */
  lemma JoinAccountsOneToOne(accts: seq<Account>, emps: seq<Employee>)
    requires UniqueCpfs(emps)
    ensures |JoinAccounts(accts, emps)| == |accts|
    ensures forall i :: 0 <= i < |accts| ==> FromAccount(JoinAccounts(accts, emps)[i], accts[i])
    ensures forall i, e :: 0 <= i < |accts| && e in emps && e.cpf == accts[i].cpf
                           ==> FromEmployee(JoinAccounts(accts, emps)[i], e)
    ensures forall i :: 0 <= i < |accts| && accts[i].cpf !in Cpfs(emps)
                        ==> NoEmployee(JoinAccounts(accts, emps)[i])
  {
    JoinAccountsRowForRow(accts, emps);
    var j := JoinAccounts(accts, emps);
    forall i | 0 <= i < |accts|
      ensures FromAccount(j[i], accts[i])
      ensures forall e :: e in emps && e.cpf == accts[i].cpf ==> FromEmployee(j[i], e)
      ensures accts[i].cpf !in Cpfs(emps) ==> NoEmployee(j[i])
    {
      JoinAccountUnique(accts[i], emps);
    }
  }

  // ---------------------------------------------------------------------
  // Employees-driving left join: pd.merge(employees, accounts, on='cpf', how='left')

  function AccountsOf(cpf: string, accts: seq<Account>): (r: seq<Account>)
    ensures forall a :: a in r <==> a in accts && a.cpf == cpf
  {
    if accts == [] then []
    else (if accts[0].cpf == cpf then [accts[0]] else []) + AccountsOf(cpf, accts[1..])
  }

  /** The rows one roster row contributes: one per account row with its
      cpf, or one with the account side missing. */
  function JoinEmployee(e: Employee, accts: seq<Account>): (r: seq<Row>)
    ensures |r| >= 1
  {
    var ms := AccountsOf(e.cpf, accts);
    if ms == [] then
      [Row(e.cpf, e.nome, Some(e.matricula), e.salario, None, None, None)]
    else
      seq(|ms|, i requires 0 <= i < |ms| => Combine(ms[i], e))
  }

  lemma JoinEmployeeRows(e: Employee, accts: seq<Account>)
    ensures forall x :: x in JoinEmployee(e, accts) ==> FromEmployee(x, e)
    ensures forall x :: x in JoinEmployee(e, accts) ==>
              (exists a :: a in accts && FromAccount(x, a))
              || (NoAccount(x) && forall a :: a in accts ==> a.cpf != e.cpf)
  {
    var ms := AccountsOf(e.cpf, accts);
    if ms != [] {
      var r := JoinEmployee(e, accts);
      forall x | x in r ensures FromEmployee(x, e) && exists a :: a in accts && FromAccount(x, a) {
        var i :| 0 <= i < |ms| && r[i] == x;
        assert ms[i] in ms;
      }
    }
  }

  /** `pd.merge(employees, accounts, on='cpf', how='left')`: the rows of each
      roster row, in roster order. */
  function JoinEmployees(emps: seq<Employee>, accts: seq<Account>): (r: seq<Row>)
    ensures |r| >= |emps|
  {
    if emps == [] then []
    else JoinEmployee(emps[0], accts) + JoinEmployees(emps[1..], accts)
  }

  /** Every roster row survives the join, so nobody is dropped for lacking a
      bank account; every joined row comes from a roster row; the account side
      is an account row with that cpf, or missing when there is none. */
  lemma {:induction false} JoinEmployeesRows(emps: seq<Employee>, accts: seq<Account>)
    ensures forall e :: e in emps ==> exists x :: x in JoinEmployees(emps, accts) && FromEmployee(x, e)
    ensures forall x :: x in JoinEmployees(emps, accts) ==> exists e :: e in emps && FromEmployee(x, e)
    ensures forall x :: x in JoinEmployees(emps, accts) ==>
              (exists a :: a in accts && FromAccount(x, a))
              || (NoAccount(x) && forall a :: a in accts ==> a.cpf != x.cpf)
    decreases |emps|
  {
    if emps != [] {
      var head := JoinEmployee(emps[0], accts);
      var rest := JoinEmployees(emps[1..], accts);
      var r := JoinEmployees(emps, accts);
      assert r == head + rest;
      JoinEmployeeRows(emps[0], accts);
      JoinEmployeesRows(emps[1..], accts);
      assert head[0] in r;
      forall e | e in emps ensures exists x :: x in r && FromEmployee(x, e) {
        if e != emps[0] {
          assert e in emps[1..];
          var x :| x in rest && FromEmployee(x, e);
          assert x in r;
        }
      }
      forall x | x in r
        ensures exists e :: e in emps && FromEmployee(x, e)
        ensures (exists a :: a in accts && FromAccount(x, a))
                || (NoAccount(x) && forall a :: a in accts ==> a.cpf != x.cpf)
      {
        if x in head {
          assert FromEmployee(x, emps[0]);
        } else {
          assert x in rest;
          var e :| e in emps[1..] && FromEmployee(x, e);
          assert e in emps;
        }
      }
    }
  }

  // ---------------------------------------------------------------------
  // Final ordering: sort_values(by='nome', ascending=True, na_position='last')

  predicate NameLe(a: Row, b: Row) {
    match (a.nome, b.nome)
    case (Some(x), Some(y)) => StrLe(x, y)
    case (Some(_), None) => true
    case (None, Some(_)) => false
    case (None, None) => true
  }

  lemma NameOrderIsTotal()
    ensures Sorting.TotalPreorder(NameLe)
  {
    forall a, b ensures NameLe(a, b) || NameLe(b, a) {
      if a.nome.Some? && b.nome.Some? {
        StrLeTotal(a.nome.value, b.nome.value);
      }
    }
    forall a, b, c | NameLe(a, b) && NameLe(b, c) ensures NameLe(a, c) {
      if a.nome.Some? && b.nome.Some? && c.nome.Some? {
        StrLeTransitive(a.nome.value, b.nome.value, c.nome.value);
      }
    }
  }

  /** Ascending by name with the rows whose name is missing at the end, and
      a permutation of the input: no row lost or duplicated. */
  function SortByName(rows: seq<Row>): (r: seq<Row>)
    ensures multiset(r) == multiset(rows)
    ensures forall i, j :: 0 <= i < j < |r| && r[i].nome.None? ==> r[j].nome.None?
    ensures forall i, j :: 0 <= i < j < |r| && r[i].nome.Some? && r[j].nome.Some?
                           ==> StrLe(r[i].nome.value, r[j].nome.value)
  {
    NameOrderIsTotal();
    var s := Sorting.Sort(rows, NameLe);
    assert forall i, j :: 0 <= i < j < |s| ==> NameLe(s[i], s[j]);
    s
  }

  /** What a permutation keeps: every row of the input is in the output and
      nothing else is. */
  lemma SameRows(a: seq<Row>, b: seq<Row>)
    requires multiset(a) == multiset(b)
    ensures |a| == |b|
    ensures forall x :: x in a <==> x in b
  {
    assert |multiset(a)| == |multiset(b)|;
    forall x ensures x in a <==> x in b {
      assert x in a <==> x in multiset(a);
      assert x in b <==> x in multiset(b);
    }
  }

  // ---------------------------------------------------------------------
  // The pipelines built from these steps

  /** Clean-up then the accounts-driving join, in merge order (no sort). */
  function MergedRows(emps: seq<Employee>, accts: seq<Account>): seq<Row> {
    JoinAccounts(accts, Deduplicate(emps))
  }

  /** One joined row per account row, in account order: row `i` carries
      account row `i`; its employee side is missing exactly when the roster
      has no row with that cpf, and otherwise is a roster row of that cpf
      carrying its greatest registration. */
  lemma MergedRowsFollowAccounts(emps: seq<Employee>, accts: seq<Account>)
    ensures |MergedRows(emps, accts)| == |accts|
    ensures forall i :: 0 <= i < |accts| ==> FromAccount(MergedRows(emps, accts)[i], accts[i])
    ensures forall i :: 0 <= i < |accts| && accts[i].cpf !in Cpfs(emps) ==> NoEmployee(MergedRows(emps, accts)[i])
    ensures forall i :: 0 <= i < |accts| && accts[i].cpf in Cpfs(emps) ==>
              exists d :: d in emps && FromEmployee(MergedRows(emps, accts)[i], d)
    ensures forall i, e :: 0 <= i < |accts| && e in emps && e.cpf == accts[i].cpf ==>
              MergedRows(emps, accts)[i].matricula.Some?
              && MergedRows(emps, accts)[i].matricula.value >= e.matricula
  {
    var clean := Deduplicate(emps);
    DeduplicateKeepsGreatestRegistration(emps);
    JoinAccountsOneToOne(accts, clean);
    var m := MergedRows(emps, accts);
    forall i, e | 0 <= i < |accts| && e in emps && e.cpf == accts[i].cpf
      ensures m[i].matricula.Some? && m[i].matricula.value >= e.matricula
    {
      assert e.cpf in Cpfs(emps);
      var d :| d in clean && d.cpf == e.cpf;
      assert FromEmployee(m[i], d);
    }
    forall i | 0 <= i < |accts| && accts[i].cpf in Cpfs(emps)
      ensures exists d :: d in emps && FromEmployee(m[i], d)
    {
      var d :| d in clean && d.cpf == accts[i].cpf;
      assert d in emps && FromEmployee(m[i], d);
    }
  }

  /** Clean-up, the accounts-driving join, then the sort by name. */
  function SortedRows(emps: seq<Employee>, accts: seq<Account>): seq<Row> {
    SortByName(MergedRows(emps, accts))
  }

  /** One row per account row, every account row present, one roster row
      (the greatest registration) per cpf, ordered by name with missing names
      last. */
  lemma SortedRowsKeepEveryAccount(emps: seq<Employee>, accts: seq<Account>)
    ensures |SortedRows(emps, accts)| == |accts|
    ensures forall a :: a in accts ==> exists r :: r in SortedRows(emps, accts) && FromAccount(r, a)
    ensures forall r, e :: r in SortedRows(emps, accts) && e in emps && e.cpf == r.cpf && r.matricula.Some?
                           ==> r.matricula.value >= e.matricula
  {
    var clean := Deduplicate(emps);
    DeduplicateKeepsGreatestRegistration(emps);
    JoinAccountsOneToOne(accts, clean);
    var joined := MergedRows(emps, accts);
    SameRows(SortedRows(emps, accts), joined);
    forall a | a in accts ensures exists r :: r in SortedRows(emps, accts) && FromAccount(r, a) {
      var i :| 0 <= i < |accts| && accts[i] == a;
      assert joined[i] in joined;
    }
    forall r, e | r in SortedRows(emps, accts) && e in emps && e.cpf == r.cpf && r.matricula.Some?
      ensures r.matricula.value >= e.matricula
    {
      assert r in joined;
      var i :| 0 <= i < |joined| && joined[i] == r;
      if accts[i].cpf in Cpfs(clean) {
        var d :| d in clean && d.cpf == accts[i].cpf;
        assert FromEmployee(r, d);
      }
    }
  }

  /** Every roster row with an account's cpf is combined with that account:
      the merge fans out instead of choosing one roster row. */
  lemma JoinAccountHasMatch(a: Account, e: Employee, emps: seq<Employee>)
    requires e in emps && e.cpf == a.cpf
    ensures Combine(a, e) in JoinAccount(a, emps)
  {
    var ms := MatchesOf(a.cpf, emps);
    assert e in ms;
    var i :| 0 <= i < |ms| && ms[i] == e;
    assert JoinAccount(a, emps)[i] == Combine(a, e);
  }

  lemma {:induction false} JoinAccountsHasEveryMatch(accts: seq<Account>, emps: seq<Employee>)
    ensures forall a, e :: a in accts && e in emps && e.cpf == a.cpf ==> Combine(a, e) in JoinAccounts(accts, emps)
    decreases |accts|
  {
    if accts != [] {
      JoinAccountsHasEveryMatch(accts[1..], emps);
      assert JoinAccounts(accts, emps) == JoinAccount(accts[0], emps) + JoinAccounts(accts[1..], emps);
      forall a, e | a in accts && e in emps && e.cpf == a.cpf
        ensures Combine(a, e) in JoinAccounts(accts, emps)
      {
        if a == accts[0] {
          JoinAccountHasMatch(a, e, emps);
        } else {
          assert a in accts[1..];
        }
      }
    }
  }

  /** No clean-up, the accounts-driving join, then the sort by name: the
      pipeline with duplicate removal switched off. */
  function AllMatchRows(emps: seq<Employee>, accts: seq<Account>): seq<Row> {
    SortByName(JoinAccounts(accts, PrepareEmployees(emps, false)))
  }

  /** With duplicate removal off, every account row is present, every row
      comes from an account row, and every pairing of an account with a
      roster row of the same cpf gets its own row: a cpf with two
      registrations gives two rows for one account. A row whose employee side
      is missing has no roster row with its cpf. */
  lemma AllMatchRowsKeepEveryPair(emps: seq<Employee>, accts: seq<Account>)
    ensures |AllMatchRows(emps, accts)| >= |accts|
    ensures forall a :: a in accts ==> exists r :: r in AllMatchRows(emps, accts) && FromAccount(r, a)
    ensures forall r :: r in AllMatchRows(emps, accts) ==> exists a :: a in accts && FromAccount(r, a)
    ensures forall a, e :: a in accts && e in emps && e.cpf == a.cpf ==> Combine(a, e) in AllMatchRows(emps, accts)
    ensures forall r :: r in AllMatchRows(emps, accts) && r.nome.None? && r.matricula.None? ==> r.cpf !in Cpfs(emps)
  {
    var sorted := SortByRegistration(emps);
    var joined := JoinAccounts(accts, sorted);
    assert forall e :: e in sorted <==> e in emps by {
      forall e ensures e in sorted <==> e in emps {
        assert e in sorted <==> e in multiset(sorted);
        assert e in emps <==> e in multiset(emps);
      }
    }
    JoinAccountsRows(accts, sorted);
    JoinAccountsHasEveryMatch(accts, sorted);
    SameRows(AllMatchRows(emps, accts), joined);
    forall r | r in AllMatchRows(emps, accts) && r.nome.None? && r.matricula.None?
      ensures r.cpf !in Cpfs(emps)
    {
      assert r in joined;
      assert forall e :: FromEmployee(r, e) ==> r.matricula.Some?;
      assert forall e :: e in sorted ==> e.cpf != r.cpf;
    }
  }

  // ---------------------------------------------------------------------
  // The employees-driving pipeline: merge(employees, accounts, how='left'),
  // then the missing bank columns filled with "0"

  /** `fillna('0')` on one cell. */
  function FillCell(c: Option<string>): Option<string> {
    if c.None? then Some("0") else c
  }

  /** The three bank columns of a row after `fillna('0')`. */
  function FillBank(r: Row): Row {
    r.(banco := FillCell(r.banco), agencia := FillCell(r.agencia), conta := FillCell(r.conta))
  }

  /** After the fill no bank column is missing; a present value is kept, a
      missing one becomes "0", and the employee side is untouched. */
  lemma FillBankShape(r: Row)
    ensures FillBank(r).banco.Some? && FillBank(r).agencia.Some? && FillBank(r).conta.Some?
    ensures r.conta.Some? ==> FillBank(r).conta == r.conta
    ensures r.conta.None? ==> FillBank(r).conta == Some("0")
    ensures r.banco.Some? ==> FillBank(r).banco == r.banco
    ensures r.agencia.Some? ==> FillBank(r).agencia == r.agencia
    ensures NoAccount(r) ==> FillBank(r).banco == FillBank(r).agencia == FillBank(r).conta == Some("0")
    ensures FillBank(r).cpf == r.cpf && FillBank(r).nome == r.nome
    ensures FillBank(r).matricula == r.matricula && FillBank(r).salario == r.salario
  {
  }

  function FillAll(rows: seq<Row>): (r: seq<Row>)
    ensures |r| == |rows|
  {
    seq(|rows|, i requires 0 <= i < |rows| => FillBank(rows[i]))
  }

  /** The filled rows are exactly the fills of the joined rows. */
  lemma FillAllRows(rows: seq<Row>)
    ensures forall x :: x in rows ==> FillBank(x) in FillAll(rows)
    ensures forall r :: r in FillAll(rows) ==> exists x :: x in rows && r == FillBank(x)
  {
    forall x | x in rows ensures FillBank(x) in FillAll(rows) {
      var i :| 0 <= i < |rows| && rows[i] == x;
      assert FillAll(rows)[i] == FillBank(x);
    }
    forall r | r in FillAll(rows) ensures exists x :: x in rows && r == FillBank(x) {
      var i :| 0 <= i < |rows| && FillAll(rows)[i] == r;
      assert rows[i] in rows;
    }
  }

  /** The employees-driving join then the fill: every roster row is
      carried by a filled row, every filled row carries a roster row and has
      all three bank columns, "0" in each when no account has its cpf. */
  lemma {:induction false} FilledJoinRows(emps: seq<Employee>, accts: seq<Account>)
    ensures forall e :: e in emps ==> exists r :: r in FillAll(JoinEmployees(emps, accts)) && FromEmployee(r, e)
    ensures forall r :: r in FillAll(JoinEmployees(emps, accts)) ==>
              (exists e :: e in emps && FromEmployee(r, e)) && r.banco.Some? && r.agencia.Some? && r.conta.Some?
    ensures forall r :: r in FillAll(JoinEmployees(emps, accts)) && (forall a :: a in accts ==> a.cpf != r.cpf)
              ==> r.banco == r.agencia == r.conta == Some("0")
  {
    var joined := JoinEmployees(emps, accts);
    var filled := FillAll(joined);
    JoinEmployeesRows(emps, accts);
    FillAllRows(joined);
    forall e | e in emps ensures exists r :: r in filled && FromEmployee(r, e) {
      var x :| x in joined && FromEmployee(x, e);
      assert FromEmployee(FillBank(x), e);
    }
    forall r | r in filled
      ensures (exists e :: e in emps && FromEmployee(r, e)) && r.banco.Some? && r.agencia.Some? && r.conta.Some?
      ensures (forall a :: a in accts ==> a.cpf != r.cpf) ==> r.banco == r.agencia == r.conta == Some("0")
    {
      var x :| x in joined && r == FillBank(x);
      FillBankShape(x);
      var e :| e in emps && FromEmployee(x, e);
      assert FromEmployee(r, e);
      assert (forall a :: a in accts ==> a.cpf != r.cpf) ==> !(exists a :: a in accts && FromAccount(x, a));
    }
  }

  /** The roster sorted by registration, the employees-driving join, the fill
      of missing bank columns, then the sort by name. */
  function EmployeeRows(emps: seq<Employee>, accts: seq<Account>): seq<Row> {
    SortByName(FillAll(JoinEmployees(PrepareEmployees(emps, false), accts)))
  }

  /** Nobody on the roster is dropped for lacking an account: every roster
      row has a row carrying it; every row carries a roster row; no bank
      column is missing after the fill; and a row whose cpf has no account
      gets "0" in all three bank columns. */
  lemma EmployeeRowsKeepEveryEmployee(emps: seq<Employee>, accts: seq<Account>)
    ensures |EmployeeRows(emps, accts)| >= |emps|
    ensures forall e :: e in emps ==> exists r :: r in EmployeeRows(emps, accts) && FromEmployee(r, e)
    ensures forall r :: r in EmployeeRows(emps, accts) ==> exists e :: e in emps && FromEmployee(r, e)
    ensures forall r :: r in EmployeeRows(emps, accts) ==> r.banco.Some? && r.agencia.Some? && r.conta.Some?
    ensures forall r :: r in EmployeeRows(emps, accts) && (forall a :: a in accts ==> a.cpf != r.cpf)
              ==> r.banco == r.agencia == r.conta == Some("0")
  {
    var sorted := SortByRegistration(emps);
    var filled := FillAll(JoinEmployees(sorted, accts));
    assert forall e :: e in sorted <==> e in emps by {
      forall e ensures e in sorted <==> e in emps {
        assert e in sorted <==> e in multiset(sorted);
        assert e in emps <==> e in multiset(emps);
      }
    }
    FilledJoinRows(sorted, accts);
    SameRows(EmployeeRows(emps, accts), filled);
  }
}
