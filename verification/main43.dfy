/** main4.3.py: the employees-driving desktop version. The roster (sorted by
    registration, duplicates kept) is the left side of the join, so nobody on
    it is dropped for lacking an account; the bank columns a missing account
    leaves empty are filled with "0"; the rows are sorted by name. Each line
    takes the bank values stripped of surrounding whitespace, and the
    override when the stripped account is "0" or begins with 38 or 39. The
    line itself is main4.py's, with the payment date given by the caller. */
module MainV43 {
  import opened Wrappers
  import opened Text
  import opened Table
  import opened Legacy
  import Eligibility
  import MainV4

  /** `df[col].fillna('0')` on one row; a column that is not a bank column
      is left alone. */
  function FillColumn(r: Row, col: string): Row {
    if col == "banco" then r.(banco := FillCell(r.banco))
    else if col == "agencia" then r.(agencia := FillCell(r.agencia))
    else if col == "conta" then r.(conta := FillCell(r.conta))
    else r
  }

  /** The fill loop: for each bank column in turn, every missing value of
      that column becomes "0". */
  method FillBankColumns(rows: seq<Row>) returns (filled: seq<Row>)
    ensures |filled| == |rows|
    ensures forall i :: 0 <= i < |rows| ==> filled[i] == FillBank(rows[i])
  {
    filled := rows;
    for c := 0 to |BankColumns|
      invariant |filled| == |rows|
      invariant c == 0 ==> filled == rows
      invariant c == 1 ==> forall i :: 0 <= i < |rows| ==> filled[i] == rows[i].(banco := FillCell(rows[i].banco))
      invariant c == 2 ==> forall i :: 0 <= i < |rows| ==>
                  filled[i] == rows[i].(banco := FillCell(rows[i].banco), agencia := FillCell(rows[i].agencia))
      invariant c == 3 ==> forall i :: 0 <= i < |rows| ==> filled[i] == FillBank(rows[i])
    {
      var col := BankColumns[c];
      filled := seq(|filled|, i requires 0 <= i < |filled| => FillColumn(filled[i], col));
    }
  }

  /** Bank, branch and account as written before padding: the override
      triplet when the stripped account is the fill value "0" or is excluded,
      otherwise the stripped values. */
  function BankValues(row: Row): (string, string, string) {
    if Eligibility.DecideBySentinel(CellText(row.conta)) == Eligibility.UseOverride
    then ("041", "0000", "0000000000")
    else (Strip(CellText(row.banco)), Strip(CellText(row.agencia)), Strip(CellText(row.conta)))
  }

  /** The values of a filled row: the name as text (a missing name is
      written "nan"), the registration, the salary (0 when missing). */
  function ValuesOf(row: Row): MainV4.Values {
    var (banco, agencia, conta) := BankValues(row);
    MainV4.Values(CellText(row.nome), row.cpf, banco, agencia, conta,
                  NumberText(row.matricula), row.salario.GetOr(0))
  }

  function Line(row: Row, date: string): string {
    MainV4.FormatLine(ValuesOf(row), date)
  }

  /** A row whose account is the fill value "0" gets the override. */
  lemma SentinelOverride(row: Row)
    requires row.conta == Some("0")
    ensures BankValues(row) == ("041", "0000", "0000000000")
  {
    assert StripLeft("0") == "0";
    assert StripRight("0") == "0";
  }

  /** An employee without an account is written with bank 041, branch 0000
      and account 0000000000: the fill puts "0" in the account, and "0" is
      the override sentinel. */
  lemma MissingAccountOverride(row: Row)
    requires row.conta.None?
    ensures BankValues(FillBank(row)) == ("041", "0000", "0000000000")
  {
    SentinelOverride(FillBank(row));
  }

  /** The override is taken exactly when the stripped account is "0" or
      begins with 38 or 39; otherwise the bank, branch and account slots end
      with the stripped values, so whitespace around them is not written. */
  lemma OverrideRule(row: Row, date: string)
    ensures Eligibility.DecideBySentinel(CellText(row.conta)) == Eligibility.UseOverride <==>
              Strip(CellText(row.conta)) == "0" || Eligibility.ExcludedAccount(CellText(row.conta))
    ensures Eligibility.DecideBySentinel(CellText(row.conta)) == Eligibility.UseOverride ==>
              BankValues(row) == ("041", "0000", "0000000000")
    ensures Eligibility.DecideBySentinel(CellText(row.conta)) == Eligibility.UseOriginal ==>
              var r := MainV4.RecordOf(ValuesOf(row), date);
              var banco, agencia, conta := Strip(CellText(row.banco)), Strip(CellText(row.agencia)), Strip(CellText(row.conta));
              && r.banco[|r.banco| - |banco|..] == banco
              && r.agencia[|r.agencia| - |agencia|..] == agencia
              && r.conta[|r.conta| - |conta|..] == conta
  {
    Eligibility.ExcludedAccountChars(CellText(row.conta));
    RjustShape(Strip(CellText(row.banco)), 3, '0');
    RjustShape(Strip(CellText(row.agencia)), 4, '0');
    RjustShape(Strip(CellText(row.conta)), 10, '0');
  }

  /** The script's pipeline with the fill done by the loop. */
  method Rows(emps: seq<Employee>, accts: seq<Account>) returns (rows: seq<Row>)
    ensures rows == EmployeeRows(emps, accts)
  {
    var ordered := SortByRegistration(emps);
    var joined := JoinEmployees(ordered, accts);
    var filled := FillBankColumns(joined);
    assert filled == FillAll(joined);
    rows := SortByName(filled);
  }

  /** `processar_arquivos` with the payment date chosen by the user: at
      least one line per roster row, one per filled row in name order. */
  method Process(emps: seq<Employee>, accts: seq<Account>, date: string) returns (lines: seq<string>)
    ensures |lines| == |EmployeeRows(emps, accts)| >= |emps|
    ensures forall i :: 0 <= i < |lines| ==> lines[i] == Line(EmployeeRows(emps, accts)[i], date)
  {
    EmployeeRowsKeepEveryEmployee(emps, accts);
    var rows := Rows(emps, accts);
    lines := WriteLines(rows, (r: Row) => Line(r, date));
  }

  /** Every roster row is written, and a roster row whose cpf has no
      account is written with the override triplet. */
  lemma EveryEmployeeWritten(emps: seq<Employee>, accts: seq<Account>, e: Employee)
    requires e in emps
    ensures exists r :: r in EmployeeRows(emps, accts) && FromEmployee(r, e)
    ensures (forall a :: a in accts ==> a.cpf != e.cpf) ==>
              forall r :: r in EmployeeRows(emps, accts) && r.cpf == e.cpf ==>
                BankValues(r) == ("041", "0000", "0000000000")
  {
    EmployeeRowsKeepEveryEmployee(emps, accts);
    forall r | r in EmployeeRows(emps, accts) && r.cpf == e.cpf && (forall a :: a in accts ==> a.cpf != e.cpf)
      ensures BankValues(r) == ("041", "0000", "0000000000")
    {
      SentinelOverride(r);
    }
  }
}
